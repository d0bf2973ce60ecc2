/** How a log file is cut into lines: the raw chunks that `bufio.Reader.ReadBytes('\n')` hands out, the
    tokens that `bufio.Scanner` makes of them, and the two ways of spending a line and a byte budget on
    them (greedily from the front, or as a suffix). */
module LogLines {

  newtype byte = b: int | 0 <= b < 256
  type Bytes = seq<byte>

  const NL: byte := 10
  const CR: byte := 13
  /** The scanner's buffer limit: a line of this many bytes, its newline not counted, is too long. */
  const MAX_TOKEN: nat := 1024 * 1024

  /** The end of the line that starts at `o`: just after its newline, or the end of the file. */
  function LineEnd(f: Bytes, o: nat): (e: nat)
    requires o < |f|
    ensures o < e <= |f|
    ensures forall k :: o <= k < e - 1 ==> f[k] != NL
    ensures f[e - 1] == NL || e == |f|
    decreases |f| - o
  {
    if f[o] == NL || o + 1 == |f| then o + 1 else LineEnd(f, o + 1)
  }

  /** The raw lines of the file from offset `o` on, newlines included. */
  function Chunks(f: Bytes, o: nat): (cs: seq<Bytes>)
    requires o <= |f|
    decreases |f| - o
  {
    if o == |f| then [] else
      var e := LineEnd(f, o);
      [f[o..e]] + Chunks(f, e)
  }

  function Concat(cs: seq<Bytes>): Bytes {
    if cs == [] then [] else cs[0] + Concat(cs[1..])
  }

  function Total(cs: seq<Bytes>): nat {
    if cs == [] then 0 else |cs[0]| + Total(cs[1..])
  }

  predicate Terminated(c: Bytes) {
    c != [] && c[|c| - 1] == NL
  }

  /** A raw line: not empty, and a newline nowhere but at its end. */
  predicate IsChunk(c: Bytes) {
    c != [] && forall k :: 0 <= k < |c| - 1 ==> c[k] != NL
  }

  ghost predicate AllChunks(cs: seq<Bytes>) {
    forall i :: 0 <= i < |cs| ==> IsChunk(cs[i])
  }

  ghost predicate TerminatedButLast(cs: seq<Bytes>) {
    forall i :: 0 <= i < |cs| - 1 ==> Terminated(cs[i])
  }

  // ---- Cutting and gluing are inverse to each other ----

  lemma {:induction false} ChunksGlue(f: Bytes, o: nat)
    requires o <= |f|
    ensures Concat(Chunks(f, o)) == f[o..]
    ensures AllChunks(Chunks(f, o))
    ensures TerminatedButLast(Chunks(f, o))
    decreases |f| - o
  {
    hide IsChunk, Terminated, Chunks, Concat, AllChunks, TerminatedButLast;
    CutStep(f, o);
    if o < |f| {
      var e := LineEnd(f, o);
      ChunksGlue(f, e);
      CutStep(f, e);
      FirstChunk(f, o);
      GlueStep(f[o..e], Chunks(f, e));
      PiecesStep(f[o..e], Chunks(f, e));
      assert f[o..] == f[o..e] + f[e..];
    } else {
      GlueNone();
      PiecesNone();
      assert f[o..] == [];
    }
  }

  lemma CutStep(f: Bytes, o: nat)
    requires o <= |f|
    ensures Chunks(f, o) == if o == |f| then [] else [f[o..LineEnd(f, o)]] + Chunks(f, LineEnd(f, o))
  {}

  lemma PiecesStep(c: Bytes, cs: seq<Bytes>)
    requires IsChunk(c) && AllChunks(cs) && TerminatedButLast(cs) && (Terminated(c) || cs == [])
    ensures AllChunks([c] + cs) && TerminatedButLast([c] + cs)
  {
    hide IsChunk, Terminated;
    assert forall i :: 0 < i < |[c] + cs| ==> ([c] + cs)[i] == cs[i - 1];
  }

  lemma PiecesNone()
    ensures AllChunks([]) && TerminatedButLast([])
  {}

  lemma GlueStep(c: Bytes, cs: seq<Bytes>)
    ensures Concat([c] + cs) == c + Concat(cs)
    ensures Total([c] + cs) == |c| + Total(cs)
  {
    assert ([c] + cs)[1..] == cs;
  }

  lemma GlueNone()
    ensures Concat([]) == [] && Total([]) == 0
  {}

  lemma FirstChunk(f: Bytes, o: nat)
    requires o < |f|
    ensures var e := LineEnd(f, o); IsChunk(f[o..e]) && (Terminated(f[o..e]) || e == |f|)
  {}

  lemma {:induction false} ConcatAppend(a: seq<Bytes>, b: seq<Bytes>)
    ensures Concat(a + b) == Concat(a) + Concat(b)
    ensures Total(a + b) == Total(a) + Total(b)
  {
    if a == [] {
      assert a + b == b;
    } else {
      assert (a + b)[1..] == a[1..] + b;
      ConcatAppend(a[1..], b);
    }
  }

  lemma {:induction false} TotalIsLength(cs: seq<Bytes>)
    ensures |Concat(cs)| == Total(cs)
  {
    if cs != [] { TotalIsLength(cs[1..]); }
  }

  /** The line end depends only on the bytes from the start of the line to its newline. */
  lemma {:induction false} LineEndUnique(f: Bytes, o: nat, e: nat)
    requires o < e <= |f|
    requires forall k :: o <= k < e - 1 ==> f[k] != NL
    requires f[e - 1] == NL || e == |f|
    ensures LineEnd(f, o) == e
    decreases e - o
  {
    if o + 1 < e { LineEndUnique(f, o + 1, e); }
  }

  lemma LineEndShift(f: Bytes, o: nat, p: nat)
    requires o + p < |f|
    ensures LineEnd(f, o + p) == o + LineEnd(f[o..], p)
  {
    hide LineEnd;
    var g := f[o..];
    var e := LineEnd(g, p);
    forall k | o + p <= k < o + e ensures f[k] == g[k - o] {}
    LineEndUnique(f, o + p, o + e);
  }

  /** Cutting a file at `o` is cutting what is left of it from its start. */
  lemma {:induction false} ChunksShift(f: Bytes, o: nat, p: nat)
    requires o + p <= |f|
    ensures Chunks(f, o + p) == Chunks(f[o..], p)
    decreases |f| - p
  {
    hide Chunks, LineEnd;
    CutStep(f, o + p);
    CutStep(f[o..], p);
    if o + p < |f| {
      LineEndShift(f, o, p);
      var e := LineEnd(f[o..], p);
      assert f[o..][p..e] == f[o + p..o + e];
      ChunksShift(f, o, e);
    }
  }

  /** A terminated line at the front is always cut off first. */
  lemma {:induction false} CutFirst(c: Bytes, rest: Bytes)
    requires IsChunk(c) && (Terminated(c) || rest == [])
    ensures Chunks(c + rest, 0) == [c] + Chunks(rest, 0)
  {
    hide Chunks;
    var f := c + rest;
    assert forall k :: 0 <= k < |c| ==> f[k] == c[k];
    LineEndUnique(f, 0, |c|);
    CutStep(f, 0);
    assert f[0..|c|] == c;
    ChunksShift(f, |c|, 0);
    assert f[|c|..] == rest;
  }

  lemma {:induction false} CutGlued(cs: seq<Bytes>)
    requires AllChunks(cs) && TerminatedButLast(cs)
    ensures Chunks(Concat(cs), 0) == cs
  {
    if cs != [] {
      CutGlued(cs[1..]);
      assert |cs| > 1 ==> Terminated(cs[0]);
      CutFirst(cs[0], Concat(cs[1..]));
    }
  }

  /** An unterminated piece in front of more bytes is swallowed by the line that follows. */
  lemma {:induction false} CutSwallows(c: Bytes, rest: Bytes)
    requires IsChunk(c) && !Terminated(c) && rest != []
    ensures |Chunks(c + rest, 0)| == |Chunks(rest, 0)|
  {
    hide Chunks;
    var f := c + rest;
    var e := LineEnd(rest, 0);
    assert forall k :: 0 <= k < |c| ==> f[k] == c[k] && f[k] != NL;
    assert forall k :: |c| <= k < |f| ==> f[k] == rest[k - |c|];
    LineEndUnique(f, 0, |c| + e);
    ChunksShift(f, |c|, e);
    assert f[|c|..] == rest;
    assert Chunks(f, |c| + e) == Chunks(rest, e);
    CutStep(f, 0);
    CutStep(rest, 0);
  }

  lemma {:induction false} CutNeverMore(cs: seq<Bytes>)
    requires AllChunks(cs)
    ensures |Chunks(Concat(cs), 0)| <= |cs|
  {
    if cs != [] {
      var rest := Concat(cs[1..]);
      CutNeverMore(cs[1..]);
      if Terminated(cs[0]) || rest == [] { CutFirst(cs[0], rest); } else { CutSwallows(cs[0], rest); }
    }
  }

  lemma {:induction false} ConcatNonEmpty(cs: seq<Bytes>)
    requires AllChunks(cs) && cs != []
    ensures Concat(cs) != []
  {
    assert IsChunk(cs[0]);
  }

  lemma {:induction false} CutFewer(cs: seq<Bytes>)
    requires AllChunks(cs) && !TerminatedButLast(cs)
    ensures |Chunks(Concat(cs), 0)| < |cs|
  {
    var rest := Concat(cs[1..]);
    ConcatNonEmpty(cs[1..]);
    if Terminated(cs[0]) {
      assert !TerminatedButLast(cs[1..]) by {
        var i :| 0 <= i < |cs| - 1 && !Terminated(cs[i]);
        assert i > 0 && !Terminated(cs[1..][i - 1]);
      }
      CutFewer(cs[1..]);
      CutFirst(cs[0], rest);
    } else {
      CutNeverMore(cs[1..]);
      CutSwallows(cs[0], rest);
    }
  }

  /** Pieces that were read one after the other are the lines of the bytes they make up if and only if
      every piece but the last ends in a newline; and a piece cut short is noticed by the count alone. */
  lemma CutGluedIff(cs: seq<Bytes>)
    requires AllChunks(cs)
    ensures Chunks(Concat(cs), 0) == cs <==> TerminatedButLast(cs)
    ensures |Chunks(Concat(cs), 0)| == |cs| <==> TerminatedButLast(cs)
  {
    if TerminatedButLast(cs) { CutGlued(cs); } else { CutFewer(cs); }
  }

  lemma PrefixStep(c: Bytes, cs: seq<Bytes>, n: nat)
    requires 1 <= n <= |cs| + 1
    ensures ([c] + cs)[..n] == [c] + cs[..n - 1]
    ensures ([c] + cs)[n..] == cs[n - 1..]
  {}

  /** The lines of the file up to `p`, where a line starts at `p` or the file ends. */
  lemma {:induction false} ChunksSplit(f: Bytes, o: nat, n: nat)
    requires o <= |f| && n <= |Chunks(f, o)|
    ensures o + Total(Chunks(f, o)[..n]) <= |f|
    ensures Chunks(f, o + Total(Chunks(f, o)[..n])) == Chunks(f, o)[n..]
    ensures Concat(Chunks(f, o)[..n]) == f[o..o + Total(Chunks(f, o)[..n])]
    decreases n
  {
    hide Chunks, Concat, Total;
    var cs := Chunks(f, o);
    CutStep(f, o);
    if n > 0 {
      var e := LineEnd(f, o);
      ChunksSplit(f, e, n - 1);
      var tail := Chunks(f, e);
      PrefixStep(f[o..e], tail, n);
      GlueStep(cs[0], tail[..n - 1]);
      var p := e + Total(tail[..n - 1]);
      assert f[o..p] == f[o..e] + f[e..p];
    } else {
      assert cs[..0] == [];
      assert cs[0..] == cs;
      GlueNone();
    }
  }

  // ---- Budgets ----

  /** The first `m` lines are within both budgets. */
  predicate PrefixFits(cs: seq<Bytes>, m: nat, maxLines: nat, maxBytes: int)
    requires m <= |cs|
  {
    m <= maxLines && Total(cs[..m]) <= maxBytes
  }

  /** How many lines a reader that spends its budgets from the front takes. */
  function Greedy(cs: seq<Bytes>, maxLines: nat, maxBytes: int): (n: nat)
    ensures n <= |cs| && n <= maxLines
  {
    if cs == [] || maxLines == 0 || |cs[0]| > maxBytes then 0
    else 1 + Greedy(cs[1..], maxLines - 1, maxBytes - |cs[0]|)
  }

  /** Greedy is optimal: a prefix is within both budgets if and only if it is no longer than the greedy one. */
  lemma {:induction false} GreedyIsLongest(cs: seq<Bytes>, maxLines: nat, maxBytes: nat, m: nat)
    requires m <= |cs|
    ensures PrefixFits(cs, m, maxLines, maxBytes) <==> m <= Greedy(cs, maxLines, maxBytes)
  {
    assert cs[..0] == [];
    if m > 0 {
      assert cs[..m][0] == cs[0] && cs[..m][1..] == cs[1..][..m - 1];
      if maxLines > 0 && |cs[0]| <= maxBytes {
        GreedyIsLongest(cs[1..], maxLines - 1, maxBytes - |cs[0]|, m - 1);
      }
    }
  }

  /** A suffix of the window is within both budgets. */
  predicate SuffixFits(w: seq<Line>, i: nat, maxLines: nat, maxBytes: int)
    requires i <= |w|
  {
    |w| - i <= maxLines && Sizes(w[i..]) <= maxBytes
  }

  /** A token of the scanner with the size the tail reader charges for it. */
  datatype Line = Line(text: Bytes, size: nat)

  function Sizes(w: seq<Line>): nat {
    if w == [] then 0 else w[0].size + Sizes(w[1..])
  }

  lemma {:induction false} SizesDrop(w: seq<Line>, i: nat, j: nat)
    requires i <= j <= |w|
    ensures Sizes(w[j..]) <= Sizes(w[i..])
    decreases j - i
  {
    if i < j {
      SizesDrop(w, i + 1, j);
      assert w[i..][1..] == w[i + 1..];
    }
  }

  /** Where the longest suffix within both budgets starts. */
  function TailStart(w: seq<Line>, maxLines: nat, maxBytes: nat): (i: nat)
    ensures i <= |w|
    ensures forall j: nat :: j <= |w| ==> (SuffixFits(w, j, maxLines, maxBytes) <==> i <= j)
  {
    if SuffixFits(w, 0, maxLines, maxBytes) then
      assert forall j: nat :: j <= |w| ==> SuffixFits(w, j, maxLines, maxBytes) by {
        forall j: nat | j <= |w| ensures SuffixFits(w, j, maxLines, maxBytes) { SizesDrop(w, 0, j); }
      }
      0
    else
      assert w != [];
      var i' := TailStart(w[1..], maxLines, maxBytes);
      assert forall j: nat :: 0 < j <= |w| ==> w[1..][j - 1..] == w[j..];
      assert forall j: nat :: 0 < j <= |w| ==>
        (SuffixFits(w, j, maxLines, maxBytes) <==> SuffixFits(w[1..], j - 1, maxLines, maxBytes));
      1 + i'
  }

  /** The last `n` elements, or all of them. */
  function LastN<T>(s: seq<T>, n: nat): seq<T> {
    if |s| <= n then s else s[|s| - n..]
  }

  // ---- What the two readers make of a raw line ----

  /** `strings.TrimRight(chunk, "\r\n")`: every carriage return and newline at the end goes. */
  function TrimCRLF(c: Bytes): Bytes {
    if c != [] && (c[|c| - 1] == NL || c[|c| - 1] == CR) then TrimCRLF(c[..|c| - 1]) else c
  }

  /** `t` is `c` without the newlines and carriage returns at its end, and nothing else is missing. */
  predicate IsCut(t: Bytes, c: Bytes) {
    && |t| <= |c| && t == c[..|t|]
    && (forall k :: |t| <= k < |c| ==> c[k] == 10 || c[k] == 13)
    && (t != [] ==> t[|t| - 1] != 10 && t[|t| - 1] != 13)
  }

  lemma {:induction false} TrimCRLFMeaning(c: Bytes)
    ensures IsCut(TrimCRLF(c), c)
  {
    if c != [] && (c[|c| - 1] == NL || c[|c| - 1] == CR) {
      TrimCRLFMeaning(c[..|c| - 1]);
    }
  }

  function DropNL(c: Bytes): Bytes {
    if Terminated(c) then c[..|c| - 1] else c
  }

  /** `bufio.ScanLines`: the newline goes, and one carriage return before it. */
  function Token(c: Bytes): Bytes {
    var t := DropNL(c);
    if t != [] && t[|t| - 1] == CR then t[..|t| - 1] else t
  }

  /** `t` is `c` without one newline at its end, if it has one, and then without one carriage return. */
  predicate IsToken(t: Bytes, c: Bytes) {
    && |t| <= |c| && t == c[..|t|]
    && match |c| - |t|
       case 0 => c != [] ==> c[|c| - 1] != 10 && c[|c| - 1] != 13
       case 1 => c[|c| - 1] == 13 || (c[|c| - 1] == 10 && (t != [] ==> t[|t| - 1] != 13))
       case 2 => c[|c| - 2] == 13 && c[|c| - 1] == 10
       case _ => false
  }

  lemma TokenMeaning(c: Bytes)
    ensures IsToken(Token(c), c)
    ensures ToLine(c) == Line(Token(c), |Token(c)| + 1)
  {}

  predicate TooLong(c: Bytes) {
    |DropNL(c)| >= MAX_TOKEN
  }

  /** The limit is a mebibyte, a newline at the end not counted. */
  lemma TooLongMeaning(c: Bytes)
    ensures TooLong(c) <==> |c| > 1048576 || (|c| == 1048576 && c[1048575] != 10)
  {}

  function Messages(cs: seq<Bytes>): (ms: seq<Bytes>)
    ensures |ms| == |cs|
    ensures forall i :: 0 <= i < |cs| ==> ms[i] == TrimCRLF(cs[i])
  {
    seq(|cs|, i requires 0 <= i < |cs| => TrimCRLF(cs[i]))
  }

  function ToLine(c: Bytes): Line {
    Line(Token(c), |Token(c)| + 1)
  }

  function Lines(cs: seq<Bytes>): (ls: seq<Line>)
    ensures |ls| == |cs|
    ensures forall i :: 0 <= i < |cs| ==> ls[i] == ToLine(cs[i])
  {
    seq(|cs|, i requires 0 <= i < |cs| => ToLine(cs[i]))
  }

  function Texts(ls: seq<Line>): (ts: seq<Bytes>)
    ensures |ts| == |ls|
    ensures forall i :: 0 <= i < |ls| ==> ts[i] == ls[i].text
  {
    seq(|ls|, i requires 0 <= i < |ls| => ls[i].text)
  }

  /** How many lines the scanner hands out before it meets one that is too long. */
  function Scannable(cs: seq<Bytes>): (n: nat)
    ensures n <= |cs|
    ensures forall i :: 0 <= i < n ==> !TooLong(cs[i])
    ensures n < |cs| ==> TooLong(cs[n])
  {
    if cs == [] || TooLong(cs[0]) then 0 else 1 + Scannable(cs[1..])
  }

  // ---- Places where a line starts ----

  predicate LineStart(f: Bytes, b: nat) {
    b <= |f| && (b == 0 || f[b - 1] == NL)
  }

  /** Where a line starts the lines can be cut apart. */
  lemma {:induction false} CutAtLineStart(f: Bytes, a: nat, b: nat)
    requires a <= b && LineStart(f, b)
    ensures Chunks(f, a) == Chunks(f[..b], a) + Chunks(f, b)
    decreases b - a
  {
    hide Chunks;
    CutStep(f, a);
    CutStep(f[..b], a);
    if a < b {
      var e := LineEnd(f, a);
      assert e <= b;
      LineEndUnique(f[..b], a, e);
      assert f[..b][a..e] == f[a..e];
      CutAtLineStart(f, e, b);
    } else {
      assert [] + Chunks(f, b) == Chunks(f, b);
    }
  }

  lemma MessagesJoin(a: seq<Bytes>, b: seq<Bytes>)
    ensures Messages(a + b) == Messages(a) + Messages(b)
  {
    hide TrimCRLF;
  }

  lemma TwoParts(all: Bytes, a: nat, b: nat, c: nat)
    requires a <= b <= c && LineStart(all, b) && LineStart(all, c)
    ensures Messages(Chunks(all[..c], a)) == Messages(Chunks(all[..b], a)) + Messages(Chunks(all[..c], b))
  {
    hide Chunks, Messages;
    assert all[..c][..b] == all[..b];
    CutAtLineStart(all[..c], a, b);
    MessagesJoin(Chunks(all[..b], a), Chunks(all[..c], b));
  }

  lemma ThreeParts(all: Bytes, a: nat, b: nat, c: nat)
    requires a <= b <= c && LineStart(all, b) && LineStart(all, c)
    ensures Messages(Chunks(all, a)) ==
      Messages(Chunks(all[..b], a)) + Messages(Chunks(all[..c], b)) + Messages(Chunks(all, c))
  {
    hide Chunks, Messages;
    CutAtLineStart(all, a, c);
    MessagesJoin(Chunks(all[..c], a), Chunks(all, c));
    TwoParts(all, a, b, c);
  }
}
