/** The two readers of the log scanner, as they loop over the file: the sliding-window tail, which shifts
    its buffer in place, and the greedy reader that resumes at an offset. A reader polls the context once
    per line; `live` is how many of those polls find it not yet cancelled. */
module LogReaders {
  import opened LogLines

  const HARD_MAX_LINES: int := 2000
  const HARD_MAX_BYTES: int := 262144
  const HARD_BACKFILL_LINES: int := 500
  const DEFAULT_MAX_LINES: int := 500
  const DEFAULT_MAX_BYTES: int := 65536
  const DEFAULT_BACKFILL_LINES: int := 200

  datatype Limits = Limits(maxLines: int, maxBytes: int, backfillLines: int)

  datatype Error = Cancelled | LineTooLong | BadSeek

  /** What a reader gives back: `next` is the offset after the last line taken. */
  datatype Outcome =
    | Read(entries: seq<Bytes>, bytesRead: nat, truncated: bool, next: int)
    | Failed(error: Error)

  function Distance(a: int, b: int): nat {
    if a < b then b - a else a - b
  }

  /** The allowed value nearest to the one asked for, zero asking for the default. */
  function Clamp(value: int, minValue: int, maxValue: int, defaultValue: int): (r: int)
    requires minValue <= maxValue
    ensures minValue <= r <= maxValue
    ensures var wanted := if value == 0 then defaultValue else value;
      forall x :: minValue <= x <= maxValue ==> Distance(r, wanted) <= Distance(x, wanted)
  {
    var v := if value == 0 then defaultValue else value;
    if v < minValue then minValue else if v > maxValue then maxValue else v
  }

  /** Whatever a request asks for, the readers get limits they can work with: a window of at least one
      line, which is what keeps the window write of the tail reader inside its buffer. */
  function NormalizeLimits(input: Limits, defaultBackfill: int): (r: Limits)
    ensures 1 <= r.maxLines <= HARD_MAX_LINES
    ensures 1 <= r.maxBytes <= HARD_MAX_BYTES
    ensures 1 <= r.backfillLines <= HARD_BACKFILL_LINES
  {
    Limits(
      Clamp(input.maxLines, 1, HARD_MAX_LINES, DEFAULT_MAX_LINES),
      Clamp(input.maxBytes, 1, HARD_MAX_BYTES, DEFAULT_MAX_BYTES),
      Clamp(input.backfillLines, 1, HARD_BACKFILL_LINES,
            if defaultBackfill <= 0 then DEFAULT_BACKFILL_LINES else defaultBackfill))
  }

  /** Each limit on its own: zero gives its default, less than zero one, too much its maximum, and anything
      else is taken as it is. */
  lemma NormalizedLimits(input: Limits, defaultBackfill: int)
    ensures var r := NormalizeLimits(input, defaultBackfill);
      && r.maxLines == (if input.maxLines == 0 then 500 else if input.maxLines < 0 then 1
                        else if input.maxLines > 2000 then 2000 else input.maxLines)
      && r.maxBytes == (if input.maxBytes == 0 then 65536 else if input.maxBytes < 0 then 1
                        else if input.maxBytes > 262144 then 262144 else input.maxBytes)
      && (input.backfillLines != 0 ==>
            r.backfillLines == (if input.backfillLines < 0 then 1
                                else if input.backfillLines > 500 then 500 else input.backfillLines))
      && (input.backfillLines == 0 ==>
            r.backfillLines == (if defaultBackfill <= 0 then 200 else if defaultBackfill > 500 then 500
                                else defaultBackfill))
  {}

  // ---- The greedy reader ----

  /** The raw lines from `o` on; past the end of the file there are none. */
  function ChunksFrom(f: Bytes, o: nat): seq<Bytes> {
    if o <= |f| then Chunks(f, o) else []
  }

  /** The raw lines one greedy read takes. */
  function Taken(f: Bytes, o: nat, maxLines: nat, maxBytes: int): seq<Bytes> {
    ChunksFrom(f, o)[..Greedy(ChunksFrom(f, o), maxLines, maxBytes)]
  }

  /** How often the greedy reader polls: once per line taken, and once more when it stops inside an
      iteration that takes nothing (a line over the budget, or the end of a file whose last line is
      complete). */
  function Polls(f: Bytes, o: nat, maxLines: nat, maxBytes: int): nat {
    var taken := Taken(f, o, maxLines, maxBytes);
    if |taken| == maxLines || (taken != [] && !Terminated(taken[|taken| - 1])) then |taken| else |taken| + 1
  }

  function ReadSpec(f: Bytes, o: nat, maxLines: nat, maxBytes: int): (r: Outcome)
    ensures r.Read?
  {
    var taken := Taken(f, o, maxLines, maxBytes);
    Read(Messages(taken), Total(taken), o + Total(taken) < |f|, o + Total(taken))
  }

  /** The greedy reader after some lines: `entries` are their messages, `cur` is where the next starts. */
  ghost predicate ReadSoFar(f: Bytes, o: nat, maxLines: nat, maxBytes: nat, entries: seq<Bytes>, cur: nat) {
    var all := ChunksFrom(f, o);
    var i := |entries|;
    && i <= Greedy(all, maxLines, maxBytes)
    && entries == Messages(all[..i])
    && cur == o + Total(all[..i])
    && (o <= |f| ==> cur <= |f| && Chunks(f, cur) == all[i..])
  }

  lemma ReadStart(f: Bytes, o: nat, maxLines: nat, maxBytes: nat)
    ensures ReadSoFar(f, o, maxLines, maxBytes, [], o)
  {
    assert ChunksFrom(f, o)[..0] == [] && ChunksFrom(f, o)[0..] == ChunksFrom(f, o);
  }

  lemma NextChunk(f: Bytes, o: nat, cur: nat, i: nat)
    requires o <= |f| && cur < |f| && i <= |Chunks(f, o)|
    requires Chunks(f, cur) == Chunks(f, o)[i..]
    ensures i < |Chunks(f, o)|
    ensures Chunks(f, o)[i] == f[cur..LineEnd(f, cur)]
    ensures Chunks(f, LineEnd(f, cur)) == Chunks(f, o)[i + 1..]
    ensures Chunks(f, o)[..i + 1] == Chunks(f, o)[..i] + [f[cur..LineEnd(f, cur)]]
    ensures Total(Chunks(f, o)[..i + 1]) == Total(Chunks(f, o)[..i]) + (LineEnd(f, cur) - cur)
  {
    var c := f[cur..LineEnd(f, cur)];
    assert Chunks(f, o)[i..][0] == c;
    assert Chunks(f, o)[i..][1..] == Chunks(f, o)[i + 1..];
    ConcatAppend(Chunks(f, o)[..i], [c]);
    assert [c][1..] == [];
  }

  lemma ReadOneMore(f: Bytes, o: nat, maxLines: nat, maxBytes: nat, entries: seq<Bytes>, cur: nat)
    requires ReadSoFar(f, o, maxLines, maxBytes, entries, cur) && |entries| < maxLines && cur < |f|
    requires LineEnd(f, cur) - o <= maxBytes
    ensures var e := LineEnd(f, cur);
      ReadSoFar(f, o, maxLines, maxBytes, entries + [TrimCRLF(f[cur..e])], e)
    ensures |entries| < |ChunksFrom(f, o)| && ChunksFrom(f, o)[|entries|] == f[cur..LineEnd(f, cur)]
  {
    hide Chunks, Total, Greedy, TrimCRLF;
    var i := |entries|;
    NextChunk(f, o, cur, i);
    GreedyIsLongest(Chunks(f, o), maxLines, maxBytes, i + 1);
    assert Messages(Chunks(f, o)[..i + 1]) == Messages(Chunks(f, o)[..i]) + [TrimCRLF(f[cur..LineEnd(f, cur)])];
  }

  /** Why a greedy read stops: both budgets allow no further line. */
  ghost predicate Exhausted(f: Bytes, o: nat, maxLines: nat, maxBytes: nat, i: nat, cur: nat) {
    i == maxLines || cur >= |f| || LineEnd(f, cur) - o > maxBytes
  }

  lemma ReadStops(f: Bytes, o: nat, maxLines: nat, maxBytes: nat, entries: seq<Bytes>, cur: nat)
    requires ReadSoFar(f, o, maxLines, maxBytes, entries, cur)
    requires Exhausted(f, o, maxLines, maxBytes, |entries|, cur)
    ensures Greedy(ChunksFrom(f, o), maxLines, maxBytes) == |entries|
    ensures ReadSpec(f, o, maxLines, maxBytes) == Read(entries, cur - o, cur < |f|, cur)
  {
    hide Chunks, Total, Greedy, TrimCRLF;
    var i := |entries|;
    if o <= |f| && cur >= |f| {
      ChunksAtEnd(f, cur);
      assert ChunksFrom(f, o)[i..] == [];
    } else if i < maxLines && cur < |f| {
      NextChunk(f, o, cur, i);
      GreedyIsLongest(Chunks(f, o), maxLines, maxBytes, i + 1);
    }
  }

  lemma ChunksAtEnd(f: Bytes, o: nat)
    requires o == |f|
    ensures Chunks(f, o) == []
  {}

  /** The poll that every iteration starts with is one of those counted. */
  lemma ReadPolled(f: Bytes, o: nat, maxLines: nat, maxBytes: nat, entries: seq<Bytes>, cur: nat)
    requires ReadSoFar(f, o, maxLines, maxBytes, entries, cur) && |entries| < maxLines
    requires entries != [] ==> Terminated(ChunksFrom(f, o)[|entries| - 1])
    ensures |entries| < Polls(f, o, maxLines, maxBytes)
  {
    hide ChunksFrom, Chunks, Total, Greedy, Terminated;
    assert |Taken(f, o, maxLines, maxBytes)| == Greedy(ChunksFrom(f, o), maxLines, maxBytes);
  }

  /** Entry `k` is the raw line `k` without the newlines and carriage returns at its end. */
  ghost predicate CutLines(entries: seq<Bytes>, cs: seq<Bytes>) {
    |entries| <= |cs| && forall k :: 0 <= k < |entries| ==> IsCut(entries[k], cs[k])
  }

  lemma ReadsCutLines(f: Bytes, o: nat, maxLines: nat, maxBytes: nat)
    ensures CutLines(ReadSpec(f, o, maxLines, maxBytes).entries, ChunksFrom(f, o))
  {
    hide Chunks, ChunksFrom, Total, Greedy, IsCut, TrimCRLF;
    var cs := ChunksFrom(f, o);
    var entries := ReadSpec(f, o, maxLines, maxBytes).entries;
    forall k | 0 <= k < |entries| ensures IsCut(entries[k], cs[k]) { TrimCRLFMeaning(cs[k]); }
  }

  /** A read that may take lines polls at least once, before the first, and once more at most than it has lines
      to take. */
  lemma PollsMeaning(f: Bytes, o: nat, maxLines: nat, maxBytes: nat)
    ensures maxLines > 0 ==> 1 <= Polls(f, o, maxLines, maxBytes)
    ensures Polls(f, o, maxLines, maxBytes) <= |ChunksFrom(f, o)| + 1
  {
    hide Chunks, ChunksFrom, Greedy, Terminated;
  }

  /** A read with its polls: the outcome is the one above, unless a poll finds the context cancelled. */
  method ReadFileFromOffset(f: Bytes, offset: int, maxLines: nat, maxBytes: nat, live: nat) returns (r: Outcome)
    ensures offset < 0 ==> r == Failed(BadSeek)
    ensures offset >= 0 ==>
      r == if live < Polls(f, offset, maxLines, maxBytes) then Failed(Cancelled)
           else ReadSpec(f, offset, maxLines, maxBytes)
    ensures r.Read? ==> CutLines(r.entries, ChunksFrom(f, offset))
    ensures live == 0 && maxLines > 0 ==> r.Failed?
    ensures r == Failed(Cancelled) ==> live <= |ChunksFrom(f, offset)|
  {
    hide Chunks, ChunksFrom, Total, Greedy, TrimCRLF, ReadSpec, LineEnd;
    if offset < 0 {
      return Failed(BadSeek);
    }
    var entries: seq<Bytes> := [];
    var currentOffset: nat := offset;
    var bytesRead: nat := 0;
    var truncated := false;
    var polls: nat := 0;
    ReadStart(f, offset, maxLines, maxBytes);
    while |entries| < maxLines
      invariant ReadSoFar(f, offset, maxLines, maxBytes, entries, currentOffset)
      invariant bytesRead == currentOffset - offset
      invariant polls == |entries| <= live && |entries| <= maxLines && !truncated
      invariant entries != [] ==> Terminated(ChunksFrom(f, offset)[|entries| - 1])
      decreases maxLines - |entries|
    {
      ReadPolled(f, offset, maxLines, maxBytes, entries, currentOffset);
      if live <= polls {
        PollsMeaning(f, offset, maxLines, maxBytes);
        return Failed(Cancelled);
      }
      polls := polls + 1;
      var chunk := if currentOffset < |f| then f[currentOffset..LineEnd(f, currentOffset)] else [];
      if chunk != [] {
        if bytesRead + |chunk| > maxBytes {
          truncated := true;
          break;
        }
        ReadOneMore(f, offset, maxLines, maxBytes, entries, currentOffset);
        currentOffset := currentOffset + |chunk|;
        bytesRead := bytesRead + |chunk|;
        entries := entries + [TrimCRLF(chunk)];
      }
      if !Terminated(chunk) {
        break;
      }
    }
    ReadStops(f, offset, maxLines, maxBytes, entries, currentOffset);
    ReadsCutLines(f, offset, maxLines, maxBytes);
    if |entries| == maxLines {
      if currentOffset < |f| {
        truncated := true;
      }
    }
    r := Read(entries, bytesRead, truncated, currentOffset);
  }

  // ---- The sliding-window tail ----

  function Window(f: Bytes, backfill: nat): seq<Line> {
    LastN(Lines(Chunks(f, 0)), backfill)
  }

  /** The lines the tail reader returns, out of its window. */
  function TailLines(f: Bytes, backfill: nat, maxLines: nat, maxBytes: nat): seq<Line> {
    Window(f, backfill)[TailStart(Window(f, backfill), maxLines, maxBytes)..]
  }

  function TailSpec(f: Bytes, backfill: nat, maxLines: nat, maxBytes: nat): (r: Outcome)
    ensures r.Read?
  {
    var kept := TailLines(f, backfill, maxLines, maxBytes);
    Read(Texts(kept), Sizes(kept), |kept| < |Window(f, backfill)|, |f|)
  }

  /** One more line seen: the window drops its oldest line once it is full. */
  lemma WindowPush(all: seq<Line>, i: nat, size: nat)
    requires i < |all| && 1 <= size
    ensures LastN(all[..i + 1], size) ==
      (if i >= size then LastN(all[..i], size)[1..] else LastN(all[..i], size)) + [all[i]]
    ensures |LastN(all[..i], size)| == if i >= size then size else i
  {
    assert all[..i + 1] == all[..i] + [all[i]];
  }

  /** `copy(lines, lines[1:])` and then a write to the last slot. */
  method ShiftIn(lines: array<Line>, line: Line)
    requires 1 <= lines.Length
    modifies lines
    ensures lines[..] == old(lines[1..]) + [line]
  {
    forall j | 0 <= j < lines.Length - 1 {
      lines[j] := lines[j + 1];
    }
    lines[lines.Length - 1] := line;
  }

  /** The tail reader after `seen` lines: the window holds the last of them. */
  ghost predicate WindowSoFar(f: Bytes, size: nat, seen: nat, pos: nat, window: seq<Line>) {
    && pos <= |f| && seen <= Scannable(Chunks(f, 0))
    && Chunks(f, pos) == Chunks(f, 0)[seen..]
    && window == LastN(Lines(Chunks(f, 0))[..seen], size)
  }

  lemma WindowStep(f: Bytes, size: nat, seen: nat, pos: nat, window: seq<Line>)
    requires 1 <= size && WindowSoFar(f, size, seen, pos, window) && pos < |f|
    ensures var c := f[pos..LineEnd(f, pos)];
      if TooLong(c) then Scannable(Chunks(f, 0)) == seen < |Chunks(f, 0)|
      else
        && seen < Scannable(Chunks(f, 0))
        && WindowSoFar(f, size, seen + 1, LineEnd(f, pos),
                       (if |window| == size then window[1..] else window) + [ToLine(c)])
    ensures |window| <= size
  {
    hide Chunks, Token, Scannable;
    NextChunk(f, 0, pos, seen);
    WindowPush(Lines(Chunks(f, 0)), seen, size);
  }

  lemma WindowEnd(f: Bytes, size: nat, seen: nat, window: seq<Line>)
    requires WindowSoFar(f, size, seen, |f|, window)
    ensures Scannable(Chunks(f, 0)) == seen == |Chunks(f, 0)| && window == Window(f, size)
  {
    assert Chunks(f, 0)[seen..] == [];
    assert Lines(Chunks(f, 0))[..seen] == Lines(Chunks(f, 0));
  }

  /** The first half of the tail reader: the scanner loop over a window of fixed capacity. */
  method FillWindow(f: Bytes, lines: array<Line>, live: nat) returns (count: nat, error: seq<Error>)
    requires 1 <= lines.Length
    modifies lines
    ensures var n := Scannable(Chunks(f, 0));
      error == if live < n then [Cancelled] else if n < |Chunks(f, 0)| then [LineTooLong] else []
    ensures error == [] ==> count <= lines.Length && lines[..count] == Window(f, lines.Length)
  {
    hide Chunks, Token, Scannable, WindowSoFar, Window, TooLong, LineEnd;
    count := 0;
    var pos: nat := 0;
    ghost var seen: nat := 0;
    var polls: nat := 0;
    WindowStart(f, lines.Length);
    while pos < |f|
      invariant count <= lines.Length && pos <= |f| && seen == polls <= live
      invariant WindowSoFar(f, lines.Length, seen, pos, lines[..count])
      decreases |f| - pos
    {
      var e := LineEnd(f, pos);
      WindowStep(f, lines.Length, seen, pos, lines[..count]);
      if TooLong(f[pos..e]) {
        return 0, [LineTooLong];
      }
      if live <= polls {
        return 0, [Cancelled];
      }
      polls := polls + 1;
      var line := ToLine(f[pos..e]);
      ghost var window := lines[..count];
      if count == lines.Length {
        ShiftIn(lines, line);
        assert lines[..count] == window[1..] + [line];
      } else {
        lines[count] := line;
        count := count + 1;
        assert lines[..count] == window + [line];
      }
      pos, seen := e, seen + 1;
    }
    WindowEnd(f, lines.Length, seen, lines[..count]);
    error := [];
  }

  lemma WindowStart(f: Bytes, size: nat)
    ensures WindowSoFar(f, size, 0, 0, [])
  {
    assert Chunks(f, 0)[0..] == Chunks(f, 0);
  }

  lemma TailStartIs(w: seq<Line>, i: nat, maxLines: nat, maxBytes: nat)
    requires i <= |w| && SuffixFits(w, i, maxLines, maxBytes)
    requires forall j: nat :: j < i ==> !SuffixFits(w, j, maxLines, maxBytes)
    ensures TailStart(w, maxLines, maxBytes) == i
  {
    assert SuffixFits(w, TailStart(w, maxLines, maxBytes), maxLines, maxBytes);
  }

  /** The second half: lines are dropped from the front until the rest is within the byte budget. */
  method TrimWindow(w: seq<Line>, maxLines: nat, maxBytes: nat) returns (start: nat, totalBytes: nat)
    ensures start == TailStart(w, maxLines, maxBytes)
    ensures totalBytes == Sizes(w[start..])
  {
    start := if |w| > maxLines then |w| - maxLines else 0;
    while start < |w|
      invariant start <= |w| && |w| - start <= maxLines
      invariant forall j: nat :: j < start ==> !SuffixFits(w, j, maxLines, maxBytes)
    {
      totalBytes := 0;
      var k: nat := start;
      while k < |w|
        invariant start <= k <= |w|
        invariant Sizes(w[start..]) == totalBytes + Sizes(w[k..])
      {
        assert w[k..][1..] == w[k + 1..];
        totalBytes := totalBytes + w[k].size;
        k := k + 1;
      }
      assert w[|w|..] == [];
      if totalBytes <= maxBytes {
        TailStartIs(w, start, maxLines, maxBytes);
        return;
      }
      assert !SuffixFits(w, start, maxLines, maxBytes);
      start := start + 1;
    }
    assert w[|w|..] == [];
    TailStartIs(w, |w|, maxLines, maxBytes);
    totalBytes := 0;
  }

  method TailFileEntries(f: Bytes, backfill: nat, maxLines: nat, maxBytes: nat, live: nat) returns (r: Outcome)
    requires 1 <= backfill
    ensures var n := Scannable(Chunks(f, 0));
      r == if live < n then Failed(Cancelled)
           else if n < |Chunks(f, 0)| then Failed(LineTooLong)
           else TailSpec(f, backfill, maxLines, maxBytes)
    ensures r.Read? ==> LastTokens(r.entries, Chunks(f, 0)) && r.bytesRead == TokenBytes(r.entries)
  {
    var lines := new Line[backfill](_ => Line([], 0));
    var count, error := FillWindow(f, lines, live);
    if error != [] {
      return Failed(error[0]);
    }
    var w := lines[..count];
    var start, totalBytes := TrimWindow(w, maxLines, maxBytes);
    r := Read(Texts(w[start..]), totalBytes, |w[start..]| < count, |f|);
    TailReturnsTokens(f, backfill, maxLines, maxBytes);
  }

  /** The entries are the tokens of the last raw lines. */
  ghost predicate LastTokens(entries: seq<Bytes>, cs: seq<Bytes>) {
    |entries| <= |cs| && forall k :: 0 <= k < |entries| ==> IsToken(entries[k], cs[|cs| - |entries| + k])
  }

  /** Each entry is charged with its bytes and one more. */
  function TokenBytes(entries: seq<Bytes>): nat {
    if entries == [] then 0 else |entries[0]| + 1 + TokenBytes(entries[1..])
  }

  lemma LastNAt<T>(s: seq<T>, n: nat, j: nat)
    requires j < |LastN(s, n)|
    ensures |LastN(s, n)| <= |s| && LastN(s, n)[j] == s[|s| - |LastN(s, n)| + j]
  {}

  /** Line `k` of those the tail keeps is what the scanner makes of one of the last raw lines. */
  lemma KeptAt(f: Bytes, backfill: nat, maxLines: nat, maxBytes: nat, k: nat)
    requires k < |TailLines(f, backfill, maxLines, maxBytes)|
    ensures var n, cs := |TailLines(f, backfill, maxLines, maxBytes)|, Chunks(f, 0);
      n <= |cs| && TailLines(f, backfill, maxLines, maxBytes)[k] == ToLine(cs[|cs| - n + k])
  {
    hide Chunks, Sizes, ToLine, LastN;
    var cs, w := Chunks(f, 0), Window(f, backfill);
    var i := TailStart(w, maxLines, maxBytes);
    LastNAt(Lines(cs), backfill, i + k);
  }

  lemma TailReturnsTokens(f: Bytes, backfill: nat, maxLines: nat, maxBytes: nat)
    ensures var r := TailSpec(f, backfill, maxLines, maxBytes);
      LastTokens(r.entries, Chunks(f, 0)) && r.bytesRead == TokenBytes(r.entries)
  {
    hide Chunks, Sizes, ToLine, Token, IsToken, TailLines, TokenBytes;
    var cs := Chunks(f, 0);
    var kept := TailLines(f, backfill, maxLines, maxBytes);
    if kept != [] { KeptAt(f, backfill, maxLines, maxBytes, 0); }
    forall k | 0 <= k < |kept|
      ensures kept[k].size == |kept[k].text| + 1 && IsToken(kept[k].text, cs[|cs| - |kept| + k])
    {
      KeptAt(f, backfill, maxLines, maxBytes, k);
      TokenMeaning(cs[|cs| - |kept| + k]);
    }
    SizesAreBytes(kept);
  }

  lemma {:induction false} SizesAreBytes(w: seq<Line>)
    requires forall k :: 0 <= k < |w| ==> w[k].size == |w[k].text| + 1
    ensures Sizes(w) == TokenBytes(Texts(w))
  {
    if w != [] {
      SizesAreBytes(w[1..]);
      assert Texts(w)[1..] == Texts(w[1..]);
    }
  }
}
