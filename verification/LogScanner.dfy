/** `scanFile`: which reader a request gets, and what its cursor says. The file is read after it has been
    looked up, so a scan sees it twice: as `stat` found it and as the reader then finds it. */
module LogScanner {
  import opened LogLines
  import opened LogReaders
  import opened Text
  import opened Wrappers

  datatype Mode = Preview | Monitor

  /** The cursor of a request, and of a result. */
  datatype Cursor = Cursor(inode: string, offset: int)

  datatype Reset = NoReset | Rotated | Truncated

  datatype Result = Result(
    entries: seq<Bytes>, bytesRead: nat, linesRead: nat, truncated: bool, cursor: Cursor, reset: Reset)

  datatype Scan = Done(result: Result) | Aborted(error: Error)

  /** A log file at one moment. */
  datatype File = File(inode: string, content: Bytes)

  /** A request resumes when it monitors with a cursor that names the file and an offset within it. */
  predicate Resumes(mode: Mode, cursor: Option<Cursor>, stat: File) {
    && mode == Monitor && cursor.Some? && !Blank(cursor.value.inode)
    && cursor.value.inode == stat.inode && cursor.value.offset <= |stat.content|
  }

  /** Why a cursor is thrown away. */
  function ResetOf(mode: Mode, cursor: Option<Cursor>, stat: File): Reset {
    if mode == Preview || cursor.None? || Blank(cursor.value.inode) then NoReset
    else if cursor.value.inode != stat.inode then Rotated
    else if cursor.value.offset > |stat.content| then Truncated
    else NoReset
  }

  /** What a scan that is not cancelled returns. */
  function ScanSpec(mode: Mode, limits: Limits, cursor: Option<Cursor>, stat: File, atRead: Bytes): Scan
    requires 1 <= limits.maxLines && 1 <= limits.maxBytes && 1 <= limits.backfillLines
  {
    if Resumes(mode, cursor, stat) then
      if cursor.value.offset < 0 then Aborted(BadSeek) else
        var r := ReadSpec(atRead, cursor.value.offset, limits.maxLines, limits.maxBytes);
        Done(Result(r.entries, r.bytesRead, |r.entries|, r.truncated, Cursor(stat.inode, r.next), NoReset))
    else if Scannable(Chunks(atRead, 0)) < |Chunks(atRead, 0)| then Aborted(LineTooLong)
    else
      var r := TailSpec(atRead, limits.backfillLines, limits.maxLines, limits.maxBytes);
      Done(Result(r.entries, r.bytesRead, |r.entries|, r.truncated,
                  Cursor(stat.inode, |stat.content|), ResetOf(mode, cursor, stat)))
  }

  method ScanFile(mode: Mode, limits: Limits, cursor: Option<Cursor>, stat: File, atRead: Bytes, live: nat)
    returns (r: Scan)
    requires 1 <= limits.maxLines && 1 <= limits.maxBytes && 1 <= limits.backfillLines
    ensures r == Aborted(Cancelled) || r == ScanSpec(mode, limits, cursor, stat, atRead)
    ensures |atRead| < live ==> r == ScanSpec(mode, limits, cursor, stat, atRead)
  {
    hide Chunks, Scannable, TailLines, Window, Taken, Polls;
    var result := Result([], 0, 0, false, Cursor(stat.inode, |stat.content|), NoReset);
    if mode == Preview || cursor.None? || Blank(cursor.value.inode) {
      r := TailInto(limits, result, atRead, live);
      return;
    }
    var resetReason := NoReset;
    if cursor.value.inode != stat.inode {
      resetReason := Rotated;
    } else if cursor.value.offset > |stat.content| {
      resetReason := Truncated;
    }
    if resetReason != NoReset {
      r := TailInto(limits, result.(reset := resetReason), atRead, live);
      return;
    }
    var offset := cursor.value.offset;
    var out := ReadFileFromOffset(atRead, offset, limits.maxLines, limits.maxBytes, live);
    if offset >= 0 {
      PollsBounded(atRead, offset, limits.maxLines, limits.maxBytes);
    }
    if out.Failed? {
      return Aborted(out.error);
    }
    result := result.(entries := out.entries, bytesRead := out.bytesRead, linesRead := |out.entries|,
                      truncated := out.truncated, cursor := result.cursor.(offset := out.next));
    r := Done(result);
  }

  /** The tail branch, the same at its three places in the source. */
  method TailInto(limits: Limits, result: Result, atRead: Bytes, live: nat) returns (r: Scan)
    requires 1 <= limits.backfillLines && 0 <= limits.maxLines && 0 <= limits.maxBytes
    ensures var t := TailSpec(atRead, limits.backfillLines, limits.maxLines, limits.maxBytes);
      var whole := if Scannable(Chunks(atRead, 0)) < |Chunks(atRead, 0)| then Aborted(LineTooLong)
        else Done(result.(entries := t.entries, bytesRead := t.bytesRead,
                          linesRead := |t.entries|, truncated := t.truncated));
      (r == Aborted(Cancelled) || r == whole) && (|atRead| < live ==> r == whole)
  {
    hide Chunks, Scannable, TailLines, Window;
    var out := TailFileEntries(atRead, limits.backfillLines, limits.maxLines, limits.maxBytes, live);
    ChunksBounded(atRead, 0);
    if out.Failed? {
      return Aborted(out.error);
    }
    r := Done(result.(entries := out.entries, bytesRead := out.bytesRead,
                      linesRead := |out.entries|, truncated := out.truncated));
  }

  lemma {:induction false} ChunksBounded(f: Bytes, o: nat)
    requires o <= |f|
    ensures |Chunks(f, o)| <= |f| - o
    decreases |f| - o
  {
    if o < |f| { ChunksBounded(f, LineEnd(f, o)); }
  }

  lemma PollsBounded(f: Bytes, o: nat, maxLines: nat, maxBytes: nat)
    ensures Polls(f, o, maxLines, maxBytes) <= |f| + 1
  {
    if o <= |f| { ChunksBounded(f, o); }
  }

  // ---- One scan ----

  /** Which cursor a scan resumes at: none in a preview, and in a monitor scan one that names an inode, the
      same as the file's, and an offset that is not past its end. Any other is as good as none, but for the
      reset that is reported. */
  lemma CursorCounts(mode: Mode, limits: Limits, cursor: Option<Cursor>, stat: File, atRead: Bytes)
    requires 1 <= limits.maxLines && 1 <= limits.maxBytes && 1 <= limits.backfillLines
    ensures var plain := ScanSpec(Monitor, limits, None, stat, atRead);
      var r := ScanSpec(mode, limits, cursor, stat, atRead);
      && (mode == Preview || cursor.None? || TrimSpace(cursor.value.inode) == "" ==> r == plain)
      && (mode == Monitor && cursor.Some? && TrimSpace(cursor.value.inode) != "" ==>
            if cursor.value.inode != stat.inode then
              if plain.Done? then r == Done(plain.result.(reset := Rotated)) else r == plain
            else if cursor.value.offset > |stat.content| then
              if plain.Done? then r == Done(plain.result.(reset := Truncated)) else r == plain
            else if cursor.value.offset < 0 then r == Aborted(BadSeek)
            else
              var out := ReadSpec(atRead, cursor.value.offset, limits.maxLines, limits.maxBytes);
              r == Done(Result(out.entries, out.bytesRead, |out.entries|, out.next < |atRead|,
                               Cursor(stat.inode, out.next), NoReset)))
  {
    hide TailSpec, Scannable, Chunks, TrimSpace, Taken, Messages, Total;
  }

  /** What a scan from the tail reports besides its entries. */
  lemma FreshScanReports(limits: Limits, stat: File, atRead: Bytes)
    requires 1 <= limits.maxLines && 1 <= limits.maxBytes && 1 <= limits.backfillLines
    ensures var r := ScanSpec(Monitor, limits, None, stat, atRead);
      var cs := Chunks(atRead, 0);
      && (r.Done? <==> forall i :: 0 <= i < |cs| ==> !TooLong(cs[i]))
      && (!r.Done? ==> r == Aborted(LineTooLong))
      && (r.Done? ==>
            && r.result.linesRead == |r.result.entries|
            && r.result.bytesRead == TokenBytes(r.result.entries)
            && LastTokens(r.result.entries, cs)
            && r.result.cursor == Cursor(stat.inode, |stat.content|) && r.result.reset == NoReset
            && (r.result.truncated <==> |r.result.entries| < |cs| && |r.result.entries| < limits.backfillLines))
  {
    hide Chunks, Sizes, ToLine, Token, TooLong, IsToken, TokenBytes;
    TailReturnsTokens(atRead, limits.backfillLines, limits.maxLines, limits.maxBytes);
  }

  /** A resumed scan takes the longest run of whole remaining lines that both budgets allow, and says
      "truncated" exactly when its new offset is short of the end of the file. */
  lemma GreedyReadIsLongest(f: Bytes, o: nat, maxLines: nat, maxBytes: nat, m: nat)
    requires o <= |f| && m <= |Chunks(f, o)|
    ensures var r := ReadSpec(f, o, maxLines, maxBytes);
      && r.next == o + r.bytesRead <= |f|
      && f[o..r.next] == Concat(Chunks(f, o)[..|r.entries|])
      && (m <= maxLines && Total(Chunks(f, o)[..m]) <= maxBytes <==> m <= |r.entries|)
      && (r.truncated <==> r.next < |f|)
  {
    hide Chunks, Greedy, Total, Concat;
    GreedyIsLongest(Chunks(f, o), maxLines, maxBytes, m);
    ChunksSplit(f, o, Greedy(Chunks(f, o), maxLines, maxBytes));
  }

  lemma WindowSize(f: Bytes, backfill: nat)
    ensures |Window(f, backfill)| == if |Chunks(f, 0)| <= backfill then |Chunks(f, 0)| else backfill
  {
    hide Chunks;
  }

  /** The tail returns the longest suffix of the last `backfill` lines that both budgets allow, and says
      "truncated" exactly when that is not the whole window. */
  lemma TailIsLongest(f: Bytes, backfill: nat, maxLines: nat, maxBytes: nat, i: nat)
    requires i <= |Window(f, backfill)|
    ensures var w := Window(f, backfill);
      var r := TailSpec(f, backfill, maxLines, maxBytes);
      && |w| == (if |Chunks(f, 0)| <= backfill then |Chunks(f, 0)| else backfill)
      && |r.entries| <= |w|
      && r.entries == Texts(w[|w| - |r.entries|..])
      && r.bytesRead == Sizes(w[|w| - |r.entries|..])
      && (|w| - i <= maxLines && Sizes(w[i..]) <= maxBytes <==> |w| - |r.entries| <= i)
      && (r.truncated <==> |r.entries| < |w|)
  {
    hide Sizes, Window;
    var w := Window(f, backfill);
    WindowSize(f, backfill);
    assert SuffixFits(w, i, maxLines, maxBytes) <==> TailStart(w, maxLines, maxBytes) <= i;
  }

  // ---- The two readers agree ----

  ghost predicate CleanLines(f: Bytes) {
    && (f != [] ==> f[|f| - 1] == NL)
    && (forall k :: 0 <= k < |f| ==> f[k] != CR)
  }

  /** Without carriage returns a complete line has one reading: both readers drop its newline. */
  lemma CleanLine(c: Bytes)
    requires IsChunk(c) && Terminated(c) && forall k :: 0 <= k < |c| ==> c[k] != CR
    ensures TrimCRLF(c) == Token(c) == c[..|c| - 1]
    ensures ToLine(c).size == |c|
  {
    var t := c[..|c| - 1];
    assert t != [] ==> t[|t| - 1] == c[|t| - 1];
    assert TrimCRLF(t) == t;
  }

  lemma {:induction false} CleanChunks(f: Bytes, o: nat)
    requires CleanLines(f) && o <= |f|
    ensures forall i :: 0 <= i < |Chunks(f, o)| ==>
      var c := Chunks(f, o)[i]; IsChunk(c) && Terminated(c) && forall k :: 0 <= k < |c| ==> c[k] != CR
    decreases |f| - o
  {
    if o < |f| { CleanChunks(f, LineEnd(f, o)); }
  }

  lemma {:induction false} CleanSizes(cs: seq<Bytes>)
    requires forall i :: 0 <= i < |cs| ==>
      IsChunk(cs[i]) && Terminated(cs[i]) && forall k :: 0 <= k < |cs[i]| ==> cs[i][k] != CR
    ensures Sizes(Lines(cs)) == Total(cs)
    ensures Texts(Lines(cs)) == Messages(cs)
  {
    forall i | 0 <= i < |cs| ensures Lines(cs)[i] == Line(TrimCRLF(cs[i]), |cs[i]|) { CleanLine(cs[i]); }
    if cs != [] {
      CleanSizes(cs[1..]);
      assert Lines(cs)[1..] == Lines(cs[1..]);
    }
  }

  /** In a file of complete lines, the end of any number of lines is the start of one. */
  lemma {:induction false} LineStarts(all: Bytes, o: nat, n: nat)
    requires CleanLines(all) && LineStart(all, o) && n <= |Chunks(all, o)|
    ensures LineStart(all, o + Total(Chunks(all, o)[..n]))
    decreases n
  {
    hide Chunks, Total;
    CutStep(all, o);
    if n > 0 {
      var e := LineEnd(all, o);
      PrefixStep(all[o..e], Chunks(all, e), n);
      GlueStep(all[o..e], Chunks(all, e)[..n - 1]);
      LineStarts(all, e, n - 1);
    } else {
      assert Chunks(all, o)[..0] == [];
      GlueNone();
    }
  }

  lemma CleanSuffix(f: Bytes, start: nat)
    requires CleanLines(f) && start <= |Chunks(f, 0)|
    ensures Sizes(Lines(Chunks(f, 0)[start..])) == Total(Chunks(f, 0)[start..])
    ensures Texts(Lines(Chunks(f, 0)[start..])) == Messages(Chunks(f, 0)[start..])
  {
    hide Chunks, Total, Sizes, CleanLines, IsChunk, Terminated;
    CleanChunks(f, 0);
    CleanSizes(Chunks(f, 0)[start..]);
  }

  /** The lines the tail keeps are the last raw lines, and they start `bytesRead` before the end. */
  lemma TailKeepsChunks(f: Bytes, backfill: nat, maxLines: nat, maxBytes: nat) returns (start: nat)
    requires CleanLines(f)
    ensures start <= |Chunks(f, 0)|
    ensures var r := TailSpec(f, backfill, maxLines, maxBytes);
      && r.entries == Messages(Chunks(f, 0)[start..])
      && r.bytesRead == Total(Chunks(f, 0)[start..])
      && |r.entries| <= maxLines && r.bytesRead <= maxBytes
  {
    hide Chunks, Total, Sizes, CleanLines, ToLine, TrimCRLF;
    var cs := Chunks(f, 0);
    var w := Window(f, backfill);
    var skipped := |cs| - |w|;
    var i := TailStart(w, maxLines, maxBytes);
    start := skipped + i;
    assert w[i..] == Lines(cs[start..]);
    CleanSuffix(f, start);
    assert SuffixFits(w, i, maxLines, maxBytes);
  }

  /** Of any file, the tail returns the tokens of its last raw lines. */
  lemma TailKeepsTokens(f: Bytes, backfill: nat, maxLines: nat, maxBytes: nat) returns (start: nat)
    ensures start <= |Chunks(f, 0)|
    ensures var r := TailSpec(f, backfill, maxLines, maxBytes);
      r.entries == Texts(Lines(Chunks(f, 0)[start..])) && |r.entries| == |Chunks(f, 0)| - start
  {
    hide Chunks, Sizes, ToLine;
    var cs := Chunks(f, 0);
    var w := Window(f, backfill);
    var i := TailStart(w, maxLines, maxBytes);
    start := |cs| - |w| + i;
    assert w[i..] == Lines(cs[start..]);
  }

  lemma {:induction false} SizesPositive(w: seq<Line>)
    requires forall i :: 0 <= i < |w| ==> w[i].size >= 1
    ensures Sizes(w) >= |w|
  {
    if w != [] { SizesPositive(w[1..]); }
  }

  lemma SizesOne(line: Line)
    ensures Sizes([line]) == line.size
  {
    assert [line][1..] == [];
  }

  /** The tail of a window is nothing if and only if there is no line or the last one alone is too much. */
  lemma EmptyTail(w: seq<Line>, maxLines: nat, maxBytes: nat)
    requires 1 <= maxLines && forall i :: 0 <= i < |w| ==> w[i].size >= 1
    ensures Sizes(w[TailStart(w, maxLines, maxBytes)..]) == 0 <==> w == [] || w[|w| - 1].size > maxBytes
  {
    hide Sizes;
    var i := TailStart(w, maxLines, maxBytes);
    SizesPositive(w[i..]);
    assert w[|w|..] == [];
    SizesPositive([]);
    NoSizes();
    if w != [] {
      assert w[|w| - 1..] == [w[|w| - 1]];
      SizesOne(w[|w| - 1]);
      assert SuffixFits(w, |w| - 1, maxLines, maxBytes) <==> w[|w| - 1].size <= maxBytes;
    }
  }

  lemma NoSizes()
    ensures Sizes([]) == 0
  {}

  lemma WindowOfClean(f: Bytes, backfill: nat)
    requires CleanLines(f) && 1 <= backfill
    ensures var w, cs := Window(f, backfill), Chunks(f, 0);
      && (forall i :: 0 <= i < |w| ==> w[i].size >= 1)
      && (w == [] <==> cs == [])
      && (cs != [] ==> w[|w| - 1].size == |cs[|cs| - 1]|)
  {
    hide Chunks, ToLine, TrimCRLF, CleanLines, IsChunk, Terminated;
    var cs := Chunks(f, 0);
    CleanChunks(f, 0);
    forall i | 0 <= i < |cs| ensures Lines(cs)[i].size == |cs[i]| >= 1 {
      CleanLine(cs[i]);
      ChunkNotEmpty(cs[i]);
    }
  }

  lemma ChunkNotEmpty(c: Bytes)
    requires IsChunk(c)
    ensures |c| >= 1
  {}

  lemma TailIsEmptyIff(f: Bytes, backfill: nat, maxLines: nat, maxBytes: nat)
    requires CleanLines(f) && 1 <= backfill && 1 <= maxLines
    ensures var cs := Chunks(f, 0);
      TailSpec(f, backfill, maxLines, maxBytes).bytesRead == 0 <==> cs == [] || |cs[|cs| - 1]| > maxBytes
  {
    hide Chunks, Sizes, Window, CleanLines;
    WindowOfClean(f, backfill);
    EmptyTail(Window(f, backfill), maxLines, maxBytes);
  }

  /** On a file of complete lines without carriage returns, what the tail returns is what the offset
      reader returns from `bytesRead` before the end under the same budgets, and that read ends at the
      size the tail stores as its cursor. */
  lemma ReadersAgree(f: Bytes, backfill: nat, maxLines: nat, maxBytes: nat)
    requires CleanLines(f)
    ensures var t := TailSpec(f, backfill, maxLines, maxBytes);
      && t.bytesRead <= |f|
      && ReadSpec(f, |f| - t.bytesRead, maxLines, maxBytes) == Read(t.entries, t.bytesRead, false, |f|)
      && t.next == |f|
  {
    hide Chunks, Total, Greedy, TailLines, Taken;
    var start := TailKeepsChunks(f, backfill, maxLines, maxBytes);
    ReadsAllFrom(f, start, maxLines, maxBytes);
  }

  /** A read from the start of some line takes all the lines left when they fit its budgets. */
  lemma ReadsAllFrom(f: Bytes, start: nat, maxLines: nat, maxBytes: nat)
    requires start <= |Chunks(f, 0)|
    requires |Chunks(f, 0)[start..]| <= maxLines && Total(Chunks(f, 0)[start..]) <= maxBytes
    ensures var rest := Chunks(f, 0)[start..];
      && Total(rest) <= |f|
      && ReadSpec(f, |f| - Total(rest), maxLines, maxBytes) == Read(Messages(rest), Total(rest), false, |f|)
  {
    hide Chunks, Total, Greedy;
    var rest := Chunks(f, 0)[start..];
    RestStartsAt(f, start);
    assert rest[..|rest|] == rest;
    GreedyIsLongest(rest, maxLines, maxBytes, |rest|);
  }

  lemma RestStartsAt(f: Bytes, start: nat)
    requires start <= |Chunks(f, 0)|
    ensures Total(Chunks(f, 0)[start..]) <= |f|
    ensures |f| - Total(Chunks(f, 0)[start..]) == Total(Chunks(f, 0)[..start])
    ensures Chunks(f, |f| - Total(Chunks(f, 0)[start..])) == Chunks(f, 0)[start..]
  {
    hide Chunks, Total, Concat;
    var cs := Chunks(f, 0);
    ChunksSplit(f, 0, start);
    ChunksGlue(f, 0);
    TotalIsLength(cs);
    assert cs == cs[..start] + cs[start..];
    ConcatAppend(cs[..start], cs[start..]);
  }

  /** The same, seen from outside: a preview, and a monitor scan resumed at its start, report the same
      lines and the same cursor. */
  lemma PreviewAndResumeAgree(limits: Limits, stat: File)
    requires 1 <= limits.maxLines && 1 <= limits.maxBytes && 1 <= limits.backfillLines
    requires CleanLines(stat.content) && !Blank(stat.inode)
    requires forall i :: 0 <= i < |Chunks(stat.content, 0)| ==> !TooLong(Chunks(stat.content, 0)[i])
    ensures var p := ScanSpec(Preview, limits, None, stat, stat.content);
      && p.Done? && p.result.bytesRead <= |stat.content|
      && ScanSpec(Monitor, limits, Some(Cursor(stat.inode, |stat.content| - p.result.bytesRead)), stat, stat.content)
         == Done(p.result.(truncated := false))
  {
    hide Chunks, TailSpec, ReadSpec;
    ReadersAgree(stat.content, limits.backfillLines, limits.maxLines, limits.maxBytes);
  }

  // ---- Draining a fixed file ----

  /** The offset after `n` scans of a fixed file, each resuming where the one before it stopped. */
  function Drain(f: Bytes, o: nat, maxLines: nat, maxBytes: nat, n: nat): nat
    decreases n
  {
    if n == 0 then o
    else
      var r := ReadSpec(f, o, maxLines, maxBytes);
      Drain(f, r.next, maxLines, maxBytes, n - 1)
  }

  /** The start of the first line from `o` on that alone is over the byte budget, or the end of the file. */
  function StallPoint(f: Bytes, o: nat, maxBytes: nat): (p: nat)
    requires o <= |f|
    ensures o <= p <= |f|
    decreases |f| - o
  {
    if o == |f| || LineEnd(f, o) - o > maxBytes then o else StallPoint(f, LineEnd(f, o), maxBytes)
  }

  /** Every line alone is within the byte budget. */
  predicate AllFit(cs: seq<Bytes>, maxBytes: nat) {
    forall i :: 0 <= i < |cs| ==> |cs[i]| <= maxBytes
  }

  lemma AllFitStep(c: Bytes, cs: seq<Bytes>, maxBytes: nat)
    ensures AllFit([c] + cs, maxBytes) <==> |c| <= maxBytes && AllFit(cs, maxBytes)
  {
    var all := [c] + cs;
    if AllFit(all, maxBytes) {
      assert all[0] == c;
      forall i | 0 <= i < |cs| ensures |cs[i]| <= maxBytes { assert all[i + 1] == cs[i]; }
    }
  }

  lemma {:induction false} StallPointMeaning(f: Bytes, o: nat, maxBytes: nat)
    requires o <= |f|
    ensures StallPoint(f, o, maxBytes) == |f| <==> AllFit(Chunks(f, o), maxBytes)
    decreases |f| - o
  {
    hide Chunks, AllFit;
    CutStep(f, o);
    if o < |f| {
      var e := LineEnd(f, o);
      StallPointMeaning(f, e, maxBytes);
      AllFitStep(f[o..e], Chunks(f, e), maxBytes);
    } else {
      assert AllFit([], maxBytes) by { NoneToFit(maxBytes); }
    }
  }

  lemma NoneToFit(maxBytes: nat)
    ensures AllFit([], maxBytes)
  {}

  lemma {:induction false} StallPointAfter(f: Bytes, o: nat, maxBytes: nat, n: nat)
    requires o <= |f| && n <= |Chunks(f, o)|
    requires forall i :: 0 <= i < n ==> |Chunks(f, o)[i]| <= maxBytes
    ensures o + Total(Chunks(f, o)[..n]) <= |f|
    ensures StallPoint(f, o + Total(Chunks(f, o)[..n]), maxBytes) == StallPoint(f, o, maxBytes)
    decreases n
  {
    hide Chunks, Total;
    var cs := Chunks(f, o);
    CutStep(f, o);
    if n > 0 {
      var e := LineEnd(f, o);
      assert cs[..n] == [cs[0]] + Chunks(f, e)[..n - 1];
      GlueStep(cs[0], Chunks(f, e)[..n - 1]);
      assert forall i :: 0 <= i < n - 1 ==> Chunks(f, e)[i] == cs[i + 1];
      StallPointAfter(f, e, maxBytes, n - 1);
    } else {
      assert cs[..0] == [];
      GlueNone();
    }
  }

  lemma {:induction false} EachWithinTotal(cs: seq<Bytes>, i: nat)
    requires i < |cs|
    ensures |cs[i]| <= Total(cs)
  {
    if i > 0 { EachWithinTotal(cs[1..], i - 1); }
  }

  /** One scan moves towards the stall point, never past it, and stops there only. */
  lemma DrainStep(f: Bytes, o: nat, maxLines: nat, maxBytes: nat)
    requires o <= |f| && 1 <= maxLines
    ensures var next := ReadSpec(f, o, maxLines, maxBytes).next;
      && o <= next <= |f|
      && StallPoint(f, next, maxBytes) == StallPoint(f, o, maxBytes)
      && (next == o <==> o == StallPoint(f, o, maxBytes))
  {
    hide Total, Greedy;
    var cs := Chunks(f, o);
    var n := Greedy(cs, maxLines, maxBytes);
    GreedyIsLongest(cs, maxLines, maxBytes, n);
    forall i | 0 <= i < n ensures |cs[i]| <= maxBytes {
      EachWithinTotal(cs[..n], i);
      assert cs[..n][i] == cs[i];
    }
    StallPointAfter(f, o, maxBytes, n);
    if o < |f| {
      GreedyIsLongest(cs, maxLines, maxBytes, 1);
      TotalOne(cs);
      if n > 0 { EachWithinTotal(cs[..n], 0); }
      TotalNone(cs);
    }
  }

  lemma TotalOne(cs: seq<Bytes>)
    requires cs != []
    ensures Total(cs[..1]) == |cs[0]|
  {
    assert cs[..1] == [cs[0]] && [cs[0]][1..] == [];
  }

  lemma TotalNone(cs: seq<Bytes>)
    ensures Total(cs[..0]) == 0
  {}

  /** Scanning a fixed file again and again ends at the first line that is over the byte budget, and
      stays there: after enough scans the offset is the stall point, whatever the number of scans. */
  lemma {:induction false} DrainStalls(f: Bytes, o: nat, maxLines: nat, maxBytes: nat, n: nat)
    requires o <= |f| && 1 <= maxLines
    ensures o <= Drain(f, o, maxLines, maxBytes, n) <= StallPoint(f, o, maxBytes)
    ensures |f| - o <= n ==> Drain(f, o, maxLines, maxBytes, n) == StallPoint(f, o, maxBytes)
    decreases n
  {
    hide ReadSpec, StallPoint;
    if n > 0 {
      DrainStep(f, o, maxLines, maxBytes);
      var next := ReadSpec(f, o, maxLines, maxBytes).next;
      DrainStalls(f, next, maxLines, maxBytes, n - 1);
      if next == o {
        DrainFixed(f, o, maxLines, maxBytes, n - 1);
      }
    }
  }

  lemma {:induction false} DrainFixed(f: Bytes, o: nat, maxLines: nat, maxBytes: nat, n: nat)
    requires ReadSpec(f, o, maxLines, maxBytes).next == o
    ensures Drain(f, o, maxLines, maxBytes, n) == o
    decreases n
  {
    hide ReadSpec;
    if n > 0 { DrainFixed(f, o, maxLines, maxBytes, n - 1); }
  }

  /** Repeated scans of a fixed file reach its end if and only if every remaining line fits the byte budget. */
  lemma DrainReachesEnd(f: Bytes, o: nat, maxLines: nat, maxBytes: nat)
    requires o <= |f| && 1 <= maxLines
    ensures (exists n: nat :: Drain(f, o, maxLines, maxBytes, n) == |f|) <==> AllFit(Chunks(f, o), maxBytes)
  {
    hide Chunks, AllFit;
    StallPointMeaning(f, o, maxBytes);
    DrainStalls(f, o, maxLines, maxBytes, |f| - o);
    if StallPoint(f, o, maxBytes) < |f| {
      forall n: nat ensures Drain(f, o, maxLines, maxBytes, n) != |f| {
        DrainStalls(f, o, maxLines, maxBytes, n);
      }
    } else {
      assert Drain(f, o, maxLines, maxBytes, |f| - o) == |f|;
    }
  }
}
