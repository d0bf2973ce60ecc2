/** Monitoring a log over time: the file grows or is replaced, and every scan feeds the cursor it returns
    into the next. The theorems hold for every list of events. */
module LogMonitor {
  import opened LogLines
  import opened LogReaders
  import opened LogScanner
  import opened Text
  import opened Wrappers

  datatype Event =
    | Append(data: Bytes)
    | Replace(file: File)     // rotation to another inode, or a rewrite under the same one
    | Scan(limits: Limits, late: Bytes)      // `late` is appended after the scan has looked the file up
    | ScanAcross(limits: Limits, now: File)  // the file is replaced after the scan has looked it up

  /** `cursor` is what the server keeps. Since the last scan that (re)started from the tail: `backfill` and
      `backfillBytes` are what that scan returned, `first` is where the first line it returned begins, `base`
      is the offset it stored, `ahead` is how much was appended past `base` before it read, `chunks` and
      `entries` are the raw lines and the messages of the resumed scans after it, `whole` says that none of
      these ended inside a line, and `tampered` that the cursor's file was rewritten. */
  datatype State = State(
    file: File, cursor: Option<Cursor>,
    base: nat, backfill: seq<Bytes>, backfillBytes: nat, first: nat, ahead: nat,
    chunks: seq<Bytes>, entries: seq<Bytes>, whole: bool, tampered: bool)

  function Init(file: File): State {
    State(file, None, 0, [], 0, 0, 0, [], [], true, false)
  }

  predicate EndsInsideLine(f: Bytes, next: int) {
    0 < next == |f| && f[|f| - 1] != NL
  }

  /** A scan that resumes has read `out` from the cursor on. */
  function Resumed(s: State, limits: Limits, out: Outcome): State
    requires s.cursor.Some? && s.cursor.value.offset >= 0 && out.Read? && limits.maxLines >= 0
  {
    var taken := Taken(s.file.content, s.cursor.value.offset, limits.maxLines, limits.maxBytes);
    s.(cursor := Some(Cursor(s.file.inode, out.next)),
       chunks := s.chunks + taken,
       entries := s.entries + out.entries,
       whole := s.whole && (taken != [] ==> !EndsInsideLine(s.file.content, out.next)))
  }

  function Grown(s: State, data: Bytes): State {
    s.(file := s.file.(content := s.file.content + data))
  }

  /** The offset at which the last `count` lines begin. */
  function Front(f: Bytes, count: nat): nat {
    var cs := Chunks(f, 0);
    if |cs| <= count then 0 else Total(cs[..|cs| - count])
  }

  function Step(s: State, e: Event): State {
    match e
    case Append(data) => Grown(s, data)
    case Replace(file) => s.(file := file, tampered := s.cursor.Some? && s.cursor.value.inode == file.inode)
    case Scan(input, late) =>
      var limits := NormalizeLimits(input, DEFAULT_BACKFILL_LINES);
      var now := Grown(s, late);
      var r := ScanSpec(Monitor, limits, s.cursor, s.file, now.file.content);
      if r.Aborted? then now
      else if Resumes(Monitor, s.cursor, s.file) then
        Resumed(now, limits, Read(r.result.entries, r.result.bytesRead, r.result.truncated, r.result.cursor.offset))
      else
        State(now.file, Some(r.result.cursor), |s.file.content|, r.result.entries, r.result.bytesRead,
              Front(now.file.content, |r.result.entries|), |late|, [], [], true, false)
    case ScanAcross(input, now) =>
      var r := ScanSpec(Monitor, NormalizeLimits(input, DEFAULT_BACKFILL_LINES), s.cursor, s.file, now.content);
      s.(file := now, cursor := if r.Done? then Some(r.result.cursor) else s.cursor, tampered := true)
  }

  function Run(s: State, events: seq<Event>): State
    decreases |events|
  {
    if events == [] then s else Run(Step(s, events[0]), events[1..])
  }

  /** The cursor names a position in a file that has only grown since it was issued. */
  predicate Tracks(s: State) {
    s.cursor.Some? && !s.tampered && s.cursor.value.inode == s.file.inode
  }

  ghost predicate Inv(s: State) {
    Tracks(s) ==>
      && s.base <= s.cursor.value.offset <= |s.file.content| && s.base + s.ahead <= |s.file.content|
      && AllChunks(s.chunks)
      && Concat(s.chunks) == s.file.content[s.base..s.cursor.value.offset]
      && s.entries == Messages(s.chunks)
      && (s.whole ==> forall i :: 0 <= i < |s.chunks| ==> Terminated(s.chunks[i]))
      && Backfilled(s.file.content[..s.base + s.ahead], s.first, s.backfill, s.backfillBytes)
  }

  /** What the first scan has returned of the file it read: the tokens of the lines from `first` on, and if
      all was complete lines without carriage returns, their messages and the bytes from there to the end. */
  ghost predicate Backfilled(f: Bytes, first: nat, backfill: seq<Bytes>, bytes: nat) {
    && first <= |f| && backfill == Texts(Lines(Chunks(f, first)))
    && (CleanLines(f) ==> LineStart(f, first) && first + bytes == |f| && backfill == Messages(Chunks(f, first)))
  }

  lemma SliceOfSum(f: Bytes, data: Bytes, a: nat, b: nat)
    requires a <= b <= |f|
    ensures (f + data)[a..b] == f[a..b]
  {}

  lemma GrownKeepsInv(s: State, data: Bytes)
    requires Inv(s)
    ensures Inv(Grown(s, data))
  {
    hide AllChunks, Concat, Terminated, Backfilled;
    if Tracks(s) {
      SliceOfSum(s.file.content, data, s.base, s.cursor.value.offset);
      SliceOfSum(s.file.content, data, 0, s.base + s.ahead);
    }
  }

  /** The lines one read takes: whole ones, but for a last one that ends the file. */
  lemma TakenMeaning(f: Bytes, o: nat, maxLines: nat, maxBytes: nat)
    requires o <= |f|
    ensures var taken := Taken(f, o, maxLines, maxBytes);
      && AllChunks(taken)
      && o + Total(taken) <= |f|
      && Concat(taken) == f[o..o + Total(taken)]
      && (taken != [] ==> Total(taken) > 0 && taken[|taken| - 1][|taken[|taken| - 1]| - 1] == f[o + Total(taken) - 1])
      && forall i :: 0 <= i < |taken| ==>
           Terminated(taken[i]) || (i == |taken| - 1 && EndsInsideLine(f, o + Total(taken)))
  {
    hide Chunks, Greedy, Total, Concat;
    var cs := Chunks(f, o);
    var n := Greedy(cs, maxLines, maxBytes);
    ChunksGlue(f, o);
    ChunksSplit(f, o, n);
    var taken := cs[..n];
    TotalIsLength(taken);
    if taken != [] {
      LastByte(taken);
      var p := o + Total(taken);
      assert f[o..p][|f[o..p]| - 1] == f[p - 1];
      if n < |cs| {
        assert Terminated(cs[n - 1]);
      } else {
        ChunksNone(f, p);
      }
    }
  }

  lemma ChunksNone(f: Bytes, p: nat)
    requires p <= |f| && Chunks(f, p) == []
    ensures p == |f|
  {}

  lemma {:induction false} LastByte(cs: seq<Bytes>)
    requires AllChunks(cs) && cs != []
    ensures Concat(cs) != [] && Concat(cs)[|Concat(cs)| - 1] == cs[|cs| - 1][|cs[|cs| - 1]| - 1]
  {
    assert IsChunk(cs[0]);
    if |cs| > 1 {
      LastByte(cs[1..]);
    } else {
      assert Concat(cs) == cs[0];
    }
  }

  /** More lines read after those there were. */
  lemma TakenJoins(f: Bytes, base: nat, o: nat, chunks: seq<Bytes>, maxLines: nat, maxBytes: nat)
    requires base <= o <= |f| && AllChunks(chunks) && Concat(chunks) == f[base..o]
    ensures var taken := Taken(f, o, maxLines, maxBytes);
      && o + Total(taken) <= |f|
      && AllChunks(chunks + taken) && Concat(chunks + taken) == f[base..o + Total(taken)]
      && Messages(chunks + taken) == Messages(chunks) + Messages(taken)
  {
    hide Chunks, Concat, Total, Taken, IsChunk, Terminated, EndsInsideLine, TrimCRLF;
    var taken := Taken(f, o, maxLines, maxBytes);
    TakenMeaning(f, o, maxLines, maxBytes);
    ConcatAppend(chunks, taken);
    var p := o + Total(taken);
    assert f[base..p] == f[base..o] + f[o..p];
  }

  lemma ResumedKeepsInv(s: State, limits: Limits)
    requires Inv(s) && s.cursor.Some? && s.cursor.value.offset >= 0 && s.cursor.value.inode == s.file.inode
    requires 1 <= limits.maxLines && 1 <= limits.maxBytes
    ensures Inv(Resumed(s, limits, ReadSpec(s.file.content, s.cursor.value.offset, limits.maxLines, limits.maxBytes)))
  {
    hide Chunks, AllChunks, Concat, Total, Taken, Terminated, EndsInsideLine, Backfilled;
    var f, o := s.file.content, s.cursor.value.offset;
    if Tracks(s) {
      TakenJoins(f, s.base, o, s.chunks, limits.maxLines, limits.maxBytes);
      TakenMeaning(f, o, limits.maxLines, limits.maxBytes);
    }
  }

  lemma TailIsBackfill(f: Bytes, limits: Limits)
    requires 1 <= limits.maxLines && 1 <= limits.maxBytes && 1 <= limits.backfillLines
    ensures var out := TailSpec(f, limits.backfillLines, limits.maxLines, limits.maxBytes);
      Backfilled(f, Front(f, |out.entries|), out.entries, out.bytesRead)
  {
    hide Chunks, Total, TailSpec, CleanLines, LineStart, ToLine, TrimCRLF;
    var out := TailSpec(f, limits.backfillLines, limits.maxLines, limits.maxBytes);
    var cs := Chunks(f, 0);
    var start := TailKeepsTokens(f, limits.backfillLines, limits.maxLines, limits.maxBytes);
    RestStartsAt(f, start);
    FrontIs(f, start);
    if CleanLines(f) {
      var same := TailKeepsChunks(f, limits.backfillLines, limits.maxLines, limits.maxBytes);
      assert same == start;
      EmptyStarts(f);
      LineStarts(f, 0, start);
    }
  }

  lemma EmptyStarts(f: Bytes)
    ensures LineStart(f, 0)
  {}

  lemma FrontIs(f: Bytes, start: nat)
    requires start <= |Chunks(f, 0)|
    ensures Front(f, |Chunks(f, 0)| - start) == Total(Chunks(f, 0)[..start])
  {
    hide Chunks;
    if start == 0 { assert Chunks(f, 0)[..0] == []; }
  }

  lemma RestartKeepsInv(s: State, input: Limits, late: Bytes)
    requires !Resumes(Monitor, s.cursor, s.file) && Inv(s)
    ensures Inv(Step(s, Scan(input, late)))
  {
    hide Chunks, Front, TailSpec, Scannable, Backfilled, ReadSpec;
    var limits := NormalizeLimits(input, DEFAULT_BACKFILL_LINES);
    var f := s.file.content + late;
    var b := |s.file.content|;
    assert f[b..b] == [] && f[..|f|] == f;
    GrownKeepsInv(s, late);
    TailIsBackfill(f, limits);
  }

  lemma StepKeepsInv(s: State, e: Event)
    requires Inv(s)
    ensures Inv(Step(s, e))
  {
    match e
    case Append(data) => GrownKeepsInv(s, data);
    case Replace(file) =>
    case ScanAcross(_, _) =>
    case Scan(input, late) =>
      if Resumes(Monitor, s.cursor, s.file) {
        GrownKeepsInv(s, late);
        if s.cursor.value.offset >= 0 {
          ResumedKeepsInv(Grown(s, late), NormalizeLimits(input, DEFAULT_BACKFILL_LINES));
        }
      } else {
        RestartKeepsInv(s, input, late);
      }
  }

  lemma {:induction false} RunKeepsInv(s: State, events: seq<Event>)
    requires Inv(s)
    ensures Inv(Run(s, events))
    decreases |events|
  {
    if events != [] {
      StepKeepsInv(s, events[0]);
      RunKeepsInv(Step(s, events[0]), events[1..]);
    }
  }

  /** Exactly once: after any run, while the cursor tracks its file, the raw lines of the resumed scans make
      up the bytes between the offset where they began and the cursor, with no gap and no repeat, and the
      messages returned are those of these raw lines in this order. */
  lemma ExactlyOnce(file: File, events: seq<Event>)
    ensures var s := Run(Init(file), events);
      Tracks(s) ==>
        && s.base <= s.cursor.value.offset <= |s.file.content|
        && Concat(s.chunks) == s.file.content[s.base..s.cursor.value.offset]
        && s.entries == Messages(s.chunks)
  {
    RunKeepsInv(Init(file), events);
  }

  /** The messages of all the resumed scans are those of one scan over the same bytes, without limits, if
      and only if no scan but the last ended inside a line. */
  lemma SameAsOneScan(file: File, events: seq<Event>)
    ensures var s := Run(Init(file), events);
      Tracks(s) ==>
        && s.base <= s.cursor.value.offset <= |s.file.content|
        && (s.entries == Messages(Chunks(s.file.content[..s.cursor.value.offset], s.base))
            <==> TerminatedButLast(s.chunks))
        && (s.whole ==> TerminatedButLast(s.chunks))
  {
    hide Chunks, Concat, CleanLines;
    RunKeepsInv(Init(file), events);
    var s := Run(Init(file), events);
    if Tracks(s) {
      var g := s.file.content[..s.cursor.value.offset];
      CutGluedIff(s.chunks);
      ChunksShift(g, s.base, 0);
      assert g[s.base..] == s.file.content[s.base..s.cursor.value.offset];
    }
  }

  /** What one unlimited read of `f` from `o` returns. */
  lemma UnlimitedRead(f: Bytes, o: nat, maxLines: nat, maxBytes: nat)
    requires o <= |f| <= maxLines && |f| <= maxBytes
    ensures ReadSpec(f, o, maxLines, maxBytes) == Read(Messages(Chunks(f, o)), |f| - o, false, |f|)
  {
    hide Chunks, Concat, Greedy, Total;
    var cs := Chunks(f, o);
    ChunksGlue(f, o);
    TotalIsLength(cs);
    ChunksBounded(f, o);
    assert cs[..|cs|] == cs;
    GreedyIsLongest(cs, maxLines, maxBytes, |cs|);
  }

  /** On a log whose lines are complete whenever it is scanned: the first scan has returned the lines from
      `first` to the end of what it read, and all the scans after it those from `base` to the cursor, each in
      order and once. */
  lemma EachScansLines(s: State)
    requires Inv(s) && Tracks(s) && s.whole && LineStart(s.file.content, s.base)
    requires s.base + s.ahead <= |s.file.content| && CleanLines(s.file.content[..s.base + s.ahead])
    ensures var f, mid, p := s.file.content, s.base + s.ahead, s.cursor.value.offset;
      && s.first <= mid && s.base <= p <= |f|
      && s.backfill == Messages(Chunks(f[..mid], s.first)) && s.entries == Messages(Chunks(f[..p], s.base))
      && s.first + s.backfillBytes == mid
      && LineStart(f, s.first) && LineStart(f, mid) && LineStart(f, p)
  {
    hide Chunks, Concat;
    var f, p := s.file.content, s.cursor.value.offset;
    CutGlued(s.chunks);
    ChunksShift(f[..p], s.base, 0);
    assert f[..p][s.base..] == f[s.base..p];
    if s.chunks != [] {
      LastByte(s.chunks);
      assert f[s.base..p][|f[s.base..p]| - 1] == f[p - 1];
    } else {
      assert f[s.base..p] == [] by { NothingConcats(); }
    }
  }

  lemma NothingConcats()
    ensures Concat([]) == []
  {}

  /** With the backfill: on a log whose lines are complete whenever it is scanned, the tail of the first scan
      and all the scans after it together return every line from the first one kept to the cursor, once, if
      nothing was appended while the first scan went on. */
  lemma BackfillThenExactlyOnce(file: File, events: seq<Event>)
    ensures var s := Run(Init(file), events);
      Tracks(s) && s.whole && s.ahead == 0 && s.base <= |s.file.content| && CleanLines(s.file.content[..s.base]) ==>
        && s.first == s.base - s.backfillBytes && s.base <= s.cursor.value.offset <= |s.file.content|
        && s.backfill + s.entries == Messages(Chunks(s.file.content[..s.cursor.value.offset], s.first))
  {
    RunKeepsInv(Init(file), events);
    var s := Run(Init(file), events);
    if Tracks(s) && s.whole && s.ahead == 0 && CleanLines(s.file.content[..s.base]) {
      var f, p := s.file.content, s.cursor.value.offset;
      SumStartsLine(f[..s.base], f[s.base..]);
      assert f[..s.base] + f[s.base..] == f;
      hide CleanLines, Chunks, Inv;
      EachScansLines(s);
      assert f[..p][..s.base] == f[..s.base];
      TwoParts(f, s.first, s.base, p);
    }
  }

  lemma SumStartsLine(f: Bytes, g: Bytes)
    requires CleanLines(f)
    ensures LineStart(f + g, |f|)
  {}

  /** What the first scan and the resumed ones have both returned: from `start`, the first place that both have
      to do with, to `end`, the last that both have reached. */
  ghost predicate ReturnedTwice(s: State, start: nat, end: nat)
    requires Tracks(s) && s.first <= start <= end && s.base <= start && s.base + s.ahead <= |s.file.content|
    requires end <= s.base + s.ahead && end <= s.cursor.value.offset <= |s.file.content|
  {
    var f, mid, p := s.file.content, s.base + s.ahead, s.cursor.value.offset;
    && s.backfill ==
         Messages(Chunks(f[..start], s.first)) + Messages(Chunks(f[..end], start)) + Messages(Chunks(f[..mid], end))
    && s.entries ==
         Messages(Chunks(f[..start], s.base)) + Messages(Chunks(f[..end], start)) + Messages(Chunks(f[..p], end))
    && (Chunks(f[..end], start) == [] <==> start == end)
  }

  lemma StretchIsReturnedTwice(s: State, start: nat, end: nat)
    requires Inv(s) && Tracks(s) && s.whole && LineStart(s.file.content, s.base)
    requires s.base + s.ahead <= |s.file.content| && CleanLines(s.file.content[..s.base + s.ahead])
    requires start == (if s.first < s.base then s.base else s.first) <= end
    requires end == (if s.cursor.value.offset < s.base + s.ahead then s.cursor.value.offset else s.base + s.ahead)
    requires s.cursor.value.offset <= |s.file.content|
    ensures ReturnedTwice(s, start, end)
  {
    hide Inv, CleanLines, Chunks, LineStart;
    var f, b, mid, p := s.file.content, s.base, s.base + s.ahead, s.cursor.value.offset;
    EachScansLines(s);
    PartsOf(f, s.first, start, end, mid);
    PartsOf(f, b, start, end, p);
    CutStep(f[..end], start);
  }

  /** The log was complete lines whenever it was scanned. */
  ghost predicate CleanlyScanned(s: State) {
    && Tracks(s) && s.whole && s.base + s.ahead <= |s.file.content|
    && LineStart(s.file.content, s.base) && CleanLines(s.file.content[..s.base + s.ahead])
  }

  /** The first scan has returned its lines in order, and the resumed ones theirs; both have the stretch from
      `start` to `end`. */
  ghost predicate Repeats(s: State)
    requires CleanlyScanned(s)
  {
    var f, mid, p := s.file.content, s.base + s.ahead, s.cursor.value.offset;
    && s.first <= mid && s.base <= p <= |f|
    && s.backfill == Messages(Chunks(f[..mid], s.first)) && s.entries == Messages(Chunks(f[..p], s.base))
    && var start := if s.first < s.base then s.base else s.first;
    var end := if p < mid then p else mid;
    start <= end ==> ReturnedTwice(s, start, end)
  }

  lemma CleanRepeats(s: State)
    requires Inv(s) && CleanlyScanned(s)
    ensures Repeats(s)
  {
    EachScansLines(s);
    hide Inv, Chunks, LineStart, ReturnedTwice, Messages;
    var mid, p := s.base + s.ahead, s.cursor.value.offset;
    var start := if s.first < s.base then s.base else s.first;
    var end := if p < mid then p else mid;
    if start <= end { StretchIsReturnedTwice(s, start, end); }
  }

  /** And if something was: over every run, the stretch from `start` to `end` is returned twice, and what is
      before it and after it, by either, once. It is empty as long as the cursor has not come past `start`. */
  lemma BackfillThenRepeats(file: File, events: seq<Event>)
    ensures var s := Run(Init(file), events); CleanlyScanned(s) ==> Repeats(s)
  {
    RunKeepsInv(Init(file), events);
    var s := Run(Init(file), events);
    hide Inv, Run, CleanlyScanned, Repeats;
    if CleanlyScanned(s) { CleanRepeats(s); }
  }

  lemma PartsOf(f: Bytes, a: nat, b: nat, c: nat, d: nat)
    requires a <= b <= c <= d <= |f| && LineStart(f, b) && LineStart(f, c)
    ensures Messages(Chunks(f[..d], a)) ==
      Messages(Chunks(f[..b], a)) + Messages(Chunks(f[..c], b)) + Messages(Chunks(f[..d], c))
  {
    hide Chunks, Messages;
    assert f[..d][..b] == f[..b] && f[..d][..c] == f[..c];
    ThreeParts(f[..d], a, b, c);
  }
}
