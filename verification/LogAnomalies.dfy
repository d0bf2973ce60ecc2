/** What a cursor of inode and offset cannot see, and exactly when it matters: a file rewritten under the
    same inode, lines appended while a tail goes on, and lines that were incomplete when they were read. */
module LogAnomalies {
  import opened LogLines
  import opened LogReaders
  import opened LogScanner
  import opened LogMonitor
  import opened Text
  import opened Wrappers

  // ---- Rewrites under the same inode ----

  /** A rewrite is noticed by the next scan if and only if the file is then shorter than the cursor: what was
      appended to the rewritten file before that scan looks it up counts too. A scan that notices starts again
      from the tail and says so; one that does not resumes in the middle of the new text. (A cursor that names
      no inode is never resumed.) */
  lemma RewriteIsNoticedIff(s: State, g: Bytes, d: Bytes, input: Limits, late: Bytes)
    requires Inv(s) && Tracks(s) && !Blank(s.file.inode)
    ensures var o := s.cursor.value.offset;
      var t := Step(Step(s, Replace(File(s.file.inode, g))), Append(d));
      var r := ScanSpec(Monitor, NormalizeLimits(input, DEFAULT_BACKFILL_LINES), t.cursor, t.file, g + d + late);
      var u := Step(t, Scan(input, late));
      && (r.Done? ==> (r.result.reset == Truncated <==> |g + d| < o) && (r.result.reset == NoReset <==> o <= |g + d|))
      && (o <= |g + d| ==> r.Done? && o <= u.cursor.value.offset && u.base == s.base && s.chunks <= u.chunks)
      && (|g + d| < o && r.Done? ==> Tracks(u) && Inv(u) && u.base == |g + d| && u.chunks == [])
      && (|g + d| < o && !r.Done? ==> r == Aborted(LineTooLong) && u.cursor == s.cursor)
  {
    hide Chunks, TailSpec, Scannable, Blank, Front, Taken, Total;
    var t := Step(s, Replace(File(s.file.inode, g)));
    StepKeepsInv(s, Replace(File(s.file.inode, g)));
    StepKeepsInv(t, Append(d));
    StepKeepsInv(Step(t, Append(d)), Scan(input, late));
  }

  /** A rotation while a scan goes on: the scan may take the new file for the old one, but the next one that
      finds the new file again starts from its tail, and says so. */
  lemma RotationDuringScanIsNoticed(s: State, input: Limits, now: File, d: Bytes, next: Limits, late: Bytes)
    requires now.inode != s.file.inode && !Blank(s.file.inode)
    ensures var r := ScanSpec(Monitor, NormalizeLimits(input, DEFAULT_BACKFILL_LINES), s.cursor, s.file, now.content);
      var t := Step(Step(s, ScanAcross(input, now)), Append(d));
      var q := ScanSpec(Monitor, NormalizeLimits(next, DEFAULT_BACKFILL_LINES), t.cursor, t.file,
                        now.content + d + late);
      var u := Step(t, Scan(next, late));
      r.Done? ==>
        if q.Done? then
          q.result.reset == Rotated && Tracks(u) && Inv(u) && u.base == |now.content + d| && u.chunks == []
        else q == Aborted(LineTooLong)
  {
    hide Chunks, TailSpec, ReadSpec, Scannable, Blank, Front, Taken, Total;
    var t := Step(Step(s, ScanAcross(input, now)), Append(d));
    assert !Tracks(t);
    StepKeepsInv(t, Scan(next, late));
  }

  /** The state after a rewrite to `g`, which was consumed up to `o` before, and some scans: they have added
      the bytes from `o` on to the `before` that were consumed. */
  ghost predicate After(u: State, inode: string, base: nat, before: Bytes, g: Bytes, o: nat) {
    && u.cursor.Some? && u.cursor.value.inode == u.file.inode == inode && u.base == base
    && base <= o <= u.cursor.value.offset <= |u.file.content| && o <= |g|
    && u.file.content[..o] == g[..o]
    && Concat(u.chunks) == before + u.file.content[o..u.cursor.value.offset]
  }

  predicate NoRewrite(events: seq<Event>) {
    forall i :: 0 <= i < |events| ==> events[i].Append? || events[i].Scan?
  }

  lemma GrownStaysAfter(u: State, data: Bytes, inode: string, base: nat, before: Bytes, g: Bytes, o: nat)
    requires After(u, inode, base, before, g, o)
    ensures After(Grown(u, data), inode, base, before, g, o)
  {
    hide Concat;
    SliceOfSum(u.file.content, data, 0, o);
    SliceOfSum(u.file.content, data, o, u.cursor.value.offset);
  }

  lemma ResumedStaysAfter(u: State, limits: Limits, inode: string, base: nat, before: Bytes, g: Bytes, o: nat)
    requires After(u, inode, base, before, g, o) && 1 <= limits.maxLines && 1 <= limits.maxBytes
    ensures After(Resumed(u, limits, ReadSpec(u.file.content, u.cursor.value.offset, limits.maxLines, limits.maxBytes)),
                  inode, base, before, g, o)
  {
    hide Chunks, Concat, Total, Taken, AllChunks, Terminated, EndsInsideLine;
    var f, p := u.file.content, u.cursor.value.offset;
    TakenMeaning(f, p, limits.maxLines, limits.maxBytes);
    var taken := Taken(f, p, limits.maxLines, limits.maxBytes);
    ConcatAppend(u.chunks, taken);
    assert f[o..p + Total(taken)] == f[o..p] + f[p..p + Total(taken)];
  }

  lemma StepStaysAfter(u: State, e: Event, inode: string, base: nat, before: Bytes, g: Bytes, o: nat)
    requires After(u, inode, base, before, g, o) && (e.Append? || e.Scan?) && !Blank(inode)
    ensures After(Step(u, e), inode, base, before, g, o)
  {
    hide Chunks, Concat, Blank;
    match e
    case Append(data) => GrownStaysAfter(u, data, inode, base, before, g, o);
    case Scan(input, late) =>
      GrownStaysAfter(u, late, inode, base, before, g, o);
      ResumedStaysAfter(Grown(u, late), NormalizeLimits(input, DEFAULT_BACKFILL_LINES), inode, base, before, g, o);
  }

  lemma {:induction false} RunStaysAfter(u: State, events: seq<Event>, inode: string, base: nat, before: Bytes,
                                         g: Bytes, o: nat)
    requires After(u, inode, base, before, g, o) && NoRewrite(events) && !Blank(inode)
    ensures After(Run(u, events), inode, base, before, g, o)
    decreases |events|
  {
    hide After, Blank, Step;
    if events != [] {
      StepStaysAfter(u, events[0], inode, base, before, g, o);
      RunStaysAfter(Step(u, events[0]), events[1..], inode, base, before, g, o);
    }
  }

  /** Where the lines begin that were returned and are not to be returned again. */
  function FirstReturned(s: State): nat {
    if s.first < s.base then s.first else s.base
  }

  /** A rewrite that leaves the file no shorter than the cursor is not noticed. Whatever is appended and
      scanned after it, what was returned up to the cursor (by the tail from its first line to `base`, and from
      there by the scans that resumed) is a stretch of the file if and only if the rewrite kept these bytes;
      otherwise it is never one again, until the next reset. */
  lemma RewriteIsHarmlessIff(s: State, g: Bytes, events: seq<Event>)
    requires Inv(s) && Tracks(s) && !Blank(s.file.inode)
    requires s.cursor.value.offset <= |g| && NoRewrite(events)
    ensures var o, from, f := s.cursor.value.offset, FirstReturned(s), s.file.content;
      var u := Run(Step(s, Replace(File(s.file.inode, g))), events);
      && u.cursor.Some? && u.base == s.base && from <= s.base <= o <= u.cursor.value.offset <= |u.file.content|
      && o <= |f| && u.backfill == s.backfill
      && (f[from..s.base] + Concat(u.chunks) == u.file.content[from..u.cursor.value.offset]
          <==> g[from..o] == f[from..o])
  {
    var o, f := s.cursor.value.offset, s.file.content;
    var t := Step(s, Replace(File(s.file.inode, g)));
    hide Concat, Run, Blank;
    assert f[s.base..o] + g[o..o] == f[s.base..o];
    RunStaysAfter(t, events, s.file.inode, s.base, f[s.base..o], g, o);
    SameBackfill(t, events, s.file.inode, s.base, f[s.base..o], g, o);
    AfterMeans(Run(t, events), s.file.inode, s.base, f, g, o, FirstReturned(s));
  }

  /** The scans after it all resume: what the tail returned stays. */
  lemma {:induction false} SameBackfill(u: State, events: seq<Event>, inode: string, base: nat, before: Bytes,
                                        g: Bytes, o: nat)
    requires After(u, inode, base, before, g, o) && NoRewrite(events) && !Blank(inode)
    ensures Run(u, events).backfill == u.backfill
    decreases |events|
  {
    hide Blank, Chunks, Concat;
    if events != [] {
      StepStaysAfter(u, events[0], inode, base, before, g, o);
      assert Step(u, events[0]).backfill == u.backfill;
      hide After, Step;
      SameBackfill(Step(u, events[0]), events[1..], inode, base, before, g, o);
    }
  }

  lemma AfterMeans(u: State, inode: string, base: nat, f: Bytes, g: Bytes, o: nat, from: nat)
    requires from <= base <= o <= |f| && After(u, inode, base, f[base..o], g, o)
    ensures f[from..base] + Concat(u.chunks) == u.file.content[from..u.cursor.value.offset]
      <==> g[from..o] == f[from..o]
  {
    hide Concat;
    var c, p := u.file.content, u.cursor.value.offset;
    assert c[from..o] == c[..o][from..] == g[..o][from..] == g[from..o];
    assert f[from..base] + (f[base..o] + c[o..p]) == f[from..o] + c[o..p];
    SameFront(f[from..o], g[from..o], c[o..p]);
    assert c[from..p] == c[from..o] + c[o..p];
  }

  lemma SameFront(a: Bytes, b: Bytes, rest: Bytes)
    requires |a| == |b|
    ensures a + rest == b + rest <==> a == b
  {
    assert a == (a + rest)[..|a|] && b == (b + rest)[..|b|];
  }

  lemma RegrownScan()
    ensures var limits := Limits(10, 100, 10);
      var rewritten := File("7", [98, 98, NL, 99, 99, NL]);
      var r := ScanSpec(Monitor, limits, Some(Cursor("7", 2)), rewritten, rewritten.content);
      r.Done? && r.result.reset == NoReset && r.result.entries == [[], [99, 99]]
  {
    hide Chunks, Greedy, TrimCRLF;
    var f: Bytes := [98, 98, NL, 99, 99, NL];
    var first: Bytes, second: Bytes := [NL], [99, 99, NL];
    CutFirst(second, []);
    assert second + [] == second;
    assert Chunks([], 0) == [] by { ChunksAtEnd([], 0); }
    CutFirst(first, second);
    assert f[2..] == first + second;
    ChunksShift(f, 2, 0);
    var cs := Chunks(f, 2);
    assert cs == [first, second];
    UnlimitedRead(f, 2, 10, 100);
    TrimOne([]);
    TrimOne([99, 99]);
    assert [] + [NL] == first && [99, 99] + [NL] == second;
    assert Messages(cs) == [[], [99, 99]];
    NotBlank("7", 0);
  }

  lemma OneLineTail()
    ensures var f: Bytes := [97, NL];
      var s := Step(Init(File("7", f)), Scan(Limits(10, 100, 10), []));
      && s.cursor == Some(Cursor("7", 2)) && s.base == 2 && s.first == 0 && s.backfill == [[97]]
      && s.chunks == [] && s.entries == [] && s.file == File("7", f) && Inv(s) && Tracks(s)
  {
    hide Chunks, TailSpec, TrimCRLF, Blank;
    var f: Bytes := [97, NL];
    assert f + [] == f;
    CutFirst(f, []);
    ChunksAtEnd([], 0);
    assert Chunks(f, 0) == [f];
    WholeTail(f, Limits(10, 100, 10));
    TrimOne([97]);
    assert [97] + [NL] == f;
    StepKeepsInv(Init(File("7", f)), Scan(Limits(10, 100, 10), []));
  }

  /** The harmful case as a run: "a" is scanned, the file is rewritten to "bb" and "cc", and scanned again. The
      line "bb" is never returned, an empty one is, and what was returned is no stretch of the file. */
  lemma RegrownFileLosesItsStart()
    ensures var limits := Limits(10, 100, 10);
      var s := Step(Init(File("7", [97, NL])), Scan(limits, []));
      var u := Run(Step(s, Replace(File("7", [98, 98, NL, 99, 99, NL]))), [Scan(limits, [])]);
      && u.backfill == [[97]] && u.entries == [[], [99, 99]]
      && FirstReturned(s) == 0 && s.base == 2 && u.cursor.Some? && 0 <= u.cursor.value.offset <= |u.file.content|
      && s.file.content[0..s.base] + Concat(u.chunks) != u.file.content[0..u.cursor.value.offset]
  {
    var limits := Limits(10, 100, 10);
    var f: Bytes, g: Bytes := [97, NL], [98, 98, NL, 99, 99, NL];
    hide Chunks, Concat, Step, Inv, TrimCRLF, Blank;
    OneLineTail();
    NotBlank("7", 0);
    var s := Step(Init(File("7", f)), Scan(limits, []));
    var t := Step(s, Replace(File("7", g)));
    assert g[0..2][0] == 98 && f[0..2][0] == 97;
    RewriteIsHarmlessIff(s, g, [Scan(limits, [])]);
    RunCons(t, Scan(limits, []), []);
    AfterRegrown(s, t);
  }

  lemma AfterRegrown(s: State, t: State)
    requires s.cursor == Some(Cursor("7", 2)) && s.backfill == [[97]] && s.entries == []
    requires t == Step(s, Replace(File("7", [98, 98, NL, 99, 99, NL])))
    ensures var u := Step(t, Scan(Limits(10, 100, 10), [])); u.backfill == [[97]] && u.entries == [[], [99, 99]]
  {
    hide Chunks, ReadSpec, Taken, Blank;
    var g: Bytes := [98, 98, NL, 99, 99, NL];
    assert g + [] == g;
    RegrownScan();
    NotBlank("7", 0);
  }

  lemma TrimOne(t: Bytes)
    requires t == [] || (t[|t| - 1] != NL && t[|t| - 1] != CR)
    ensures TrimCRLF(t + [NL]) == t
  {
    assert (t + [NL])[..|t|] == t;
  }

  // ---- Lines appended while a tail goes on ----

  /** What a first scan returns that finds `f` and reads `all`, by the place where it begins. */
  lemma TailFrom(limits: Limits, f: Bytes, all: Bytes, inode: string)
    requires 1 <= limits.maxLines && 1 <= limits.maxBytes && 1 <= limits.backfillLines && CleanLines(all)
    ensures var first := ScanSpec(Monitor, limits, None, File(inode, f), all);
      first.Done? ==>
        && first.result.bytesRead <= |all| && first.result.cursor == Cursor(inode, |f|)
        && LineStart(all, |all| - first.result.bytesRead)
        && first.result.entries == Messages(Chunks(all, |all| - first.result.bytesRead))
  {
    hide Chunks, TailSpec, ReadSpec, ResetOf, Scannable, TooLong, CleanLines, LineStart, Messages, Blank, TrimCRLF;
    TailStarts(all, limits.backfillLines, limits.maxLines, limits.maxBytes);
  }

  lemma TailStarts(all: Bytes, backfill: nat, maxLines: nat, maxBytes: nat)
    requires CleanLines(all)
    ensures var t := TailSpec(all, backfill, maxLines, maxBytes);
      && t.bytesRead <= |all| && LineStart(all, |all| - t.bytesRead)
      && t.entries == Messages(Chunks(all, |all| - t.bytesRead))
  {
    hide Chunks, Total, TailSpec, CleanLines, LineStart, Messages, TrimCRLF;
    var start := TailKeepsChunks(all, backfill, maxLines, maxBytes);
    RestStartsAt(all, start);
    StartsAfter(all, start);
  }

  lemma StartsAfter(all: Bytes, n: nat)
    requires CleanLines(all) && n <= |Chunks(all, 0)|
    ensures LineStart(all, Total(Chunks(all, 0)[..n]))
  {
    LineStarts(all, 0, n);
  }

  /** The last line of a file, if it has one. */
  function LastLine(f: Bytes): Bytes {
    var cs := Chunks(f, 0);
    if cs == [] then [] else cs[|cs| - 1]
  }

  lemma LastLineOfSum(f: Bytes, g: Bytes)
    requires CleanLines(f) && CleanLines(g) && g != []
    ensures LastLine(f + g) == LastLine(g) && Chunks(f + g, 0) != [] && Chunks(g, 0) != []
  {
    hide Chunks, CleanLines;
    CleanGlue(f, g);
    CutStep(g, 0);
  }

  /** A tail scan stores the size that `stat` saw but returns what it then reads, so lines appended in between
      come again. For all texts and limits: the tail returns the lines from `from` to the end, the scans after
      it are to return those from the end of `f` on, and both have those from `start` on. There are none,
      so that no line is repeated, if and only if nothing was appended in between or the last line of it is
      too long for the tail. */
  lemma AppendedDuringTailIsRepeated(f: Bytes, g: Bytes, inode: string, limits: Limits)
    requires 1 <= limits.maxLines && 1 <= limits.maxBytes && 1 <= limits.backfillLines
    requires CleanLines(f) && CleanLines(g)
    ensures var all := f + g;
      var first := ScanSpec(Monitor, limits, None, File(inode, f), all);
      first.Done? ==>
        && first.result.cursor == Cursor(inode, |f|) && first.result.bytesRead <= |all|
        && var from := |all| - first.result.bytesRead;
        var start := if from < |f| then |f| else from;
        && first.result.entries == Messages(Chunks(all[..start], from)) + Messages(Chunks(all, start))
        && Messages(Chunks(all, |f|)) == Messages(Chunks(all[..start], |f|)) + Messages(Chunks(all, start))
        && (Chunks(all, start) == [] <==> g == [] || |LastLine(g)| > limits.maxBytes)
  {
    hide Chunks, CleanLines, ScanSpec, Messages;
    var all := f + g;
    CleanSum(f, g);
    TailFrom(limits, f, all, inode);
    var first := ScanSpec(Monitor, limits, None, File(inode, f), all);
    if first.Done? {
      SumStartsLine(f, g);
      var from := |all| - first.result.bytesRead;
      var start := if from < |f| then |f| else from;
      TailIsNothingIff(limits, f, g, inode);
      FromLineStart(all, from, start);
      FromLineStart(all, |f|, start);
      CutStep(all, start);
    }
  }

  lemma FromLineStart(all: Bytes, a: nat, b: nat)
    requires a <= b && LineStart(all, b)
    ensures Messages(Chunks(all, a)) == Messages(Chunks(all[..b], a)) + Messages(Chunks(all, b))
  {
    hide Chunks, Messages;
    CutAtLineStart(all, a, b);
    MessagesJoin(Chunks(all[..b], a), Chunks(all, b));
  }

  lemma TailIsNothingIff(limits: Limits, f: Bytes, g: Bytes, inode: string)
    requires 1 <= limits.maxLines && 1 <= limits.maxBytes && 1 <= limits.backfillLines
    requires CleanLines(f) && CleanLines(g)
    ensures var first := ScanSpec(Monitor, limits, None, File(inode, f), f + g);
      first.Done? && g != [] ==> (first.result.bytesRead == 0 <==> |LastLine(g)| > limits.maxBytes)
  {
    hide Chunks, TailSpec, ReadSpec, Scannable, CleanLines;
    if g != [] {
      CleanSum(f, g);
      LastLineOfSum(f, g);
      TailIsEmptyIff(f + g, limits.backfillLines, limits.maxLines, limits.maxBytes);
    }
  }

  /** With limits that allow it, that is everything appended in between. */
  lemma AllOfItIsRepeated(f: Bytes, g: Bytes, inode: string, limits: Limits, next: Limits)
    requires |f| + |g| <= limits.maxLines && |f| + |g| <= limits.maxBytes && |f| + |g| <= limits.backfillLines
    requires |f| + |g| <= next.maxLines && |f| + |g| <= next.maxBytes && 1 <= next.backfillLines
    requires CleanLines(f) && CleanLines(g) && !Blank(inode) && f != []
    ensures var all := f + g;
      var first := ScanSpec(Monitor, limits, None, File(inode, f), all);
      first.Done? ==>
        && first.result.entries == Messages(Chunks(f, 0)) + Messages(Chunks(g, 0))
        && var second := ScanSpec(Monitor, next, Some(first.result.cursor), File(inode, all), all);
        second.Done? && second.result.entries == Messages(Chunks(g, 0))
  {
    hide Chunks, CleanLines, Scannable, TailSpec, ReadSpec, Blank, TrimCRLF;
    var all := f + g;
    CleanSum(f, g);
    WholeTail(all, limits);
    CleanGlue(f, g);
    MessagesJoin(Chunks(f, 0), Chunks(g, 0));
    ChunksShift(all, |f|, 0);
    assert all[|f|..] == g;
    UnlimitedRead(all, |f|, next.maxLines, next.maxBytes);
  }

  lemma CleanGlue(f: Bytes, g: Bytes)
    requires CleanLines(f) && CleanLines(g)
    ensures Chunks(f + g, 0) == Chunks(f, 0) + Chunks(g, 0)
  {
    hide Chunks, CleanLines;
    SumStartsLine(f, g);
    CutAtLineStart(f + g, 0, |f|);
    assert (f + g)[..|f|] == f && (f + g)[|f|..] == g;
    ChunksShift(f + g, |f|, 0);
  }

  /** The tail of a clean file within all limits is all of it. */
  lemma WholeTail(f: Bytes, limits: Limits)
    requires CleanLines(f) && |f| <= limits.maxLines && |f| <= limits.maxBytes && |f| <= limits.backfillLines
    ensures TailSpec(f, limits.backfillLines, limits.maxLines, limits.maxBytes).entries == Messages(Chunks(f, 0))
  {
    hide Chunks, Sizes, Concat, Total;
    var cs := Chunks(f, 0);
    ChunksGlue(f, 0);
    ChunksBounded(f, 0);
    TotalIsLength(cs);
    CleanChunks(f, 0);
    CleanSizes(cs);
    assert f[0..] == f;
    var w := Window(f, limits.backfillLines);
    assert w[0..] == w;
    assert SuffixFits(w, 0, limits.maxLines, limits.maxBytes);
  }

  lemma CleanSum(f: Bytes, g: Bytes)
    requires CleanLines(f) && CleanLines(g)
    ensures CleanLines(f + g)
  {}

  // ---- Lines that were incomplete when they were read ----

  /** A scan takes at least the first line if that alone fits the byte budget. */
  lemma TakesFirst(f: Bytes, o: nat, maxLines: nat, maxBytes: nat)
    requires o < |f| && 1 <= maxLines && LineEnd(f, o) - o <= maxBytes
    ensures var taken := Taken(f, o, maxLines, maxBytes); taken != [] && taken[0] == f[o..LineEnd(f, o)]
  {
    hide Chunks, Greedy, Total;
    CutStep(f, o);
    var cs := Chunks(f, o);
    GreedyIsLongest(cs, maxLines, maxBytes, 1);
    assert cs[..1] == [cs[0]] + [];
    GlueStep(cs[0], []);
    GlueNone();
  }

  lemma ScanResumes(s: State, input: Limits)
    requires s.cursor.Some? && s.cursor.value.inode == s.file.inode && !Blank(s.file.inode)
    requires 0 <= s.cursor.value.offset <= |s.file.content|
    ensures var l := NormalizeLimits(input, DEFAULT_BACKFILL_LINES);
      Step(s, Scan(input, [])) ==
        Resumed(s, l, ReadSpec(s.file.content, s.cursor.value.offset, l.maxLines, l.maxBytes))
  {
    hide ReadSpec, Taken, Blank;
    assert s.file.content + [] == s.file.content;
    assert Grown(s, []) == s;
  }

  /** A tracked file whose end was reached grows by `a` and is scanned. */
  lemma ScanPiece(s: State, a: Bytes, input: Limits) returns (u: State)
    requires Inv(s) && Tracks(s) && !Blank(s.file.inode) && s.cursor.value.offset <= |s.file.content|
    requires var f := s.file.content + a;
      var o := s.cursor.value.offset;
      o < |f| && LineEnd(f, o) - o <= NormalizeLimits(input, DEFAULT_BACKFILL_LINES).maxBytes
    ensures u == Step(Step(s, Append(a)), Scan(input, []))
    ensures Inv(u) && Tracks(u) && u.file.inode == s.file.inode && u.file.content == s.file.content + a
    ensures var o := s.cursor.value.offset;
      |s.chunks| < |u.chunks| && u.chunks[..|s.chunks|] == s.chunks
      && u.chunks[|s.chunks|] == u.file.content[o..LineEnd(u.file.content, o)]
  {
    hide Chunks, ReadSpec, Taken, Blank, Inv, EndsInsideLine, LineEnd;
    var grown := Step(s, Append(a));
    var l := NormalizeLimits(input, DEFAULT_BACKFILL_LINES);
    StepKeepsInv(s, Append(a));
    StepKeepsInv(grown, Scan(input, []));
    Positive(s);
    TakesFirst(grown.file.content, s.cursor.value.offset, l.maxLines, l.maxBytes);
    ScanResumes(grown, input);
    u := Step(grown, Scan(input, []));
    var taken := Taken(grown.file.content, s.cursor.value.offset, l.maxLines, l.maxBytes);
    assert u.chunks == s.chunks + taken;
  }

  lemma Positive(s: State)
    requires Inv(s) && Tracks(s)
    ensures 0 <= s.base <= s.cursor.value.offset <= |s.file.content|
  {}

  /** A line that is written in two pieces, with a scan after each, comes out as two entries at least: the
      scans then return something else than one scan would. */
  lemma SplitLineIsTwoEntries(s: State, a: Bytes, b: Bytes, input: Limits)
    requires Inv(s) && Tracks(s) && !Blank(s.file.inode) && s.cursor.value.offset == |s.file.content|
    requires IsChunk(a) && !Terminated(a) && b != []
    requires |a| <= NormalizeLimits(input, DEFAULT_BACKFILL_LINES).maxBytes
    requires LineEnd(b, 0) <= NormalizeLimits(input, DEFAULT_BACKFILL_LINES).maxBytes
    ensures var u := Step(Step(Step(Step(s, Append(a)), Scan(input, [])), Append(b)), Scan(input, []));
      Tracks(u) && u.base <= u.cursor.value.offset <= |u.file.content|
      && u.entries != Messages(Chunks(u.file.content[..u.cursor.value.offset], u.base))
  {
    hide Chunks, Step, Blank;
    var o := |s.file.content|;
    var f := s.file.content + a;
    LineEndUnique(f, o, |f|);
    assert f[o..|f|] == a;
    var t := ScanPiece(s, a, input);
    ReachesEnd(s, t, a, input);
    LineEndOfSuffix(f, b);
    var u := ScanPiece(t, b, input);
    var k := |s.chunks|;
    assert u.chunks[..|t.chunks|][k] == t.chunks[k] == a;
    assert !TerminatedButLast(u.chunks) by { assert !Terminated(u.chunks[k]) && k < |u.chunks| - 1; }
    Positive(u);
    OneScanDiffers(u);
  }

  /** A run whose scans together return something else than one scan of the same bytes. */
  predicate ScansDiffer(file: File, events: seq<Event>) {
    var u := Run(Init(file), events);
    && Tracks(u) && 0 <= u.base <= u.cursor.value.offset <= |u.file.content|
    && u.entries != Messages(Chunks(u.file.content[..u.cursor.value.offset], u.base))
  }

  /** It does happen, to the line "ab" of a new file, scanned after its "a". */
  lemma ScansDoDiffer()
    ensures exists events :: ScansDiffer(File("7", []), events)
  {
    hide Step, Run, Chunks, Blank, Inv, NormalizeLimits, IsChunk, Terminated, LineEnd, Tracks, Messages, TrimCRLF;
    var input := Limits(0, 0, 0);
    var scan := Scan(input, []);
    var s := FirstScan("7");
    var a, b := Pieces();
    SplitLineIsTwoEntries(s, a, b, input);
    FiveSteps(Init(File("7", [])), scan, Append(a), scan, Append(b), scan);
    assert ScansDiffer(File("7", []), [scan, Append(a), scan, Append(b), scan]);
  }

  lemma Pieces() returns (a: Bytes, b: Bytes)
    ensures IsChunk(a) && !Terminated(a) && b != []
    ensures var l := NormalizeLimits(Limits(0, 0, 0), DEFAULT_BACKFILL_LINES);
      |a| <= l.maxBytes && LineEnd(b, 0) <= l.maxBytes
  {
    a, b := [97], [98, NL];
    hide LineEnd;
  }

  lemma FiveSteps(s: State, e1: Event, e2: Event, e3: Event, e4: Event, e5: Event)
    ensures Run(s, [e1, e2, e3, e4, e5]) == Step(Step(Step(Step(Step(s, e1), e2), e3), e4), e5)
  {
    hide Step;
    var s1 := Step(s, e1);
    var s2 := Step(s1, e2);
    var s3 := Step(s2, e3);
    RunCons(Step(s3, e4), e5, []);
    RunCons(s3, e4, [e5]);
    RunCons(s2, e3, [e4, e5]);
    RunCons(s1, e2, [e3, e4, e5]);
    RunCons(s, e1, [e2, e3, e4, e5]);
    hide Run;
    assert [e4] + [e5] == [e4, e5] && [e3] + [e4, e5] == [e3, e4, e5];
    assert [e2] + [e3, e4, e5] == [e2, e3, e4, e5] && [e1] + [e2, e3, e4, e5] == [e1, e2, e3, e4, e5];
  }

  lemma RunCons(s: State, e: Event, rest: seq<Event>)
    ensures Run(s, [e] + rest) == Run(Step(s, e), rest)
    ensures rest == [] ==> Run(s, [e]) == Step(s, e)
  {
    assert ([e] + rest)[1..] == rest;
    if rest == [] { assert [e] + rest == [e]; }
  }

  lemma FirstScan(inode: string) returns (s: State)
    requires inode == "7"
    ensures s == Step(Init(File(inode, [])), Scan(Limits(0, 0, 0), []))
    ensures Inv(s) && Tracks(s) && !Blank(s.file.inode) && s.file.content == [] && s.cursor.value.offset == 0
  {
    hide TailSpec, TrimSpace;
    var s0 := Init(File(inode, []));
    s := Step(s0, Scan(Limits(0, 0, 0), []));
    StepKeepsInv(s0, Scan(Limits(0, 0, 0), []));
    assert Chunks([], 0) == [] by { ChunksAtEnd([], 0); }
    NotBlank("7", 0);
  }

  lemma LineEndOfSuffix(f: Bytes, b: Bytes)
    requires b != []
    ensures LineEnd(f + b, |f|) == |f| + LineEnd(b, 0)
  {
    var e := LineEnd(b, 0);
    assert forall k :: |f| <= k < |f| + |b| ==> (f + b)[k] == b[k - |f|];
    LineEndUnique(f + b, |f|, |f| + e);
  }

  /** The scan of an unterminated piece ends at the end of the file. */
  lemma ReachesEnd(s: State, t: State, a: Bytes, input: Limits)
    requires Inv(t) && Tracks(t) && Inv(s) && Tracks(s) && s.cursor.value.offset == |s.file.content|
    requires t.file.content == s.file.content + a && t.chunks != [] && !Terminated(a)
    requires !Blank(s.file.inode) && t == Step(Step(s, Append(a)), Scan(input, []))
    requires |s.chunks| < |t.chunks| && t.chunks[|s.chunks|] == a && a != []
    ensures t.cursor.value.offset == |t.file.content|
  {
    hide Chunks, Blank, Inv, EndsInsideLine, LineEnd, Terminated, Total;
    Positive(s);
    var grown := Step(s, Append(a));
    var l := NormalizeLimits(input, DEFAULT_BACKFILL_LINES);
    ScanResumes(grown, input);
    var f, o := grown.file.content, s.cursor.value.offset;
    TakenMeaning(f, o, l.maxLines, l.maxBytes);
    var taken := Taken(f, o, l.maxLines, l.maxBytes);
    assert t.chunks == s.chunks + taken;
    assert taken[0] == a;
    EndsInside(f, o + Total(taken));
  }

  lemma EndsInside(f: Bytes, next: int)
    ensures EndsInsideLine(f, next) ==> next == |f|
  {}

  lemma OneScanDiffers(u: State)
    requires Inv(u) && Tracks(u) && !TerminatedButLast(u.chunks)
    ensures u.base <= u.cursor.value.offset <= |u.file.content|
    ensures u.entries != Messages(Chunks(u.file.content[..u.cursor.value.offset], u.base))
  {
    hide Chunks, Concat, TerminatedButLast, Terminated, Backfilled;
    var p := u.cursor.value.offset;
    var g := u.file.content[..p];
    CutGluedIff(u.chunks);
    ChunksShift(g, u.base, 0);
    assert g[u.base..] == u.file.content[u.base..p];
  }
}
