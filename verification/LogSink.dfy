/** The log sink of one task: two output scanners and the handler put lines into a bounded channel, one
    goroutine sends them on, and the handler closes the channel, waits for a while and cancels. Steps of
    all of these may interleave in any order; a step that is not enabled changes nothing. */
module LogSink {

  type Line = string

  const CAPACITY: nat := 512

  /** Where the handler is. `Execute` runs from `Starting` to `Returned`. */
  datatype HandlerPc =
    | Starting      // before the command runs: system lines only
    | Waiting       // in cmd.Wait and then scanWG.Wait, both scanners started
    | Wrapping      // after the scanners: parsed results and the exit code are logged
    | Returned      // Execute is back
    | Closed        // close(ch) was called, the drain is awaited
    | Drained       // the sink was done in time
    | TimedOut      // three seconds have passed
    | Cancelled     // the deferred cancel has run
    | Completed     // TaskCompleted was attempted

  datatype ScannerPc = NotStarted | Scanning | Finished

  datatype SinkPc =
    | Receiving
    | Holding(line: Line)   // received, the context not yet looked at
    | Checked(line: Line)   // the context was found live, TaskLog not yet called
    | Sending(line: Line)   // in realtime.TaskLog
    | Discarding
    | Stopped

  /** `accepted` and `attempted` are the lines put into the channel and the lines handed to TaskLog so far,
      `dropped` counts ReportLogDrop, `offered` all calls of Enqueue, `lateCalls` and `late` the TaskLog calls
      that were made and that have returned since the context ended, and `closes` how often the channel was
      closed. */
  datatype State = State(
    handler: HandlerPc, scanners: seq<ScannerPc>, sink: SinkPc,
    ch: seq<Line>, closed: bool, ctxEnded: bool,
    accepted: seq<Line>, attempted: seq<Line>, offered: nat, dropped: nat, lateCalls: nat, late: nat, closes: nat,
    panicked: bool)

  datatype Step =
    | HandlerLog(line: Line)
    | StartScanners
    | ScannerLog(k: nat, line: Line)
    | ScannerFinish(k: nat)
    | JoinScanners
    | ReturnFromExecute
    | CloseSink
    | SeeDone
    | GiveUpWaiting
    | CancelContext
    | Complete
    | EndContext                 // timeout, parent, or control watcher
    | SinkReceive
    | SinkCheck
    | CallTaskLog
    | SendReturns(failed: bool)
    | DiscardOne

  function Init(): State {
    State(Starting, [NotStarted, NotStarted], Receiving, [], false, false, [], [], 0, 0, 0, 0, 0, false)
  }

  /** `Enqueue`: never blocks. On a closed channel the send would panic. */
  function Enqueue(s: State, line: Line): State {
    if s.closed then s.(panicked := true)
    else if |s.ch| < CAPACITY then
      s.(ch := s.ch + [line], accepted := s.accepted + [line], offered := s.offered + 1)
    else s.(dropped := s.dropped + 1, offered := s.offered + 1)
  }

  predicate ScannersDone(s: State) {
    forall k :: 0 <= k < |s.scanners| ==> s.scanners[k] == Finished
  }

  function Do(s: State, step: Step): State {
    match step
    case HandlerLog(line) => if s.handler in {Starting, Wrapping} then Enqueue(s, line) else s
    case StartScanners =>
      if s.handler == Starting then s.(handler := Waiting, scanners := [Scanning, Scanning]) else s
    case ScannerLog(k, line) =>
      if k < |s.scanners| && s.scanners[k] == Scanning then Enqueue(s, line) else s
    case ScannerFinish(k) =>
      if k < |s.scanners| && s.scanners[k] == Scanning then s.(scanners := s.scanners[k := Finished]) else s
    case JoinScanners => if s.handler == Waiting && ScannersDone(s) then s.(handler := Wrapping) else s
    case ReturnFromExecute => if s.handler in {Starting, Wrapping} then s.(handler := Returned) else s
    case CloseSink =>
      if s.handler != Returned then s
      else if s.closed then s.(panicked := true)
      else s.(handler := Closed, closed := true, closes := s.closes + 1)
    case SeeDone => if s.handler == Closed && s.sink == Stopped then s.(handler := Drained) else s
    case GiveUpWaiting => if s.handler == Closed then s.(handler := TimedOut) else s
    case CancelContext =>
      if s.handler in {Drained, TimedOut} then s.(handler := Cancelled, ctxEnded := true) else s
    case Complete => if s.handler == Cancelled then s.(handler := Completed) else s
    case EndContext => s.(ctxEnded := true)
    case SinkReceive =>
      if s.sink != Receiving then s
      else if s.ch != [] then s.(sink := Holding(s.ch[0]), ch := s.ch[1..])
      else if s.closed then s.(sink := Stopped)
      else s
    case SinkCheck =>
      if !s.sink.Holding? then s
      else if s.ctxEnded then s.(sink := Discarding)
      else s.(sink := Checked(s.sink.line))
    case CallTaskLog =>
      if !s.sink.Checked? then s
      else
        s.(sink := Sending(s.sink.line), attempted := s.attempted + [s.sink.line],
           lateCalls := s.lateCalls + if s.ctxEnded then 1 else 0)
    case SendReturns(failed) =>
      if !s.sink.Sending? then s
      else
        s.(sink := if failed && s.ctxEnded then Discarding else Receiving,
           late := s.late + if s.ctxEnded then 1 else 0)
    case DiscardOne =>
      if s.sink != Discarding then s
      else if s.ch != [] then s.(ch := s.ch[1..])
      else if s.closed then s.(sink := Stopped)
      else s
  }

  function Run(s: State, steps: seq<Step>): State
    decreases |steps|
  {
    if steps == [] then s else Run(Do(s, steps[0]), steps[1..])
  }

  // ---- The ledger ----

  function Held(s: State): seq<Line> {
    if s.sink.Holding? || s.sink.Checked? then [s.sink.line] else []
  }

  predicate IsPrefix(a: seq<Line>, b: seq<Line>) {
    |a| <= |b| && a == b[..|a|]
  }

  /** The sink has thrown nothing away yet. */
  predicate Faithful(s: State) {
    s.accepted == s.attempted + Held(s) + s.ch
  }

  predicate BeforeClose(pc: HandlerPc) {
    pc in {Starting, Waiting, Wrapping, Returned}
  }

  /** What has become of the lines. */
  predicate LinesOk(s: State) {
    && |s.ch| <= CAPACITY
    && s.offered == |s.accepted| + s.dropped
    && IsPrefix(s.attempted, s.accepted)
    && (!s.ctxEnded || s.sink.Receiving? || s.sink.Holding? || s.sink.Checked? || s.sink.Sending? ==> Faithful(s))
  }

  /** Who may still log, and what the sink has left behind. */
  predicate ThreadsOk(s: State) {
    && |s.scanners| == 2
    && (s.closed <==> !BeforeClose(s.handler))
    && (s.handler != Waiting ==> s.scanners[0] != Scanning && s.scanners[1] != Scanning)
    && s.closes == (if s.closed then 1 else 0)
    && !s.panicked
    && (s.sink == Stopped ==> s.closed && s.ch == [])
  }

  /** What may still happen once the context has ended: a call already decided on, and its return. */
  predicate EndOk(s: State) {
    && (s.sink == Discarding ==> s.ctxEnded)
    && (!s.ctxEnded ==> s.lateCalls == 0 && s.late == 0)
    && s.lateCalls + (if s.sink.Checked? then 1 else 0) <= 1
    && s.late + (if s.sink.Checked? || s.sink.Sending? then 1 else 0) <= 1
    && (s.handler in {Cancelled, Completed} ==> s.ctxEnded)
  }

  predicate Inv(s: State) {
    LinesOk(s) && ThreadsOk(s) && EndOk(s)
  }

  lemma EnqueueKeepsLines(s: State, line: Line)
    requires LinesOk(s)
    ensures LinesOk(Enqueue(s, line))
  {
    if |s.ch| < CAPACITY {
      assert Faithful(s) ==> s.accepted + [line] == s.attempted + Held(s) + (s.ch + [line]);
    }
  }

  lemma ReceiveKeepsLines(s: State)
    requires LinesOk(s)
    ensures LinesOk(Do(s, SinkReceive))
  {
    var t := Do(s, SinkReceive);
    if s.sink == Receiving && s.ch != [] {
      assert Held(t) + t.ch == s.ch;
    }
  }

  lemma CallKeepsLines(s: State)
    requires LinesOk(s)
    ensures LinesOk(Do(s, CallTaskLog))
  {
    var t := Do(s, CallTaskLog);
    if s.sink.Checked? {
      var line := s.sink.line;
      assert s.accepted == s.attempted + [line] + s.ch;
      assert s.accepted[..|s.attempted| + 1] == s.attempted + [line];
      assert t.attempted + Held(t) + t.ch == s.accepted;
    }
  }

  lemma StepKeepsLines(s: State, step: Step)
    requires Inv(s)
    ensures LinesOk(Do(s, step))
  {
    hide IsPrefix;
    match step
    case HandlerLog(line) => EnqueueKeepsLines(s, line);
    case ScannerLog(k, line) => EnqueueKeepsLines(s, line);
    case SinkReceive => ReceiveKeepsLines(s);
    case CallTaskLog => CallKeepsLines(s);
    case _ =>
  }

  lemma StepKeepsThreads(s: State, step: Step)
    requires ThreadsOk(s)
    ensures ThreadsOk(Do(s, step))
  {}

  lemma StepKeepsEnd(s: State, step: Step)
    requires ThreadsOk(s) && EndOk(s)
    ensures EndOk(Do(s, step))
  {}

  lemma StepKeepsInv(s: State, step: Step)
    requires Inv(s)
    ensures Inv(Do(s, step))
  {
    hide LinesOk, ThreadsOk, EndOk, Do;
    StepKeepsLines(s, step);
    StepKeepsThreads(s, step);
    StepKeepsEnd(s, step);
  }

  lemma {:induction false} RunKeepsInv(s: State, steps: seq<Step>)
    requires Inv(s)
    ensures Inv(Run(s, steps))
    decreases |steps|
  {
    if steps != [] {
      StepKeepsInv(s, steps[0]);
      RunKeepsInv(Do(s, steps[0]), steps[1..]);
    }
  }

  // ---- The theorems ----

  /** Every line offered is either in the channel's history or counted as dropped; the channel never holds
      more than its capacity; and the lines handed to TaskLog are a prefix of the accepted ones. */
  lemma Ledger(steps: seq<Step>)
    ensures var s := Run(Init(), steps);
      && s.offered == |s.accepted| + s.dropped
      && |s.ch| <= CAPACITY
      && IsPrefix(s.attempted, s.accepted)
  {
    RunKeepsInv(Init(), steps);
  }

  /** A line is dropped if and only if 512 are waiting; otherwise it is the last of the channel. */
  lemma DropsIffFull(s: State, line: Line)
    requires !s.closed && |s.ch| <= 512
    ensures var t := Enqueue(s, line);
      && (|s.ch| == 512 ==> t == s.(dropped := s.dropped + 1, offered := s.offered + 1))
      && (|s.ch| < 512 ==>
            t == s.(ch := s.ch + [line], accepted := s.accepted + [line], offered := s.offered + 1))
  {}

  /** Nothing is dropped before 512 lines have been accepted. */
  predicate DropsLate(s: State) {
    |s.ch| <= |s.accepted| && |s.accepted| + s.dropped == s.offered && (s.dropped > 0 ==> |s.accepted| >= 512)
  }

  lemma EnqueueDropsLate(s: State, line: Line)
    requires DropsLate(s)
    ensures DropsLate(Enqueue(s, line))
  {}

  lemma StepDropsLate(s: State, step: Step)
    requires DropsLate(s)
    ensures DropsLate(Do(s, step))
  {
    hide Enqueue;
    if step.HandlerLog? || step.ScannerLog? { EnqueueDropsLate(s, step.line); }
  }

  lemma {:induction false} RunDropsLate(s: State, steps: seq<Step>)
    requires DropsLate(s)
    ensures DropsLate(Run(s, steps))
    decreases |steps|
  {
    hide Do, DropsLate;
    if steps != [] {
      StepDropsLate(s, steps[0]);
      RunDropsLate(Do(s, steps[0]), steps[1..]);
    }
  }

  /** A task that logs at most 512 lines loses none of them, however slow the sink is. */
  lemma ShortLogsAreKept(steps: seq<Step>)
    ensures var s := Run(Init(), steps); s.offered <= 512 ==> s.dropped == 0 && |s.accepted| == s.offered
  {
    RunDropsLate(Init(), steps);
  }

  /** When the handler sees the sink done and the context has not ended, every accepted line was sent on. */
  lemma DrainedMeansAllAttempted(steps: seq<Step>)
    ensures var s := Run(Init(), steps);
      s.sink == Stopped && !s.ctxEnded ==> s.attempted == s.accepted
  {
    RunKeepsInv(Init(), steps);
    var s := Run(Init(), steps);
    assert s.sink == Stopped && !s.ctxEnded ==> s.attempted + Held(s) + s.ch == s.attempted;
  }

  /** Nobody logs to a closed channel and it is closed once: `Execute` returns only after both scanners. */
  lemma NoLogAfterClose(steps: seq<Step>)
    ensures var s := Run(Init(), steps);
      && !s.panicked && s.closes <= 1
      && (s.closed ==> forall k :: 0 <= k < |s.scanners| ==> s.scanners[k] != Scanning)
  {
    RunKeepsInv(Init(), steps);
  }

  /** Once the context has ended (by the handler's own cancel or before), at most one TaskLog call is still
      made, the one decided on before, and at most one returns. */
  lemma AtMostOneLateLog(steps: seq<Step>)
    ensures var s := Run(Init(), steps);
      && s.lateCalls <= 1 && s.late <= 1
      && (s.handler in {Cancelled, Completed} ==> s.ctxEnded)
  {
    RunKeepsInv(Init(), steps);
  }

  /** What the sink still hands to TaskLog from the end of the context on: nothing, or the one line for which
      it had found the context live. */
  lemma {:induction false} AttemptedAfterEnd(s: State, steps: seq<Step>)
    requires s.ctxEnded
    ensures var t := Run(s, steps);
      && t.ctxEnded
      && (t.attempted == s.attempted || (s.sink.Checked? && t.attempted == s.attempted + [s.sink.line]))
    decreases |steps|
  {
    if steps != [] {
      EndedStep(s, steps[0]);
      hide Do;
      AttemptedAfterEnd(Do(s, steps[0]), steps[1..]);
    }
  }

  lemma EndedStep(s: State, step: Step)
    requires s.ctxEnded
    ensures var t := Do(s, step);
      && t.ctxEnded
      && (t.sink.Checked? ==> t.sink == s.sink)
      && (t.attempted == s.attempted
          || (s.sink.Checked? && t.attempted == s.attempted + [s.sink.line] && !t.sink.Checked?))
  {}

  /** The test of the context and the call are two steps, so a line can be handed over after the end: it can
      if and only if the context ended between the two. */
  lemma LateAttemptIff(s: State)
    requires s.ctxEnded
    ensures (exists steps :: Run(s, steps).attempted != s.attempted) <==> s.sink.Checked?
  {
    if s.sink.Checked? {
      var steps := [CallTaskLog];
      assert steps[1..] == [];
      assert Run(Do(s, CallTaskLog), []) == Do(s, CallTaskLog);
      assert Run(s, steps).attempted != s.attempted;
    } else {
      forall steps ensures Run(s, steps).attempted == s.attempted { AttemptedAfterEnd(s, steps); }
    }
  }

  lemma {:induction false} RunAppend(s: State, steps: seq<Step>, step: Step)
    ensures Run(s, steps + [step]) == Do(Run(s, steps), step)
    decreases |steps|
  {
    if steps == [] {
      assert [step][1..] == [];
      assert steps + [step] == [step];
    } else {
      assert (steps + [step])[1..] == steps[1..] + [step];
      RunAppend(Do(s, steps[0]), steps[1..], step);
    }
  }

  lemma CheckOneLine(line: Line) returns (steps: seq<Step>)
    ensures Run(Init(), steps) ==
      Init().(sink := Checked(line), accepted := [line], offered := 1)
  {
    assert Run(Init(), []) == Init();
    hide Run;
    RunAppend(Init(), [], HandlerLog(line));
    RunAppend(Init(), [] + [HandlerLog(line)], SinkReceive);
    steps := [] + [HandlerLog(line)] + [SinkReceive];
    assert Run(Init(), steps) == Init().(sink := Holding(line), accepted := [line], offered := 1);
    RunAppend(Init(), steps, SinkCheck);
    steps := steps + [SinkCheck];
  }

  /** It does happen: the sink receives a line, finds the context live, the context ends, and the line is
      handed over. */
  lemma OneLineIsLate(line: Line)
    ensures exists steps :: Run(Init(), steps).lateCalls == 1
  {
    hide Run;
    var steps := CheckOneLine(line);
    RunAppend(Init(), steps, EndContext);
    steps := steps + [EndContext];
    RunAppend(Init(), steps, CallTaskLog);
    assert Run(Init(), steps + [CallTaskLog]).lateCalls == 1;
  }

  function SinkWork(s: State): nat {
    4 * |s.ch| + match s.sink
      case Receiving => 1
      case Holding(_) => 4
      case Checked(_) => 3
      case Sending(_) => 2
      case Discarding => 1
      case Stopped => 0
  }

  predicate IsSinkStep(step: Step) {
    step in {SinkReceive, SinkCheck, CallTaskLog, SendReturns(false), DiscardOne}
  }

  /** Once the channel is closed the sink always has a step to take, and each brings it closer to its end. */
  lemma SinkStepProgresses(s: State) returns (step: Step)
    requires s.closed && s.sink != Stopped
    ensures IsSinkStep(step) && SinkWork(Do(s, step)) < SinkWork(s)
    ensures var t := Do(s, step); t.closed && t.ctxEnded == s.ctxEnded && t.accepted == s.accepted
  {
    step := match s.sink
      case Receiving => SinkReceive
      case Holding(_) => SinkCheck
      case Checked(_) => CallTaskLog
      case Sending(_) => SendReturns(false)
      case _ => DiscardOne;
  }

  /** The drain always can finish: whatever is left in the closed channel, the steps of the sink alone lead
      to its end, and if the context stays on, every line that was ever accepted has then been sent on. */
  lemma {:induction false} SinkCanFinish(s: State) returns (steps: seq<Step>)
    requires Inv(s) && s.closed
    ensures forall i :: 0 <= i < |steps| ==> IsSinkStep(steps[i])
    ensures var t := Run(s, steps);
      t.sink == Stopped && t.accepted == s.accepted && (!s.ctxEnded ==> t.attempted == s.accepted)
    decreases SinkWork(s)
  {
    hide Do, SinkWork, IsSinkStep;
    if s.sink == Stopped {
      steps := [];
      assert s.attempted + Held(s) + s.ch == s.attempted;
    } else {
      var step := SinkStepProgresses(s);
      StepKeepsInv(s, step);
      var rest := SinkCanFinish(Do(s, step));
      steps := [step] + rest;
      assert steps[1..] == rest;
    }
  }

  /** The same run on: a line of the handler, one of each scanner and one more of the handler, all of them
      accepted, and then the scanners are done and the channel is closed. */
  lemma LogAndClose(a: Line, b: Line, c: Line, d: Line) returns (steps: seq<Step>)
    ensures Run(Init(), steps) ==
      State(Closed, [Finished, Finished], Receiving, [a, b, c, d], true, false,
            [a, b, c, d], [], 4, 0, 0, 0, 1, false)
  {
    var first := LogFromBoth(a, b, c);
    hide Run;
    var s0 := Init();
    steps := first;
    RunAppend(s0, steps, ScannerFinish(0));
    steps := steps + [ScannerFinish(0)];
    RunAppend(s0, steps, ScannerFinish(1));
    steps := steps + [ScannerFinish(1)];
    assert Run(s0, steps).scanners == [Finished, Finished];
    RunAppend(s0, steps, JoinScanners);
    steps := steps + [JoinScanners];
    RunAppend(s0, steps, HandlerLog(d));
    steps := steps + [HandlerLog(d)];
    RunAppend(s0, steps, ReturnFromExecute);
    steps := steps + [ReturnFromExecute];
    RunAppend(s0, steps, CloseSink);
    steps := steps + [CloseSink];
  }

  lemma LogFromBoth(a: Line, b: Line, c: Line) returns (steps: seq<Step>)
    ensures Run(Init(), steps) ==
      State(Waiting, [Scanning, Scanning], Receiving, [a, b, c], false, false,
            [a, b, c], [], 3, 0, 0, 0, 0, false)
  {
    assert Run(Init(), []) == Init();
    hide Run;
    var s0 := Init();
    RunAppend(s0, [], HandlerLog(a));
    steps := [] + [HandlerLog(a)];
    RunAppend(s0, steps, StartScanners);
    steps := steps + [StartScanners];
    RunAppend(s0, steps, ScannerLog(0, b));
    steps := steps + [ScannerLog(0, b)];
    RunAppend(s0, steps, ScannerLog(1, c));
    steps := steps + [ScannerLog(1, c)];
  }

  lemma {:induction false} RunJoins(s: State, a: seq<Step>, b: seq<Step>)
    ensures Run(s, a + b) == Run(Run(s, a), b)
    decreases |a|
  {
    if a == [] {
      assert a + b == b;
    } else {
      assert (a + b)[1..] == a[1..] + b;
      RunJoins(Do(s, a[0]), a[1..], b);
    }
  }

  lemma DrainOneRun(a: Line, b: Line, c: Line, d: Line) returns (steps: seq<Step>)
    ensures var t := Run(Init(), steps);
      t.handler == Closed && t.sink == Stopped && t.attempted == [a, b, c, d]
  {
    hide Do;
    var first := LogAndClose(a, b, c, d);
    RunKeepsInv(Init(), first);
    var closed := Run(Init(), first);
    var drain := SinkCanFinish(closed);
    RunJoins(Init(), first, drain);
    SinkLeavesHandler(closed, drain);
    steps := first + drain;
  }

  /** A whole life: lines of the handler and of both scanners, each sent on in the order in which it was logged,
      the drain seen in time, and the task completed. */
  lemma LogsAreSentOn(a: Line, b: Line, c: Line, d: Line)
    ensures exists steps :: Run(Init(), steps).handler == Completed && Run(Init(), steps).attempted == [a, b, c, d]
  {
    hide Run;
    var s0 := Init();
    var steps := DrainOneRun(a, b, c, d);
    RunAppend(s0, steps, SeeDone);
    steps := steps + [SeeDone];
    RunAppend(s0, steps, CancelContext);
    steps := steps + [CancelContext];
    RunAppend(s0, steps, Complete);
    assert Run(s0, steps + [Complete]).handler == Completed;
  }

  lemma {:induction false} SinkLeavesHandler(s: State, steps: seq<Step>)
    requires forall i :: 0 <= i < |steps| ==> IsSinkStep(steps[i])
    ensures Run(s, steps).handler == s.handler
    decreases |steps|
  {
    if steps != [] {
      assert Do(s, steps[0]).handler == s.handler;
      SinkLeavesHandler(Do(s, steps[0]), steps[1..]);
    }
  }
}
