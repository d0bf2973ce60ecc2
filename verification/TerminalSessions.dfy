/** The terminal session manager: sessions are registered under their ID by insert-if-absent, run by a
    goroutine each, found again by ID to be stopped, and deleted by ID when their shell is gone. Sessions
    are numbered in the order in which they were registered. A step that is not enabled changes nothing. */
module TerminalSessions {

  /** Where `runSession` is. */
  datatype RunnerPc =
    | Waiting        // in cmd.Wait
    | PtyClosed      // the process is gone, the reader is awaited
    | Joined         // the reader is done
    | Decided        // the exit reason was read
    | Deregistered   // deleted from the map
    | ExitSent       // TerminalExited was attempted
    | Over           // s.done is closed

  datatype ReaderPc = Streaming | Ended

  /** `reason` is what the last stop left, `told` what the exit is going to report. */
  datatype Session = Session(
    id: string, runner: RunnerPc, reader: ReaderPc, announced: bool, killed: bool, reason: string, told: string)

  datatype Event =
    | Opened(s: nat)
    | Output(s: nat, payload: string)
    | ErrorEvent(s: nat)
    | Exited(s: nat, reason: string)

  /** A `StopSession` call between its lookup and its effect. */
  datatype Stopper = Idle | Found(s: nat, reason: string)

  datatype State = State(
    sessions: map<string, nat>, all: seq<Session>, stoppers: seq<Stopper>, trace: seq<Event>)

  datatype Step =
    | Start(id: string)
    | SendOpened(s: nat)
    | SendOutput(s: nat, payload: string)
    | EndReader(s: nat, report: bool)
    | ProcessExits(s: nat)
    | JoinReader(s: nat)
    | DecideReason(s: nat, fallback: string)
    | Deregister(s: nat)
    | SendExited(s: nat)
    | CloseDone(s: nat)
    | Lookup(k: nat, id: string, reason: string)
    | Kill(k: nat)
    | ContextEnds(k: nat, s: nat)   // the watcher of session `s`, at whatever time, calls StopSession with its ID

  function Init(stoppers: nat): State {
    State(map[], [], seq(stoppers, _ => Idle), [])
  }

  function Set(st: State, s: nat, session: Session): State
    requires s < |st.all|
  {
    st.(all := st.all[s := session])
  }

  function Emit(st: State, e: Event): State {
    st.(trace := st.trace + [e])
  }

  function DoLookup(st: State, k: nat, id: string, reason: string): State {
    if k < |st.stoppers| && st.stoppers[k] == Idle && id in st.sessions
    then st.(stoppers := st.stoppers[k := Found(st.sessions[id], reason)]) else st
  }

  /** The steps of one session's goroutines. */
  function DoSession(st: State, s: nat, step: Step): State
    requires s < |st.all|
  {
    var x := st.all[s];
    match step
    case SendOpened(_) => if x.announced then st else Emit(Set(st, s, x.(announced := true)), Opened(s))
    case SendOutput(_, payload) => if x.reader == Streaming then Emit(st, Output(s, payload)) else st
    case EndReader(_, report) =>
      if x.reader != Streaming then st
      else
        var t := Set(st, s, x.(reader := Ended));
        if report then Emit(t, ErrorEvent(s)) else t
    case ProcessExits(_) => if x.runner == Waiting then Set(st, s, x.(runner := PtyClosed)) else st
    case JoinReader(_) =>
      if x.runner == PtyClosed && x.reader == Ended then Set(st, s, x.(runner := Joined)) else st
    case DecideReason(_, fallback) =>
      if x.runner == Joined
      then Set(st, s, x.(runner := Decided, told := if x.reason == "" then fallback else x.reason)) else st
    case Deregister(_) =>
      if x.runner == Decided then Set(st, s, x.(runner := Deregistered)).(sessions := st.sessions - {x.id}) else st
    case SendExited(_) =>
      if x.runner == Deregistered then Emit(Set(st, s, x.(runner := ExitSent)), Exited(s, x.told)) else st
    case CloseDone(_) => if x.runner == ExitSent then Set(st, s, x.(runner := Over)) else st
    case _ => st
  }

  function Do(st: State, step: Step): State {
    match step
    case Start(id) =>
      if id in st.sessions then st   // ErrSessionExists: the new shell is killed again
      else st.(sessions := st.sessions[id := |st.all|],
               all := st.all + [Session(id, Waiting, Streaming, false, false, "", "")])
    case Lookup(k, id, reason) => DoLookup(st, k, id, reason)
    case ContextEnds(k, s) =>
      if s < |st.all| then DoLookup(st, k, st.all[s].id, "terminal session context canceled") else st
    case Kill(k) =>
      if k < |st.stoppers| && st.stoppers[k].Found? && st.stoppers[k].s < |st.all| then
        var f := st.stoppers[k];
        Set(st, f.s, st.all[f.s].(killed := true, reason := f.reason)).(stoppers := st.stoppers[k := Idle])
      else st
    case _ => if step.s < |st.all| then DoSession(st, step.s, step) else st
  }

  function Run(st: State, steps: seq<Step>): State
    decreases |steps|
  {
    if steps == [] then st else Run(Do(st, steps[0]), steps[1..])
  }

  // ---- The events of one session ----

  datatype Phase =
    | Silent(announced: bool)   // output may still come
    | Failed(announced: bool)   // an error was reported
    | Finished(announced: bool) // the exit was reported
    | Broken

  function NextPhase(p: Phase, e: Event, s: nat): Phase {
    if e.s != s || p.Broken? then p
    else match e
      case Opened(_) => if p.announced then Broken else
          (match p case Silent(_) => Silent(true) case Failed(_) => Failed(true) case _ => Finished(true))
      case Output(_, _) => if p.Silent? then p else Broken
      case ErrorEvent(_) => if p.Silent? then Failed(p.announced) else Broken
      case Exited(_, _) => if p.Finished? then Broken else Finished(p.announced)
  }

  function PhaseOf(trace: seq<Event>, s: nat): Phase {
    if trace == [] then Silent(false)
    else NextPhase(PhaseOf(trace[..|trace| - 1], s), trace[|trace| - 1], s)
  }

  lemma PhaseAppend(trace: seq<Event>, e: Event, s: nat)
    ensures PhaseOf(trace + [e], s) == NextPhase(PhaseOf(trace, s), e, s)
  {
    assert (trace + [e])[..|trace|] == trace;
  }

  // ---- The invariant ----

  predicate Registered(x: Session) {
    x.runner in {Waiting, PtyClosed, Joined, Decided}
  }

  predicate EventsMatch(p: Phase, x: Session) {
    && p != Broken && p.announced == x.announced
    && (p.Finished? <==> x.runner in {ExitSent, Over})
    && (x.reader == Streaming ==> p.Silent?)
    && (x.runner in {Joined, Decided, Deregistered, ExitSent, Over} ==> x.reader == Ended)
  }

  ghost predicate Inv(st: State) {
    && (forall id :: id in st.sessions ==>
          st.sessions[id] < |st.all| && st.all[st.sessions[id]].id == id && Registered(st.all[st.sessions[id]]))
    && (forall s :: 0 <= s < |st.all| && Registered(st.all[s]) ==>
          st.all[s].id in st.sessions && st.sessions[st.all[s].id] == s)
    && (forall s :: 0 <= s < |st.all| ==> EventsMatch(PhaseOf(st.trace, s), st.all[s]))
    && (forall s: nat :: s >= |st.all| ==> PhaseOf(st.trace, s) == Silent(false))
    && (forall k :: 0 <= k < |st.stoppers| && st.stoppers[k].Found? ==> st.stoppers[k].s < |st.all|)
  }

  lemma SetKeepsInv(st: State, s: nat, x: Session, e: seq<Event>)
    requires Inv(st) && s < |st.all| && x.id == st.all[s].id && |e| <= 1
    requires Registered(x) <==> Registered(st.all[s])
    requires e != [] ==> e[0].s == s
    requires EventsMatch(if e == [] then PhaseOf(st.trace, s) else NextPhase(PhaseOf(st.trace, s), e[0], s), x)
    ensures Inv(Set(st, s, x).(trace := st.trace + e))
  {
    hide PhaseOf, EventsMatch, Registered;
    var t := Set(st, s, x).(trace := st.trace + e);
    if e == [] {
      assert t.trace == st.trace;
    } else {
      assert e == [e[0]];
      forall i: nat
        ensures PhaseOf(t.trace, i) ==
          if i == s then NextPhase(PhaseOf(st.trace, i), e[0], i) else PhaseOf(st.trace, i)
      {
        PhaseAppend(st.trace, e[0], i);
        OtherPhase(PhaseOf(st.trace, i), e[0], i);
      }
    }
  }

  lemma OtherPhase(p: Phase, e: Event, s: nat)
    ensures e.s != s ==> NextPhase(p, e, s) == p
  {}

  lemma DeregisterKeepsInv(st: State, s: nat)
    requires Inv(st) && s < |st.all| && st.all[s].runner == Decided
    ensures st.all[s].id in st.sessions && st.sessions[st.all[s].id] == s
    ensures Inv(DoSession(st, s, Deregister(s)))
  {
    hide PhaseOf;
    var t := DoSession(st, s, Deregister(s));
    assert Registered(st.all[s]);
    forall i | 0 <= i < |t.all| && Registered(t.all[i])
      ensures t.all[i].id in t.sessions && t.sessions[t.all[i].id] == i
    {
      assert Registered(st.all[i]);
    }
    assert EventsMatch(PhaseOf(st.trace, s), st.all[s]);
  }

  lemma SessionKeepsInv(st: State, s: nat, step: Step)
    requires Inv(st) && s < |st.all|
    ensures Inv(DoSession(st, s, step))
  {
    var t := DoSession(st, s, step);
    var x := st.all[s];
    assert EventsMatch(PhaseOf(st.trace, s), x);
    if step.Deregister? {
      if x.runner == Decided { DeregisterKeepsInv(st, s); }
    } else {
      hide PhaseOf, Inv;
      var e := t.trace[|st.trace|..];
      if t != st {
        assert st.all[s := st.all[s]] == st.all;
        assert t == Set(st, s, t.all[s]).(trace := st.trace + e);
        SetKeepsInv(st, s, t.all[s], e);
      }
    }
  }

  lemma StartKeepsInv(st: State, id: string)
    requires Inv(st)
    ensures Inv(Do(st, Start(id)))
  {
    hide PhaseOf;
    var t := Do(st, Start(id));
    if id !in st.sessions {
      forall i | 0 <= i < |t.all| && Registered(t.all[i])
        ensures t.all[i].id in t.sessions && t.sessions[t.all[i].id] == i
      {
        if i < |st.all| { assert Registered(st.all[i]); }
      }
      assert PhaseOf(st.trace, |st.all|) == Silent(false);
    }
  }

  lemma StepKeepsInv(st: State, step: Step)
    requires Inv(st)
    ensures Inv(Do(st, step))
  {
    hide PhaseOf, EventsMatch, Registered, DoSession;
    match step
    case Start(id) => StartKeepsInv(st, id);
    case Lookup(_, _, _) =>
    case ContextEnds(_, _) =>
    case Kill(k) => KillKeepsInv(st, k);
    case _ => if step.s < |st.all| { SessionKeepsInv(st, step.s, step); }
  }

  lemma KillKeepsInv(st: State, k: nat)
    requires Inv(st)
    ensures Inv(Do(st, Kill(k)))
  {
    hide PhaseOf;
    if k < |st.stoppers| && st.stoppers[k].Found? {
      var f := st.stoppers[k];
      var x := st.all[f.s].(killed := true, reason := f.reason);
      assert EventsMatch(PhaseOf(st.trace, f.s), st.all[f.s]);
      SetKeepsInv(st, f.s, x, []);
      assert st.trace + [] == st.trace;
    }
  }

  lemma {:induction false} RunKeepsInv(st: State, steps: seq<Step>)
    requires Inv(st)
    ensures Inv(Run(st, steps))
    decreases |steps|
  {
    if steps != [] {
      StepKeepsInv(st, steps[0]);
      RunKeepsInv(Do(st, steps[0]), steps[1..]);
    }
  }

  lemma Reachable(n: nat, steps: seq<Step>)
    ensures Inv(Run(Init(n), steps))
  {
    assert Inv(Init(n));
    RunKeepsInv(Init(n), steps);
  }

  // ---- The theorems ----

  /** In every reachable state the map holds, under the ID of each session that is not yet deregistered,
      that very session, and nothing else: so two live sessions never share an ID, and the delete on exit
      removes the session's own entry. */
  lemma MapHoldsLiveSessions(n: nat, steps: seq<Step>, s: nat)
    ensures var st := Run(Init(n), steps);
      && (s < |st.all| ==>
            (Registered(st.all[s]) <==> st.all[s].id in st.sessions && st.sessions[st.all[s].id] == s))
      && (forall id :: id in st.sessions ==> st.sessions[id] < |st.all| && st.all[st.sessions[id]].id == id)
  {
    hide PhaseOf;
    Reachable(n, steps);
    var st := Run(Init(n), steps);
    if s < |st.all| && st.all[s].id in st.sessions && st.sessions[st.all[s].id] == s {
      assert Registered(st.all[st.sessions[st.all[s].id]]);
    }
  }

  /** What the exit of a session does to the map, whoever else is registered meanwhile. */
  lemma DeleteRemovesOnlyItself(n: nat, steps: seq<Step>, s: nat)
    ensures var st := Run(Init(n), steps);
      s < |st.all| && st.all[s].runner == Decided ==>
        var t := Do(st, Deregister(s));
        && t.sessions.Keys == st.sessions.Keys - {st.all[s].id}
        && st.all[s].id in st.sessions && st.sessions[st.all[s].id] == s
        && (forall r :: 0 <= r < |t.all| && r != s && Registered(t.all[r]) ==>
              t.all[r].id in t.sessions && t.sessions[t.all[r].id] == r)
  {
    hide PhaseOf;
    Reachable(n, steps);
    var st := Run(Init(n), steps);
    if s < |st.all| && st.all[s].runner == Decided {
      DeregisterKeepsInv(st, s);
    }
  }

  /** The events of each session: outputs, then at most one error, then at most one exit, and an opened
      event at most once but at any time; and a session whose goroutine is over has reported its exit. */
  lemma EventsOfSession(n: nat, steps: seq<Step>, s: nat)
    ensures var st := Run(Init(n), steps);
      && PhaseOf(st.trace, s) != Broken
      && (s < |st.all| ==> (PhaseOf(st.trace, s).Finished? <==> st.all[s].runner in {ExitSent, Over}))
  {
    Reachable(n, steps);
    var st := Run(Init(n), steps);
    hide PhaseOf;
    if s < |st.all| {
      assert EventsMatch(PhaseOf(st.trace, s), st.all[s]);
    } else {
      assert PhaseOf(st.trace, s) == Silent(false);
    }
  }

  function Exits(trace: seq<Event>, s: nat): nat {
    if trace == [] then 0
    else Exits(trace[..|trace| - 1], s) + if trace[|trace| - 1].Exited? && trace[|trace| - 1].s == s then 1 else 0
  }

  lemma {:induction false} ExitsByPhase(trace: seq<Event>, s: nat)
    requires PhaseOf(trace, s) != Broken
    ensures Exits(trace, s) == if PhaseOf(trace, s).Finished? then 1 else 0
  {
    if trace != [] { ExitsByPhase(trace[..|trace| - 1], s); }
  }

  lemma {:induction false} SilentAfterExit(trace: seq<Event>, i: nat, j: nat, s: nat)
    requires i < j <= |trace| && trace[i].Exited? && trace[i].s == s && PhaseOf(trace[..j], s) != Broken
    ensures PhaseOf(trace[..j], s).Finished?
    decreases j
  {
    assert trace[..j][..j - 1] == trace[..j - 1];
    if j > i + 1 { SilentAfterExit(trace, i, j - 1, s); }
  }

  lemma {:induction false} BrokenStays(trace: seq<Event>, i: nat, s: nat)
    requires i <= |trace| && PhaseOf(trace[..i], s) == Broken
    ensures PhaseOf(trace, s) == Broken
    decreases |trace| - i
  {
    if i == |trace| {
      assert trace[..i] == trace;
    } else {
      assert trace[..i + 1][..i] == trace[..i];
      BrokenStays(trace, i + 1, s);
    }
  }

  /** A terminated session has emitted exactly one exit, and no output and no error after it. */
  lemma OneExitAndNothingAfter(n: nat, steps: seq<Step>, s: nat, i: nat, j: nat)
    ensures var st := Run(Init(n), steps);
      && Exits(st.trace, s) <= 1
      && (s < |st.all| && st.all[s].runner == Over ==> Exits(st.trace, s) == 1)
      && (i < j < |st.trace| && st.trace[i].Exited? && st.trace[i].s == s && st.trace[j].s == s ==> st.trace[j].Opened?)
  {
    hide Run, Exits;
    EventsOfSession(n, steps, s);
    var st := Run(Init(n), steps);
    ExitsByPhase(st.trace, s);
    if i < j < |st.trace| && st.trace[i].Exited? && st.trace[i].s == s && st.trace[j].s == s {
      if PhaseOf(st.trace[..j + 1], s) == Broken { BrokenStays(st.trace, j + 1, s); }
      if PhaseOf(st.trace[..j], s) == Broken { BrokenStays(st.trace, j, s); }
      SilentAfterExit(st.trace, i, j, s);
      assert st.trace[..j + 1][..j] == st.trace[..j];
    }
  }

  /** Starting a session registers it under an ID that is free, and changes nothing under one that is not. */
  lemma StartRegistersOnce(n: nat, steps: seq<Step>, id: string)
    ensures var st := Run(Init(n), steps);
      var t := Do(st, Start(id));
      if exists s :: 0 <= s < |st.all| && st.all[s].id == id && Registered(st.all[s]) then t == st
      else
        && t.sessions == st.sessions[id := |st.all|] && |t.all| == |st.all| + 1 && t.all[..|st.all|] == st.all
        && t.all[|st.all|] == Session(id, Waiting, Streaming, false, false, "", "")
        && t.trace == st.trace && t.stoppers == st.stoppers
  {
    hide PhaseOf, EventsMatch;
    Reachable(n, steps);
    var st := Run(Init(n), steps);
    if id in st.sessions { assert Registered(st.all[st.sessions[id]]); }
  }

  /** A session that streams can send output, one that is not announced can be, and each is an event. */
  lemma SessionSpeaks(st: State, s: nat, payload: string)
    requires s < |st.all|
    ensures st.all[s].reader == Streaming ==>
      Do(st, SendOutput(s, payload)) == st.(trace := st.trace + [Output(s, payload)])
    ensures st.all[s].reader == Streaming ==>
      Do(st, EndReader(s, true)).trace == st.trace + [ErrorEvent(s)] && Do(st, EndReader(s, false)).trace == st.trace
    ensures !st.all[s].announced ==> Do(st, SendOpened(s)).trace == st.trace + [Opened(s)]
  {}

  function StepsLeft(x: Session): nat {
    (if x.reader == Streaming then 1 else 0) +
    match x.runner
    case Waiting => 6
    case PtyClosed => 5
    case Joined => 4
    case Decided => 3
    case Deregistered => 2
    case ExitSent => 1
    case Over => 0
  }

  lemma SessionProgresses(st: State, s: nat) returns (step: Step)
    requires s < |st.all| && StepsLeft(st.all[s]) > 0
    ensures var t := Do(st, step);
      s < |t.all| && t.all[s].id == st.all[s].id && StepsLeft(t.all[s]) < StepsLeft(st.all[s])
  {
    var x := st.all[s];
    step :=
      if x.reader == Streaming then EndReader(s, false)
      else match x.runner
        case Waiting => ProcessExits(s)
        case PtyClosed => JoinReader(s)
        case Joined => DecideReason(s, "terminal session exited")
        case Decided => Deregister(s)
        case Deregistered => SendExited(s)
        case _ => CloseDone(s);
  }

  /** No session is stuck: wherever it is, its own steps lead it to its end, and then it has reported its exit. */
  lemma {:induction false} SessionCanFinish(st: State, s: nat) returns (steps: seq<Step>)
    requires Inv(st) && s < |st.all|
    ensures var t := Run(st, steps);
      s < |t.all| && t.all[s].id == st.all[s].id && t.all[s].runner == Over && PhaseOf(t.trace, s).Finished?
    decreases StepsLeft(st.all[s])
  {
    hide Do, PhaseOf;
    if StepsLeft(st.all[s]) == 0 {
      steps := [];
      assert EventsMatch(PhaseOf(st.trace, s), st.all[s]);
    } else {
      var step := SessionProgresses(st, s);
      StepKeepsInv(st, step);
      hide StepsLeft, Inv;
      var rest := SessionCanFinish(Do(st, step), s);
      steps := [step] + rest;
      assert steps[1..] == rest;
    }
  }

  // ---- Stopping by ID ----

  /** A stop reaches the session that its ID names at the time of the lookup, and no other: that one is killed,
      and the reason of the stop is left with it. */
  lemma StopReachesTheSession(st: State, k: nat, id: string, reason: string)
    requires Inv(st) && k < |st.stoppers| && st.stoppers[k] == Idle && id in st.sessions
    ensures var s := st.sessions[id];
      var t := Do(st, Lookup(k, id, reason));
      var u := Do(t, Kill(k));
      && t.all == st.all && |u.all| == |st.all| && u.all[s] == st.all[s].(killed := true, reason := reason)
      && (forall r :: 0 <= r < |u.all| && r != s ==> u.all[r] == st.all[r])
      && u.trace == st.trace && u.stoppers[k] == Idle
  {}

  /** Once the process and the reader are gone, the reason is settled: the last stop's, if it gave one. */
  predicate Settled(st: State, s: nat, told: string) {
    && s < |st.all| && st.all[s].told == told && st.all[s].runner in {Decided, Deregistered, ExitSent, Over}
  }

  lemma StepStaysSettled(st: State, step: Step, s: nat, told: string)
    requires Settled(st, s, told)
    ensures Settled(Do(st, step), s, told)
    ensures var t := Do(st, step).trace;
      |t| >= |st.trace| && t[..|st.trace|] == st.trace && ExitsTell(t, |st.trace|, s, told)
  {
    if step.Start? || step.Lookup? || step.Kill? || step.ContextEnds? {
    } else if step.s < |st.all| {
      SessionStaysSettled(st, step.s, step, s, told);
    }
  }

  lemma SessionStaysSettled(st: State, r: nat, step: Step, s: nat, told: string)
    requires Settled(st, s, told) && r < |st.all|
    ensures var t := DoSession(st, r, step);
      Settled(t, s, told) && |t.trace| >= |st.trace| && t.trace[..|st.trace|] == st.trace
      && ExitsTell(t.trace, |st.trace|, s, told)
  {}

  predicate ExitsTell(trace: seq<Event>, n: nat, s: nat, told: string) {
    forall i :: n <= i < |trace| && trace[i].Exited? && trace[i].s == s ==> trace[i].reason == told
  }

  lemma {:induction false} RunStaysSettled(st: State, steps: seq<Step>, s: nat, told: string)
    requires Settled(st, s, told)
    ensures var u := Run(st, steps);
      Settled(u, s, told) && |st.trace| <= |u.trace| && ExitsTell(u.trace, |st.trace|, s, told)
      && u.trace[..|st.trace|] == st.trace
    decreases |steps|
  {
    hide Do, Settled;
    if steps != [] {
      var t := Do(st, steps[0]);
      StepStaysSettled(st, steps[0], s, told);
      RunStaysSettled(t, steps[1..], s, told);
      var u := Run(st, steps);
      forall i | |st.trace| <= i < |u.trace| && u.trace[i].Exited? && u.trace[i].s == s
        ensures u.trace[i].reason == told
      {
        if i < |t.trace| {
          assert u.trace[..|t.trace|][i] == t.trace[i];
        }
      }
      assert u.trace[..|st.trace|] == u.trace[..|t.trace|][..|st.trace|];
    } else {
      assert st.trace[..|st.trace|] == st.trace;
    }
  }

  /** What the exit reports: the reason that the last stop has left when the reader is gone, and only without
      one the outcome of the process, whatever stops come later. */
  lemma ExitTellsTheReason(st: State, s: nat, outcome: string, after: seq<Step>)
    requires s < |st.all| && st.all[s].runner == Joined
    ensures var told := if st.all[s].reason != "" then st.all[s].reason else outcome;
      var u := Run(Do(st, DecideReason(s, outcome)), after);
      && s < |u.all| && u.all[s].told == told
      && |st.trace| <= |u.trace| && ExitsTell(u.trace, |st.trace|, s, told)
  {
    hide Run;
    var told := if st.all[s].reason != "" then st.all[s].reason else outcome;
    RunStaysSettled(Do(st, DecideReason(s, outcome)), after, s, told);
  }

  /** The watcher of a session stops by ID, and may come to it at any time: the end of the context and the
      close of `done` can both be ready, and the lookup comes after the choice. What it finds is its own
      session if and only if that is still registered; after that it finds nothing, or a later session of the
      same ID. */
  lemma WatcherFindsItself(n: nat, steps: seq<Step>, k: nat, s: nat)
    ensures var st := Run(Init(n), steps);
      s < |st.all| && k < |st.stoppers| && st.stoppers[k] == Idle ==>
        var t := Do(st, ContextEnds(k, s));
        && (t.stoppers[k].Found? <==> st.all[s].id in st.sessions)
        && (t.stoppers[k].Found? ==> (t.stoppers[k].s == s <==> Registered(st.all[s])))
  {
    MapHoldsLiveSessions(n, steps, s);
  }

  lemma {:induction false} RunAppend(st: State, steps: seq<Step>, step: Step)
    ensures Run(st, steps + [step]) == Do(Run(st, steps), step)
    decreases |steps|
  {
    if steps == [] {
      assert [step][1..] == [];
    } else {
      assert (steps + [step])[1..] == steps[1..] + [step];
      RunAppend(Do(st, steps[0]), steps[1..], step);
    }
  }

  /** The last step of the run is the watcher of session 0, and what it has found to stop is session 1, live
      and of the same ID. */
  predicate FindsSuccessor(steps: seq<Step>) {
    var st := Run(Init(1), steps);
    && steps != [] && steps[|steps| - 1] == ContextEnds(0, 0)
    && |st.all| == 2 && st.all[1].id == st.all[0].id && Registered(st.all[1])
    && st.stoppers == [Found(1, "terminal session context canceled")]
  }

  /** The last case does happen: the watcher of session 0 looks its ID up after the delete, and finds
      session 1, which was started under the same ID meanwhile. */
  lemma LateWatcherStopsSuccessor()
    ensures exists steps :: FindsSuccessor(steps)
  {
    hide Run;
    var steps := LeaveAndReturn();
    var st := Run(Init(1), steps);
    RunAppend(Init(1), steps, ContextEnds(0, 0));
    assert st.sessions["a"] == 1;
    assert FindsSuccessor(steps + [ContextEnds(0, 0)]);
  }

  lemma EndSession() returns (steps: seq<Step>)
    ensures Run(Init(1), steps) == State(map["a" := 0], [Session("a", Joined, Ended, false, false, "", "")], [Idle], [])
  {
    hide Run;
    var s0 := Init(1);
    assert s0.stoppers == [Idle];
    RunNothing(s0);
    RunAppend(s0, [], Start("a"));
    steps := [] + [Start("a")];
    RunAppend(s0, steps, ProcessExits(0));
    steps := steps + [ProcessExits(0)];
    RunAppend(s0, steps, EndReader(0, false));
    steps := steps + [EndReader(0, false)];
    RunAppend(s0, steps, JoinReader(0));
    steps := steps + [JoinReader(0)];
  }

  lemma LeaveAndReturn() returns (steps: seq<Step>)
    ensures Run(Init(1), steps) == State(map["a" := 1],
      [Session("a", Deregistered, Ended, false, false, "", "gone"),
       Session("a", Waiting, Streaming, false, false, "", "")],
      [Idle], [])
  {
    hide Run;
    var s0 := Init(1);
    steps := EndSession();
    RunAppend(s0, steps, DecideReason(0, "gone"));
    steps := steps + [DecideReason(0, "gone")];
    RunAppend(s0, steps, Deregister(0));
    steps := steps + [Deregister(0)];
    assert Run(s0, steps).sessions == map[];
    RunAppend(s0, steps, Start("a"));
    steps := steps + [Start("a")];
  }

  lemma RunNothing(st: State)
    ensures Run(st, []) == st
  {}
}
