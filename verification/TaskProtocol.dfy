/** The life of a task inside the agent, as a protocol between the dispatchers (the polling loop and the
    realtime callbacks), one handler goroutine per accepted dispatch, and the control watcher of each
    handler. A run is any list of steps; a step that is not enabled changes nothing, so the theorems hold
    for every interleaving. What the agent tells the server is recorded in `trace`. */
module TaskProtocol {

  type TaskId = string

  datatype ExecError = NoError | CtxCanceled | CtxDeadline | OtherError | ByControl

  datatype Status = Success | Cancelled | Timeout | Canceled | FailedStatus

  /** What `dispatchTask` still has to do for a task it has marked as running. */
  datatype Dispatcher = Idle | Marked(id: TaskId) | Counted(id: TaskId)

  datatype Pc =
    | Spawned      // nothing done yet
    | Ready        // realtime events and credentials were read
    | AcceptSent   // TaskAccepted was attempted
    | StartSent    // TaskStarted was attempted
    | Running      // the executor runs the command, the control watcher is on
    | Executed     // the executor has returned, the log sink is closed
    | Finishing    // only the deferred calls are left: TaskCompleted, unmarkRunning, wg.Done
    | Unmarking
    | Leaving
    | Gone

  datatype Ctx = Live | EndedCanceled | EndedDeadline

  /** `err` is what the executor returned, `sawCancel` what `controlState` said when it was read. */
  datatype Handler = Handler(
    id: TaskId, pc: Pc, identity: bool, cancelMarked: bool, ctx: Ctx,
    err: ExecError, sawCancel: bool, status: Status, skipped: bool)

  datatype Event =
    | Dispatched(id: TaskId)
    | Refused(id: TaskId)
    | Skipped(id: TaskId, h: nat)
    | AcceptedEvent(id: TaskId, h: nat)
    | StartedEvent(id: TaskId, h: nat)
    | CompletedEvent(id: TaskId, h: nat, status: Status)
    | Released(id: TaskId)

  datatype Owner = ByDispatcher(d: nat) | ByHandler(h: nat)

  /** `owner` is history: who is to remove the task from `running`. */
  datatype State = State(
    running: set<TaskId>, wg: int, eventsOn: bool, identityOn: bool,
    dispatchers: seq<Dispatcher>, handlers: seq<Handler>,
    owner: map<TaskId, Owner>, trace: seq<Event>)

  datatype Step =
    | SetEvents(on: bool)
    | SetIdentity(on: bool)
    | Dispatch(d: nat, id: TaskId)
    | AddToGroup(d: nat)
    | Spawn(d: nat)
    | Advance(h: nat)
    | ReturnFromExecute(h: nat, err: ExecError)
    | MarkCancelled(h: nat)
    | EndContext(h: nat, why: Ctx)

  function Init(dispatchers: nat, eventsOn: bool, identityOn: bool): State {
    State({}, 0, eventsOn, identityOn, seq(dispatchers, _ => Idle), [], map[], [])
  }

  /** `taskStatus`. */
  function StatusOf(err: ExecError): Status {
    match err
    case NoError => Success
    case ByControl => Cancelled
    case CtxDeadline => Timeout
    case CtxCanceled => Canceled
    case OtherError => FailedStatus
  }

  function Put(s: State, h: nat, handler: Handler): State
    requires h < |s.handlers|
  {
    s.(handlers := s.handlers[h := handler])
  }

  function Emit(s: State, e: Event): State {
    s.(trace := s.trace + [e])
  }

  function DoDispatch(s: State, d: nat, id: TaskId): State
    requires d < |s.dispatchers|
  {
    if s.dispatchers[d] != Idle then s
    else if id in s.running then Emit(s, Refused(id))
    else Emit(s.(running := s.running + {id}, owner := s.owner[id := ByDispatcher(d)],
                 dispatchers := s.dispatchers[d := Marked(id)]), Dispatched(id))
  }

  function DoSpawn(s: State, d: nat): State
    requires d < |s.dispatchers|
  {
    match s.dispatchers[d]
    case Counted(id) =>
      s.(dispatchers := s.dispatchers[d := Idle],
         owner := s.owner[id := ByHandler(|s.handlers|)],
         handlers := s.handlers + [Handler(id, Spawned, false, false, Live, NoError, false, FailedStatus, false)])
    case _ => s
  }

  /** The next step of handler `h`, where it does not depend on the command, and what it emits. */
  function Act(hd: Handler, h: nat, eventsOn: bool, identityOn: bool): (Handler, seq<Event>) {
    match hd.pc
    case Spawned =>
      if !eventsOn then (hd.(pc := Unmarking, skipped := true), [Skipped(hd.id, h)])
      else (hd.(pc := Ready, identity := identityOn), [])
    case Ready => (hd.(pc := AcceptSent), [AcceptedEvent(hd.id, h)])
    case AcceptSent =>
      if !hd.identity then (hd.(pc := Finishing, err := OtherError), [])
      else (hd.(pc := StartSent), [StartedEvent(hd.id, h)])
    case StartSent => (hd.(pc := Running), [])
    case Running => (hd, [])
    case Executed =>
      var byControl := hd.cancelMarked && (hd.err == NoError || hd.err == CtxCanceled);
      (hd.(pc := Finishing, sawCancel := hd.cancelMarked,
           status := StatusOf(if byControl then ByControl else hd.err)), [])
    case Finishing => (hd.(pc := Unmarking), [CompletedEvent(hd.id, h, hd.status)])
    case Unmarking => (hd.(pc := Leaving), [Released(hd.id)])
    case Leaving => (hd.(pc := Gone), [])
    case Gone => (hd, [])
  }

  function DoAdvance(s: State, h: nat): State
    requires h < |s.handlers|
  {
    var hd := s.handlers[h];
    var act := Act(hd, h, s.eventsOn, s.identityOn);
    var t := Put(s, h, act.0).(trace := s.trace + act.1);
    if hd.pc == Unmarking then t.(running := s.running - {hd.id}, owner := s.owner - {hd.id})
    else if hd.pc == Leaving then t.(wg := s.wg - 1)
    else t
  }

  predicate Begun(pc: Pc) {
    pc in {Running, Executed, Finishing, Unmarking, Leaving, Gone}
  }

  /** The executor reports a context error only when the context has ended that way. */
  predicate CanReturn(hd: Handler, err: ExecError) {
    && hd.pc == Running && err != ByControl
    && (err == CtxCanceled ==> hd.ctx == EndedCanceled)
    && (err == CtxDeadline ==> hd.ctx == EndedDeadline)
  }

  function Do(s: State, step: Step): State {
    match step
    case SetEvents(on) => s.(eventsOn := on)
    case SetIdentity(on) => s.(identityOn := on)
    case Dispatch(d, id) => if d < |s.dispatchers| then DoDispatch(s, d, id) else s
    case AddToGroup(d) =>
      if d < |s.dispatchers| && s.dispatchers[d].Marked?
      then s.(wg := s.wg + 1, dispatchers := s.dispatchers[d := Counted(s.dispatchers[d].id)]) else s
    case Spawn(d) => if d < |s.dispatchers| then DoSpawn(s, d) else s
    case Advance(h) => if h < |s.handlers| then DoAdvance(s, h) else s
    case ReturnFromExecute(h, err) =>
      if h < |s.handlers| && CanReturn(s.handlers[h], err)
      then Put(s, h, s.handlers[h].(pc := Executed, err := err)) else s
    case MarkCancelled(h) =>
      // The watcher may be late: it can still mark after the handler has stopped listening.
      if h < |s.handlers| && Begun(s.handlers[h].pc) && s.handlers[h].identity
      then Put(s, h, s.handlers[h].(cancelMarked := true)) else s
    case EndContext(h, why) =>
      if h < |s.handlers| && Begun(s.handlers[h].pc) && s.handlers[h].ctx == Live
      then Put(s, h, s.handlers[h].(ctx := why)) else s
  }

  function Run(s: State, steps: seq<Step>): State
    decreases |steps|
  {
    if steps == [] then s else Run(Do(s, steps[0]), steps[1..])
  }

  // ---- The protocol of one task ID, as the server sees it ----

  datatype Phase =
    | Free
    | Taken
    | Accepted(h: nat)
    | Started(h: nat)
    | Done           // TaskCompleted was attempted, or the handler gave up without any event
    | Broken

  function NextPhase(p: Phase, e: Event, id: TaskId): Phase {
    if e.id != id || e.Refused? then p
    else match (p, e)
      case (Free, Dispatched(_)) => Taken
      case (Taken, Skipped(_, _)) => Done
      case (Taken, AcceptedEvent(_, h)) => Accepted(h)
      case (Accepted(g), StartedEvent(_, h)) => if g == h then Started(h) else Broken
      case (Accepted(g), CompletedEvent(_, h, _)) => if g == h then Done else Broken
      case (Started(g), CompletedEvent(_, h, _)) => if g == h then Done else Broken
      case (Done, Released(_)) => Free
      case _ => Broken
  }

  function PhaseOf(trace: seq<Event>, id: TaskId): Phase {
    if trace == [] then Free
    else NextPhase(PhaseOf(trace[..|trace| - 1], id), trace[|trace| - 1], id)
  }

  lemma PhaseAppend(trace: seq<Event>, e: Event, id: TaskId)
    ensures PhaseOf(trace + [e], id) == NextPhase(PhaseOf(trace, id), e, id)
  {
    assert (trace + [e])[..|trace|] == trace;
  }

  // ---- The invariant ----

  predicate Alive(pc: Pc) {
    pc != Leaving && pc != Gone
  }

  function PcPhase(pc: Pc, identity: bool, h: nat): Phase {
    match pc
    case Spawned => Taken
    case Ready => Taken
    case AcceptSent => Accepted(h)
    case StartSent => Started(h)
    case Running => Started(h)
    case Executed => Started(h)
    case Finishing => if identity then Started(h) else Accepted(h)
    case _ => Done
  }

  predicate OwnerOk(s: State, id: TaskId)
    requires id in s.owner
  {
    match s.owner[id]
    case ByDispatcher(d) => d < |s.dispatchers| && s.dispatchers[d] != Idle && s.dispatchers[d].id == id
    case ByHandler(h) => h < |s.handlers| && s.handlers[h].id == id && Alive(s.handlers[h].pc)
  }

  predicate HandlerOk(s: State, h: nat)
    requires h < |s.handlers|
  {
    var hd := s.handlers[h];
    && (Alive(hd.pc) ==>
          hd.id in s.owner && s.owner[hd.id] == ByHandler(h)
          && PhaseOf(s.trace, hd.id) == PcPhase(hd.pc, hd.identity, h))
    && StatusOk(hd)
  }

  predicate DispatcherOk(s: State, d: nat)
    requires d < |s.dispatchers|
  {
    s.dispatchers[d] != Idle ==>
      var id := s.dispatchers[d].id;
      id in s.owner && s.owner[id] == ByDispatcher(d) && PhaseOf(s.trace, id) == Taken
  }

  /** What a handler's status means once it is decided. */
  predicate StatusOk(hd: Handler) {
    && (hd.pc == Spawned ==> !hd.identity)
    && (hd.pc in {StartSent, Running, Executed} ==> hd.identity)
    && (hd.pc == Executed ==>
          && hd.err != ByControl
          && (hd.err == CtxCanceled ==> hd.ctx == EndedCanceled)
          && (hd.err == CtxDeadline ==> hd.ctx == EndedDeadline))
    && (hd.pc in {Spawned, Ready, AcceptSent, StartSent, Running, Executed} ==> hd.status == FailedStatus)
    && (hd.status == Cancelled ==> hd.cancelMarked && hd.sawCancel && hd.err in {NoError, CtxCanceled})
    && (hd.status == Success ==> !hd.sawCancel && hd.err == NoError)
    && (hd.status == Timeout ==> hd.ctx == EndedDeadline)
    && (hd.status == Canceled ==> !hd.sawCancel && hd.ctx == EndedCanceled)
    && (hd.status != FailedStatus ==> hd.identity)
    && (hd.pc in {Finishing, Unmarking, Leaving, Gone} && hd.identity ==> Verdict(hd.status, hd.err, hd.sawCancel))
  }

  /** The status that goes with what the executor returned and whether a cancellation was seen. */
  predicate Verdict(status: Status, err: ExecError, sawCancel: bool) {
    && (status == Success <==> err == NoError && !sawCancel)
    && (status == Cancelled <==> sawCancel && (err == NoError || err == CtxCanceled))
    && (status == Canceled <==> err == CtxCanceled && !sawCancel)
    && (status == Timeout <==> err == CtxDeadline)
    && (status == FailedStatus <==> err == OtherError)
  }

  ghost predicate Inv(s: State) {
    && s.running == s.owner.Keys
    && (forall id :: id in s.owner ==> OwnerOk(s, id))
    && (forall h :: 0 <= h < |s.handlers| ==> HandlerOk(s, h))
    && (forall d :: 0 <= d < |s.dispatchers| ==> DispatcherOk(s, d))
    && (forall id {:trigger PhaseOf(s.trace, id)} :: id !in s.running ==> PhaseOf(s.trace, id) == Free)
  }

  lemma DispatchKeepsInv(s: State, d: nat, id: TaskId)
    requires Inv(s) && d < |s.dispatchers|
    ensures Inv(DoDispatch(s, d, id))
  {
    hide PhaseOf;
    var t := DoDispatch(s, d, id);
    if s.dispatchers[d] == Idle {
      var e := if id in s.running then Refused(id) else Dispatched(id);
      forall i ensures PhaseOf(t.trace, i) == NextPhase(PhaseOf(s.trace, i), e, i) { PhaseAppend(s.trace, e, i); }
      assert PhaseOf(s.trace, id) == PhaseOf(s.trace, id);
      forall i | i in t.owner ensures OwnerOk(t, i) { assert i != id ==> OwnerOk(s, i); }
      forall h | 0 <= h < |t.handlers| ensures HandlerOk(t, h) { assert HandlerOk(s, h); }
      forall c | 0 <= c < |t.dispatchers| ensures DispatcherOk(t, c) { assert DispatcherOk(s, c); }
    }
  }

  lemma SpawnKeepsInv(s: State, d: nat)
    requires Inv(s) && d < |s.dispatchers|
    ensures Inv(DoSpawn(s, d))
  {
    hide PhaseOf;
    var t := DoSpawn(s, d);
    assert DispatcherOk(s, d);
    if s.dispatchers[d].Counted? {
      var id := s.dispatchers[d].id;
      forall i | i in t.owner ensures OwnerOk(t, i) { assert OwnerOk(s, i); }
      forall h | 0 <= h < |t.handlers| ensures HandlerOk(t, h) { if h < |s.handlers| { assert HandlerOk(s, h); } }
      forall c | 0 <= c < |t.dispatchers| ensures DispatcherOk(t, c) { assert DispatcherOk(s, c); }
    }
  }

  lemma AddKeepsInv(s: State, d: nat)
    requires Inv(s)
    ensures Inv(Do(s, AddToGroup(d)))
  {
    hide PhaseOf;
    var t := Do(s, AddToGroup(d));
    forall i | i in t.owner ensures OwnerOk(t, i) { assert OwnerOk(s, i); }
    forall h | 0 <= h < |t.handlers| ensures HandlerOk(t, h) { assert HandlerOk(s, h); }
    forall c | 0 <= c < |t.dispatchers| ensures DispatcherOk(t, c) { assert DispatcherOk(s, c); }
  }

  /** A handler changes its own record and emits at most one event about its own task. */
  lemma HandlerStepKeepsInv(s: State, h: nat, hd: Handler, e: seq<Event>)
    requires Inv(s) && h < |s.handlers| && hd.id == s.handlers[h].id && |e| <= 1
    requires Alive(hd.pc) <==> Alive(s.handlers[h].pc)
    requires StatusOk(hd)
    requires forall i :: 0 <= i < |e| ==> e[i].id == hd.id && Alive(hd.pc)
    requires Alive(hd.pc) ==>
      PcPhase(hd.pc, hd.identity, h) ==
      (if e == [] then PcPhase(s.handlers[h].pc, s.handlers[h].identity, h)
       else NextPhase(PcPhase(s.handlers[h].pc, s.handlers[h].identity, h), e[0], hd.id))
    ensures Inv(Put(s, h, hd).(trace := s.trace + e))
  {
    hide PhaseOf, NextPhase, PcPhase, StatusOk;
    var t := Put(s, h, hd).(trace := s.trace + e);
    assert HandlerOk(s, h);
    if e == [] {
      assert t.trace == s.trace;
    } else {
      assert e == [e[0]];
      forall i
        ensures PhaseOf(t.trace, i) ==
          if i == hd.id then NextPhase(PhaseOf(s.trace, i), e[0], i) else PhaseOf(s.trace, i)
      {
        PhaseAppend(s.trace, e[0], i);
        OtherPhase(PhaseOf(s.trace, i), e[0], i);
      }
    }
    forall i | i in t.owner ensures OwnerOk(t, i) { assert OwnerOk(s, i); }
    forall g | 0 <= g < |t.handlers| ensures HandlerOk(t, g) { assert HandlerOk(s, g); }
    forall c | 0 <= c < |t.dispatchers| ensures DispatcherOk(t, c) { assert DispatcherOk(s, c); }
  }

  lemma OtherPhase(p: Phase, e: Event, id: TaskId)
    ensures e.id != id ==> NextPhase(p, e, id) == p
  {}

  lemma ReleaseKeepsInv(s: State, h: nat)
    requires Inv(s) && h < |s.handlers| && s.handlers[h].pc == Unmarking
    ensures Inv(DoAdvance(s, h))
  {
    hide PhaseOf;
    var hd := s.handlers[h];
    var t := DoAdvance(s, h);
    assert HandlerOk(s, h);
    forall i ensures PhaseOf(t.trace, i) == NextPhase(PhaseOf(s.trace, i), Released(hd.id), i) {
      PhaseAppend(s.trace, Released(hd.id), i);
    }
    forall i | i in t.owner ensures OwnerOk(t, i) { assert OwnerOk(s, i); }
    forall g | 0 <= g < |t.handlers| ensures HandlerOk(t, g) { assert HandlerOk(s, g); }
    forall c | 0 <= c < |t.dispatchers| ensures DispatcherOk(t, c) { assert DispatcherOk(s, c); }
  }

  lemma LeaveKeepsInv(s: State, h: nat, hd: Handler, wg: int)
    requires Inv(s) && h < |s.handlers| && hd.id == s.handlers[h].id
    requires !Alive(hd.pc) && !Alive(s.handlers[h].pc) && StatusOk(hd)
    ensures Inv(Put(s.(wg := wg), h, hd))
  {
    hide PhaseOf, StatusOk;
    var t := Put(s.(wg := wg), h, hd);
    forall i | i in t.owner ensures OwnerOk(t, i) { assert OwnerOk(s, i); }
    forall g | 0 <= g < |t.handlers| ensures HandlerOk(t, g) { assert HandlerOk(s, g); }
    forall c | 0 <= c < |t.dispatchers| ensures DispatcherOk(t, c) { assert DispatcherOk(s, c); }
  }

  lemma ActKeepsStatus(hd: Handler, h: nat, eventsOn: bool, identityOn: bool)
    requires StatusOk(hd)
    ensures StatusOk(Act(hd, h, eventsOn, identityOn).0)
    ensures hd.pc == StartSent ==> hd.identity
    ensures hd.pc == Executed ==> hd.identity
  {}

  lemma ActMovesPhase(hd: Handler, h: nat, eventsOn: bool, identityOn: bool)
    requires StatusOk(hd) && Alive(Act(hd, h, eventsOn, identityOn).0.pc)
    ensures var (next, e) := Act(hd, h, eventsOn, identityOn);
      PcPhase(next.pc, next.identity, h) ==
        if e == [] then PcPhase(hd.pc, hd.identity, h)
        else NextPhase(PcPhase(hd.pc, hd.identity, h), e[0], hd.id)
  {
    hide StatusOk;
    ActKeepsStatus(hd, h, eventsOn, identityOn);
  }

  lemma ActFollowsProtocol(hd: Handler, h: nat, eventsOn: bool, identityOn: bool)
    requires StatusOk(hd)
    ensures var (next, e) := Act(hd, h, eventsOn, identityOn);
      && StatusOk(next) && next.id == hd.id && |e| <= 1
      && (Alive(next.pc) ==>
            PcPhase(next.pc, next.identity, h) ==
            (if e == [] then PcPhase(hd.pc, hd.identity, h)
             else NextPhase(PcPhase(hd.pc, hd.identity, h), e[0], hd.id)))
      && (forall i :: 0 <= i < |e| ==> e[i].id == hd.id)
      && (Alive(hd.pc) && hd.pc != Unmarking <==> Alive(next.pc))
      && (!Alive(hd.pc) ==> e == [])
  {
    hide StatusOk, PcPhase, NextPhase;
    ActKeepsStatus(hd, h, eventsOn, identityOn);
    if Alive(Act(hd, h, eventsOn, identityOn).0.pc) { ActMovesPhase(hd, h, eventsOn, identityOn); }
  }

  lemma AdvanceKeepsInv(s: State, h: nat)
    requires Inv(s) && h < |s.handlers|
    ensures Inv(DoAdvance(s, h))
  {
    hide PhaseOf, Inv, Act, StatusOk, PcPhase, NextPhase;
    var hd := s.handlers[h];
    InvGives(s, h);
    ActFollowsProtocol(hd, h, s.eventsOn, s.identityOn);
    var (next, e) := Act(hd, h, s.eventsOn, s.identityOn);
    if hd.pc == Unmarking {
      ReleaseKeepsInv(s, h);
    } else if Alive(hd.pc) {
      HandlerStepKeepsInv(s, h, next, e);
    } else {
      var wg := if hd.pc == Leaving then s.wg - 1 else s.wg;
      LeaveKeepsInv(s, h, next, wg);
      assert DoAdvance(s, h) == Put(s.(wg := wg), h, next);
    }
  }

  lemma InvGives(s: State, h: nat)
    requires Inv(s) && h < |s.handlers|
    ensures HandlerOk(s, h)
  {}

  lemma OutsideKeepsInv(s: State, h: nat, hd: Handler)
    requires Inv(s) && h < |s.handlers| && hd.id == s.handlers[h].id && StatusOk(hd)
    requires hd.pc == s.handlers[h].pc || (s.handlers[h].pc == Running && hd.pc == Executed)
    requires hd.identity == s.handlers[h].identity
    ensures Inv(Put(s, h, hd))
  {
    hide PhaseOf, Inv, StatusOk;
    if Alive(hd.pc) {
      assert Put(s, h, hd) == Put(s, h, hd).(trace := s.trace + []);
      HandlerStepKeepsInv(s, h, hd, []);
    } else {
      LeaveKeepsInv(s, h, hd, s.wg);
      assert Put(s, h, hd) == Put(s.(wg := s.wg), h, hd);
    }
  }

  lemma StepKeepsInv(s: State, step: Step)
    requires Inv(s)
    ensures Inv(Do(s, step))
  {
    hide PhaseOf;
    match step
    case SetEvents(on) => SwitchKeepsInv(s, on, s.identityOn);
    case SetIdentity(on) => SwitchKeepsInv(s, s.eventsOn, on);
    case Dispatch(d, id) => if d < |s.dispatchers| { DispatchKeepsInv(s, d, id); }
    case AddToGroup(d) => AddKeepsInv(s, d);
    case Spawn(d) => if d < |s.dispatchers| { SpawnKeepsInv(s, d); }
    case Advance(h) => if h < |s.handlers| { AdvanceKeepsInv(s, h); }
    case ReturnFromExecute(h, err) =>
      if h < |s.handlers| && CanReturn(s.handlers[h], err) {
        InvGives(s, h);
        OutsideKeepsInv(s, h, s.handlers[h].(pc := Executed, err := err));
      }
    case MarkCancelled(h) =>
      if h < |s.handlers| && Begun(s.handlers[h].pc) && s.handlers[h].identity {
        InvGives(s, h);
        OutsideKeepsInv(s, h, s.handlers[h].(cancelMarked := true));
      }
    case EndContext(h, why) =>
      if h < |s.handlers| && Begun(s.handlers[h].pc) && s.handlers[h].ctx == Live {
        InvGives(s, h);
        OutsideKeepsInv(s, h, s.handlers[h].(ctx := why));
      }
  }

  lemma SwitchKeepsInv(s: State, eventsOn: bool, identityOn: bool)
    requires Inv(s)
    ensures Inv(s.(eventsOn := eventsOn, identityOn := identityOn))
  {
    hide PhaseOf;
    var t := s.(eventsOn := eventsOn, identityOn := identityOn);
    forall i | i in t.owner ensures OwnerOk(t, i) { assert OwnerOk(s, i); }
    forall g | 0 <= g < |t.handlers| ensures HandlerOk(t, g) { assert HandlerOk(s, g); }
    forall c | 0 <= c < |t.dispatchers| ensures DispatcherOk(t, c) { assert DispatcherOk(s, c); }
  }

  lemma {:induction false} RunKeepsInv(s: State, steps: seq<Step>)
    requires Inv(s)
    ensures Inv(Run(s, steps))
    decreases |steps|
  {
    if steps != [] {
      StepKeepsInv(s, steps[0]);
      RunKeepsInv(Do(s, steps[0]), steps[1..]);
    }
  }

  lemma Reachable(dispatchers: nat, eventsOn: bool, identityOn: bool, steps: seq<Step>)
    ensures Inv(Run(Init(dispatchers, eventsOn, identityOn), steps))
  {
    RunKeepsInv(Init(dispatchers, eventsOn, identityOn), steps);
  }

  // ---- The events of one handler ----

  /** The handler an event is from. */
  predicate From(e: Event, h: nat) {
    (e.Skipped? || e.AcceptedEvent? || e.StartedEvent? || e.CompletedEvent?) && e.h == h
  }

  /** The events of handler `h`, in order. */
  function Sent(trace: seq<Event>, h: nat): seq<Event> {
    if trace == [] then []
    else
      var e := trace[|trace| - 1];
      Sent(trace[..|trace| - 1], h) + if From(e, h) then [e] else []
  }

  lemma SentAppend(trace: seq<Event>, e: Event, h: nat)
    ensures Sent(trace + [e], h) == Sent(trace, h) + if From(e, h) then [e] else []
  {
    assert (trace + [e])[..|trace|] == trace;
  }

  /** What a handler has attempted to send by the time it is where it is. */
  function Script(hd: Handler, h: nat): seq<Event> {
    var accepted, started, completed :=
      [AcceptedEvent(hd.id, h)], [StartedEvent(hd.id, h)], [CompletedEvent(hd.id, h, hd.status)];
    match hd.pc
    case Spawned => []
    case Ready => []
    case AcceptSent => accepted
    case StartSent => accepted + started
    case Running => accepted + started
    case Executed => accepted + started
    case Finishing => if hd.identity then accepted + started else accepted
    case _ =>
      if hd.skipped then [Skipped(hd.id, h)]
      else if hd.identity then accepted + started + completed
      else accepted + completed
  }

  predicate OnScript(trace: seq<Event>, hd: Handler, h: nat) {
    && Sent(trace, h) == Script(hd, h) && StatusOk(hd)
    && (hd.skipped ==> hd.pc in {Unmarking, Leaving, Gone})
  }

  ghost predicate Scripted(s: State) {
    && (forall h :: 0 <= h < |s.handlers| ==> OnScript(s.trace, s.handlers[h], h))
    && (forall h: nat :: h >= |s.handlers| ==> Sent(s.trace, h) == [])
  }

  lemma DispatcherStepScripted(s: State, t: State, e: Event)
    requires Scripted(s) && (e.Dispatched? || e.Refused? || e.Released?)
    requires t.handlers == s.handlers && t.trace == s.trace + [e]
    ensures Scripted(t)
  {
    hide Sent, Script, StatusOk;
    forall h: nat ensures Sent(t.trace, h) == Sent(s.trace, h) { SentAppend(s.trace, e, h); }
  }

  lemma ActFollowsScript(hd: Handler, h: nat, eventsOn: bool, identityOn: bool)
    requires StatusOk(hd) && (hd.skipped ==> hd.pc in {Unmarking, Leaving, Gone})
    ensures var (next, e) := Act(hd, h, eventsOn, identityOn);
      && StatusOk(next) && |e| <= 1
      && (next.skipped ==> next.pc in {Unmarking, Leaving, Gone})
      && Script(next, h) == Script(hd, h) + (if e != [] && From(e[0], h) then e else [])
      && (forall g :: e != [] && From(e[0], g) ==> g == h)
  {
    hide StatusOk;
    ActKeepsStatus(hd, h, eventsOn, identityOn);
  }

  /** One more event leaves every handler on its script that it is not from. */
  lemma OthersOnScript(trace: seq<Event>, e: seq<Event>, hd: Handler, g: nat)
    requires OnScript(trace, hd, g) && |e| <= 1 && (e != [] ==> !From(e[0], g))
    ensures OnScript(trace + e, hd, g)
  {
    hide Sent, Script, StatusOk;
    if e == [] {
      assert trace + e == trace;
    } else {
      assert e == [e[0]];
      SentAppend(trace, e[0], g);
    }
  }

  lemma ActOnScript(trace: seq<Event>, hd: Handler, h: nat, eventsOn: bool, identityOn: bool)
    requires OnScript(trace, hd, h)
    ensures var (next, e) := Act(hd, h, eventsOn, identityOn);
      && OnScript(trace + e, next, h) && |e| <= 1
      && (forall g: nat :: e != [] && g != h ==> !From(e[0], g))
  {
    hide Sent, Act, Script, StatusOk;
    ActFollowsScript(hd, h, eventsOn, identityOn);
    var (next, e) := Act(hd, h, eventsOn, identityOn);
    if e == [] {
      assert trace + e == trace;
    } else {
      assert e == [e[0]];
      SentAppend(trace, e[0], h);
    }
  }

  lemma AdvanceScripted(s: State, h: nat)
    requires Scripted(s) && h < |s.handlers|
    ensures Scripted(DoAdvance(s, h))
  {
    hide Sent, Act, OnScript, From;
    var t := DoAdvance(s, h);
    ActOnScript(s.trace, s.handlers[h], h, s.eventsOn, s.identityOn);
    var (next, e) := Act(s.handlers[h], h, s.eventsOn, s.identityOn);
    assert t.trace == s.trace + e && t.handlers == s.handlers[h := next];
    forall g | 0 <= g < |t.handlers| && g != h ensures OnScript(t.trace, t.handlers[g], g) {
      OthersOnScript(s.trace, e, s.handlers[g], g);
    }
    forall g: nat | g >= |t.handlers| ensures Sent(t.trace, g) == [] {
      if e == [] { assert t.trace == s.trace; } else { assert e == [e[0]]; SilentStays(s.trace, e[0], g); }
    }
  }

  lemma SilentStays(trace: seq<Event>, e: Event, g: nat)
    requires Sent(trace, g) == [] && !From(e, g)
    ensures Sent(trace + [e], g) == []
  {
    SentAppend(trace, e, g);
  }

  /** The command, the watcher and the clock change a handler's record without a word to the server. */
  lemma OutsideScripted(s: State, h: nat, hd: Handler)
    requires Scripted(s) && h < |s.handlers|
    requires var before := s.handlers[h];
      && (hd == before.(cancelMarked := true)
          || (before.ctx == Live && hd == before.(ctx := hd.ctx))
          || (hd == before.(pc := Executed, err := hd.err) && CanReturn(before, hd.err)))
    ensures Scripted(Put(s, h, hd))
  {
    hide Sent;
    assert StatusOk(hd) && Script(hd, h) == Script(s.handlers[h], h);
    hide Script, StatusOk;
  }

  lemma SpawnScripted(s: State, d: nat)
    requires Scripted(s) && d < |s.dispatchers|
    ensures Scripted(DoSpawn(s, d))
  {
    hide Sent;
  }

  lemma StepScripted(s: State, step: Step)
    requires Scripted(s)
    ensures Scripted(Do(s, step))
  {
    hide Sent, Script, StatusOk;
    match step
    case Dispatch(d, id) =>
      if d < |s.dispatchers| && s.dispatchers[d] == Idle {
        DispatcherStepScripted(s, Do(s, step), if id in s.running then Refused(id) else Dispatched(id));
      }
    case Advance(h) => if h < |s.handlers| { AdvanceScripted(s, h); }
    case ReturnFromExecute(h, err) =>
      if h < |s.handlers| && CanReturn(s.handlers[h], err) {
        OutsideScripted(s, h, s.handlers[h].(pc := Executed, err := err));
      }
    case MarkCancelled(h) =>
      if h < |s.handlers| && Begun(s.handlers[h].pc) { OutsideScripted(s, h, s.handlers[h].(cancelMarked := true)); }
    case EndContext(h, why) =>
      if h < |s.handlers| && Begun(s.handlers[h].pc) && s.handlers[h].ctx == Live {
        OutsideScripted(s, h, s.handlers[h].(ctx := why));
      }
    case Spawn(d) => if d < |s.dispatchers| { SpawnScripted(s, d); }
    case _ =>
  }

  lemma {:induction false} RunScripted(s: State, steps: seq<Step>)
    requires Scripted(s)
    ensures Scripted(Run(s, steps))
    decreases |steps|
  {
    if steps != [] {
      StepScripted(s, steps[0]);
      RunScripted(Do(s, steps[0]), steps[1..]);
    }
  }

  /** The wait group counts the dispatches that are past `wg.Add` and the handlers before `wg.Done`. */
  function CountedOnes(ds: seq<Dispatcher>): nat {
    if ds == [] then 0 else (if ds[0].Counted? then 1 else 0) + CountedOnes(ds[1..])
  }

  function Unfinished(hs: seq<Handler>): nat {
    if hs == [] then 0 else (if hs[0].pc != Gone then 1 else 0) + Unfinished(hs[1..])
  }

  lemma {:induction false} CountedUpdate(ds: seq<Dispatcher>, i: nat, d: Dispatcher)
    requires i < |ds|
    ensures CountedOnes(ds[i := d]) ==
      CountedOnes(ds) - (if ds[i].Counted? then 1 else 0) + (if d.Counted? then 1 else 0)
  {
    if i == 0 {
      assert ds[i := d][1..] == ds[1..];
    } else {
      assert ds[i := d][1..] == ds[1..][i - 1 := d];
      CountedUpdate(ds[1..], i - 1, d);
    }
  }

  lemma {:induction false} UnfinishedUpdate(hs: seq<Handler>, i: nat, h: Handler)
    requires i < |hs|
    ensures Unfinished(hs[i := h]) ==
      Unfinished(hs) - (if hs[i].pc != Gone then 1 else 0) + (if h.pc != Gone then 1 else 0)
  {
    if i == 0 {
      assert hs[i := h][1..] == hs[1..];
    } else {
      assert hs[i := h][1..] == hs[1..][i - 1 := h];
      UnfinishedUpdate(hs[1..], i - 1, h);
    }
  }

  lemma {:induction false} UnfinishedAppend(hs: seq<Handler>, h: Handler)
    ensures Unfinished(hs + [h]) == Unfinished(hs) + if h.pc != Gone then 1 else 0
  {
    if hs == [] {
      assert [h][1..] == [];
    } else {
      assert (hs + [h])[1..] == hs[1..] + [h];
      UnfinishedAppend(hs[1..], h);
    }
  }

  predicate GroupOk(s: State) {
    s.wg == CountedOnes(s.dispatchers) + Unfinished(s.handlers)
  }

  lemma HandlerGroup(s: State, h: nat, hd: Handler, wg: int)
    requires GroupOk(s) && h < |s.handlers|
    requires wg == s.wg - (if s.handlers[h].pc != Gone && hd.pc == Gone then 1 else 0)
    requires s.handlers[h].pc == Gone ==> hd.pc == Gone
    ensures GroupOk(Put(s, h, hd).(wg := wg))
  {
    UnfinishedUpdate(s.handlers, h, hd);
  }

  lemma DispatcherGroup(s: State, d: nat, pc: Dispatcher, wg: int)
    requires GroupOk(s) && d < |s.dispatchers|
    requires wg == s.wg - (if s.dispatchers[d].Counted? then 1 else 0) + (if pc.Counted? then 1 else 0)
    ensures GroupOk(s.(dispatchers := s.dispatchers[d := pc], wg := wg))
  {
    CountedUpdate(s.dispatchers, d, pc);
  }

  lemma StepGroup(s: State, step: Step)
    requires GroupOk(s)
    ensures GroupOk(Do(s, step))
  {
    hide CountedOnes, Unfinished;
    var t := Do(s, step);
    match step
    case SetEvents(_) =>
    case SetIdentity(_) =>
    case Dispatch(d, _) => if d < |s.dispatchers| { DispatcherGroup(s, d, t.dispatchers[d], s.wg); }
    case AddToGroup(d) => if d < |s.dispatchers| { DispatcherGroup(s, d, t.dispatchers[d], t.wg); }
    case Spawn(d) =>
      if d < |s.dispatchers| && s.dispatchers[d].Counted? {
        CountedUpdate(s.dispatchers, d, Idle);
        UnfinishedAppend(s.handlers, t.handlers[|s.handlers|]);
      }
    case Advance(h) => if h < |s.handlers| { AdvanceGroup(s, h); }
    case ReturnFromExecute(h, err) => HandlerStepGroup(s, step);
    case MarkCancelled(h) => HandlerStepGroup(s, step);
    case EndContext(h, why) => HandlerStepGroup(s, step);
  }

  lemma AdvanceGroup(s: State, h: nat)
    requires GroupOk(s) && h < |s.handlers|
    ensures GroupOk(DoAdvance(s, h))
  {
    hide CountedOnes, Unfinished;
    var t := DoAdvance(s, h);
    HandlerGroup(s, h, t.handlers[h], t.wg);
  }

  lemma HandlerStepGroup(s: State, step: Step)
    requires GroupOk(s) && (step.ReturnFromExecute? || step.MarkCancelled? || step.EndContext?)
    ensures GroupOk(Do(s, step))
  {
    hide CountedOnes, Unfinished;
    if step.h < |s.handlers| {
      var t := Do(s, step);
      assert t.handlers == s.handlers[step.h := t.handlers[step.h]];
      HandlerGroup(s, step.h, t.handlers[step.h], t.wg);
    }
  }

  lemma {:induction false} RunGroup(s: State, steps: seq<Step>)
    requires GroupOk(s)
    ensures GroupOk(Run(s, steps))
    decreases |steps|
  {
    if steps != [] {
      StepGroup(s, steps[0]);
      RunGroup(Do(s, steps[0]), steps[1..]);
    }
  }

  lemma {:induction false} NoneCounted(n: nat)
    ensures CountedOnes(seq(n, _ => Idle)) == 0
  {
    if n > 0 {
      assert seq(n, _ => Idle)[1..] == seq(n - 1, _ => Idle);
      NoneCounted(n - 1);
    }
  }

  // ---- The theorems ----

  /** However polling and realtime dispatch interleave, two handlers alive at once are of different tasks,
      the task of each is marked as running, and a task is marked only while a dispatcher or a handler
      that is alive will unmark it. */
  lemma OneHandlerPerTask(n: nat, eventsOn: bool, identityOn: bool, steps: seq<Step>, g: nat, h: nat)
    ensures var s := Run(Init(n, eventsOn, identityOn), steps);
      && (h < |s.handlers| && Alive(s.handlers[h].pc) ==> s.handlers[h].id in s.running)
      && (g < h < |s.handlers| && Alive(s.handlers[g].pc) && Alive(s.handlers[h].pc) ==>
            s.handlers[g].id != s.handlers[h].id)
      && (forall id :: id in s.running ==>
            || (exists d :: 0 <= d < |s.dispatchers| && s.dispatchers[d] in {Marked(id), Counted(id)})
            || (exists k :: 0 <= k < |s.handlers| && s.handlers[k].id == id && Alive(s.handlers[k].pc)))
  {
    hide PhaseOf, StatusOk;
    Reachable(n, eventsOn, identityOn, steps);
    var s := Run(Init(n, eventsOn, identityOn), steps);
    if h < |s.handlers| { assert HandlerOk(s, h); }
    if g < |s.handlers| { assert HandlerOk(s, g); }
    forall id | id in s.running
      ensures || (exists d :: 0 <= d < |s.dispatchers| && s.dispatchers[d] in {Marked(id), Counted(id)})
              || (exists k :: 0 <= k < |s.handlers| && s.handlers[k].id == id && Alive(s.handlers[k].pc))
    {
      assert OwnerOk(s, id);
    }
  }

  /** The events about one task ID follow the protocol in every reachable state: dispatched, accepted,
      perhaps started, completed by the same handler, released, and only then dispatched again; or
      dispatched, given up for want of realtime events, and released. */
  lemma ProtocolPerTask(n: nat, eventsOn: bool, identityOn: bool, steps: seq<Step>, id: TaskId)
    ensures var s := Run(Init(n, eventsOn, identityOn), steps);
      && PhaseOf(s.trace, id) != Broken
      && (PhaseOf(s.trace, id) == Free <==> id !in s.running)
  {
    hide PhaseOf, StatusOk;
    Reachable(n, eventsOn, identityOn, steps);
    var s := Run(Init(n, eventsOn, identityOn), steps);
    if id in s.running {
      assert OwnerOk(s, id);
      match s.owner[id]
      case ByDispatcher(d) => assert DispatcherOk(s, d);
      case ByHandler(h) => assert HandlerOk(s, h);
    }
  }

  lemma BrokenStays(trace: seq<Event>, i: nat, id: TaskId)
    requires i <= |trace| && PhaseOf(trace[..i], id) == Broken
    ensures PhaseOf(trace, id) == Broken
    decreases |trace| - i
  {
    if i == |trace| {
      assert trace[..i] == trace;
    } else {
      assert trace[..i + 1][..i] == trace[..i];
      BrokenStays(trace, i + 1, id);
    }
  }

  /** Until it is completed, an accepted task stays accepted by, or started by, its handler. */
  lemma {:induction false} HeldUntilCompleted(trace: seq<Event>, i: nat, j: nat, id: TaskId, h: nat)
    requires i < j <= |trace| && trace[i] == AcceptedEvent(id, h)
    requires PhaseOf(trace[..j], id) != Broken
    requires forall k :: i < k < j ==> !(trace[k].CompletedEvent? && trace[k].id == id && trace[k].h == h)
    ensures PhaseOf(trace[..j], id) in {Accepted(h), Started(h)}
    decreases j
  {
    assert trace[..j][..j - 1] == trace[..j - 1];
    if j > i + 1 {
      HeldUntilCompleted(trace, i, j - 1, id, h);
    }
  }

  /** Once a handler has announced a task as accepted, the same ID is not dispatched again before that
      handler has attempted to complete it. */
  lemma CompletedBeforeAcceptedAgain(n: nat, eventsOn: bool, identityOn: bool, steps: seq<Step>,
                                     i: nat, j: nat, id: TaskId, h: nat)
    requires var trace := Run(Init(n, eventsOn, identityOn), steps).trace;
      i < j < |trace| && trace[i] == AcceptedEvent(id, h) && trace[j] == Dispatched(id)
    ensures var trace := Run(Init(n, eventsOn, identityOn), steps).trace;
      exists k :: i < k < j && trace[k].CompletedEvent? && trace[k].id == id && trace[k].h == h
  {
    hide Run;
    var trace := Run(Init(n, eventsOn, identityOn), steps).trace;
    ProtocolPerTask(n, eventsOn, identityOn, steps, id);
    if PhaseOf(trace[..j + 1], id) == Broken { BrokenStays(trace, j + 1, id); }
    if PhaseOf(trace[..j], id) == Broken { BrokenStays(trace, j, id); }
    assert trace[..j + 1][..j] == trace[..j];
    if !exists k :: i < k < j && trace[k].CompletedEvent? && trace[k].id == id && trace[k].h == h {
      HeldUntilCompleted(trace, i, j, id, h);
    }
  }

  /** What a handler sends, over its whole life: accepted once, started once if the agent has an identity,
      and then completed exactly once, whatever the command did and whenever it was cancelled. */
  lemma EventsOfHandler(n: nat, eventsOn: bool, identityOn: bool, steps: seq<Step>, h: nat)
    ensures var s := Run(Init(n, eventsOn, identityOn), steps);
      h < |s.handlers| ==>
        var hd := s.handlers[h];
        && Sent(s.trace, h) <= (if hd.skipped then [Skipped(hd.id, h)]
             else [AcceptedEvent(hd.id, h)]
                  + (if hd.pc in {Spawned, Ready} || hd.identity then [StartedEvent(hd.id, h)] else [])
                  + [CompletedEvent(hd.id, h, hd.status)])
        && (hd.pc == Gone ==> |Sent(s.trace, h)| == if hd.skipped then 1 else if hd.identity then 3 else 2)
  {
    var s0 := Init(n, eventsOn, identityOn);
    assert Scripted(s0);
    hide Sent, Scripted, Run;
    RunScripted(s0, steps);
    if h < |Run(s0, steps).handlers| { ScriptedGives(Run(s0, steps), h); }
  }

  lemma ScriptedGives(s: State, h: nat)
    requires Scripted(s) && h < |s.handlers|
    ensures Sent(s.trace, h) == Script(s.handlers[h], h) && StatusOk(s.handlers[h])
    ensures s.handlers[h].skipped ==> s.handlers[h].pc in {Unmarking, Leaving, Gone}
  {}

  /** What a dispatch does: a task that is not marked is marked and taken on, and one that is, is refused. */
  lemma DispatchDecides(s: State, d: nat, id: TaskId)
    requires d < |s.dispatchers| && s.dispatchers[d] == Idle
    ensures var t := Do(s, Dispatch(d, id));
      if id in s.running then t == s.(trace := s.trace + [Refused(id)])
      else
        && t.running == s.running + {id} && t.trace == s.trace + [Dispatched(id)]
        && t.dispatchers == s.dispatchers[d := Marked(id)] && t.handlers == s.handlers && t.wg == s.wg
        && var u := Do(Do(t, AddToGroup(d)), Spawn(d));
        && u.wg == s.wg + 1 && u.dispatchers[d] == Idle && |u.handlers| == |s.handlers| + 1
        && u.handlers[|s.handlers|].id == id && u.handlers[|s.handlers|].pc == Spawned && u.running == t.running
  {}

  /** The control watcher marks the task it watches, and no other, and the context ends for good. */
  lemma WatcherMarks(s: State, h: nat, why: Ctx)
    requires h < |s.handlers| && s.handlers[h].identity && Begun(s.handlers[h].pc)
    ensures Do(s, MarkCancelled(h)) == Put(s, h, s.handlers[h].(cancelMarked := true))
    ensures Do(s, EndContext(h, why)) ==
      if s.handlers[h].ctx == Live then Put(s, h, s.handlers[h].(ctx := why)) else s
  {}

  function StepsLeft(pc: Pc): nat {
    match pc
    case Spawned => 9
    case Ready => 8
    case AcceptSent => 7
    case StartSent => 6
    case Running => 5
    case Executed => 4
    case Finishing => 3
    case Unmarking => 2
    case Leaving => 1
    case Gone => 0
  }

  lemma HandlerProgresses(s: State, h: nat) returns (step: Step)
    requires h < |s.handlers| && s.handlers[h].pc != Gone
    ensures var t := Do(s, step);
      h < |t.handlers| && t.handlers[h].id == s.handlers[h].id
      && StepsLeft(t.handlers[h].pc) < StepsLeft(s.handlers[h].pc)
  {
    step := if s.handlers[h].pc == Running then ReturnFromExecute(h, OtherError) else Advance(h);
  }

  /** No handler is stuck: wherever it is, its own steps lead it to its end, at the latest with a command that
      fails; and then, as its events say, it has completed its task. */
  lemma {:induction false} HandlerCanFinish(s: State, h: nat) returns (steps: seq<Step>)
    requires h < |s.handlers|
    ensures var t := Run(s, steps);
      h < |t.handlers| && t.handlers[h].id == s.handlers[h].id && t.handlers[h].pc == Gone
    decreases StepsLeft(s.handlers[h].pc)
  {
    if s.handlers[h].pc == Gone {
      steps := [];
    } else {
      var step := HandlerProgresses(s, h);
      hide Do, StepsLeft;
      var rest := HandlerCanFinish(Do(s, step), h);
      steps := [step] + rest;
      assert steps[1..] == rest;
    }
  }

  predicate NoneHasSkipped(s: State) {
    s.eventsOn && forall h :: 0 <= h < |s.handlers| ==> !s.handlers[h].skipped
  }

  lemma StepSkipsNone(s: State, step: Step)
    requires NoneHasSkipped(s) && step != SetEvents(false)
    ensures NoneHasSkipped(Do(s, step))
  {}

  /** Without a moment in which realtime events are switched off, no handler gives up unheard. */
  lemma {:induction false} NoneSkipped(s: State, steps: seq<Step>)
    requires s.eventsOn && forall i :: 0 <= i < |steps| ==> steps[i] != SetEvents(false)
    requires forall h :: 0 <= h < |s.handlers| ==> !s.handlers[h].skipped
    ensures forall h :: 0 <= h < |Run(s, steps).handlers| ==> !Run(s, steps).handlers[h].skipped
    decreases |steps|
  {
    if steps != [] {
      StepSkipsNone(s, steps[0]);
      hide Do;
      NoneSkipped(Do(s, steps[0]), steps[1..]);
    }
  }

  /** What the completion says, exactly, by what the executor returned and whether the mark of the control
      watcher was seen then; without an identity it is always "failed". And what that says in turn: a mark was
      seen only if one was made, and a context error is returned only by a context that has ended that way. */
  lemma CompletionStatus(n: nat, eventsOn: bool, identityOn: bool, steps: seq<Step>, i: nat)
    requires i < |Run(Init(n, eventsOn, identityOn), steps).trace|
    ensures var s := Run(Init(n, eventsOn, identityOn), steps);
      s.trace[i].CompletedEvent? ==>
        var h, status := s.trace[i].h, s.trace[i].status;
        && h < |s.handlers| && status == s.handlers[h].status
        && var hd := s.handlers[h];
        && (if !hd.identity then status == FailedStatus
            else
              && (status == Success <==> hd.err == NoError && !hd.sawCancel)
              && (status == Cancelled <==> hd.sawCancel && (hd.err == NoError || hd.err == CtxCanceled))
              && (status == Canceled <==> hd.err == CtxCanceled && !hd.sawCancel)
              && (status == Timeout <==> hd.err == CtxDeadline)
              && (status == FailedStatus <==> hd.err == OtherError))
        && (status == Cancelled ==> hd.cancelMarked)
        && (status == Canceled ==> hd.ctx == EndedCanceled)
        && (status == Timeout ==> hd.ctx == EndedDeadline)
  {
    var s0 := Init(n, eventsOn, identityOn);
    assert Scripted(s0);
    hide Sent, Scripted, Run;
    RunScripted(s0, steps);
    var s := Run(s0, steps);
    if s.trace[i].CompletedEvent? {
      var h := s.trace[i].h;
      SentHas(s.trace, i, h);
      if h < |s.handlers| {
        ScriptedGives(s, h);
      } else {
        ScriptedNone(s, h);
      }
    }
  }

  /** The handler's command has returned `err`, and if `marked`, the mark was made before the handler looked. */
  predicate Concluded(s: State, h: nat, err: ExecError, marked: bool) {
    h < |s.handlers| && HandlerConcluded(s.handlers[h], err, marked)
  }

  predicate HandlerConcluded(hd: Handler, err: ExecError, marked: bool) {
    && hd.identity && hd.err == err && hd.pc in {Executed, Finishing, Unmarking, Leaving, Gone}
    && (marked ==> hd.cancelMarked && (hd.pc == Executed || hd.sawCancel))
  }

  lemma ActConcluded(hd: Handler, h: nat, eventsOn: bool, identityOn: bool, err: ExecError, marked: bool)
    requires HandlerConcluded(hd, err, marked)
    ensures HandlerConcluded(Act(hd, h, eventsOn, identityOn).0, err, marked)
  {}

  lemma StepConcluded(s: State, step: Step, h: nat, err: ExecError, marked: bool)
    requires Concluded(s, h, err, marked)
    ensures Concluded(Do(s, step), h, err, marked)
  {
    hide Act;
    ActConcluded(s.handlers[h], h, s.eventsOn, s.identityOn, err, marked);
    match step
    case Advance(g) =>
      hide HandlerConcluded;
      if g < |s.handlers| && g != h { assert Do(s, step).handlers[h] == s.handlers[h]; }
    case _ =>
  }

  lemma {:induction false} RunConcluded(s: State, steps: seq<Step>, h: nat, err: ExecError, marked: bool)
    requires Concluded(s, h, err, marked)
    ensures Concluded(Run(s, steps), h, err, marked)
    decreases |steps|
  {
    hide Do, Concluded;
    if steps != [] {
      StepConcluded(s, steps[0], h, err, marked);
      RunConcluded(Do(s, steps[0]), steps[1..], h, err, marked);
    }
  }

  /** And it is this command's own outcome: whatever happens after the executor has returned `err` to a handler,
      the verdict is on `err`, and a mark that was made before is seen. */
  lemma CommandDecides(s: State, h: nat, err: ExecError, after: seq<Step>)
    requires h < |s.handlers| && s.handlers[h].identity && CanReturn(s.handlers[h], err)
    ensures var u := Run(Do(s, ReturnFromExecute(h, err)), after);
      && h < |u.handlers| && u.handlers[h].err == err
      && (s.handlers[h].cancelMarked && u.handlers[h].pc != Executed ==> u.handlers[h].sawCancel)
  {
    hide Run;
    var t := Do(s, ReturnFromExecute(h, err));
    RunConcluded(t, after, h, err, s.handlers[h].cancelMarked);
  }

  predicate IdentityRead(s: State, on: bool) {
    && s.identityOn == on
    && forall h :: 0 <= h < |s.handlers| ==> ReadAs(s.handlers[h], on)
  }

  predicate ReadAs(hd: Handler, on: bool) {
    hd.pc == Spawned || hd.skipped || hd.identity == on
  }

  lemma ActReadsAs(hd: Handler, h: nat, eventsOn: bool, on: bool)
    requires ReadAs(hd, on)
    ensures ReadAs(Act(hd, h, eventsOn, on).0, on)
  {}

  /** While the credentials do not come or go, every handler finds them as they are: it starts its task if and
      only if the agent has an identity. */
  lemma {:induction false} IdentityIsRead(s: State, steps: seq<Step>, on: bool)
    requires IdentityRead(s, on) && forall i :: 0 <= i < |steps| ==> steps[i] != SetIdentity(!on)
    ensures IdentityRead(Run(s, steps), on)
    decreases |steps|
  {
    if steps != [] {
      assert IdentityRead(Do(s, steps[0]), on) by { StepReadsIdentity(s, steps[0], on); }
      hide IdentityRead, Do;
      IdentityIsRead(Do(s, steps[0]), steps[1..], on);
    }
  }

  lemma StepReadsIdentity(s: State, step: Step, on: bool)
    requires IdentityRead(s, on) && step != SetIdentity(!on)
    ensures IdentityRead(Do(s, step), on)
  {
    hide Act;
    var t := Do(s, step);
    match step
    case Advance(h) =>
      if h < |s.handlers| {
        ActReadsAs(s.handlers[h], h, s.eventsOn, on);
        hide ReadAs;
        assert t.handlers == s.handlers[h := Act(s.handlers[h], h, s.eventsOn, s.identityOn).0];
      }
    case Spawn(d) =>
    case Dispatch(_, _) => hide ReadAs;
    case AddToGroup(_) => hide ReadAs;
    case _ =>
  }

  predicate NoneHasRun(s: State) {
    !s.eventsOn && forall h :: 0 <= h < |s.handlers| ==> KeepsQuiet(s.handlers[h])
  }

  predicate KeepsQuiet(hd: Handler) {
    if hd.skipped then hd.pc in {Unmarking, Leaving, Gone} else hd.pc == Spawned
  }

  lemma StepRunsNone(s: State, step: Step)
    requires NoneHasRun(s) && step != SetEvents(true)
    ensures NoneHasRun(Do(s, step))
  {}

  /** While realtime events stay off, every handler that does anything gives up. */
  lemma {:induction false} NoneRuns(s: State, steps: seq<Step>)
    requires NoneHasRun(s) && forall i :: 0 <= i < |steps| ==> steps[i] != SetEvents(true)
    ensures NoneHasRun(Run(s, steps))
    decreases |steps|
  {
    if steps != [] {
      StepRunsNone(s, steps[0]);
      hide Do, NoneHasRun;
      NoneRuns(Do(s, steps[0]), steps[1..]);
    }
  }

  lemma ScriptedNone(s: State, h: nat)
    requires Scripted(s) && h >= |s.handlers|
    ensures Sent(s.trace, h) == []
  {}

  lemma {:induction false} SentHas(trace: seq<Event>, i: nat, h: nat)
    requires i < |trace| && From(trace[i], h)
    ensures trace[i] in Sent(trace, h)
  {
    if i < |trace| - 1 { SentHas(trace[..|trace| - 1], i, h); }
  }

  /** `Run` waits for the wait group: when it is down to zero every accepted dispatch has gone all the way. */
  lemma GroupEmptyMeansDone(n: nat, eventsOn: bool, identityOn: bool, steps: seq<Step>)
    ensures var s := Run(Init(n, eventsOn, identityOn), steps);
      && s.wg >= 0
      && (s.wg == 0 ==> forall h :: 0 <= h < |s.handlers| ==> s.handlers[h].pc == Gone)
  {
    var s0 := Init(n, eventsOn, identityOn);
    NoneCounted(n);
    assert s0.dispatchers == seq(n, _ => Idle);
    RunGroup(s0, steps);
    var s := Run(s0, steps);
    if s.wg == 0 { NoneUnfinished(s.handlers); }
  }

  lemma {:induction false} NoneUnfinished(hs: seq<Handler>)
    requires Unfinished(hs) == 0
    ensures forall h :: 0 <= h < |hs| ==> hs[h].pc == Gone
  {
    if hs != [] { NoneUnfinished(hs[1..]); }
  }
}
