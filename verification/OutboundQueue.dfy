/** The outbound queue of the realtime client: producers send into a bounded channel and writers receive
    from it, and each updates the depth counter only afterwards, then raises the high-water mark in a
    compare-and-swap loop. Any number of producers and writers run at once (a writer of an old connection
    may overlap with the next one); a step that is not enabled changes nothing. */
module OutboundQueue {

  type Message = int

  /** Where a thread is between its channel operation and the end of `updateQueueDepth`. `tries` counts
      its failed compare-and-swaps in this call. */
  datatype Pc =
    | Resting
    | HasSent                               // before queueDepth.Add(1)
    | HasReceived                           // before queueDepth.Add(-1)
    | Loading(depth: int, tries: nat)       // before maxQueueDepth.Load()
    | Swapping(depth: int, max: int, tries: nat)

  datatype Thread = Thread(writer: bool, pc: Pc)

  /** `peak` is the largest value `depth` ever had; `sent` and `received` are the messages that went
      through the channel, in order; `drops` counts refusals of the best-effort path. */
  datatype State = State(
    capacity: nat, queue: seq<Message>, depth: int, maxDepth: int, drops: nat, threads: seq<Thread>,
    peak: int, sent: seq<Message>, received: seq<Message>)

  datatype Step =
    | SendCritical(t: nat, m: Message)      // blocks while the channel is full
    | SendBestEffort(t: nat, m: Message)    // gives up when it is
    | Receive(t: nat)
    | AddDepth(t: nat)
    | LoadMax(t: nat)
    | Swap(t: nat)

  /** Threads numbered below `producers` only send, the others only receive. */
  function Init(capacity: nat, producers: nat, writers: nat): State {
    State(capacity, [], 0, 0, 0, seq(producers + writers, i => Thread(i >= producers, Resting)), 0, [], [])
  }

  function Move(s: State, t: nat, pc: Pc): State
    requires t < |s.threads|
  {
    s.(threads := s.threads[t := s.threads[t].(pc := pc)])
  }

  predicate At(s: State, t: nat, writer: bool) {
    t < |s.threads| && s.threads[t].pc == Resting && s.threads[t].writer == writer
  }

  function Max(a: int, b: int): int {
    if a < b then b else a
  }

  function Do(s: State, step: Step): State {
    match step
    case SendCritical(t, m) =>
      if At(s, t, false) && |s.queue| < s.capacity
      then Move(s, t, HasSent).(queue := s.queue + [m], sent := s.sent + [m]) else s
    case SendBestEffort(t, m) =>
      if !At(s, t, false) then s
      else if |s.queue| < s.capacity then Move(s, t, HasSent).(queue := s.queue + [m], sent := s.sent + [m])
      else s.(drops := s.drops + 1)
    case Receive(t) =>
      if At(s, t, true) && s.queue != []
      then Move(s, t, HasReceived).(queue := s.queue[1..], received := s.received + [s.queue[0]]) else s
    case AddDepth(t) =>
      if t < |s.threads| && s.threads[t].pc in {HasSent, HasReceived} then
        var d := s.depth + if s.threads[t].pc == HasSent then 1 else -1;
        Move(s, t, Loading(d, 0)).(depth := d, peak := Max(s.peak, d))
      else s
    case LoadMax(t) =>
      if t < |s.threads| && s.threads[t].pc.Loading? then
        var pc := s.threads[t].pc;
        Move(s, t, if pc.depth <= s.maxDepth then Resting else Swapping(pc.depth, s.maxDepth, pc.tries))
      else s
    case Swap(t) =>
      if t < |s.threads| && s.threads[t].pc.Swapping? then
        var pc := s.threads[t].pc;
        if s.maxDepth == pc.max then Move(s, t, Resting).(maxDepth := pc.depth)
        else Move(s, t, Loading(pc.depth, pc.tries + 1))
      else s
  }

  function Run(s: State, steps: seq<Step>): State
    decreases |steps|
  {
    if steps == [] then s else Run(Do(s, steps[0]), steps[1..])
  }

  /** How many threads are at `pc`, and how many are writers. */
  function Count(threads: seq<Thread>, pc: Pc): nat {
    if threads == [] then 0 else (if threads[0].pc == pc then 1 else 0) + Count(threads[1..], pc)
  }

  function Writers(threads: seq<Thread>): nat {
    if threads == [] then 0 else (if threads[0].writer then 1 else 0) + Writers(threads[1..])
  }

  lemma {:induction false} CountMove(threads: seq<Thread>, t: nat, to: Pc, pc: Pc)
    requires t < |threads|
    ensures var moved := threads[t := threads[t].(pc := to)];
      && Count(moved, pc) == Count(threads, pc) - (if threads[t].pc == pc then 1 else 0) + (if to == pc then 1 else 0)
      && Writers(moved) == Writers(threads)
  {
    var moved := threads[t := threads[t].(pc := to)];
    if t == 0 {
      assert moved[1..] == threads[1..];
    } else {
      assert moved[1..] == threads[1..][t - 1 := threads[1..][t - 1].(pc := to)];
      CountMove(threads[1..], t - 1, to, pc);
    }
  }

  lemma {:induction false} ReceiversAreWriters(threads: seq<Thread>)
    requires forall t :: 0 <= t < |threads| && threads[t].pc == HasReceived ==> threads[t].writer
    ensures Count(threads, HasReceived) <= Writers(threads)
  {
    if threads != [] { ReceiversAreWriters(threads[1..]); }
  }

  predicate ThreadOk(s: State, t: nat)
    requires t < |s.threads|
  {
    match s.threads[t].pc
    case HasSent => !s.threads[t].writer
    case HasReceived => s.threads[t].writer
    case Loading(d, tries) => d <= s.peak && tries <= s.maxDepth && (tries > 0 ==> tries <= d)
    case Swapping(d, max, tries) => d <= s.peak && tries <= max <= s.maxDepth && max < d
    case Resting => true
  }

  /** A thread that is still to raise the high-water mark to `d`. */
  predicate Raising(pc: Pc, d: int) {
    (pc.Loading? || pc.Swapping?) && pc.depth == d
  }

  ghost predicate Inv(s: State) {
    && |s.queue| <= s.capacity
    && s.depth == |s.queue| + Count(s.threads, HasReceived) - Count(s.threads, HasSent)
    && (forall t :: 0 <= t < |s.threads| ==> ThreadOk(s, t))
    && s.sent == s.received + s.queue
    && 0 <= s.maxDepth <= s.peak && s.depth <= s.peak
    && (s.peak == s.maxDepth || exists t :: 0 <= t < |s.threads| && Raising(s.threads[t].pc, s.peak))
    && s.peak <= s.capacity + Writers(s.threads)
  }

  /** A channel operation: one thread leaves its rest, and the queue changes with it. */
  lemma ChannelKeepsInv(s: State, t: nat, to: Pc, queue: seq<Message>, sent: seq<Message>, received: seq<Message>)
    requires Inv(s) && t < |s.threads| && s.threads[t].pc == Resting && |queue| <= s.capacity
    requires to == if s.threads[t].writer then HasReceived else HasSent
    requires |queue| == |s.queue| + if s.threads[t].writer then -1 else 1
    requires sent == received + queue
    ensures Inv(Move(s, t, to).(queue := queue, sent := sent, received := received))
  {
    hide Count, Writers;
    var u := Move(s, t, to).(queue := queue, sent := sent, received := received);
    CountMove(s.threads, t, to, HasSent);
    CountMove(s.threads, t, to, HasReceived);
    forall i | 0 <= i < |u.threads| ensures ThreadOk(u, i) { assert ThreadOk(s, i); }
    if s.peak != s.maxDepth {
      var w :| 0 <= w < |s.threads| && Raising(s.threads[w].pc, s.peak);
      assert Raising(u.threads[w].pc, u.peak);
    }
  }

  lemma SendKeepsInv(s: State, t: nat, m: Message)
    requires Inv(s) && At(s, t, false)
    ensures Inv(Do(s, SendCritical(t, m))) && Inv(Do(s, SendBestEffort(t, m)))
  {
    hide Count, Writers;
    if |s.queue| < s.capacity {
      ChannelKeepsInv(s, t, HasSent, s.queue + [m], s.sent + [m], s.received);
    } else {
      var u := Do(s, SendBestEffort(t, m));
      forall i | 0 <= i < |u.threads| ensures ThreadOk(u, i) { assert ThreadOk(s, i); }
    }
  }

  lemma ReceiveKeepsInv(s: State, t: nat)
    requires Inv(s) && At(s, t, true) && s.queue != []
    ensures Inv(Do(s, Receive(t)))
  {
    hide Count, Writers;
    assert s.sent == s.received + [s.queue[0]] + s.queue[1..];
    ChannelKeepsInv(s, t, HasReceived, s.queue[1..], s.sent, s.received + [s.queue[0]]);
  }

  lemma AddKeepsInv(s: State, t: nat)
    requires Inv(s) && t < |s.threads| && s.threads[t].pc in {HasSent, HasReceived}
    ensures Inv(Do(s, AddDepth(t)))
  {
    hide Count, Writers;
    var u := Do(s, AddDepth(t));
    CountMove(s.threads, t, u.threads[t].pc, HasSent);
    CountMove(s.threads, t, u.threads[t].pc, HasReceived);
    forall i | 0 <= i < |u.threads| ensures ThreadOk(u, i) { assert ThreadOk(s, i); }
    if u.peak == u.depth {
      assert Raising(u.threads[t].pc, u.peak);
    } else if s.peak != s.maxDepth {
      var w :| 0 <= w < |s.threads| && Raising(s.threads[w].pc, s.peak);
      assert Raising(u.threads[w].pc, u.peak);
    }
    // the bound on the new depth, counted as if the peak were not yet known
    forall i | 0 <= i < |u.threads| && u.threads[i].pc == HasReceived ensures u.threads[i].writer {
      assert ThreadOk(u, i);
    }
    ReceiversAreWriters(u.threads);
  }

  lemma LoadKeepsInv(s: State, t: nat)
    requires Inv(s) && t < |s.threads| && s.threads[t].pc.Loading?
    ensures Inv(Do(s, LoadMax(t)))
  {
    hide Count, Writers;
    var u := Do(s, LoadMax(t));
    CountMove(s.threads, t, u.threads[t].pc, HasSent);
    CountMove(s.threads, t, u.threads[t].pc, HasReceived);
    assert ThreadOk(s, t);
    forall i | 0 <= i < |u.threads| ensures ThreadOk(u, i) { assert ThreadOk(s, i); }
    if s.peak != s.maxDepth {
      var w :| 0 <= w < |s.threads| && Raising(s.threads[w].pc, s.peak);
      assert Raising(u.threads[w].pc, u.peak);
    }
  }

  lemma SwapKeepsInv(s: State, t: nat)
    requires Inv(s) && t < |s.threads| && s.threads[t].pc.Swapping?
    ensures Inv(Do(s, Swap(t)))
  {
    hide Count, Writers;
    var u := Do(s, Swap(t));
    CountMove(s.threads, t, u.threads[t].pc, HasSent);
    CountMove(s.threads, t, u.threads[t].pc, HasReceived);
    assert ThreadOk(s, t);
    forall i | 0 <= i < |u.threads| ensures ThreadOk(u, i) { assert ThreadOk(s, i); }
    if u.peak != u.maxDepth {
      var w :| 0 <= w < |s.threads| && Raising(s.threads[w].pc, s.peak);
      assert Raising(u.threads[w].pc, u.peak);
    }
  }

  lemma StepKeepsInv(s: State, step: Step)
    requires Inv(s)
    ensures Inv(Do(s, step))
    ensures s.maxDepth <= Do(s, step).maxDepth
  {
    var t := step.t;
    if t < |s.threads| {
      assert ThreadOk(s, t);
      match step
      case AddDepth(_) => if s.threads[t].pc in {HasSent, HasReceived} { AddKeepsInv(s, t); }
      case LoadMax(_) => if s.threads[t].pc.Loading? { LoadKeepsInv(s, t); }
      case Swap(_) => if s.threads[t].pc.Swapping? { SwapKeepsInv(s, t); }
      case Receive(_) => if At(s, t, true) && s.queue != [] { ReceiveKeepsInv(s, t); }
      case SendCritical(_, m) => if At(s, t, false) { SendKeepsInv(s, t, m); }
      case SendBestEffort(_, m) => if At(s, t, false) { SendKeepsInv(s, t, m); }
    }
  }

  lemma {:induction false} RunKeepsInv(s: State, steps: seq<Step>)
    requires Inv(s)
    ensures Inv(Run(s, steps))
    decreases |steps|
  {
    if steps != [] {
      StepKeepsInv(s, steps[0]);
      RunKeepsInv(Do(s, steps[0]), steps[1..]);
    }
  }

  lemma {:induction false} NoneAt(threads: seq<Thread>, pc: Pc)
    requires forall t :: 0 <= t < |threads| ==> threads[t].pc != pc
    ensures Count(threads, pc) == 0
  {
    if threads != [] { NoneAt(threads[1..], pc); }
  }

  lemma InitOk(capacity: nat, producers: nat, writers: nat)
    ensures Inv(Init(capacity, producers, writers))
  {
    var s := Init(capacity, producers, writers);
    NoneAt(s.threads, HasSent);
    NoneAt(s.threads, HasReceived);
  }

  // ---- The theorems ----

  /** In every reachable state the depth counter is off by exactly the threads that are between their
      channel operation and their update, and messages leave in the order in which they came. */
  lemma DepthAccounts(capacity: nat, producers: nat, writers: nat, steps: seq<Step>)
    ensures var s := Run(Init(capacity, producers, writers), steps);
      && s.depth == |s.queue| + Count(s.threads, HasReceived) - Count(s.threads, HasSent)
      && |s.queue| <= s.capacity
      && s.sent == s.received + s.queue
  {
    InitOk(capacity, producers, writers);
    RunKeepsInv(Init(capacity, producers, writers), steps);
  }

  /** What becomes of a message that a resting producer offers: it is at the end of the queue if there is room,
      and otherwise the critical path waits and the best-effort path counts a drop. Nothing else is dropped. */
  lemma OfferedMessage(s: State, t: nat, m: Message)
    requires t < |s.threads| && s.threads[t] == Thread(false, Resting)
    ensures var critical, best := Do(s, SendCritical(t, m)), Do(s, SendBestEffort(t, m));
      if |s.queue| < s.capacity then
        critical == best && best.queue == s.queue + [m] && best.sent == s.sent + [m] && best.drops == s.drops
        && best.threads[t].pc == HasSent && best.depth == s.depth
      else critical == s && best == s.(drops := s.drops + 1)
    ensures forall step :: Do(s, step).drops != s.drops ==> step.SendBestEffort? && |s.queue| >= s.capacity
  {}

  /** How many of the steps offer a message that is then either in the queue or dropped. */
  function Offers(s: State, steps: seq<Step>): nat
    decreases |steps|
  {
    if steps == [] then 0
    else
      var step := steps[0];
      var offers := step.t < |s.threads| && s.threads[step.t] == Thread(false, Resting)
                    && (step.SendBestEffort? || (step.SendCritical? && |s.queue| < s.capacity));
      (if offers then 1 else 0) + Offers(Do(s, step), steps[1..])
  }

  /** Over every run: each message offered is sent or counted as dropped, and none is both. */
  lemma {:induction false} OffersAreCounted(s: State, steps: seq<Step>)
    ensures var u := Run(s, steps); |u.sent| + u.drops == |s.sent| + s.drops + Offers(s, steps)
    decreases |steps|
  {
    if steps != [] {
      OfferStep(s, steps[0]);
      hide Do;
      OffersAreCounted(Do(s, steps[0]), steps[1..]);
    }
  }

  lemma OfferStep(s: State, step: Step)
    ensures var u := Do(s, step);
      |u.sent| + u.drops == |s.sent| + s.drops +
        if step.t < |s.threads| && s.threads[step.t] == Thread(false, Resting)
           && (step.SendBestEffort? || (step.SendCritical? && |s.queue| < s.capacity)) then 1 else 0
  {}

  predicate Quiet(s: State) {
    forall t :: 0 <= t < |s.threads| ==> s.threads[t].pc == Resting
  }

  lemma {:induction false} SizesStay(s: State, steps: seq<Step>)
    ensures Run(s, steps).capacity == s.capacity
    ensures Writers(Run(s, steps).threads) == Writers(s.threads)
    decreases |steps|
  {
    if steps != [] {
      var u := Do(s, steps[0]);
      var t := steps[0].t;
      if t < |s.threads| { CountMove(s.threads, t, u.threads[t].pc, Resting); }
      assert Writers(u.threads) == Writers(s.threads);
      SizesStay(u, steps[1..]);
    }
  }

  lemma {:induction false} WritersOf(k: nat, n: nat, p: nat)
    requires k <= n
    ensures Writers(seq(n - k, i requires 0 <= i < n - k => Thread(i + k >= p, Resting))) ==
      if n <= p then 0 else n - Max(k, p)
    decreases n - k
  {
    if k < n {
      var all := seq(n - k, i requires 0 <= i < n - k => Thread(i + k >= p, Resting));
      assert all[1..] == seq(n - k - 1, i requires 0 <= i < n - k - 1 => Thread(i + (k + 1) >= p, Resting));
      WritersOf(k + 1, n, p);
    }
  }

  /** When no thread is under way the counter is the length of the queue, and the high-water mark is the
      largest value the counter ever had: at most the capacity and one more for each writer. */
  lemma QuietCountersAreExact(capacity: nat, producers: nat, writers: nat, steps: seq<Step>)
    ensures var s := Run(Init(capacity, producers, writers), steps);
      && s.peak <= capacity + writers
      && s.maxDepth <= s.peak
      && (Quiet(s) ==> s.depth == |s.queue| && s.maxDepth == s.peak)
  {
    var s0 := Init(capacity, producers, writers);
    var s := Run(s0, steps);
    InitOk(capacity, producers, writers);
    RunKeepsInv(s0, steps);
    SizesStay(s0, steps);
    assert s0.threads == seq(producers + writers - 0,
      i requires 0 <= i < producers + writers - 0 => Thread(i + 0 >= producers, Resting));
    WritersOf(0, producers + writers, producers);
    if Quiet(s) {
      NoneAt(s.threads, HasSent);
      NoneAt(s.threads, HasReceived);
    }
  }

  /** The compare-and-swap loop ends: it fails only because another thread has raised the mark meanwhile,
      so no call fails as often as the mark can be high. */
  lemma RetriesAreBounded(capacity: nat, producers: nat, writers: nat, steps: seq<Step>, t: nat)
    ensures var s := Run(Init(capacity, producers, writers), steps);
      t < |s.threads| && (s.threads[t].pc.Loading? || s.threads[t].pc.Swapping?) ==>
        s.threads[t].pc.tries <= s.maxDepth <= capacity + writers
  {
    QuietCountersAreExact(capacity, producers, writers, steps);
    InitOk(capacity, producers, writers);
    RunKeepsInv(Init(capacity, producers, writers), steps);
    var s := Run(Init(capacity, producers, writers), steps);
    if t < |s.threads| { assert ThreadOk(s, t); }
  }

  /** A failed compare-and-swap means that the mark is higher than the thread had read. */
  lemma RetryOnlyAfterRaise(capacity: nat, producers: nat, writers: nat, steps: seq<Step>, t: nat)
    ensures var s := Run(Init(capacity, producers, writers), steps);
      t < |s.threads| && s.threads[t].pc.Swapping? && Do(s, Swap(t)).threads[t].pc.Loading? ==>
        s.threads[t].pc.max < s.maxDepth
  {
    InitOk(capacity, producers, writers);
    RunKeepsInv(Init(capacity, producers, writers), steps);
    var s := Run(Init(capacity, producers, writers), steps);
    if t < |s.threads| { assert ThreadOk(s, t); }
  }

  lemma {:induction false} RunAppend(s: State, steps: seq<Step>, step: Step)
    ensures Run(s, steps + [step]) == Do(Run(s, steps), step)
    decreases |steps|
  {
    if steps == [] {
      assert [step][1..] == [];
      assert steps + [step] == [step];
    } else {
      assert (steps + [step])[1..] == steps[1..] + [step];
      RunAppend(Do(s, steps[0]), steps[1..], step);
    }
  }

  ghost predicate Reaches(s: State, u: State) {
    exists steps :: Run(s, steps) == u
  }

  lemma ReachesItself(s: State)
    ensures Reaches(s, s)
  {
    assert Run(s, []) == s;
  }

  lemma ReachesNext(s: State, u: State, step: Step)
    requires Reaches(s, u)
    ensures Reaches(s, Do(u, step))
  {
    hide Do;
    var steps :| Run(s, steps) == u;
    RunAppend(s, steps, step);
  }

  /** A whole call of the producer 0: one message more, counted, and nobody else involved. */
  lemma Push(s0: State, s: State) returns (u: State)
    requires Reaches(s0, s) && At(s, 0, false) && |s.queue| < s.capacity
    ensures Reaches(s0, u) && u.threads == s.threads && u.capacity == s.capacity
    ensures |u.queue| == |s.queue| + 1 && u.depth == s.depth + 1
  {
    hide Reaches;
    var s1 := Do(s, SendCritical(0, 0));
    ReachesNext(s0, s, SendCritical(0, 0));
    var s2 := Do(s1, AddDepth(0));
    ReachesNext(s0, s1, AddDepth(0));
    var s3 := Do(s2, LoadMax(0));
    ReachesNext(s0, s2, LoadMax(0));
    u := Do(s3, Swap(0));
    ReachesNext(s0, s3, Swap(0));
  }

  lemma {:induction false} FillQueue(s0: State, s: State) returns (u: State)
    requires Reaches(s0, s) && At(s, 0, false) && |s.queue| <= s.capacity
    ensures Reaches(s0, u) && u.depth == s.depth + s.capacity - |s.queue|
    decreases s.capacity - |s.queue|
  {
    hide Reaches;
    u := s;
    if |s.queue| < s.capacity {
      u := Push(s0, s);
      u := FillQueue(s0, u);
    }
  }

  /** Each writer in turn takes a message and stops before its decrement. */
  lemma {:induction false} BlockWriters(s0: State, s: State, k: nat) returns (u: State)
    requires Reaches(s0, s) && At(s, 0, false) && s.queue == [] && 1 <= s.capacity
    requires 1 <= k <= |s.threads| && forall t :: k <= t < |s.threads| ==> At(s, t, true)
    ensures Reaches(s0, u) && At(u, 0, false) && u.queue == [] && u.capacity == s.capacity
    ensures u.depth == s.depth + |s.threads| - k
    decreases |s.threads| - k
  {
    hide Reaches;
    u := s;
    if k < |s.threads| {
      assert At(s, k, true);
      var full := Push(s0, s);
      ReachesNext(s0, full, Receive(k));
      var next := Do(full, Receive(k));
      forall t | k < t < |next.threads| ensures At(next, t, true) { assert At(s, t, true); }
      u := BlockWriters(s0, next, k + 1);
    }
  }

  /** The bound is tight: whatever the capacity and the number of writers, there is a run in which the depth
      counter stands above the capacity by one for each writer. */
  lemma CapacityIsExceeded(capacity: nat, producers: nat, writers: nat)
    requires 1 <= capacity && 1 <= producers
    ensures exists steps :: Run(Init(capacity, producers, writers), steps).depth == capacity + writers
  {
    var s0 := Init(capacity, producers, writers);
    ReachesItself(s0);
    var u := BlockWriters(s0, s0, producers);
    u := FillQueue(s0, u);
    var steps :| Run(s0, steps) == u;
    assert Run(s0, steps).depth == capacity + writers;
  }
}
