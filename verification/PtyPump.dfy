/** The output pump of a terminal session. A reader goroutine fills one buffer over and over and hands
    copies of it to the pump through a channel that holds one; the pump collects them and flushes on a
    threshold, on a tick and on an error. First the pump as a function of what it receives, then the
    goroutines with their arrays. */
module PtyPump {

  newtype byte = b: int | 0 <= b < 256
  type Bytes = seq<byte>

  const BUFFER_SIZE: nat := 4096
  const FLUSH_THRESHOLD: nat := 1024

  datatype Input = Tick | Data(data: Bytes, failed: bool)

  /** What the pump has emitted and what it still holds. */
  datatype Pump = Pump(pending: Bytes, emitted: seq<Bytes>, done: bool)

  function Flush(p: Pump): Pump {
    if p.pending == [] then p else p.(pending := [], emitted := p.emitted + [p.pending])
  }

  function Collect(p: Pump, data: Bytes): Pump {
    var q := p.(pending := p.pending + data);
    if data != [] && |q.pending| >= FLUSH_THRESHOLD then Flush(q) else q
  }

  function Take(p: Pump, input: Input): Pump {
    if p.done then p
    else match input
      case Tick => Flush(p)
      case Data(data, failed) =>
        var r := Collect(p, data);
        if failed then Flush(r).(done := true) else r
  }

  function Pumped(inputs: seq<Input>): Pump {
    if inputs == [] then Pump([], [], false)
    else Take(Pumped(inputs[..|inputs| - 1]), inputs[|inputs| - 1])
  }

  function Flat(chunks: seq<Bytes>): Bytes {
    if chunks == [] then [] else Flat(chunks[..|chunks| - 1]) + chunks[|chunks| - 1]
  }

  /** The bytes of the inputs up to and with the first failed read: what the pump gets to see. */
  function Seen(inputs: seq<Input>): Bytes {
    if inputs == [] then []
    else
      var before := inputs[..|inputs| - 1];
      var last := inputs[|inputs| - 1];
      if Pumped(before).done || last.Tick? then Seen(before) else Seen(before) + last.data
  }

  lemma FlatAppend(chunks: seq<Bytes>, c: Bytes)
    ensures Flat(chunks + [c]) == Flat(chunks) + c
  {
    assert (chunks + [c])[..|chunks|] == chunks;
  }

  lemma FlushConserves(p: Pump)
    ensures Flat(Flush(p).emitted) + Flush(p).pending == Flat(p.emitted) + p.pending
    ensures Flush(p).pending == []
  {
    if p.pending != [] { FlatAppend(p.emitted, p.pending); }
  }

  lemma TakeConserves(p: Pump, input: Input)
    requires p.done ==> p.pending == []
    ensures var q := Take(p, input);
      && Flat(q.emitted) + q.pending ==
           Flat(p.emitted) + p.pending + (if p.done || input.Tick? then [] else input.data)
      && (q.done ==> q.pending == [])
  {
    hide Flush, Flat;
    FlushConserves(p);
    if input.Data? {
      var q := p.(pending := p.pending + input.data);
      assert Flat(q.emitted) + q.pending == Flat(p.emitted) + p.pending + input.data;
      FlushConserves(q);
      FlushConserves(Flush(q));
    }
  }

  /** At every moment the bytes emitted, followed by those pending, are the bytes received, in order. */
  lemma {:induction false} PumpConserves(inputs: seq<Input>)
    ensures var p := Pumped(inputs);
      && Flat(p.emitted) + p.pending == Seen(inputs)
      && (p.done ==> p.pending == [])
  {
    hide Take, Flat;
    if inputs != [] {
      var before := inputs[..|inputs| - 1];
      PumpConserves(before);
      TakeConserves(Pumped(before), inputs[|inputs| - 1]);
    } else {
      assert Flat([]) == [] by { FlatNone(); }
    }
  }

  lemma FlatNone()
    ensures Flat([]) == []
  {}

  /** The pump returns at the first failed read, and not before. */
  lemma {:induction false} DoneIffFailed(inputs: seq<Input>)
    ensures Pumped(inputs).done <==> exists i :: 0 <= i < |inputs| && inputs[i].Data? && inputs[i].failed
  {
    if inputs != [] {
      var before := inputs[..|inputs| - 1];
      DoneIffFailed(before);
      DoneStep(Pumped(before), inputs[|inputs| - 1]);
      hide Take;
      if i :| 0 <= i < |before| && before[i].Data? && before[i].failed { assert inputs[i] == before[i]; }
      if i :| 0 <= i < |inputs| && inputs[i].Data? && inputs[i].failed {
        if i < |before| { assert before[i] == inputs[i]; }
      }
    }
  }

  lemma DoneStep(p: Pump, input: Input)
    ensures Take(p, input).done <==> p.done || (input.Data? && input.failed)
  {}

  /** A tick sends on all that is pending, and so does a read that makes it 1024 bytes or more, or fails. */
  lemma WhenItFlushes(p: Pump, data: Bytes, failed: bool)
    requires !p.done && |p.pending| < 1024
    ensures Take(p, Tick).pending == []
    ensures Take(p, Data(data, failed)).pending == if failed || |p.pending + data| >= 1024 then [] else p.pending + data
  {}

  ghost predicate WithinBuffer(inputs: seq<Input>) {
    forall i :: 0 <= i < |inputs| && inputs[i].Data? ==> |inputs[i].data| <= BUFFER_SIZE
  }

  /** What is pending stays under the threshold, and every emission is of 1 to 1023 + 4096 bytes. */
  lemma {:induction false} PumpIsBounded(inputs: seq<Input>)
    requires WithinBuffer(inputs)
    ensures var p := Pumped(inputs);
      && |p.pending| < 1024
      && forall i :: 0 <= i < |p.emitted| ==> 0 < |p.emitted[i]| <= 1023 + 4096
  {
    if inputs != [] {
      var before := inputs[..|inputs| - 1];
      PumpIsBounded(before);
      assert inputs[|inputs| - 1].Data? ==> |inputs[|inputs| - 1].data| <= BUFFER_SIZE;
    }
  }

  /** A run of small reads between two ticks is one emission: nothing is sent before the tick. */
  lemma {:induction false} SmallReadsCoalesce(p: Pump, parts: seq<Bytes>)
    requires !p.done && p.pending == [] && |Flat(parts)| < FLUSH_THRESHOLD
    ensures var q := TakeAll(p, parts);
      q == Pump(Flat(parts), p.emitted, false)
      && (Flat(parts) != [] ==> Take(q, Tick).emitted == p.emitted + [Flat(parts)])
  {
    if parts != [] {
      SmallReadsCoalesce(p, parts[..|parts| - 1]);
    }
  }

  function TakeAll(p: Pump, parts: seq<Bytes>): Pump {
    if parts == [] then p else Take(TakeAll(p, parts[..|parts| - 1]), Data(parts[|parts| - 1], false))
  }

  // ---- The goroutines ----

  /** What the reader sends: its own copy of the bytes it has read. */
  datatype ReadResult = ReadResult(data: array<byte>, failed: bool)

  /** The next thing that happens: the PTY delivers bytes or an error to the reader, the channel takes the
      reader's result, the pump receives one, or the ticker fires. */
  datatype Action = PtyDelivers(bytes: Bytes, failed: bool) | ReaderSends | PumpReceives | TickerFires

  function Contents(arrays: seq<array<byte>>): (cs: seq<Bytes>)
    reads arrays
    ensures |cs| == |arrays|
    ensures forall i :: 0 <= i < |cs| ==> cs[i] == arrays[i][..]
  {
    seq(|arrays|, i requires 0 <= i < |arrays| reads arrays => arrays[i][..])
  }

  /** The accounts of a stream: the pump is where its inputs have led it, and what was delivered is what
      it has seen and what is still on the way. */
  ghost predicate Ledger(inputs: seq<Input>, p: Pump, delivered: Bytes, inFlight: Bytes) {
    Pumped(inputs) == p && WithinBuffer(inputs) && delivered == Seen(inputs) + inFlight
  }

  lemma LedgerDeliver(inputs: seq<Input>, p: Pump, delivered: Bytes, inFlight: Bytes, bytes: Bytes)
    requires Ledger(inputs, p, delivered, inFlight)
    ensures Ledger(inputs, p, delivered + bytes, inFlight + bytes)
  {}

  lemma LedgerInput(inputs: seq<Input>, p: Pump, delivered: Bytes, inFlight: Bytes, input: Input, rest: Bytes)
    requires Ledger(inputs, p, delivered, inFlight) && !p.done
    requires input.Data? ==> |input.data| <= BUFFER_SIZE
    requires inFlight == if input.Data? then input.data + rest else rest
    ensures Ledger(inputs + [input], Take(p, input), delivered, rest)
  {
    hide Take;
    assert (inputs + [input])[..|inputs|] == inputs;
    assert Seen(inputs + [input]) == if input.Tick? then Seen(inputs) else Seen(inputs) + input.data;
  }

  ghost function Flight(channel: seq<ReadResult>, held: seq<ReadResult>): Bytes
    reads set r | r in channel + held :: r.data
  {
    (if channel == [] then [] else channel[0].data[..]) + (if held == [] then [] else held[0].data[..])
  }

  class Stream {
    const buffer: array<byte>
    var held: seq<ReadResult>       // the reader waits to send this
    var channel: seq<ReadResult>    // readResults, capacity 1
    var readerDone: bool
    var pending: Bytes
    var done: bool
    var payloads: seq<array<byte>>  // handed over to TerminalOutput
    ghost var inputs: seq<Input>    // what the pump has received so far
    ghost var delivered: Bytes      // what the PTY has delivered so far

    /** The pump with its payloads as they are now. */
    ghost function View(): Pump
      reads this, payloads
    {
      Pump(pending, Contents(payloads), done)
    }

    ghost predicate Shape()
      reads this
    {
      && buffer.Length == BUFFER_SIZE
      && |channel| <= 1 && |held| <= 1
      && buffer !in payloads
      && (forall r :: r in channel + held ==> r.data != buffer && r.data.Length <= BUFFER_SIZE)
      && (done ==> readerDone && channel == [] && held == [])
      && (channel != [] && channel[0].failed ==> held == [] && readerDone)
      && (held != [] && held[0].failed ==> readerDone)
      && (readerDone && !done ==>
            (held != [] && held[0].failed) || (held == [] && channel != [] && channel[0].failed))
    }

    ghost predicate Valid()
      reads this, payloads, set r | r in channel + held :: r.data
    {
      Shape() && Ledger(inputs, View(), delivered, Flight(channel, held))
    }

    constructor ()
      ensures Valid() && delivered == [] && inputs == []
    {
      buffer := new byte[BUFFER_SIZE](_ => 0);
      held, channel, readerDone := [], [], false;
      pending, done, payloads := [], false, [];
      inputs, delivered := [], [];
    }

    /** `ptyFile.Read(buffer)` and the copy of what it has read. */
    method ReadAndCopy(bytes: Bytes) returns (payload: array<byte>)
      requires |bytes| <= buffer.Length
      modifies buffer
      ensures fresh(payload) && payload[..] == bytes
      ensures buffer[..] == bytes + old(buffer[|bytes|..])
    {
      forall k | 0 <= k < |bytes| {
        buffer[k] := bytes[k];
      }
      payload := new byte[|bytes|](_ => 0);
      forall k | 0 <= k < |bytes| {
        payload[k] := buffer[k];
      }
    }

    /** The reader's loop body. It overwrites the buffer, and no payload handed over before changes. */
    method Read(bytes: Bytes, failed: bool)
      requires Valid() && !readerDone && held == [] && |bytes| <= BUFFER_SIZE
      modifies this, buffer
      ensures Valid()
      ensures delivered == old(delivered) + bytes && inputs == old(inputs)
      ensures View() == old(View()) && payloads == old(payloads)
      ensures channel == old(channel) && readerDone == failed && |held| == 1 && held[0].failed == failed
    {
      hide Ledger;
      var payload := ReadAndCopy(bytes);
      held := [ReadResult(payload, failed)];
      readerDone := failed;
      LedgerDeliver(inputs, View(), delivered, old(Flight(channel, held)), bytes);
      delivered := delivered + bytes;
      assert View() == old(View());
      assert Flight(channel, held) == old(Flight(channel, held)) + bytes;
    }

    method Send()
      requires Valid() && held != [] && channel == []
      modifies this
      ensures Valid()
      ensures delivered == old(delivered) && inputs == old(inputs) && View() == old(View())
      ensures channel == old(held) && held == [] && readerDone == old(readerDone)
    {
      hide Ledger;
      assert held == [held[0]];
      channel, held := held, [];
      assert View() == old(View());
      assert Flight(channel, held) == old(Flight(channel, held));
    }

    /** The closure `flush`: the payload is a new slice, and `pending` is reset. */
    method FlushPending()
      requires buffer !in payloads
      modifies this`pending, this`payloads
      ensures View() == old(Flush(View()))
      ensures buffer !in payloads
    {
      if pending == [] {
        return;
      }
      var payload := new byte[|pending|](k requires 0 <= k < |pending| reads this`pending => pending[k]);
      assert payload[..] == pending;
      payloads := payloads + [payload];
      pending := [];
      assert Contents(payloads) == old(Contents(payloads)) + [old(pending)];
    }

    /** The bytes of one result: kept, or flushed with what was kept once there are enough. */
    method Gather(data: array<byte>)
      requires buffer !in payloads
      modifies this`pending, this`payloads
      ensures View() == old(Collect(View(), data[..]))
      ensures buffer !in payloads
    {
      hide Contents, Flush;
      assert old(pending) + [] == old(pending);
      if data.Length > 0 {
        pending := pending + data[..];
        if |pending| >= FLUSH_THRESHOLD {
          FlushPending();
        }
      }
    }

    method Receive()
      requires Valid() && channel != [] && !done
      modifies this
      ensures Valid()
      ensures delivered == old(delivered)
      ensures inputs == old(inputs) + [Data(old(channel[0].data[..]), old(channel[0].failed))]
    {
      hide Ledger, Contents, Flush, Collect;
      var result := channel[0];
      ghost var input := Data(result.data[..], result.failed);
      ghost var p := View();
      LedgerInput(inputs, p, delivered, Flight(channel, held), input, Flight([], held));
      channel := [];
      inputs := inputs + [input];
      Gather(result.data);
      if result.failed {
        FlushPending();
        done := true;
      }
      assert View() == Take(p, input);
    }

    method Tick()
      requires Valid() && !done
      modifies this
      ensures Valid()
      ensures delivered == old(delivered) && inputs == old(inputs) + [Input.Tick]
      ensures channel == old(channel) && held == old(held) && readerDone == old(readerDone)
    {
      hide Ledger;
      LedgerInput(inputs, View(), delivered, Flight(channel, held), Input.Tick, Flight(channel, held));
      FlushPending();
      inputs := inputs + [Input.Tick];
    }

    /** Any schedule of the two goroutines and the ticker; an action that cannot happen is passed over. */
    method Run(schedule: seq<Action>)
      requires Valid()
      modifies this, buffer
      ensures Valid()
      ensures Flat(Contents(payloads)) + pending + Flight(channel, held) == delivered
      ensures |pending| < 1024
      ensures forall p :: p in payloads ==> 0 < p.Length <= 1023 + 4096
      ensures done ==> Flat(Contents(payloads)) == delivered
    {
      hide Ledger, Flight;
      for i := 0 to |schedule|
        invariant Valid()
      {
        match schedule[i]
        case PtyDelivers(bytes, failed) =>
          if !readerDone && held == [] && |bytes| <= BUFFER_SIZE { Read(bytes, failed); }
        case ReaderSends => if held != [] && channel == [] { Send(); }
        case PumpReceives => if channel != [] && !done { Receive(); }
        case TickerFires => if !done { Tick(); }
      }
      LedgerMeans(inputs, View(), delivered, Flight(channel, held));
      assert done ==> Flight(channel, held) == [] by { NothingInFlight(channel, held); }
      forall p | p in payloads ensures 0 < p.Length <= FLUSH_THRESHOLD - 1 + BUFFER_SIZE {
        var i :| 0 <= i < |payloads| && payloads[i] == p;
        assert Contents(payloads)[i] == p[..];
      }
    }
  }

  lemma NothingInFlight(channel: seq<ReadResult>, held: seq<ReadResult>)
    ensures channel == [] && held == [] ==> Flight(channel, held) == []
  {}

  lemma LedgerMeans(inputs: seq<Input>, p: Pump, delivered: Bytes, inFlight: Bytes)
    requires Ledger(inputs, p, delivered, inFlight)
    ensures Flat(p.emitted) + p.pending + inFlight == delivered
    ensures p.done ==> p.pending == []
    ensures |p.pending| < 1024
    ensures forall i :: 0 <= i < |p.emitted| ==> 0 < |p.emitted[i]| <= 1023 + 4096
  {
    PumpConserves(inputs);
    PumpIsBounded(inputs);
  }
}
