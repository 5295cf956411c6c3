/** The transmit half of the UART driver (uart.c with consprod.c): a writer thread, a DMA engine, an interrupt handler
    and a timer poll share one ring. Data waits in the slots from cons up to, but not including, the one before prod. */
module UartTransmit {
  import opened Bytes
  import opened Options
  import opened Ring

  /** Where the writer thread is inside consprod_write, with the bytes it still has to hand over and its copies of
      the neighbours of prod. */
  datatype Writer =
    | Idle
    | Checking(pending: seq<byte>, nextProd: nat, prevProd: nat)
    | Storing(pending: seq<byte>, nextProd: nat, prevProd: nat)
    | Publishing(pending: seq<byte>, nextProd: nat, prevProd: nat)

  /** The ring, the started flag, the control register with what it reads as before it is loaded, and the writer; and, to speak about them, the bytes that
      went out on the wire, those taken over by the ring and those passed to uart_write. */
  datatype Tx = Tx(
    buf: seq<byte>, prod: nat, cons: nat, started: bool, reg: Option<Transfer>, unloaded: nat, writer: Writer,
    wire: seq<byte>, accepted: seq<byte>, submitted: seq<byte>)

  datatype Step =
    | WriteCall(data: seq<byte>)
    | WriterMove
    | DmaByte
    | Interrupt
    | Update
    | Poll

  function Pending(w: Writer): seq<byte> { if w.Idle? then [] else w.pending }

  /** How many bytes a transfer started now would cover: the queued bytes up to the end of the buffer. */
  function StartLength(s: Tx): int
    requires s.cons < |s.buf|
  {
    if s.cons > s.prod then
      var free := |s.buf| - s.cons;
      if s.prod == 0 then free - 1 else free
    else s.prod - s.cons - 1
  }

  /** uart_tx_start */
  function TxStart(s: Tx): Tx
    requires s.cons < |s.buf|
  {
    var free := StartLength(s);
    if free > 0 then
      s.(started := true, reg := Some(Transfer(s.cons, if free <= MAX_TRANSFER then free else MAX_TRANSFER, 0)))
    else s
  }

  /** uart_tx_update */
  function TxUpdate(s: Tx): Tx {
    s.(cons := Wrap(Reached(RegisterWord(s.reg, s.unloaded)), |s.buf|))
  }

  /** One shared-memory access of the writer thread. */
  function MoveWriter(s: Tx): Tx
    requires s.prod < |s.buf|
  {
    match s.writer
    case Idle => s
    case Checking(p, next, prev) =>
      if p == [] then s.(writer := Idle)
      else if next == s.cons then s
      else s.(writer := Storing(p, next, prev))
    case Storing(p, next, prev) =>
      if p == [] || prev >= |s.buf| then s
      else s.(buf := s.buf[prev := p[0]], writer := Publishing(p, next, prev))
    case Publishing(p, next, prev) =>
      if p == [] || next >= |s.buf| then s
      else s.(prod := next, accepted := s.accepted + [p[0]], writer := Checking(p[1..], Next(next, |s.buf|), s.prod))
  }

  /** What a step does; a step that is not enabled does nothing. */
  function Do(s: Tx, step: Step): Tx
    requires s.cons < |s.buf| && s.prod < |s.buf|
  {
    match step
    case WriteCall(data) =>
      if !s.writer.Idle? then s
      else s.(writer := Checking(data, Next(s.prod, |s.buf|), Prev(s.prod, |s.buf|)), submitted := s.submitted + data)
    case WriterMove => MoveWriter(s)
    case DmaByte =>
      if s.started && s.reg.Some? && s.reg.value.done < s.reg.value.len && s.reg.value.start + s.reg.value.done < |s.buf| then
        var t := s.reg.value;
        s.(wire := s.wire + [s.buf[t.start + t.done]], reg := Some(t.(done := t.done + 1)))
      else s
    case Interrupt =>
      if s.started && s.reg.Some? && s.reg.value.done == s.reg.value.len then
        var u := TxUpdate(s).(started := false);
        if u.cons < |u.buf| then TxStart(u) else u
      else s
    case Update => if s.reg.Some? then TxUpdate(s) else s
    case Poll => if s.started then s else TxStart(s)
  }

  function Initial(buf: seq<byte>, unloaded: nat): Tx {
    Tx(buf, 1, 0, false, None, unloaded, Idle, [], [], [])
  }

  // ----- The invariant -----

  /** The first slot whose byte has not gone out. */
  function Sent(s: Tx): nat {
    if s.started && s.reg.Some? then Wrap(s.reg.value.start + s.reg.value.done, |s.buf|) else s.cons
  }

  function QueueLength(s: Tx): int { Dist(Sent(s), s.prod, |s.buf|) - 1 }

  ghost function Queued(s: Tx): seq<byte>
    requires Sent(s) < |s.buf|
  {
    if QueueLength(s) >= 0 then Slots(s.buf, Sent(s), QueueLength(s)) else []
  }

  ghost predicate WriterOk(s: Tx)
    requires s.prod < |s.buf|
  {
    s.writer.Idle? ||
    (&& s.writer.nextProd == Next(s.prod, |s.buf|) && s.writer.prevProd == Prev(s.prod, |s.buf|)
     && (!s.writer.Checking? ==> s.writer.pending != [] && s.writer.nextProd != s.cons)
     && (s.writer.Publishing? ==> s.buf[s.writer.prevProd] == s.writer.pending[0]))
  }

  /** The armed transfer lies within the buffer, what is left of it is queued, and cons is behind it. */
  ghost predicate TransferOk(s: Tx) {
    && (s.started ==> s.reg.Some?)
    && (s.reg.Some? ==>
          var t := s.reg.value;
          && 0 < t.len <= MAX_TRANSFER && t.done <= t.len && t.start + t.len <= |s.buf|
          && (s.started ==> t.len - t.done <= QueueLength(s))
          && (!s.started ==> t.done == t.len && s.cons == Wrap(t.start + t.done, |s.buf|)))
  }

  ghost predicate Inv(s: Tx) {
    && |s.buf| >= 3 && s.prod < |s.buf| && s.cons < |s.buf|
    && s.prod != s.cons
    && TransferOk(s)
    && Sent(s) < |s.buf|
    && Sent(s) != s.prod
    && Dist(s.cons, Sent(s), |s.buf|) + Dist(Sent(s), s.prod, |s.buf|) == Dist(s.cons, s.prod, |s.buf|)
    && WriterOk(s)
    && s.wire + Queued(s) == s.accepted
    && s.accepted + Pending(s.writer) == s.submitted
  }

  lemma InitialInv(buf: seq<byte>, unloaded: nat)
    requires |buf| >= 3
    ensures Inv(Initial(buf, unloaded))
  {
  }

  lemma CursorsInside(s: Tx)
    requires Inv(s)
    ensures s.cons < |s.buf| && s.prod < |s.buf|
  {
    hide Slots;
  }

  lemma StartKeepsInv(s: Tx)
    requires Inv(s) && !s.started
    ensures Inv(TxStart(s))
    ensures TxStart(s).wire == s.wire && Queued(TxStart(s)) == Queued(s)
  {
  }

  lemma UpdateKeepsInv(s: Tx)
    requires Inv(s) && s.reg.Some?
    ensures Inv(TxUpdate(s)) && Sent(TxUpdate(s)) == Sent(s)
    ensures TxUpdate(s).cons == Wrap(s.reg.value.start + s.reg.value.done, |s.buf|)
  {
    hide Slots;
    ReachedIsPosition(s.reg.value.start, s.reg.value.done);
    hide Reached, ControlWord;
  }

  /** The driver's functions may be called at any moment. Starting anew during a transfer keeps the order of bytes
      exactly if nothing of it that cons has not passed has gone out, so that nothing would go out twice. */
  lemma StartAnytime(s: Tx)
    requires Inv(s)
    ensures Inv(TxStart(s)) <==> !s.started || StartLength(s) <= 0 || Sent(s) == s.cons
  {
    if StartLength(s) > 0 {
      if !s.started {
        StartKeepsInv(s);
      } else if Sent(s) == s.cons {
        hide Slots;
        assert Queued(TxStart(s)) == Queued(s);
      } else {
        LongerQueue(s, TxStart(s));
      }
    }
  }

  /** Updating from a register that was never loaded keeps it exactly if the register happens to read as cons. */
  lemma UpdateUnloaded(s: Tx)
    requires Inv(s) && s.reg.None?
    ensures Inv(TxUpdate(s)) <==> Wrap(Reached(s.unloaded), |s.buf|) == s.cons
  {
    hide Reached;
    if TxUpdate(s).cons == s.cons {
      assert TxUpdate(s) == s;
    } else if TxUpdate(s).cons < |s.buf| {
      LongerQueue(s, TxUpdate(s));
    }
  }

  /** A queue of another length does not hold the same bytes. */
  lemma LongerQueue(s: Tx, s': Tx)
    requires Inv(s) && s'.buf == s.buf && s'.prod == s.prod && s'.wire == s.wire && s'.accepted == s.accepted
    requires Sent(s') < |s.buf| && Sent(s') != Sent(s)
    ensures !Inv(s')
  {
    SlotsLength(s.buf, Sent(s), QueueLength(s));
    if Sent(s') != s.prod { SlotsLength(s.buf, Sent(s'), QueueLength(s')); }
    hide Slots, TransferOk, WriterOk;
  }

  lemma InterruptKeepsInv(s: Tx)
    requires Inv(s) && s.started && s.reg.value.done == s.reg.value.len
    ensures Inv(TxUpdate(s).(started := false))
  {
    hide Slots, Reached, ControlWord;
    UpdateKeepsInv(s);
    assert Queued(TxUpdate(s).(started := false)) == Queued(TxUpdate(s));
  }

  lemma DmaKeepsInv(s: Tx)
    requires Inv(s)
    ensures Inv(Do(s, DmaByte))
  {
    hide Slots;
    var s' := Do(s, DmaByte);
    if s' != s {
      OneByteOut(s);
      SlotsFirst(s.buf, Sent(s), QueueLength(s));
      hide TransferOk;
      assert s.wire + Queued(s) == s'.wire + Queued(s');
    }
  }

  lemma OneByteOut(s: Tx)
    requires Inv(s) && Do(s, DmaByte) != s
    ensures var s' := Do(s, DmaByte);
            && TransferOk(s') && Sent(s) < |s.buf| && Sent(s') == Next(Sent(s), |s.buf|) && QueueLength(s') == QueueLength(s) - 1 && QueueLength(s) > 0
            && s'.wire == s.wire + [s.buf[Sent(s)]] && Sent(s') != s.prod
            && Dist(s.cons, Sent(s'), |s.buf|) + Dist(Sent(s'), s.prod, |s.buf|) == Dist(s.cons, s.prod, |s.buf|)
  {
    hide Slots, WriterOk, Queued;
  }

  lemma StoringKeepsInv(s: Tx)
    requires Inv(s) && s.writer.Storing?
    ensures Inv(MoveWriter(s))
  {
    hide Slots;
    StoresOutsideQueue(s);
    SlotsUpdate(s.buf, Sent(s), QueueLength(s), s.writer.prevProd, s.writer.pending[0]);
    assert Queued(MoveWriter(s)) == Queued(s);
  }

  lemma StoresOutsideQueue(s: Tx)
    requires Inv(s) && s.writer.Storing?
    ensures s.writer.prevProd < |s.buf| && QueueLength(s) <= Dist(Sent(s), s.writer.prevProd, |s.buf|)
  {
    hide Slots;
  }

  lemma PublishingKeepsInv(s: Tx)
    requires Inv(s) && s.writer.Publishing?
    ensures Inv(MoveWriter(s))
  {
    var p, prev, s' := s.writer.pending, s.writer.prevProd, MoveWriter(s);
    RoomForOne(s);
    assert QueueLength(s) >= 0 && At(Sent(s), QueueLength(s), |s.buf|) == prev by { hide Slots, Queued; }
    SlotsAppend(s.buf, Sent(s), QueueLength(s));
    assert p == [p[0]] + p[1..];
    hide Slots, At, TransferOk;
    assert Queued(s') == Queued(s) + [s.buf[prev]];
  }

  /** Once the writer has found room, publishing does not make prod meet cons. */
  lemma RoomForOne(s: Tx)
    requires Inv(s) && s.writer.Publishing?
    ensures var n, s' := |s.buf|, MoveWriter(s);
            && s'.prod == Next(s.prod, n) && s'.prod != s.cons && s'.prod != Sent(s) && Sent(s') == Sent(s)
            && QueueLength(s') == QueueLength(s) + 1
            && Dist(s'.cons, Sent(s'), n) + Dist(Sent(s'), s'.prod, n) == Dist(s'.cons, s'.prod, n)
            && TransferOk(s')
  {
    hide Slots;
  }

  lemma WriterKeepsInv(s: Tx)
    requires Inv(s)
    ensures Inv(MoveWriter(s))
  {
    if s.writer.Storing? {
      StoringKeepsInv(s);
    } else if s.writer.Publishing? {
      PublishingKeepsInv(s);
    } else {
      CheckingKeepsInv(s);
    }
    hide Inv;
  }

  lemma CheckingKeepsInv(s: Tx)
    requires Inv(s) && !s.writer.Storing? && !s.writer.Publishing?
    ensures Inv(MoveWriter(s))
  {
    hide Slots, Dist;
    assert Queued(MoveWriter(s)) == Queued(s);
  }

  lemma StepKeepsInv(s: Tx, step: Step)
    requires Inv(s)
    ensures Inv(Do(s, step))
  {
    CursorsInside(s);
    match step
    case WriteCall(data) => CallKeepsInv(s, data);
    case WriterMove =>
      WriterKeepsInv(s);
      hide Inv, MoveWriter;
    case DmaByte =>
      DmaKeepsInv(s);
      hide Inv;
    case Interrupt => InterruptStep(s);
    case Update =>
      if s.reg.Some? { UpdateKeepsInv(s); }
      hide Inv, TxUpdate;
    case Poll =>
      if !s.started { StartKeepsInv(s); }
      hide Inv, TxStart;
  }

  lemma CallKeepsInv(s: Tx, data: seq<byte>)
    requires Inv(s)
    ensures Inv(Do(s, WriteCall(data)))
  {
    hide Slots, Dist;
    assert Queued(Do(s, WriteCall(data))) == Queued(s);
  }

  lemma InterruptStep(s: Tx)
    requires Inv(s)
    ensures Inv(Do(s, Interrupt))
  {
    CursorsInside(s);
    hide Inv, TxUpdate, TxStart;
    if s.started && s.reg.Some? && s.reg.value.done == s.reg.value.len {
      var u := TxUpdate(s).(started := false);
      InterruptKeepsInv(s);
      CursorsInside(u);
      StartKeepsInv(u);
    }
  }

  // ----- Every run -----

  ghost predicate IsRun(buf: seq<byte>, steps: seq<Step>, states: seq<Tx>) {
    && |states| == |steps| + 1
    && states[0] == Initial(buf, states[0].unloaded)
    && forall i :: 0 <= i < |steps| ==>
         states[i].cons < |states[i].buf| && states[i].prod < |states[i].buf| && states[i + 1] == Do(states[i], steps[i])
  }

  lemma {:induction false} RunInv(buf: seq<byte>, steps: seq<Step>, states: seq<Tx>, i: nat)
    requires |buf| >= 3 && IsRun(buf, steps, states) && i < |states|
    ensures Inv(states[i])
  {
    hide Inv, Do;
    if i == 0 {
      InitialInv(buf, states[0].unloaded);
    } else {
      RunInv(buf, steps, states, i - 1);
      StepKeepsInv(states[i - 1], steps[i - 1]);
      assert states[i] == Do(states[i - 1], steps[i - 1]);
    }
  }

  /** Over every interleaving: what went out, what is queued and what the writer still holds is exactly what was
      passed to uart_write, in order; the queue leaves two slots free; and the transfer under way lies within the
      buffer and covers only queued bytes. */
  lemma TransmitSafety(buf: seq<byte>, steps: seq<Step>, states: seq<Tx>, i: nat)
    requires |buf| >= 3 && IsRun(buf, steps, states) && i < |states|
    ensures var s := states[i];
            && Sent(s) < |s.buf|
            && s.wire + Queued(s) + Pending(s.writer) == s.submitted
            && s.wire + Queued(s) == s.accepted
            && 0 <= QueueLength(s) <= |s.buf| - 2 && |Queued(s)| == QueueLength(s)
            && (s.started ==>
                  && s.reg.Some? && s.reg.value.start + s.reg.value.len <= |s.buf|
                  && s.reg.value.len - s.reg.value.done <= QueueLength(s))
  {
    RunInv(buf, steps, states, i);
    SlotsLength(states[i].buf, Sent(states[i]), QueueLength(states[i]));
  }

  /** The control register is loaded with a new transfer only when none is under way: the one before has moved all
      its bytes. */
  lemma OneTransferAtATime(s: Tx, step: Step)
    requires Inv(s)
    ensures var s' := Do(s, step);
            s'.reg != s.reg && !(s.reg.Some? && s'.reg == Some(s.reg.value.(done := s.reg.value.done + 1))) ==>
              && s'.started && s'.reg.Some? && s'.reg.value.done == 0
              && (s.started ==> s.reg.value.done == s.reg.value.len && step == Interrupt)
  {
  }

  /** Nothing is stranded: with bytes queued and no transfer under way, the next poll starts one. */
  lemma PollStartsQueued(s: Tx)
    requires Inv(s) && !s.started
    ensures QueueLength(s) > 0 <==> Do(s, Poll).started
  {
  }

  // ----- Everything goes out -----

  /** How much the writer still has to do. */
  function WriterLeft(w: Writer): nat {
    match w
    case Idle => 0
    case Checking(p, _, _) => 3 * |p| + 1
    case Storing(p, _, _) => 3 * |p|
    case Publishing(p, _, _) => if p == [] then 0 else 3 * |p| - 1
  }

  /** What has to happen before the next byte can move: nothing, a poll, or an interrupt. */
  function Waiting(s: Tx): nat {
    if s.started then (if s.reg.Some? && s.reg.value.done == s.reg.value.len then 2 else 0)
    else if QueueLength(s) > 0 then 1 else 0
  }

  /** Fewer bytes to go out, or as many and less for the writer to do, or that too and less to wait for. */
  ghost predicate Nearer(s': Tx, s: Tx) {
    && s'.submitted == s.submitted
    && (|s.wire| < |s'.wire|
        || (s'.wire == s.wire && (WriterLeft(s'.writer) < WriterLeft(s.writer)
                                  || (s'.writer == s.writer && Waiting(s') < Waiting(s)))))
  }

  ghost predicate Drained(s: Tx) { s.writer.Idle? && s.wire == s.submitted }

  /** A writer that waits for room sees the ring full. */
  predicate Full(s: Tx) { s.writer.Checking? && s.writer.pending != [] && s.writer.nextProd == s.cons }

  /** A step that will bring what was submitted nearer to the wire. */
  function Due(s: Tx): Step {
    if !s.writer.Idle? && !Full(s) then WriterMove
    else if !s.started then Poll
    else if s.reg.Some? && s.reg.value.done < s.reg.value.len then DmaByte
    else Interrupt
  }

  lemma WireWithin(s: Tx)
    requires Inv(s)
    ensures |s.wire| <= |s.submitted| && s.wire <= s.submitted
    ensures s.wire == s.submitted <==> Queued(s) == [] && Pending(s.writer) == []
    ensures Queued(s) == [] <==> QueueLength(s) == 0
  {
    SlotsLength(s.buf, Sent(s), QueueLength(s));
    hide Slots;
    assert s.submitted == s.wire + (Queued(s) + Pending(s.writer));
  }

  lemma WriterNearer(s: Tx)
    requires Inv(s) && !s.writer.Idle? && !Full(s)
    ensures Nearer(MoveWriter(s), s)
  {
    hide Slots;
  }

  lemma DmaNearer(s: Tx)
    requires Inv(s) && s.started && s.reg.value.done < s.reg.value.len
    ensures Nearer(Do(s, DmaByte), s)
  {
    hide Slots;
  }

  /** With no transfer under way, starting one leaves nothing to wait for. */
  lemma StartNearer(s: Tx)
    requires Inv(s) && !s.started
    ensures Waiting(TxStart(s)) == 0
  {
    hide Slots;
  }

  lemma InterruptNearer(s: Tx)
    requires Inv(s) && s.started && s.reg.value.done == s.reg.value.len
    ensures Nearer(Do(s, Interrupt), s)
  {
    var u := TxUpdate(s).(started := false);
    InterruptKeepsInv(s);
    CursorsInside(u);
    StartNearer(u);
    hide Inv, Reached;
  }

  /** As long as something has not gone out there is a step that brings it nearer, whatever the state. */
  lemma DueBringsNearer(s: Tx)
    requires Inv(s) && !Drained(s)
    ensures CursorsIn(s) && Nearer(Do(s, Due(s)), s)
  {
    CursorsInside(s);
    if !s.writer.Idle? && !Full(s) {
      WriterNearer(s);
    } else if !s.started {
      StillQueued(s);
      StartNearer(s);
    } else if s.reg.value.done < s.reg.value.len {
      DmaNearer(s);
    } else {
      InterruptNearer(s);
    }
  }

  lemma StillQueued(s: Tx)
    requires Inv(s) && !Drained(s) && (s.writer.Idle? || Full(s)) && !s.started
    ensures QueueLength(s) > 0
  {
    hide Slots;
    WireWithin(s);
  }

  predicate CursorsIn(s: Tx) { s.cons < |s.buf| && s.prod < |s.buf| }

  /** No step but a further call takes anything back: what does not bring nearer changes neither the wire nor the writer. */
  lemma NeverBack(s: Tx, step: Step)
    requires Inv(s) && !step.WriteCall?
    ensures CursorsIn(s)
    ensures var s' := Do(s, step); Nearer(s', s) || (s'.wire == s.wire && s'.writer == s.writer && s'.submitted == s.submitted && Waiting(s') <= Waiting(s))
  {
    CursorsInside(s);
    match step
    case WriterMove => if !s.writer.Idle? && !Full(s) { WriterNearer(s); }
    case DmaByte => if s.started && s.reg.value.done < s.reg.value.len { DmaNearer(s); }
    case Interrupt => if s.started && s.reg.value.done == s.reg.value.len { InterruptNearer(s); }
    case Update => if s.reg.Some? { UpdateWaits(s); }
    case Poll => if !s.started { StartNearer(s); }
  }

  lemma UpdateWaits(s: Tx)
    requires Inv(s) && s.reg.Some?
    ensures Waiting(TxUpdate(s)) == Waiting(s)
  {
    UpdateKeepsInv(s);
    hide Inv, Reached, Slots;
  }

  ghost predicate Leads(s: Tx, steps: seq<Step>, s': Tx)
    decreases |steps|
  {
    if steps == [] then s' == s
    else CursorsIn(s) && !steps[0].WriteCall? && Leads(Do(s, steps[0]), steps[1..], s')
  }

  /** From every state that can be reached, doing what is due sends everything that was submitted, in order, and ends the
      writer's call. */
  lemma {:induction false} EverythingGoesOut(s: Tx) returns (steps: seq<Step>, s': Tx)
    requires Inv(s)
    ensures Leads(s, steps, s') && Inv(s') && Drained(s') && s'.submitted == s.submitted
    decreases |s.submitted| - |s.wire|, WriterLeft(s.writer), Waiting(s)
  {
    if Drained(s) { return [], s; }
    DueBringsNearer(s);
    var next := Do(s, Due(s));
    StepKeepsInv(s, Due(s));
    WireWithin(s);
    WireWithin(next);
    hide Inv;
    steps, s' := EverythingGoesOut(next);
    steps := [Due(s)] + steps;
  }

  // ----- The driver's own functions, on the fields of its softc -----

  /** The transmit part of a unit's softc. */
  class UartSoftc {
    var buffer: seq<byte>
    var prod: nat
    var cons: nat
    var txStarted: bool
    var txControl: Option<Transfer>
    const unloaded: nat
    ghost var writer: Writer
    ghost var wire: seq<byte>
    ghost var accepted: seq<byte>
    ghost var submitted: seq<byte>

    ghost function State(): Tx
      reads this
    {
      Tx(buffer, prod, cons, txStarted, txControl, unloaded, writer, wire, accepted, submitted)
    }

    method Start()
      requires cons < |buffer|
      modifies this`txStarted, this`txControl
      ensures State() == TxStart(old(State()))
    {
      var free: int;
      if cons > prod {
        free := |buffer| - cons;
        if prod == 0 { free := free - 1; }
      } else {
        free := prod - cons - 1;
      }
      if free > 0 {
        if free > MAX_TRANSFER { free := MAX_TRANSFER; }
        txStarted := true;
        txControl := Some(Transfer(cons, free, 0));
      }
    }

    method Update()
      modifies this`cons
      ensures State() == TxUpdate(old(State()))
    {
      hide Reached;
      var x := Reached(RegisterWord(txControl, unloaded));
      if x == |buffer| { x := 0; }
      cons := x;
    }

    method InterruptHandler()
      requires Inv(State()) && txStarted && txControl.value.done == txControl.value.len
      modifies this`cons, this`txStarted, this`txControl
      ensures State() == Do(old(State()), Interrupt) && Inv(State())
    {
      ghost var s := State();
      InterruptKeepsInv(s);
      StartKeepsInv(TxUpdate(s).(started := false));
      hide Inv, Reached, RegisterWord;
      Update();
      txStarted := false;
      assert State() == TxUpdate(s).(started := false);
      CursorsInside(State());
      Start();
    }

    method PollTransmit()
      requires Inv(State())
      modifies this`txStarted, this`txControl
      ensures State() == Do(old(State()), Poll) && Inv(State())
    {
      ghost var s := State();
      CursorsInside(s);
      if !txStarted {
        StartKeepsInv(s);
        hide Inv;
        Start();
      }
    }
  }
}
