/** The receive half of the UART driver (uart.c with consprod.c): a DMA engine fills the ring, an interrupt handler and
    a timer poll arm it, and a reader thread empties it. Unread data lies in the slots after cons and before prod. */
module UartReceive {
  import opened Arith
  import opened Bytes
  import opened Options
  import opened Ring

  /** Where the reader thread is inside consprod_read: how many bytes it was asked for, those it has so far and its
      copy of the position after cons. Blocked between two looks at prod it is Checking. */
  datatype Reader =
    | Idle
    | Checking(len: nat, got: seq<byte>, nextCons: nat)
    | Fetching(len: nat, got: seq<byte>, nextCons: nat)
    | Advancing(len: nat, got: seq<byte>, nextCons: nat)

  /** The ring, the started flag, the control register with what it reads as before it is loaded, the last position
      seen and the reader; and, to speak about
      them, the bytes that DMA stored and what each call of uart_read returned. */
  datatype Rx = Rx(
    buf: seq<byte>, prod: nat, cons: nat, started: bool, reg: Option<Transfer>, unloaded: nat, lastPos: nat, reader: Reader,
    stored: seq<byte>, taken: seq<byte>, calls: seq<Call>)

  /** A finished call: the length asked for and the bytes returned. */
  datatype Call = Call(len: nat, bytes: seq<byte>)

  datatype Step =
    | ReadCall(len: nat)
    | ReaderMove
    | DmaByte(b: byte)
    | Interrupt
    | Update
    | Poll

  /** How many bytes a transfer started now may bring: the free slots up to the end of the buffer, keeping prod off
      cons. */
  function StartLength(s: Rx): int
    requires s.prod < |s.buf|
  {
    if s.prod > s.cons then
      var free := |s.buf| - s.prod;
      if s.cons == 0 then free - 1 else free
    else s.cons - s.prod - 1
  }

  /** uart_rx_start */
  function RxStart(s: Rx): Rx
    requires s.prod < |s.buf|
  {
    var free := StartLength(s);
    if free > 0 then
      s.(started := true, lastPos := s.prod, reg := Some(Transfer(s.prod, if free <= MAX_TRANSFER then free else MAX_TRANSFER, 0)))
    else s
  }

  /** uart_rx_update */
  function RxUpdate(s: Rx): Rx {
    var x := Reached(RegisterWord(s.reg, s.unloaded));
    if x != s.lastPos then s.(lastPos := x, prod := Wrap(x, |s.buf|)) else s
  }

  /** One shared-memory access of the reader thread. */
  function MoveReader(s: Rx): Rx {
    match s.reader
    case Idle => s
    case Checking(len, got, next) =>
      if |got| == len then s.(reader := Idle, calls := s.calls + [Call(len, got)])
      else if next == s.prod then
        if got != [] then s.(reader := Idle, calls := s.calls + [Call(len, got)]) else s
      else s.(reader := Fetching(len, got, next))
    case Fetching(len, got, next) =>
      if next >= |s.buf| then s
      else s.(reader := Advancing(len, got + [s.buf[next]], next), taken := s.taken + [s.buf[next]])
    case Advancing(len, got, next) =>
      if next >= |s.buf| then s
      else s.(cons := next, reader := Checking(len, got, Next(next, |s.buf|)))
  }

  function Do(s: Rx, step: Step): Rx
    requires s.cons < |s.buf| && s.prod < |s.buf|
  {
    match step
    case ReadCall(len) =>
      if s.reader.Idle? then s.(reader := Checking(len, [], Next(s.cons, |s.buf|))) else s
    case ReaderMove => MoveReader(s)
    case DmaByte(b) =>
      if s.started && s.reg.Some? && s.reg.value.done < s.reg.value.len && s.reg.value.start + s.reg.value.done < |s.buf| then
        var t := s.reg.value;
        s.(buf := s.buf[t.start + t.done := b], stored := s.stored + [b], reg := Some(t.(done := t.done + 1)))
      else s
    case Interrupt =>
      if s.started && s.reg.Some? && s.reg.value.done == s.reg.value.len then
        var u := RxUpdate(s).(started := false);
        if u.prod < |u.buf| then RxStart(u) else u
      else s
    case Update => if s.reg.Some? then RxUpdate(s) else s
    case Poll => if s.started then s else RxStart(s)
  }

  function Initial(buf: seq<byte>, unloaded: nat): Rx {
    Rx(buf, 1, 0, false, None, unloaded, 0, Idle, [], [], [])
  }

  // ----- The invariant -----

  /** The slot that the next byte from the line goes to. */
  function Filled(s: Rx): nat {
    if s.started && s.reg.Some? then Wrap(s.reg.value.start + s.reg.value.done, |s.buf|) else s.prod
  }

  /** The first slot whose byte the reader has not taken yet. */
  function FirstUnread(s: Rx): nat
    requires s.cons < |s.buf|
  {
    var next := Next(s.cons, |s.buf|);
    if s.reader.Advancing? then Next(next, |s.buf|) else next
  }

  /** Bytes that were stored and not taken: visible to the reader below prod, or still being transferred. */
  function UnreadLength(s: Rx): int {
    Dist(s.cons, Filled(s), |s.buf|) - if s.reader.Advancing? then 2 else 1
  }

  ghost function Unread(s: Rx): seq<byte>
    requires s.cons < |s.buf|
  {
    if UnreadLength(s) >= 0 then Slots(s.buf, FirstUnread(s), UnreadLength(s)) else []
  }

  ghost predicate ReaderOk(s: Rx)
    requires s.cons < |s.buf|
  {
    s.reader.Idle? ||
    (&& s.reader.nextCons == Next(s.cons, |s.buf|)
     && |s.reader.got| <= s.reader.len
     && (!s.reader.Checking? ==> s.reader.nextCons != s.prod)
     && (s.reader.Fetching? ==> |s.reader.got| < s.reader.len)
     && (s.reader.Advancing? ==> s.reader.got != []))
  }

  /** The ring without its reader: the armed transfer lies within the buffer, what is left of it stays clear of
      cons, and going forward from cons one meets prod no later than the slot being filled. */
  ghost predicate FrameOk(n: nat, prod: nat, cons: nat, started: bool, reg: Option<Transfer>, lastPos: nat) {
    && n >= 3 && prod < n && cons < n && prod != cons
    && (started ==> reg.Some?)
    && (reg.Some? ==>
          var t := reg.value;
          && 0 < t.len <= MAX_TRANSFER && t.done <= t.len && t.start + t.len <= n
          && t.start <= lastPos <= t.start + t.done
          && prod == Wrap(lastPos, n)
          && (!started ==> t.done == t.len && lastPos == t.start + t.done))
    && var filled := if started then Wrap(reg.value.start + reg.value.done, n) else prod;
       && filled < n && filled != cons
       && Dist(cons, prod, n) + Dist(prod, filled, n) == Dist(cons, filled, n)
       && (started ==> Dist(cons, filled, n) + reg.value.len - reg.value.done <= n - 1)
  }

  /** The bytes of finished calls, in order. */
  function Returned(calls: seq<Call>): seq<byte> {
    if calls == [] then [] else Returned(calls[..|calls| - 1]) + calls[|calls| - 1].bytes
  }

  function Got(r: Reader): seq<byte> { if r.Idle? then [] else r.got }

  ghost predicate CallsOk(calls: seq<Call>) {
    forall i :: 0 <= i < |calls| ==> |calls[i].bytes| <= calls[i].len && (calls[i].len > 0 ==> calls[i].bytes != [])
  }

  ghost predicate RingOk(s: Rx) {
    && FrameOk(|s.buf|, s.prod, s.cons, s.started, s.reg, s.lastPos)
    && s.cons < |s.buf|
    && ReaderOk(s)
  }

  ghost predicate Inv(s: Rx) {
    && RingOk(s)
    && s.taken + Unread(s) == s.stored
    && Returned(s.calls) + Got(s.reader) == s.taken
    && CallsOk(s.calls)
  }

  lemma InitialInv(buf: seq<byte>, unloaded: nat)
    requires |buf| >= 3
    ensures Inv(Initial(buf, unloaded))
  {
  }

  lemma CursorsInside(s: Rx)
    requires Inv(s)
    ensures s.cons < |s.buf| && s.prod < |s.buf|
  {
    hide Slots, Returned;
  }

  lemma StartKeepsInv(s: Rx)
    requires Inv(s) && !s.started
    ensures Inv(RxStart(s))
  {
    hide Slots, Returned;
    assert RingOk(RxStart(s));
    assert Filled(RxStart(s)) == Filled(s);
  }

  lemma UpdateKeepsInv(s: Rx)
    requires Inv(s) && s.reg.Some?
    ensures Inv(RxUpdate(s)) && Filled(RxUpdate(s)) == Filled(s)
    ensures RxUpdate(s).lastPos == s.reg.value.start + s.reg.value.done
  {
    UpdateIs(s);
    UpdateKeepsRing(s);
    hide RxUpdate, RingOk, Slots, Returned, Dist, Next;
    assert Unread(RxUpdate(s)) == Unread(s);
  }

  /** prod ends up at the position reached, whether or not that is news. */
  lemma UpdateIs(s: Rx)
    requires RingOk(s) && s.reg.Some?
    ensures var x := s.reg.value.start + s.reg.value.done; RxUpdate(s) == s.(lastPos := x, prod := Wrap(x, |s.buf|))
  {
    var t := s.reg.value;
    assert s.reg == Some(t);
    ProdCatchesUp(|s.buf|, s.prod, s.cons, s.started, t, s.lastPos);
    ReachedIsPosition(t.start, t.done);
    hide Reached, ControlWord, FrameOk, ReaderOk, Wrap;
  }

  lemma UpdateKeepsRing(s: Rx)
    requires RingOk(s) && s.reg.Some?
    ensures RingOk(RxUpdate(s)) && Filled(RxUpdate(s)) == Filled(s)
  {
    var t := s.reg.value;
    assert s.reg == Some(t);
    UpdateIs(s);
    ProdCatchesUp(|s.buf|, s.prod, s.cons, s.started, t, s.lastPos);
    hide RxUpdate, FrameOk, Next;
  }

  /** prod may follow to the position reached: the reader has not been there. */
  lemma ProdCatchesUp(n: nat, prod: nat, cons: nat, started: bool, t: Transfer, lastPos: nat)
    requires FrameOk(n, prod, cons, started, Some(t), lastPos)
    ensures var x := t.start + t.done;
            && FrameOk(n, Wrap(x, n), cons, started, Some(t), x) && t.done <= MAX_TRANSFER
            && (!started ==> lastPos == x)
            && (x == lastPos ==> prod == Wrap(x, n))
            && (Next(cons, n) != prod ==> Next(cons, n) != Wrap(x, n))
  {
  }

  /** The driver's functions may be called at any moment. Arming anew during a transfer keeps everything exactly if
      prod is up with what has been stored, so that nothing would be overwritten. */
  lemma StartAnytime(s: Rx)
    requires Inv(s)
    ensures Inv(RxStart(s)) <==> !s.started || StartLength(s) <= 0 || Filled(s) == s.prod
  {
    if StartLength(s) > 0 {
      if !s.started {
        StartKeepsInv(s);
      } else if Filled(s) == s.prod {
        hide Slots, Returned;
        assert RingOk(RxStart(s));
        hide RingOk;
        assert Unread(RxStart(s)) == Unread(s);
      } else {
        CursorsInside(s);
        hide Inv;
        OtherLength(s, RxStart(s));
      }
    }
  }

  /** Updating from a register that was never loaded keeps everything exactly if that changes nothing: the register
      reads as the last position seen, or as prod. */
  lemma UpdateUnloaded(s: Rx)
    requires Inv(s) && s.reg.None?
    ensures Inv(RxUpdate(s)) <==> Reached(s.unloaded) == s.lastPos || Wrap(Reached(s.unloaded), |s.buf|) == s.prod
  {
    hide Reached, Slots, Returned;
    if RxUpdate(s).prod != s.prod && RxUpdate(s).prod < |s.buf| { OtherLength(s, RxUpdate(s)); }
  }

  /** With another number of unread bytes in the ring, they are not those that were stored. */
  lemma OtherLength(s: Rx, s': Rx)
    requires Inv(s) && s'.buf == s.buf && s'.cons == s.cons && s'.reader == s.reader && s'.taken == s.taken && s'.stored == s.stored
    requires Filled(s') < |s.buf| && Filled(s') != Filled(s)
    ensures !Inv(s')
  {
    hide Slots, Returned;
    RingBounds(s);
    if RingOk(s') { RingBounds(s'); }
    hide RingOk;
    SlotsLength(s.buf, FirstUnread(s), UnreadLength(s));
    if UnreadLength(s') >= 0 { SlotsLength(s.buf, FirstUnread(s), UnreadLength(s')); }
  }

  lemma InterruptKeepsInv(s: Rx)
    requires Inv(s) && s.started && s.reg.value.done == s.reg.value.len
    ensures Inv(RxUpdate(s).(started := false))
  {
    hide Slots, Returned, Reached, ControlWord;
    UpdateKeepsInv(s);
    assert RingOk(RxUpdate(s).(started := false));
  }

  lemma DmaKeepsRing(s: Rx, b: byte)
    requires RingOk(s)
    ensures var s' := Do(s, DmaByte(b));
            && RingOk(s')
            && (s' != s ==>
                  && s'.buf == s.buf[Filled(s) := b] && s'.stored == s.stored + [b]
                  && UnreadLength(s') == UnreadLength(s) + 1
                  && 0 <= UnreadLength(s) < |s.buf|
                  && At(FirstUnread(s), UnreadLength(s), |s.buf|) == Filled(s)
                  && UnreadLength(s) <= Dist(FirstUnread(s), Filled(s), |s.buf|))
  {
    RingBounds(s);
    hide RingOk, Do, Dist, At, Next;
    if Do(s, DmaByte(b)) != s {
      DmaMoves(s, b);
      if s.reader.Advancing? { AdvanceKeepsOff(s); }
      UnreadReaches(|s.buf|, s.cons, Filled(s), s.reader.Advancing?);
    }
  }

  lemma DmaMoves(s: Rx, b: byte)
    requires RingOk(s) && Do(s, DmaByte(b)) != s
    ensures var s' := Do(s, DmaByte(b));
            && RingOk(s') && s' == s.(buf := s.buf[Filled(s) := b], stored := s.stored + [b], reg := s'.reg)
            && Filled(s) != s.cons && Filled(s') == Next(Filled(s), |s.buf|)
            && Dist(s.cons, Filled(s'), |s.buf|) == Dist(s.cons, Filled(s), |s.buf|) + 1
  {
    RingBounds(s);
    hide FrameOk, Dist, At, Next;
    var t := s.reg.value;
    assert s.reg == Some(t);
    OneByteStored(|s.buf|, s.prod, s.cons, t, s.lastPos);
    assert ReaderOk(Do(s, DmaByte(b)));
  }

  /** The unread bytes reach up to the slot being filled. */
  lemma UnreadReaches(n: nat, cons: nat, filled: nat, advancing: bool)
    requires cons < n && filled < n && cons != filled && (advancing ==> Next(cons, n) != filled)
    ensures var first := if advancing then Next(Next(cons, n), n) else Next(cons, n);
            var len := Dist(cons, filled, n) - if advancing then 2 else 1;
            0 <= len < n && At(first, len, n) == filled && len <= Dist(first, filled, n)
  {
  }

  lemma OneByteStored(n: nat, prod: nat, cons: nat, t: Transfer, lastPos: nat)
    requires FrameOk(n, prod, cons, true, Some(t), lastPos) && t.done < t.len
    ensures FrameOk(n, prod, cons, true, Some(t.(done := t.done + 1)), lastPos) && cons < n && Wrap(t.start + t.done, n) != cons
    ensures var filled := Wrap(t.start + t.done, n);
            && filled == t.start + t.done < n && Wrap(t.start + t.done + 1, n) == Next(filled, n)
            && Dist(cons, Next(filled, n), n) == Dist(cons, filled, n) + 1 <= n - 1
  {
  }

  lemma DmaKeepsInv(s: Rx, b: byte)
    requires Inv(s)
    ensures Inv(Do(s, DmaByte(b)))
  {
    hide RingOk, Returned, Slots, FrameOk, Dist, At, Next;
    DmaKeepsRing(s, b);
    RingBounds(s);
    var s' := Do(s, DmaByte(b));
    if s' != s {
      SlotsAppend(s'.buf, FirstUnread(s), UnreadLength(s));
      SlotsUpdate(s.buf, FirstUnread(s), UnreadLength(s), Filled(s), b);
      assert Unread(s') == Unread(s) + [b];
    }
  }

  lemma RingBounds(s: Rx)
    requires RingOk(s)
    ensures s.cons < |s.buf| && s.prod < |s.buf| && Filled(s) < |s.buf| && UnreadLength(s) >= 0
  {
  }

  lemma FetchKeepsRing(s: Rx)
    requires RingOk(s) && s.reader.Fetching?
    ensures var s' := MoveReader(s);
            && RingOk(s')
            && s.reader.nextCons == FirstUnread(s) && UnreadLength(s) > 0
            && FirstUnread(s') == Next(FirstUnread(s), |s.buf|) && UnreadLength(s') == UnreadLength(s) - 1
  {
  }

  lemma AdvanceKeepsRing(s: Rx)
    requires RingOk(s) && s.reader.Advancing?
    ensures var s' := MoveReader(s);
            && s'.cons == Next(s.cons, |s.buf|) && s'.prod == s.prod && s'.cons != s.prod && Filled(s') == Filled(s)
            && FirstUnread(s') == FirstUnread(s) && UnreadLength(s') == UnreadLength(s)
            && RingOk(s')
  {
    AdvanceKeepsOff(s);
    var s' := MoveReader(s);
    assert s' == s.(cons := s.reader.nextCons, reader := Checking(s.reader.len, s.reader.got, Next(s.reader.nextCons, |s.buf|)));
  }

  /** The reader moves cons onto a slot that held data, so not onto prod nor onto the slot being filled. */
  lemma AdvanceKeepsOff(s: Rx)
    requires RingOk(s) && s.reader.Advancing?
    ensures var next, n := Next(s.cons, |s.buf|), |s.buf|;
            && next != s.prod && next != Filled(s)
            && Dist(next, s.prod, n) == Dist(s.cons, s.prod, n) - 1
            && Dist(next, Filled(s), n) == Dist(s.cons, Filled(s), n) - 1
  {
  }

  lemma CheckKeepsRing(s: Rx)
    requires RingOk(s) && !s.reader.Fetching? && !s.reader.Advancing?
    ensures var s' := MoveReader(s);
            && s' == s.(reader := s'.reader, calls := s'.calls)
            && !s'.reader.Advancing?
            && RingOk(s')
  {
    hide FrameOk;
  }

  lemma OneMoreCall(calls: seq<Call>, call: Call)
    ensures Returned(calls + [call]) == Returned(calls) + call.bytes
  {
    assert (calls + [call])[..|calls|] == calls;
  }

  lemma CheckKeepsInv(s: Rx)
    requires Inv(s) && !s.reader.Fetching? && !s.reader.Advancing?
    ensures Inv(MoveReader(s))
  {
    hide Slots, Returned, FrameOk;
    var s' := MoveReader(s);
    CheckKeepsRing(s);
    assert Unread(s') == Unread(s);
    hide RingOk, Unread;
    if s.reader.Checking? && s'.reader.Idle? {
      OneMoreCall(s.calls, Call(s.reader.len, s.reader.got));
    }
  }

  lemma ReaderKeepsInv(s: Rx)
    requires Inv(s)
    ensures Inv(MoveReader(s))
  {
    if s.reader.Fetching? {
      FetchKeepsInv(s);
    } else if s.reader.Advancing? {
      AdvanceKeepsInv(s);
    } else {
      CheckKeepsInv(s);
    }
    hide Inv, MoveReader;
  }

  lemma FetchKeepsInv(s: Rx)
    requires Inv(s) && s.reader.Fetching?
    ensures Inv(MoveReader(s))
  {
    hide Returned;
    FetchKeepsRing(s);
    SlotsFirst(s.buf, FirstUnread(s), UnreadLength(s));
    hide Slots, RingOk, FirstUnread, UnreadLength;
    var s' := MoveReader(s);
    assert Unread(s) == [s.buf[s.reader.nextCons]] + Unread(s');
  }

  lemma AdvanceKeepsInv(s: Rx)
    requires Inv(s) && s.reader.Advancing?
    ensures Inv(MoveReader(s))
  {
    hide Slots, Returned;
    AdvanceKeepsRing(s);
    hide RingOk, FirstUnread, UnreadLength;
  }

  lemma StepKeepsInv(s: Rx, step: Step)
    requires Inv(s)
    ensures Inv(Do(s, step))
  {
    CursorsInside(s);
    match step
    case ReadCall(len) => CallKeepsInv(s, len);
    case ReaderMove =>
      ReaderKeepsInv(s);
      hide Inv, MoveReader;
    case DmaByte(b) =>
      DmaKeepsInv(s, b);
      hide Inv;
    case Interrupt => InterruptStep(s);
    case Update =>
      if s.reg.Some? { UpdateKeepsInv(s); }
      hide Inv, RxUpdate;
    case Poll =>
      if !s.started { StartKeepsInv(s); }
      hide Inv, RxStart;
  }

  lemma CallKeepsInv(s: Rx, len: nat)
    requires Inv(s)
    ensures Inv(Do(s, ReadCall(len)))
  {
    CursorsInside(s);
    hide Slots, Returned, FrameOk, Dist, Next;
    var s' := Do(s, ReadCall(len));
    assert RingOk(s');
    hide RingOk;
    assert Unread(s') == Unread(s);
  }

  lemma InterruptStep(s: Rx)
    requires Inv(s)
    ensures Inv(Do(s, Interrupt))
  {
    CursorsInside(s);
    hide Inv, RxUpdate, RxStart;
    if s.started && s.reg.Some? && s.reg.value.done == s.reg.value.len {
      var u := RxUpdate(s).(started := false);
      InterruptKeepsInv(s);
      CursorsInside(u);
      StartKeepsInv(u);
    }
  }

  // ----- Every run -----

  ghost predicate IsRun(buf: seq<byte>, steps: seq<Step>, states: seq<Rx>) {
    && |states| == |steps| + 1
    && states[0] == Initial(buf, states[0].unloaded)
    && forall i :: 0 <= i < |steps| ==>
         states[i].cons < |states[i].buf| && states[i].prod < |states[i].buf| && states[i + 1] == Do(states[i], steps[i])
  }

  lemma {:induction false} RunInv(buf: seq<byte>, steps: seq<Step>, states: seq<Rx>, i: nat)
    requires |buf| >= 3 && IsRun(buf, steps, states) && i < |states|
    ensures Inv(states[i])
  {
    hide Inv, Do;
    if i == 0 {
      InitialInv(buf, states[0].unloaded);
    } else {
      RunInv(buf, steps, states, i - 1);
      StepKeepsInv(states[i - 1], steps[i - 1]);
      assert states[i] == Do(states[i - 1], steps[i - 1]);
    }
  }

  /** Over every interleaving: the bytes that finished reads returned, followed by those the current read holds and
      those still in the ring, are exactly the bytes that DMA stored, in order; prod never meets cons; an armed
      transfer never reaches unread data; and a finished read of non-zero length returned at least one byte and no
      more than it was asked for. */
  lemma ReceiveSafety(buf: seq<byte>, steps: seq<Step>, states: seq<Rx>, i: nat)
    requires |buf| >= 3 && IsRun(buf, steps, states) && i < |states|
    ensures var s := states[i];
            && s.cons < |s.buf| && s.prod < |s.buf|
            && Returned(s.calls) + Got(s.reader) + Unread(s) == s.stored
            && Returned(s.calls) <= s.stored
            && s.prod != s.cons
            && (s.started && s.reg.Some? ==>
                  && s.reg.value.start + s.reg.value.len <= |s.buf|
                  && Dist(s.cons, Filled(s), |s.buf|) + s.reg.value.len - s.reg.value.done < |s.buf|)
            && CallsOk(s.calls)
  {
    RunInv(buf, steps, states, i);
    hide Slots, Returned;
    var s := states[i];
    assert s.stored == Returned(s.calls) + (Got(s.reader) + Unread(s));
  }

  /** The slot DMA writes is never one that holds an unread byte. */
  lemma DmaWritesFreeSlot(s: Rx, k: nat)
    requires Inv(s) && s.started && s.reg.value.done < s.reg.value.len && k < UnreadLength(s)
    ensures At(FirstUnread(s), k, |s.buf|) != s.reg.value.start + s.reg.value.done
  {
    hide Slots, Returned;
  }

  /** While the ring has room and no transfer is armed, the next poll arms one. There is room unless prod is right
      behind cons, where one or two slots stay unused. */
  lemma PollArms(s: Rx)
    requires Inv(s) && !s.started
    ensures Do(s, Poll).started <==> Next(s.prod, |s.buf|) != s.cons
  {
    hide Slots, Returned;
  }

  // ----- Everything can be read -----

  /** How many bytes the reader can still take before it meets prod. */
  function Visible(s: Rx): int {
    Dist(s.cons, s.prod, |s.buf|) - if s.reader.Advancing? then 2 else 1
  }

  /** A reader that waits for a first byte. */
  predicate Blocked(s: Rx) {
    s.reader.Checking? && s.reader.len > 0 && s.reader.got == [] && s.reader.nextCons == s.prod
  }

  function Moves(s: Rx, k: nat): Rx
    decreases k
  {
    if k == 0 then s else Moves(MoveReader(s), k - 1)
  }

  lemma VisibleIs(s: Rx)
    requires RingOk(s)
    ensures 0 <= Visible(s) <= UnreadLength(s)
    ensures s.reader.Checking? ==> (Visible(s) == 0 <==> s.reader.nextCons == s.prod)
  {
  }

  /** Taking one byte, which takes three accesses. */
  lemma TakesOne(s: Rx)
    requires Inv(s) && s.reader.Checking? && |s.reader.got| < s.reader.len && Visible(s) > 0
    ensures var s' := Moves(s, 3);
            && Inv(s') && s'.reader.Checking? && s'.reader.len == s.reader.len && |s'.reader.got| == |s.reader.got| + 1
            && Visible(s') == Visible(s) - 1 && s'.calls == s.calls && s'.stored == s.stored
  {
    VisibleIs(s);
    var f := MoveReader(s);
    var v := MoveReader(f);
    var s' := MoveReader(v);
    assert f == s.(reader := Fetching(s.reader.len, s.reader.got, s.reader.nextCons));
    CheckKeepsInv(s);
    FetchKeepsInv(f);
    AdvanceKeepsInv(v);
    FetchKeepsRing(f);
    AdvanceKeepsRing(v);
    AdvanceKeepsOff(v);
    assert Moves(s, 3) == s' by {
      assert Moves(s', 0) == s' && Moves(v, 1) == Moves(s', 0) && Moves(f, 2) == Moves(v, 1);
    }
    hide Inv, RingOk, Moves;
  }

  lemma {:induction false} MovesOn(s: Rx, j: nat, k: nat)
    ensures Moves(Moves(s, j), k) == Moves(s, j + k)
    decreases j
  {
    if j > 0 { MovesOn(MoveReader(s), j - 1, k); }
  }

  /** A reader left alone ends its call, with as many bytes as it was asked for or as it can see. */
  lemma {:induction false} ReadAlone(s: Rx) returns (k: nat)
    requires Inv(s) && s.reader.Checking? && !Blocked(s)
    ensures var s' := Moves(s, k);
            && Inv(s') && s'.reader.Idle? && s'.stored == s.stored && |s'.calls| == |s.calls| + 1 && s'.calls[..|s.calls|] == s.calls
            && var call := s'.calls[|s.calls|];
               call.len == s.reader.len && |call.bytes| == Min(call.len, |s.reader.got| + Visible(s))
    decreases s.reader.len - |s.reader.got|
  {
    VisibleIs(s) by { hide RingOk, Slots, Returned, Visible; }
    if |s.reader.got| < s.reader.len && Visible(s) > 0 {
      TakesOne(s);
      var s1 := Moves(s, 3);
      hide Inv, Moves, Visible;
      k := ReadAlone(s1);
      MovesOn(s, 3, k);
      k := k + 3;
    } else {
      CheckKeepsInv(s);
      hide Inv, Visible;
      k := 1;
      assert Moves(s, 1) == MoveReader(s) by { assert Moves(MoveReader(s), 0) == MoveReader(s); }
    }
  }

  /** After an update all that has been stored can be seen. */
  lemma UpdateShows(s: Rx)
    requires Inv(s) && s.reg.Some?
    ensures Inv(RxUpdate(s)) && Visible(RxUpdate(s)) == UnreadLength(s) == UnreadLength(RxUpdate(s))
  {
    UpdateKeepsInv(s);
    UpdateIs(s);
    hide RxUpdate, Slots, Returned;
  }

  /** With no transfer ever loaded nothing has been stored that is not seen. */
  lemma NothingHidden(s: Rx)
    requires Inv(s) && !s.started
    ensures Visible(s) == UnreadLength(s)
  {
    hide Slots, Returned;
  }

  /** A reader waits only while all that it can see has been read. It is woken exactly by an update, or by the interrupt
      that ends a transfer, if anything has been stored that it has not read; by nothing else, be it stored or not. */
  lemma WakesUp(s: Rx, step: Step)
    requires Inv(s) && Blocked(s)
    ensures CursorsIn(s) && Visible(s) == 0
    ensures !Blocked(Do(s, step)) <==>
            UnreadLength(s) > 0 && (step.Update? || (step.Interrupt? && s.started && s.reg.value.done == s.reg.value.len))
  {
    CursorsInside(s);
    VisibleIs(s);
    if step.Update? {
      if s.reg.Some? { UpdateWakes(s); } else { NothingHidden(s); }
    } else if step.Interrupt? && s.started && s.reg.value.done == s.reg.value.len {
      UpdateWakes(s);
      ArmsAgain(s, RxUpdate(s).(started := false));
    }
    hide Inv, RxUpdate, UnreadLength, Visible;
  }

  lemma UpdateWakes(s: Rx)
    requires Inv(s) && Blocked(s) && s.reg.Some?
    ensures !Blocked(RxUpdate(s)) <==> UnreadLength(s) > 0
    ensures RxUpdate(s).reader == s.reader
  {
    UpdateShows(s);
    UpdateIs(s);
    VisibleIs(RxUpdate(s)) by { hide RxUpdate, Slots, Returned; }
    hide Inv, RxUpdate, UnreadLength, Visible;
  }

  /** What a finished call returns are the bytes that were unread. */
  lemma CallBytes(s: Rx, s': Rx)
    requires Inv(s) && Inv(s') && s.reader.Idle? && s'.reader.Idle? && s'.stored == s.stored
    requires |s'.calls| == |s.calls| + 1 && s'.calls[..|s.calls|] == s.calls
    ensures s'.calls[|s.calls|].bytes <= Unread(s)
  {
    var call := s'.calls[|s.calls|];
    CursorsInside(s);
    CursorsInside(s');
    hide Slots, Returned, RingOk, Unread;
    assert s'.calls == s.calls + [call];
    OneMoreCall(s.calls, call);
    assert Returned(s.calls) + [] == Returned(s.calls) && Returned(s'.calls) + [] == Returned(s'.calls);
    SamePrefix(Returned(s.calls), Unread(s), call.bytes + Unread(s'));
  }

  lemma SamePrefix(a: seq<byte>, b: seq<byte>, c: seq<byte>)
    requires a + b == a + c
    ensures b == c
  {
    assert b == (a + b)[|a|..] && c == (a + c)[|a|..];
  }

  /** In every state that can be reached with no call under way, an update and a call left alone return the first of all
      the bytes stored and not yet read, as many as asked for. */
  lemma EverythingIsRead(s: Rx, len: nat) returns (k: nat)
    requires Inv(s) && s.reader.Idle? && UnreadLength(s) > 0
    ensures CursorsIn(s) && CursorsIn(Do(s, Update)) && |Unread(s)| == UnreadLength(s)
    ensures var s' := Moves(Do(Do(s, Update), ReadCall(len)), k);
            && Inv(s') && s'.stored == s.stored && s'.reader.Idle?
            && s'.calls == s.calls + [Call(len, Unread(s)[..Min(len, UnreadLength(s))])]
  {
    hide Inv, Unread, UnreadLength, Visible, Moves, Do, Blocked;
    UnreadCount(s);
    UpdateReads(s);
    var u := Do(s, Update);
    CallSees(u, len);
    var r := Do(u, ReadCall(len));
    k := ReadAlone(r);
    var s' := Moves(r, k);
    CallBytes(u, s');
    var call := s'.calls[|s.calls|];
    assert s'.calls == s.calls + [call];
    assert call.bytes == Unread(s)[..|call.bytes|] && call == Call(len, call.bytes);
  }

  predicate CursorsIn(s: Rx) { s.cons < |s.buf| && s.prod < |s.buf| }

  lemma UpdateReads(s: Rx)
    requires Inv(s)
    ensures CursorsIn(s)
    ensures var u := Do(s, Update);
            && Inv(u) && CursorsIn(u) && u.calls == s.calls && u.stored == s.stored && u.reader == s.reader
            && Unread(u) == Unread(s) && Visible(u) == UnreadLength(s)
  {
    CursorsInside(s);
    if s.reg.Some? {
      UpdateShows(s);
      UpdateIs(s);
      UpdateUnread(s);
      CursorsInside(RxUpdate(s));
      hide Inv, Unread, UnreadLength, Visible, RxUpdate, Wrap;
    } else {
      NothingHidden(s);
      hide Inv, Unread, UnreadLength, Visible;
    }
  }

  lemma UpdateUnread(s: Rx)
    requires Inv(s) && s.reg.Some?
    ensures s.cons < |s.buf| && RxUpdate(s).cons == s.cons && RxUpdate(s).buf == s.buf && Unread(RxUpdate(s)) == Unread(s)
  {
    UpdateKeepsInv(s);
    UpdateIs(s);
    CursorsInside(s);
    hide Inv, Slots, RxUpdate;
  }

  lemma CallSees(u: Rx, len: nat)
    requires Inv(u) && u.reader.Idle? && CursorsIn(u) && Visible(u) > 0
    ensures var r := Do(u, ReadCall(len));
            && Inv(r) && r.reader == Checking(len, [], Next(u.cons, |u.buf|)) && Visible(r) == Visible(u) && !Blocked(r)
            && r.calls == u.calls && r.stored == u.stored
  {
    CallKeepsInv(u, len);
    hide Slots, Returned;
  }

  lemma UnreadCount(s: Rx)
    requires Inv(s)
    ensures CursorsIn(s) && |Unread(s)| == UnreadLength(s)
  {
    CursorsInside(s);
    RingBounds(s);
    SlotsLength(s.buf, FirstUnread(s), UnreadLength(s));
    hide Slots, Returned;
  }

  /** A call comes up short only when it has taken all that it can see. */
  lemma ShortOnlyAtEnd(s: Rx)
    requires Inv(s) && MoveReader(s).calls != s.calls
    ensures var call := MoveReader(s).calls[|s.calls|];
            MoveReader(s).calls == s.calls + [call] && (|call.bytes| < call.len ==> Visible(s) == 0)
  {
    VisibleIs(s);
    hide Slots, Returned, RingOk;
  }

  /** A byte from the line is taken as long as a transfer is under way; with its last byte an interrupt shows all that has
      been stored and arms the next transfer if there is room. */
  lemma LineGoesOn(s: Rx, b: byte)
    requires Inv(s) && s.started
    ensures CursorsIn(s) && s.reg.Some?
    ensures s.reg.value.done < s.reg.value.len ==> Do(s, DmaByte(b)).stored == s.stored + [b]
    ensures s.reg.value.done == s.reg.value.len ==>
              var s' := Do(s, Interrupt); Visible(s') == UnreadLength(s) && (s'.started <==> Next(Filled(s), |s.buf|) != s.cons)
  {
    CursorsInside(s);
    if s.reg.value.done == s.reg.value.len {
      UpdateShows(s);
      UpdateIs(s);
      ArmsAgain(s, RxUpdate(s).(started := false));
    }
    hide Slots, Returned, RxUpdate;
  }

  lemma ArmsAgain(s: Rx, u: Rx)
    requires Inv(s) && s.started && s.reg.value.done == s.reg.value.len && u == RxUpdate(s).(started := false)
    ensures Inv(u) && u.prod < |u.buf| && u.prod == Filled(s) && u.cons == s.cons && u.buf == s.buf
    ensures Visible(RxStart(u)) == Visible(u) == Visible(RxUpdate(s)) && (RxStart(u).started <==> Next(u.prod, |u.buf|) != u.cons)
  {
    InterruptKeepsInv(s);
    CursorsInside(u);
    UpdateIs(s);
    PollArms(u);
    hide Slots, Returned, Reached;
  }

  // ----- The driver's own functions, on the fields of its softc -----

  /** The receive part of a unit's softc. */
  class UartSoftc {
    var buffer: seq<byte>
    var prod: nat
    var cons: nat
    var rxStarted: bool
    var rxControl: Option<Transfer>
    const unloaded: nat
    var rxLastPos: nat
    ghost var reader: Reader
    ghost var stored: seq<byte>
    ghost var taken: seq<byte>
    ghost var calls: seq<Call>

    ghost function State(): Rx
      reads this
    {
      Rx(buffer, prod, cons, rxStarted, rxControl, unloaded, rxLastPos, reader, stored, taken, calls)
    }

    method Start()
      requires prod < |buffer|
      modifies this`rxStarted, this`rxControl, this`rxLastPos
      ensures State() == RxStart(old(State()))
    {
      var free: int;
      if prod > cons {
        free := |buffer| - prod;
        if cons == 0 { free := free - 1; }
      } else {
        free := cons - prod - 1;
      }
      if free > 0 {
        if free > MAX_TRANSFER { free := MAX_TRANSFER; }
        rxStarted := true;
        rxLastPos := prod;
        rxControl := Some(Transfer(prod, free, 0));
      }
    }

    method Update()
      modifies this`prod, this`rxLastPos
      ensures State() == RxUpdate(old(State()))
    {
      hide Reached;
      var x := Reached(RegisterWord(rxControl, unloaded));
      if x != rxLastPos {
        rxLastPos := x;
        if x == |buffer| { x := 0; }
        prod := x;
      }
    }

    method InterruptHandler()
      requires Inv(State()) && rxStarted && rxControl.value.done == rxControl.value.len
      modifies this`prod, this`rxLastPos, this`rxStarted, this`rxControl
      ensures State() == Do(old(State()), Interrupt) && Inv(State())
    {
      ghost var s := State();
      InterruptKeepsInv(s);
      StartKeepsInv(RxUpdate(s).(started := false));
      hide Inv, Reached, RegisterWord;
      Update();
      rxStarted := false;
      assert State() == RxUpdate(s).(started := false);
      CursorsInside(State());
      Start();
    }

    method PollReceive()
      requires Inv(State())
      modifies this`rxStarted, this`rxControl, this`rxLastPos
      ensures State() == Do(old(State()), Poll) && Inv(State())
    {
      ghost var s := State();
      CursorsInside(s);
      if !rxStarted {
        StartKeepsInv(s);
        hide Inv;
        Start();
      }
    }
  }
}
