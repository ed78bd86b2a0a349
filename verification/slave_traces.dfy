/**
  Finite sequences of interrupts run through the slave handler, and the two
  transfers a slave takes part in: receiving a message from the master and
  handing it to the receive callback, and sending the transmit callback's
  buffer to the master. As for the master, runs are stated on raw
  interrupts (`Run`) and on the case labels they select (`RunEvents`).
 */
module SlaveTraces {
  import opened Wrappers
  import opened I2CTypes
  import opened Status
  import opened Slave
  import opened Seqs

  /**
    An interrupt as the slave switch sees it: the case label its status
    register selects (None when no label matches), the data register, and
    the buffer the transmit callback returns if it is called.
   */
  datatype Event = Event(kind: Option<Status>, data: byte, reply: seq<byte>)

  /** An interrupt selecting the label `st`, the transmit callback not being called. */
  function Ev(st: Status, data: byte): Event {
    Event(Some(st), data, [])
  }

  function Decode(irq: Interrupt): Event {
    Event(Dispatch(irq.status, SlaveMode), irq.data, irq.reply)
  }

  function Decoded(irqs: seq<Interrupt>): (evs: seq<Event>)
    ensures |evs| == |irqs|
    decreases |irqs|
  {
    if irqs == [] then [] else [Decode(irqs[0])] + Decoded(irqs[1..])
  }

  /** The driver after a run of interrupts, and one output per interrupt. */
  datatype Trace = Trace(final: SlaveDriver, outs: seq<Output>)

  /**
    The slave switch applied to each event in turn; None when the run
    reaches an event whose memory access or call the source leaves undefined.
   */
  function RunEvents(d: SlaveDriver, evs: seq<Event>): (r: Option<Trace>)
    ensures r.Some? ==> |r.value.outs| == |evs|
    ensures r.Some? ==>
      && r.value.final.onReceive == d.onReceive
      && r.value.final.onTransmit == d.onTransmit
      && r.value.final.txCount == d.txCount
      && |r.value.final.buffer| == |d.buffer|
    decreases |evs|
  {
    if evs == [] then Some(Trace(d, []))
    else if !Safe(d, evs[0].kind, evs[0].reply) then None
    else
      var n := Handle(d, evs[0].kind, evs[0].data, evs[0].reply);
      match RunEvents(n.state, evs[1..])
      case None => None
      case Some(t) => Some(Trace(t.final, [n.out] + t.outs))
  }

  /** The interrupt handler run on raw interrupts. */
  function Run(d: SlaveDriver, irqs: seq<Interrupt>): Option<Trace> {
    RunEvents(d, Decoded(irqs))
  }

  /** A run of no interrupts changes nothing. */
  lemma RunEmpty(d: SlaveDriver)
    ensures Run(d, []) == Some(Trace(d, []))
  {
  }

  /**
    A run is `Slave.Step` iterated: it stops at the first interrupt the
    source leaves undefined, and otherwise takes that interrupt's step and
    runs the rest from the state it leaves.
   */
  lemma RunSteps(d: SlaveDriver, irq: Interrupt, rest: seq<Interrupt>)
    ensures !Defined(d, irq) ==> Run(d, [irq] + rest) == None
    ensures Defined(d, irq) ==> (Run(d, [irq] + rest) ==
      match Run(Step(d, irq).state, rest)
      case None => None
      case Some(t) => Some(Trace(t.final, [Step(d, irq).out] + t.outs)))
  {
    assert ([irq] + rest)[0] == irq;
    assert ([irq] + rest)[1..] == rest;
    var evs := Decoded([irq] + rest);
    assert evs[0] == Decode(irq);
    assert evs[1..] == Decoded(rest);
  }

  // Events back to raw interrupts.

  /** The event selects a label of the slave build. */
  predicate Labelled(ev: Event) {
    ev.kind.Some? && InEnum(ev.kind.value, SlaveMode)
  }

  predicate Encodable(evs: seq<Event>) {
    forall i :: 0 <= i < |evs| ==> Labelled(evs[i])
  }

  /** Interrupts whose status registers hold exactly the values of the labels. */
  function Encode(evs: seq<Event>): (irqs: seq<Interrupt>)
    requires Encodable(evs)
    ensures |irqs| == |evs|
    decreases |evs|
  {
    if evs == [] then []
    else [Interrupt(Code(evs[0].kind.value), evs[0].data, evs[0].reply)] + Encode(evs[1..])
  }

  /** Decoding the encoded interrupts gives back the events. */
  lemma {:induction false} DecodeEncode(evs: seq<Event>)
    requires Encodable(evs)
    ensures Decoded(Encode(evs)) == evs
    decreases |evs|
  {
    if evs != [] {
      var irqs := Encode(evs);
      DispatchFindsCode(evs[0].kind.value, SlaveMode, 0);
      assert irqs[0] == Interrupt(Code(evs[0].kind.value), evs[0].data, evs[0].reply);
      assert irqs[1..] == Encode(evs[1..]);
      DecodeEncode(evs[1..]);
      assert evs == [evs[0]] + evs[1..];
    }
  }

  /**
    The case body of the slave switch a label selects, named by its first
    label: 0x68, 0x70 and 0x78 share the body of 0x60, 0x90 that of 0x80,
    0x98 that of 0x88, 0xB0 that of 0xA8 and 0xC8 that of 0xC0.
   */
  function CaseOf(kind: Option<Status>): Option<Status> {
    match kind
    case Some(SrArbitrationLostAddressMatched) | Some(SrGeneralCall) | Some(SrArbitrationLostGeneralCall) =>
      Some(SrAddressMatched)
    case Some(SrGeneralDataAck) => Some(SrDataAck)
    case Some(SrGeneralDataNack) => Some(SrDataNack)
    case Some(StArbitrationLostAddressMatched) => Some(StAddressMatched)
    case Some(StLastDataAck) => Some(StDataNack)
    case _ => kind
  }

  /**
    Two events the slave switch cannot tell apart: labels of one case body,
    the same data register where a byte is stored, and the same callback
    buffer where the transmit callback is called.
   */
  predicate SameEffect(a: Event, b: Event) {
    && CaseOf(a.kind) == CaseOf(b.kind)
    && (Receives(a.kind) ==> a.data == b.data)
    && (AddressedForTransmit(a.kind) ==> a.reply == b.reply)
  }

  /**
    Two event sequences the slave switch cannot tell apart, event by event.
   */
  predicate SameReads(a: seq<Event>, b: seq<Event>) {
    |a| == |b| && forall i :: 0 <= i < |a| ==> SameEffect(a[i], b[i])
  }

  /** A case does the same whatever the registers it does not read hold. */
  lemma HandleReadsOnly(d: SlaveDriver, a: Event, b: Event)
    requires Safe(d, a.kind, a.reply) && SameEffect(a, b)
    ensures Safe(d, b.kind, b.reply)
    ensures Handle(d, a.kind, a.data, a.reply) == Handle(d, b.kind, b.data, b.reply)
  {
    if a.kind == b.kind {
    } else if AddressedForReceive(a.kind) {
    } else if Receives(a.kind) {
    } else if AddressedForTransmit(a.kind) {
    }
  }

  /** Runs over sequences the switch cannot tell apart have the same outcome. */
  lemma {:induction false} RunSameReads(d: SlaveDriver, a: seq<Event>, b: seq<Event>)
    requires SameReads(a, b)
    ensures RunEvents(d, a) == RunEvents(d, b)
    decreases |a|
  {
    if a != [] {
      assert SameEffect(a[0], b[0]);
      if Safe(d, a[0].kind, a[0].reply) {
        HandleReadsOnly(d, a[0], b[0]);
        assert SameReads(a[1..], b[1..]) by {
          forall i | 0 <= i < |a| - 1
            ensures SameEffect(a[1..][i], b[1..][i])
          {
            assert a[1..][i] == a[i + 1] && b[1..][i] == b[i + 1];
          }
        }
        RunSameReads(Handle(d, a[0].kind, a[0].data, a[0].reply).state, a[1..], b[1..]);
      } else {
        assert !Safe(d, b[0].kind, b[0].reply);
      }
    }
  }

  lemma SameReadsAppend(a: seq<Event>, b: seq<Event>, c: seq<Event>, e: seq<Event>)
    requires SameReads(a, c) && SameReads(b, e)
    ensures SameReads(a + b, c + e)
  {
    forall i | 0 <= i < |a + b|
      ensures SameEffect((a + b)[i], (c + e)[i])
    {
      if i < |a| {
        assert (a + b)[i] == a[i] && (c + e)[i] == c[i];
      } else {
        assert (a + b)[i] == b[i - |a|] && (c + e)[i] == e[i - |a|];
      }
    }
  }

  /** The encoded interrupts are among those the switch reads as `evs`. */
  lemma EncodedSameReads(evs: seq<Event>)
    requires Encodable(evs)
    ensures SameReads(Decoded(Encode(evs)), evs)
  {
    DecodeEncode(evs);
  }

  /** Raw interrupts the switch reads as `evs` run as `evs` do. */
  lemma RunReads(d: SlaveDriver, irqs: seq<Interrupt>, evs: seq<Event>)
    requires SameReads(Decoded(irqs), evs)
    ensures Run(d, irqs) == RunEvents(d, evs)
  {
    RunSameReads(d, Decoded(irqs), evs);
  }

  /** What is proved of a run of events holds of the interrupts that encode them. */
  lemma RunEncoded(d: SlaveDriver, evs: seq<Event>)
    requires Encodable(evs)
    ensures Run(d, Encode(evs)) == RunEvents(d, evs)
  {
    DecodeEncode(evs);
  }

  lemma EncodableAppend(a: seq<Event>, b: seq<Event>)
    requires Encodable(a) && Encodable(b)
    ensures Encodable(a + b)
  {
    forall i | 0 <= i < |a + b|
      ensures Labelled((a + b)[i])
    {
      if i < |a| {
        assert (a + b)[i] == a[i];
      } else {
        assert (a + b)[i] == b[i - |a|];
      }
    }
  }

  // Composing runs.

  /** Running `a` then `b` is running `a + b`. */
  lemma {:induction false} RunAppend(d: SlaveDriver, a: seq<Event>, b: seq<Event>)
    ensures RunEvents(d, a + b) ==
      match RunEvents(d, a)
      case None => None
      case Some(t) =>
        match RunEvents(t.final, b)
        case None => None
        case Some(u) => Some(Trace(u.final, t.outs + u.outs))
    decreases |a|
  {
    if a == [] {
      assert a + b == b;
      match RunEvents(d, b)
      case None =>
      case Some(u) => assert [] + u.outs == u.outs;
    } else {
      assert (a + b)[0] == a[0];
      assert (a + b)[1..] == a[1..] + b;
      if Safe(d, a[0].kind, a[0].reply) {
        var n := Handle(d, a[0].kind, a[0].data, a[0].reply);
        RunAppend(n.state, a[1..], b);
        match RunEvents(n.state, a[1..])
        case None =>
        case Some(t) =>
          match RunEvents(t.final, b)
          case None =>
          case Some(u) =>
            assert [n.out] + (t.outs + u.outs) == ([n.out] + t.outs) + u.outs;
      }
    }
  }

  /** A run that starts with `ev`, given the step it takes and the run of the rest. */
  lemma RunCons(d: SlaveDriver, ev: Event, rest: seq<Event>, n: Next<SlaveDriver>, t: Trace)
    requires Safe(d, ev.kind, ev.reply) && Handle(d, ev.kind, ev.data, ev.reply) == n
    requires RunEvents(n.state, rest) == Some(t)
    ensures RunEvents(d, [ev] + rest) == Some(Trace(t.final, [n.out] + t.outs))
  {
    assert ([ev] + rest)[0] == ev;
    assert ([ev] + rest)[1..] == rest;
  }

  /** A run of one event is one step. */
  lemma RunOne(d: SlaveDriver, ev: Event, n: Next<SlaveDriver>)
    requires Safe(d, ev.kind, ev.reply) && Handle(d, ev.kind, ev.data, ev.reply) == n
    ensures RunEvents(d, [ev]) == Some(Trace(n.state, [n.out]))
  {
    RunCons(d, ev, [], n, Trace(n.state, []));
    assert [ev] + [] == [ev];
    assert [n.out] + [] == [n.out];
  }

  /** Two runs one after the other. */
  lemma RunThen(d: SlaveDriver, a: seq<Event>, b: seq<Event>, t: Trace, u: Trace)
    requires RunEvents(d, a) == Some(t) && RunEvents(t.final, b) == Some(u)
    ensures RunEvents(d, a + b) == Some(Trace(u.final, t.outs + u.outs))
  {
    RunAppend(d, a, b);
  }

  // Receive.

  /** Bytes received from the master, each answered with ACK (0x80). */
  function DataIn(bs: seq<byte>): seq<Event>
    decreases |bs|
  {
    if bs == [] then [] else [Ev(SrDataAck, bs[0])] + DataIn(bs[1..])
  }

  lemma {:induction false} DataInAppend(a: seq<byte>, b: seq<byte>)
    ensures DataIn(a + b) == DataIn(a) + DataIn(b)
    decreases |a|
  {
    if a == [] {
      assert a + b == b;
    } else {
      assert (a + b)[0] == a[0];
      assert (a + b)[1..] == a[1..] + b;
      DataInAppend(a[1..], b);
    }
  }

  lemma {:induction false} EncodableDataIn(bs: seq<byte>)
    ensures Encodable(DataIn(bs))
    decreases |bs|
  {
    if bs != [] {
      EncodableDataIn(bs[1..]);
      EncodableAppend([Ev(SrDataAck, bs[0])], DataIn(bs[1..]));
    }
  }

  /** `n` requests to go on with ACK enabled. */
  function AckEach(n: nat): (r: seq<Output>)
    ensures |r| == n && forall i :: 0 <= i < n ==> r[i] == Issue(AckContinue)
  {
    seq(n, _ => Issue(AckContinue))
  }

  /** While the buffer has room, a byte answered with ACK is stored at the cursor, which advances. */
  lemma StoresByte(d: SlaveDriver, b: byte)
    requires d.pointer < |d.buffer| && d.pointer < 255
    ensures Safe(d, Some(SrDataAck), [])
    ensures Handle(d, Some(SrDataAck), b, [])
      == Next(d.(buffer := d.buffer[d.pointer := b], pointer := d.pointer + 1), Issue(AckContinue))
  {
  }

  /**
    Receiving with ACK from cursor `p` to the end of `input`: each byte is
    stored at the cursor, which advances, and the rest of the buffer is left
    alone.
   */
  lemma {:induction false} ReceiveData(d: SlaveDriver, input: seq<byte>, p: nat)
    requires d.pointer == p <= |input| <= |d.buffer| && |input| < 256
    ensures RunEvents(d, DataIn(input[p..])) == Some(Trace(
      d.(pointer := |input|, buffer := d.buffer[..p] + input[p..] + d.buffer[|input|..]),
      AckEach(|input| - p)))
    decreases |input| - p
  {
    if p == |input| {
      assert DataIn(input[p..]) == [];
      assert d.buffer[..p] + input[p..] + d.buffer[p..] == d.buffer;
      assert AckEach(0) == [];
    } else {
      ReceiveData(d.(buffer := d.buffer[p := input[p]], pointer := p + 1), input, p + 1);
      ReceiveOneMore(d, input, p);
    }
  }

  /** One more stored byte in front of a run of stored bytes. */
  lemma ReceiveOneMore(d: SlaveDriver, input: seq<byte>, p: nat)
    requires d.pointer == p < |input| <= |d.buffer| && |input| < 256
    requires var d' := d.(buffer := d.buffer[p := input[p]], pointer := p + 1);
      RunEvents(d', DataIn(input[p + 1..])) == Some(Trace(
        d'.(pointer := |input|, buffer := d'.buffer[..p + 1] + input[p + 1..] + d'.buffer[|input|..]),
        AckEach(|input| - (p + 1))))
    ensures RunEvents(d, DataIn(input[p..])) == Some(Trace(
      d.(pointer := |input|, buffer := d.buffer[..p] + input[p..] + d.buffer[|input|..]),
      AckEach(|input| - p)))
  {
    var m := |input|;
    var d' := d.(buffer := d.buffer[p := input[p]], pointer := p + 1);
    StoreAdvances(d.buffer, input, p, m);
    assert input[p + 1..] == input[p + 1..m] && input[p..] == input[p..m];
    assert input[p..][1..] == input[p + 1..];
    assert AckEach(m - p) == [Issue(AckContinue)] + AckEach(m - (p + 1));
    StoresByte(d, input[p]);
    RunCons(d, Ev(SrDataAck, input[p]), DataIn(input[p + 1..]), Next(d', Issue(AckContinue)),
            Trace(d.(pointer := m, buffer := d.buffer[..p] + input[p..] + d.buffer[m..]), AckEach(m - (p + 1))));
  }

  /** Addressed for a write of the master: the cursor is reset and the state is SLAVE_RECEIVE. */
  lemma AddressedStep(d: SlaveDriver)
    ensures Safe(d, Some(SrAddressMatched), [])
    ensures Handle(d, Some(SrAddressMatched), 0, [])
      == Next(d.(role := SlaveReceive, pointer := 0), Issue(AckContinue))
  {
  }

  /** A STOP calls the registered receive callback with the buffer and the cursor. */
  lemma StopStep(d: SlaveDriver)
    requires d.onReceive.Some?
    ensures Safe(d, Some(SrStop), [])
    ensures Handle(d, Some(SrStop), 0, [])
      == Next(d.(role := Ready), Output(Some(Release), None, Some(ReceiveCall(d.onReceive.value, d.buffer, d.pointer))))
  {
  }

  /** A complete message from the master: addressed, the bytes, then a STOP. */
  function ReceiveEvents(input: seq<byte>): seq<Event> {
    [Ev(SrAddressMatched, 0)] + DataIn(input) + [Ev(SrStop, 0)]
  }

  /** Bytes of a general call (0x90), each answered with ACK. */
  function GeneralDataIn(bs: seq<byte>): seq<Event>
    decreases |bs|
  {
    if bs == [] then [] else [Ev(SrGeneralDataAck, bs[0])] + GeneralDataIn(bs[1..])
  }

  lemma {:induction false} GeneralDataInSameReads(bs: seq<byte>)
    ensures SameReads(GeneralDataIn(bs), DataIn(bs))
    decreases |bs|
  {
    if bs != [] {
      GeneralDataInSameReads(bs[1..]);
      SameReadsAppend([Ev(SrGeneralDataAck, bs[0])], GeneralDataIn(bs[1..]), [Ev(SrDataAck, bs[0])], DataIn(bs[1..]));
    }
  }

  /**
    A general call (0x70, then 0x90 for each byte, then STOP) is read as the
    addressed write of the same bytes, and so is one whose addressing
    followed a lost arbitration (0x68, 0x78): what is proved of
    `ReceiveEvents` covers all of them.
   */
  lemma {:induction false} GeneralCallSameReads(first: Status, input: seq<byte>)
    requires AddressedForReceive(Some(first))
    ensures SameReads([Ev(first, 0)] + GeneralDataIn(input) + [Ev(SrStop, 0)], ReceiveEvents(input))
  {
    GeneralDataInSameReads(input);
    SameReadsAppend([Ev(first, 0)], GeneralDataIn(input), [Ev(SrAddressMatched, 0)], DataIn(input));
    SameReadsAppend([Ev(first, 0)] + GeneralDataIn(input), [Ev(SrStop, 0)],
                    [Ev(SrAddressMatched, 0)] + DataIn(input), [Ev(SrStop, 0)]);
  }

  /** The buffer the receive callback is handed after `input` arrived: `input`, then the older bytes. */
  function Delivered(d: SlaveDriver, input: seq<byte>): seq<byte>
    requires |input| <= |d.buffer|
  {
    input + d.buffer[|input|..]
  }

  /**
    A complete message of at most the buffer's size: every byte is
    acknowledged, the bytes land at the start of the receive buffer, and at
    the STOP the registered callback gets that buffer with the byte count,
    the bus is released and the driver is READY.
   */
  lemma ReceiveCompletes(d: SlaveDriver, input: seq<byte>)
    requires d.onReceive.Some? && |input| <= |d.buffer| && |input| < 256
    ensures RunEvents(d, ReceiveEvents(input)) == Some(Trace(
      d.(role := Ready, pointer := |input|, buffer := Delivered(d, input)),
      [Issue(AckContinue)] + AckEach(|input|)
        + [Output(Some(Release), None, Some(ReceiveCall(d.onReceive.value, Delivered(d, input), |input|)))]))
  {
    var L := |input|;
    var dm := d.(role := SlaveReceive, pointer := L, buffer := Delivered(d, input));
    var stop := Output(Some(Release), None, Some(ReceiveCall(d.onReceive.value, Delivered(d, input), L)));
    ReceiveBody(d, input);
    StopStep(dm);
    RunOne(dm, Ev(SrStop, 0), Next(dm.(role := Ready), stop));
    RunThen(d, [Ev(SrAddressMatched, 0)] + DataIn(input), [Ev(SrStop, 0)],
            Trace(dm, [Issue(AckContinue)] + AckEach(L)), Trace(dm.(role := Ready), [stop]));
  }

  /** A message up to its STOP: addressed, then every byte stored and acknowledged. */
  lemma ReceiveBody(d: SlaveDriver, input: seq<byte>)
    requires |input| <= |d.buffer| && |input| < 256
    ensures RunEvents(d, [Ev(SrAddressMatched, 0)] + DataIn(input)) == Some(Trace(
      d.(role := SlaveReceive, pointer := |input|, buffer := Delivered(d, input)),
      [Issue(AckContinue)] + AckEach(|input|)))
  {
    var L := |input|;
    var d0 := d.(role := SlaveReceive, pointer := 0);
    var dm := d0.(pointer := L, buffer := Delivered(d, input));
    AddressedStep(d);
    RunOne(d, Ev(SrAddressMatched, 0), Next(d0, Issue(AckContinue)));
    assert RunEvents(d0, DataIn(input)) == Some(Trace(dm, AckEach(L))) by {
      ReceiveData(d0, input, 0);
      assert input[0..] == input;
      assert d0.buffer[..0] + input[0..] + d0.buffer[L..] == dm.buffer by {
        assert d0.buffer[..0] == [];
      }
    }
    RunThen(d, [Ev(SrAddressMatched, 0)], DataIn(input), Trace(d0, [Issue(AckContinue)]), Trace(dm, AckEach(L)));
  }

  /**
    The receive transcript on raw interrupts, with any prescaler bits and any
    data register where no byte is stored: the callback registered is
    called once, at the end, with a buffer that starts with exactly the
    bytes the master sent and a count equal to their number; every byte
    before was acknowledged and the driver ends READY.
   */
  lemma ReceiveDelivers(d: SlaveDriver, input: seq<byte>, irqs: seq<Interrupt>)
    requires d.onReceive.Some? && |input| <= |d.buffer| && |input| < 256
    requires SameReads(Decoded(irqs), ReceiveEvents(input))
    ensures Encodable(ReceiveEvents(input))
    ensures SameReads(Decoded(Encode(ReceiveEvents(input))), ReceiveEvents(input))
    ensures var r := Run(d, irqs);
      && r.Some? && |r.value.outs| == |input| + 2
      && r.value.final.role == Ready
      && r.value.outs[|input| + 1].call
           == Some(ReceiveCall(d.onReceive.value, r.value.final.buffer, |input|))
      && r.value.final.buffer[..|input|] == input
      && r.value.final.buffer[|input|..] == d.buffer[|input|..]
      && forall i :: 0 <= i <= |input| ==> r.value.outs[i] == Issue(AckContinue)
  {
    EncodableDataIn(input);
    EncodableAppend([Ev(SrAddressMatched, 0)], DataIn(input));
    EncodableAppend([Ev(SrAddressMatched, 0)] + DataIn(input), [Ev(SrStop, 0)]);
    EncodedSameReads(ReceiveEvents(input));
    RunReads(d, irqs, ReceiveEvents(input));
    ReceiveOutcome(d, input);
  }

  /** `ReceiveDelivers` on the level of events. */
  lemma ReceiveOutcome(d: SlaveDriver, input: seq<byte>)
    requires d.onReceive.Some? && |input| <= |d.buffer| && |input| < 256
    ensures var r := RunEvents(d, ReceiveEvents(input));
      && r.Some? && |r.value.outs| == |input| + 2
      && r.value.final.role == Ready
      && r.value.outs[|input| + 1].call
           == Some(ReceiveCall(d.onReceive.value, r.value.final.buffer, |input|))
      && r.value.final.buffer[..|input|] == input
      && r.value.final.buffer[|input|..] == d.buffer[|input|..]
      && forall i :: 0 <= i <= |input| ==> r.value.outs[i] == Issue(AckContinue)
  {
    ReceiveCompletes(d, input);
    var outs := [Issue(AckContinue)] + AckEach(|input|)
      + [Output(Some(Release), None, Some(ReceiveCall(d.onReceive.value, Delivered(d, input), |input|)))];
    forall i | 0 <= i <= |input|
      ensures outs[i] == Issue(AckContinue)
    {
      if i > 0 {
        assert outs[i] == AckEach(|input|)[i - 1];
      }
    }
  }

  /**
    The receive buffer is not guarded: a message longer than the buffer
    makes the handler store past its end, which the source leaves undefined.
   */
  lemma OverlongReceiveUndefined(d: SlaveDriver, input: seq<byte>)
    requires |d.buffer| < |input| < 256
    ensures RunEvents(d, [Ev(SrAddressMatched, 0)] + DataIn(input)) == None
  {
    var n := |d.buffer|;
    var head := [Ev(SrAddressMatched, 0)] + DataIn(input[..n]);
    assert input[..n] + input[n..] == input;
    DataInAppend(input[..n], input[n..]);
    assert head + DataIn(input[n..]) == [Ev(SrAddressMatched, 0)] + DataIn(input);
    ReceiveBody(d, input[..n]);
    FullBufferRejects(RunEvents(d, head).value.final, input[n..]);
    RunAppend(d, head, DataIn(input[n..]));
  }

  /** With the cursor at the end of the buffer, the next received byte has nowhere to go. */
  lemma FullBufferRejects(d: SlaveDriver, rest: seq<byte>)
    requires d.pointer == |d.buffer| && rest != []
    ensures RunEvents(d, DataIn(rest)) == None
  {
    assert DataIn(rest)[0] == Ev(SrDataAck, rest[0]);
  }

  // Transmit.

  /** `n` transmitted bytes acknowledged by the master (0xB8). */
  function TxAcks(n: nat): seq<Event> {
    if n == 0 then [] else [Ev(StDataAck, 0)] + TxAcks(n - 1)
  }

  lemma {:induction false} EncodableTxAcks(n: nat)
    ensures Encodable(TxAcks(n))
    decreases n
  {
    if n > 0 {
      EncodableTxAcks(n - 1);
      EncodableAppend([Ev(StDataAck, 0)], TxAcks(n - 1));
    }
  }

  /**
    The `n` bytes of `buf` from cursor `from` on put on the wire, each
    followed by a request for ACK exactly when the advanced cursor is below
    `count`.
   */
  function Sends(buf: seq<byte>, from: nat, n: nat, count: nat): (r: seq<Output>)
    requires from + n <= |buf|
    ensures |r| == n
    decreases n
  {
    if n == 0 then [] else [Send(buf[from], AckIf(from + 1 < count))] + Sends(buf, from + 1, n - 1, count)
  }

  lemma {:induction false} SendsAt(buf: seq<byte>, from: nat, n: nat, count: nat, i: nat)
    requires from + n <= |buf| && i < n
    ensures Sends(buf, from, n, count)[i] == Send(buf[from + i], AckIf(from + i + 1 < count))
    decreases n
  {
    if i > 0 {
      SendsAt(buf, from + 1, n - 1, count, i - 1);
    }
  }

  lemma {:induction false} WrittenSends(buf: seq<byte>, from: nat, n: nat, count: nat)
    requires from + n <= |buf|
    ensures Written(Sends(buf, from, n, count)) == buf[from..from + n]
    decreases n
  {
    if n > 0 {
      WrittenAppend([Send(buf[from], AckIf(from + 1 < count))], Sends(buf, from + 1, n - 1, count));
      WrittenSends(buf, from + 1, n - 1, count);
      assert [buf[from]] + buf[from + 1..from + n] == buf[from..from + n];
    }
  }

  /** While the buffer has bytes, an acknowledged byte is followed by the one under the cursor. */
  lemma SendsNext(d: SlaveDriver)
    requires d.pointer < |d.txBuffer| && d.pointer < 255
    ensures Safe(d, Some(StDataAck), [])
    ensures Handle(d, Some(StDataAck), 0, [])
      == Next(d.(pointer := d.pointer + 1), Send(d.txBuffer[d.pointer], AckIf(d.pointer + 1 < d.txCount)))
  {
  }

  /**
    `n` acknowledgements send the next `n` bytes of the transmit buffer in
    order and advance the cursor by `n`.
   */
  lemma {:induction false} TransmitData(d: SlaveDriver, n: nat)
    requires d.pointer + n <= |d.txBuffer| && d.pointer + n < 256
    ensures RunEvents(d, TxAcks(n))
      == Some(Trace(d.(pointer := d.pointer + n), Sends(d.txBuffer, d.pointer, n, d.txCount)))
    decreases n
  {
    if n > 0 {
      TransmitData(d.(pointer := d.pointer + 1), n - 1);
      TransmitOneMore(d, n);
    }
  }

  /** One more transmitted byte in front of a run of transmitted bytes. */
  lemma TransmitOneMore(d: SlaveDriver, n: nat)
    requires 1 <= n && d.pointer + n <= |d.txBuffer| && d.pointer + n < 256
    requires var d' := d.(pointer := d.pointer + 1);
      RunEvents(d', TxAcks(n - 1))
        == Some(Trace(d'.(pointer := d'.pointer + (n - 1)), Sends(d'.txBuffer, d'.pointer, n - 1, d'.txCount)))
    ensures RunEvents(d, TxAcks(n))
      == Some(Trace(d.(pointer := d.pointer + n), Sends(d.txBuffer, d.pointer, n, d.txCount)))
  {
    var p := d.pointer;
    var d' := d.(pointer := p + 1);
    assert d'.(pointer := d'.pointer + (n - 1)) == d.(pointer := p + n);
    SendsNext(d);
    RunCons(d, Ev(StDataAck, 0), TxAcks(n - 1), Next(d', Send(d.txBuffer[p], AckIf(p + 1 < d.txCount))),
            Trace(d.(pointer := p + n), Sends(d.txBuffer, p + 1, n - 1, d.txCount)));
  }

  /** A transmission of `k` bytes: addressed for a read, `k - 1` acknowledgements, then the end. */
  function TransmitEvents(reply: seq<byte>, k: nat, last: Status): seq<Event>
    requires 1 <= k
  {
    [Event(Some(StAddressMatched), 0, reply)] + TxAcks(k - 1) + [Ev(last, 0)]
  }

  /** How the master ends a slave transmission: NACK (0xC0), or ACK of the last byte (0xC8). */
  predicate EndsTransmit(last: Status) {
    last == StDataNack || last == StLastDataAck
  }

  /** The output of the address match for a read, whose reply is `reply`. */
  function FirstSend(d: SlaveDriver, reply: seq<byte>): Output
    requires d.onTransmit.Some? && 1 <= |reply|
  {
    Output(Some(AckIf(1 < d.txCount)), Some(reply[0]), Some(TransmitCall(d.onTransmit.value)))
  }

  /** The outputs of a transmission of `k` bytes. */
  function TransmitOuts(d: SlaveDriver, reply: seq<byte>, k: nat): seq<Output>
    requires d.onTransmit.Some? && 1 <= k <= |reply|
  {
    [FirstSend(d, reply)] + Sends(reply, 1, k - 1, d.txCount) + [Issue(AckContinue)]
  }

  /** Addressed for a read: the callback's buffer becomes the transmit buffer and its first byte goes out. */
  lemma FirstStep(d: SlaveDriver, reply: seq<byte>)
    requires d.onTransmit.Some? && 1 <= |reply|
    ensures Safe(d, Some(StAddressMatched), reply)
    ensures Handle(d, Some(StAddressMatched), 0, reply)
      == Next(d.(role := SlaveTransmit, txBuffer := reply, pointer := 1), FirstSend(d, reply))
  {
  }

  /** The master ends the transmission: ACK is re-enabled and the driver is READY. */
  lemma EndStep(d: SlaveDriver, last: Status)
    requires EndsTransmit(last)
    ensures Safe(d, Some(last), [])
    ensures Handle(d, Some(last), 0, []) == Next(d.(role := Ready), Issue(AckContinue))
  {
  }

  /**
    A transmission of `k` bytes of the callback's buffer: the first byte
    goes out with the callback call, the other `k - 1` follow in order, and
    at the end ACK is re-enabled and the driver is READY.
   */
  lemma TransmitCompletes(d: SlaveDriver, reply: seq<byte>, k: nat, last: Status)
    requires d.onTransmit.Some? && 1 <= k <= |reply| && k < 256 && EndsTransmit(last)
    ensures RunEvents(d, TransmitEvents(reply, k, last))
      == Some(Trace(d.(role := Ready, txBuffer := reply, pointer := k), TransmitOuts(d, reply, k)))
  {
    var first := Event(Some(StAddressMatched), 0, reply);
    var d1 := d.(role := SlaveTransmit, txBuffer := reply, pointer := 1);
    var dk := d1.(pointer := k);
    FirstStep(d, reply);
    RunOne(d, first, Next(d1, FirstSend(d, reply)));
    TransmitData(d1, k - 1);
    RunThen(d, [first], TxAcks(k - 1), Trace(d1, [FirstSend(d, reply)]),
            Trace(dk, Sends(reply, 1, k - 1, d.txCount)));
    EndStep(dk, last);
    RunOne(dk, Ev(last, 0), Next(dk.(role := Ready), Issue(AckContinue)));
    RunThen(d, [first] + TxAcks(k - 1), [Ev(last, 0)],
            Trace(dk, [FirstSend(d, reply)] + Sends(reply, 1, k - 1, d.txCount)),
            Trace(dk.(role := Ready), [Issue(AckContinue)]));
  }

  /**
    The outputs of a transmission carry exactly the first `k` bytes of the
    callback's buffer, and after the `i`-th byte request ACK exactly when
    `i` is below the registered size.
   */
  lemma TransmitOutsFacts(d: SlaveDriver, reply: seq<byte>, k: nat)
    requires d.onTransmit.Some? && 1 <= k <= |reply|
    ensures var outs := TransmitOuts(d, reply, k);
      && |outs| == k + 1
      && Written(outs) == reply[..k]
      && outs[0].call == Some(TransmitCall(d.onTransmit.value))
      && (forall i :: 1 <= i < k + 1 ==> outs[i].call == None)
      && (forall i :: 0 <= i < k ==> outs[i].command == Some(AckIf(i + 1 < d.txCount)))
      && outs[k] == Issue(AckContinue)
  {
    TransmitWritten(d, reply, k);
    var rest := Sends(reply, 1, k - 1, d.txCount);
    var outs := TransmitOuts(d, reply, k);
    forall i | 1 <= i < k
      ensures outs[i] == Send(reply[i], AckIf(i + 1 < d.txCount))
    {
      assert outs[i] == rest[i - 1];
      SendsAt(reply, 1, k - 1, d.txCount, i - 1);
    }
  }

  lemma TransmitWritten(d: SlaveDriver, reply: seq<byte>, k: nat)
    requires d.onTransmit.Some? && 1 <= k <= |reply|
    ensures Written(TransmitOuts(d, reply, k)) == reply[..k]
  {
    var rest := Sends(reply, 1, k - 1, d.txCount);
    WrittenAppend([FirstSend(d, reply)], rest);
    WrittenAppend([FirstSend(d, reply)] + rest, [Issue(AckContinue)]);
    WrittenSends(reply, 1, k - 1, d.txCount);
    assert [reply[0]] + reply[1..k] == reply[..k];
  }

  /**
    The transmit transcript on raw interrupts, with any prescaler bits and
    any data register: the transmit callback is
    called once, at the start; the bytes put on the wire are exactly the
    first `k` bytes of the buffer it returned, in order; after the `i`-th
    byte ACK is requested exactly when `i` is below the size registered with
    the callback; and the end leaves the driver READY.
   */
  lemma TransmitSendsReply(d: SlaveDriver, reply: seq<byte>, k: nat, last: Status, irqs: seq<Interrupt>)
    requires d.onTransmit.Some? && 1 <= k <= |reply| && k < 256 && EndsTransmit(last)
    requires SameReads(Decoded(irqs), TransmitEvents(reply, k, last))
    ensures Encodable(TransmitEvents(reply, k, last))
    ensures SameReads(Decoded(Encode(TransmitEvents(reply, k, last))), TransmitEvents(reply, k, last))
    ensures var r := Run(d, irqs);
      && r.Some? && |r.value.outs| == k + 1
      && Written(r.value.outs) == reply[..k]
      && r.value.outs[0].call == Some(TransmitCall(d.onTransmit.value))
      && (forall i :: 1 <= i < k + 1 ==> r.value.outs[i].call == None)
      && (forall i :: 0 <= i < k ==> r.value.outs[i].command == Some(AckIf(i + 1 < d.txCount)))
      && r.value.outs[k] == Issue(AckContinue)
      && r.value.final.role == Ready
  {
    EncodableTxAcks(k - 1);
    EncodableAppend([Event(Some(StAddressMatched), 0, reply)], TxAcks(k - 1));
    EncodableAppend([Event(Some(StAddressMatched), 0, reply)] + TxAcks(k - 1), [Ev(last, 0)]);
    EncodedSameReads(TransmitEvents(reply, k, last));
    RunReads(d, irqs, TransmitEvents(reply, k, last));
    TransmitOutcome(d, reply, k, last);
  }

  /** `TransmitSendsReply` on the level of events. */
  lemma TransmitOutcome(d: SlaveDriver, reply: seq<byte>, k: nat, last: Status)
    requires d.onTransmit.Some? && 1 <= k <= |reply| && k < 256 && EndsTransmit(last)
    ensures var r := RunEvents(d, TransmitEvents(reply, k, last));
      && r.Some? && |r.value.outs| == k + 1
      && Written(r.value.outs) == reply[..k]
      && r.value.outs[0].call == Some(TransmitCall(d.onTransmit.value))
      && (forall i :: 1 <= i < k + 1 ==> r.value.outs[i].call == None)
      && (forall i :: 0 <= i < k ==> r.value.outs[i].command == Some(AckIf(i + 1 < d.txCount)))
      && r.value.outs[k] == Issue(AckContinue)
      && r.value.final.role == Ready
  {
    TransmitCompletes(d, reply, k, last);
    TransmitOutsFacts(d, reply, k);
  }
}
