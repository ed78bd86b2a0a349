/**
  Finite sequences of interrupts run through the master handler, and the
  transfers they carry out: a complete write, a write aborted by a NACK, a
  complete read, and the independence of the outcome from the state
  `readFrom` sets.

  A run is stated on two levels. `Run` takes raw interrupts and is the
  master step of `Master.Step` iterated (`RunSteps`); `RunEvents` takes the
  case labels the status registers select, and the transfers are proved on
  that level. `RunEncoded` carries every result back to raw interrupts.
 */
module MasterTraces {
  import opened Wrappers
  import opened I2CTypes
  import opened Status
  import opened Master
  import opened Seqs

  /**
    An interrupt as the master switch sees it: the case label its status
    register selects (None when no label matches) and the data register.
   */
  datatype Event = Event(kind: Option<Status>, data: byte)

  /** An interrupt selecting the label `st`. */
  function Ev(st: Status, data: byte): Event {
    Event(Some(st), data)
  }

  function Decode(irq: Interrupt): Event {
    Event(Dispatch(irq.status, MasterMode), irq.data)
  }

  function Decoded(irqs: seq<Interrupt>): (evs: seq<Event>)
    ensures |evs| == |irqs|
    decreases |irqs|
  {
    if irqs == [] then [] else [Decode(irqs[0])] + Decoded(irqs[1..])
  }

  /** The driver after a run of interrupts, and one output per interrupt. */
  datatype Trace = Trace(final: MasterDriver, outs: seq<Output>)

  /**
    The master switch applied to each event in turn; None when the run
    reaches an event whose memory access the source leaves undefined.
   */
  function RunEvents(d: MasterDriver, evs: seq<Event>): (r: Option<Trace>)
    ensures r.Some? ==> |r.value.outs| == |evs|
    ensures r.Some? ==>
      && r.value.final.address == d.address
      && r.value.final.txBuffer == d.txBuffer
      && r.value.final.length == d.length
      && |r.value.final.rxBuffer| == |d.rxBuffer|
    decreases |evs|
  {
    if evs == [] then Some(Trace(d, []))
    else if !Safe(d, evs[0].kind) then None
    else
      var n := Handle(d, evs[0].kind, evs[0].data);
      match RunEvents(n.state, evs[1..])
      case None => None
      case Some(t) => Some(Trace(t.final, [n.out] + t.outs))
  }

  /** The interrupt handler run on raw interrupts. */
  function Run(d: MasterDriver, irqs: seq<Interrupt>): Option<Trace> {
    RunEvents(d, Decoded(irqs))
  }

  /** A run of no interrupts changes nothing. */
  lemma RunEmpty(d: MasterDriver)
    ensures Run(d, []) == Some(Trace(d, []))
  {
  }

  /**
    A run is `Master.Step` iterated: it stops at the first interrupt the
    source leaves undefined, and otherwise takes that interrupt's step and
    runs the rest from the state it leaves.
   */
  lemma RunSteps(d: MasterDriver, irq: Interrupt, rest: seq<Interrupt>)
    ensures !Defined(d, irq) ==> Run(d, [irq] + rest) == None
    ensures Defined(d, irq) ==> (Run(d, [irq] + rest) ==
      match Run(Step(d, irq).state, rest)
      case None => None
      case Some(t) => Some(Trace(t.final, [Step(d, irq).out] + t.outs)))
  {
    assert ([irq] + rest)[0] == irq;
    assert ([irq] + rest)[1..] == rest;
    var evs := Decoded([irq] + rest);
    assert evs[0] == Decode(irq);
    assert evs[1..] == Decoded(rest);
  }

  // Events back to raw interrupts.

  /** The event selects a label of the master build. */
  predicate Labelled(ev: Event) {
    ev.kind.Some? && InEnum(ev.kind.value, MasterMode)
  }

  predicate Encodable(evs: seq<Event>) {
    forall i :: 0 <= i < |evs| ==> Labelled(evs[i])
  }

  /** Interrupts whose status registers hold exactly the values of the labels. */
  function Encode(evs: seq<Event>): (irqs: seq<Interrupt>)
    requires Encodable(evs)
    ensures |irqs| == |evs|
    decreases |evs|
  {
    if evs == [] then []
    else [Interrupt(Code(evs[0].kind.value), evs[0].data, [])] + Encode(evs[1..])
  }

  /** Decoding the encoded interrupts gives back the events. */
  lemma {:induction false} DecodeEncode(evs: seq<Event>)
    requires Encodable(evs)
    ensures Decoded(Encode(evs)) == evs
    decreases |evs|
  {
    if evs != [] {
      var irqs := Encode(evs);
      DispatchFindsCode(evs[0].kind.value, MasterMode, 0);
      assert irqs[0] == Interrupt(Code(evs[0].kind.value), evs[0].data, []);
      assert irqs[1..] == Encode(evs[1..]);
      DecodeEncode(evs[1..]);
      assert evs == [evs[0]] + evs[1..];
    }
  }

  /** The master switch reads the data register only for a received byte (0x50, 0x58). */
  predicate ReadsData(kind: Option<Status>) {
    kind == Some(MrDataAck) || kind == Some(MrDataNack)
  }

  /**
    The case body of the master switch a label selects, named by its first
    label: 0x10 shares the body of 0x08, 0x28 that of 0x18 and 0x30 that of
    0x20.
   */
  function CaseOf(kind: Option<Status>): Option<Status> {
    match kind
    case Some(MasterRepeatedStart) => Some(MasterStart)
    case Some(MtDataAck) => Some(MtAddressAck)
    case Some(MtDataNack) => Some(MtAddressNack)
    case _ => kind
  }

  /**
    Two events the master switch cannot tell apart: labels of one case body,
    and the same data register if the switch reads it.
   */
  predicate SameEffect(a: Event, b: Event) {
    && CaseOf(a.kind) == CaseOf(b.kind)
    && (ReadsData(a.kind) ==> a.data == b.data)
  }

  /** Two event sequences the master switch cannot tell apart, event by event. */
  predicate SameReads(a: seq<Event>, b: seq<Event>) {
    |a| == |b| && forall i :: 0 <= i < |a| ==> SameEffect(a[i], b[i])
  }

  /** A case does the same whatever label of it is served and whatever the registers it does not read hold. */
  lemma HandleReadsOnly(d: MasterDriver, a: Event, b: Event)
    requires Safe(d, a.kind) && SameEffect(a, b)
    ensures Safe(d, b.kind)
    ensures Handle(d, a.kind, a.data) == Handle(d, b.kind, b.data)
  {
  }

  /** Runs over sequences the switch cannot tell apart have the same outcome. */
  lemma {:induction false} RunSameReads(d: MasterDriver, a: seq<Event>, b: seq<Event>)
    requires SameReads(a, b)
    ensures RunEvents(d, a) == RunEvents(d, b)
    decreases |a|
  {
    if a != [] {
      assert SameEffect(a[0], b[0]);
      if Safe(d, a[0].kind) {
        HandleReadsOnly(d, a[0], b[0]);
        assert SameReads(a[1..], b[1..]) by {
          forall i | 0 <= i < |a| - 1
            ensures SameEffect(a[1..][i], b[1..][i])
          {
            assert a[1..][i] == a[i + 1] && b[1..][i] == b[i + 1];
          }
        }
        RunSameReads(Handle(d, a[0].kind, a[0].data).state, a[1..], b[1..]);
      } else {
        assert !Safe(d, b[0].kind);
      }
    }
  }

  /**
    A transfer begun with a repeated START (0x10) is read as the one begun
    with a START: what is proved of `WriteEvents` and `ReadEvents` covers both.
   */
  lemma RepeatedStartSameReads(evs: seq<Event>, data: byte)
    requires evs != [] && evs[0].kind == Some(MasterStart)
    ensures SameReads([Ev(MasterRepeatedStart, data)] + evs[1..], evs)
  {
    var a := [Ev(MasterRepeatedStart, data)] + evs[1..];
    forall i | 0 <= i < |a|
      ensures SameEffect(a[i], evs[i])
    {
      if i > 0 {
        assert a[i] == evs[i];
      }
    }
  }

  /**
    Raw interrupts that the switch reads as the events `evs`: the encoded
    ones are among them.
   */
  lemma EncodedSameReads(evs: seq<Event>)
    requires Encodable(evs)
    ensures SameReads(Decoded(Encode(evs)), evs)
  {
    DecodeEncode(evs);
  }

  /** Raw interrupts the switch reads as `evs` run as `evs` do. */
  lemma RunReads(d: MasterDriver, irqs: seq<Interrupt>, evs: seq<Event>)
    requires SameReads(Decoded(irqs), evs)
    ensures Run(d, irqs) == RunEvents(d, evs)
  {
    RunSameReads(d, Decoded(irqs), evs);
  }

  /** What is proved of a run of events holds of the interrupts that encode them. */
  lemma RunEncoded(d: MasterDriver, evs: seq<Event>)
    requires Encodable(evs)
    ensures Run(d, Encode(evs)) == RunEvents(d, evs)
  {
    DecodeEncode(evs);
  }

  lemma EncodableAppend(a: seq<Event>, b: seq<Event>)
    requires Encodable(a) && Encodable(b)
    ensures Encodable(a + b)
  {
    forall i | 0 <= i < |a + b|
      ensures Labelled((a + b)[i])
    {
      if i < |a| {
        assert (a + b)[i] == a[i];
      } else {
        assert (a + b)[i] == b[i - |a|];
      }
    }
  }

  // Composing runs.

  /** Running `a` then `b` is running `a + b`. */
  lemma {:induction false} RunAppend(d: MasterDriver, a: seq<Event>, b: seq<Event>)
    ensures RunEvents(d, a + b) ==
      match RunEvents(d, a)
      case None => None
      case Some(t) =>
        match RunEvents(t.final, b)
        case None => None
        case Some(u) => Some(Trace(u.final, t.outs + u.outs))
    decreases |a|
  {
    if a == [] {
      assert a + b == b;
      match RunEvents(d, b)
      case None =>
      case Some(u) => assert [] + u.outs == u.outs;
    } else {
      assert (a + b)[0] == a[0];
      assert (a + b)[1..] == a[1..] + b;
      if Safe(d, a[0].kind) {
        var n := Handle(d, a[0].kind, a[0].data);
        RunAppend(n.state, a[1..], b);
        match RunEvents(n.state, a[1..])
        case None =>
        case Some(t) =>
          match RunEvents(t.final, b)
          case None =>
          case Some(u) =>
            assert [n.out] + (t.outs + u.outs) == ([n.out] + t.outs) + u.outs;
      }
    }
  }

  /** A run that starts with `ev`, given the step it takes and the run of the rest. */
  lemma RunCons(d: MasterDriver, ev: Event, rest: seq<Event>, n: Next<MasterDriver>, t: Trace)
    requires Safe(d, ev.kind) && Handle(d, ev.kind, ev.data) == n
    requires RunEvents(n.state, rest) == Some(t)
    ensures RunEvents(d, [ev] + rest) == Some(Trace(t.final, [n.out] + t.outs))
  {
    assert ([ev] + rest)[0] == ev;
    assert ([ev] + rest)[1..] == rest;
  }

  /** A run of one event is one step. */
  lemma RunOne(d: MasterDriver, ev: Event, n: Next<MasterDriver>)
    requires Safe(d, ev.kind) && Handle(d, ev.kind, ev.data) == n
    ensures RunEvents(d, [ev]) == Some(Trace(n.state, [n.out]))
  {
    RunCons(d, ev, [], n, Trace(n.state, []));
    assert [ev] + [] == [ev];
    assert [n.out] + [] == [n.out];
  }

  /** Two runs one after the other. */
  lemma RunThen(d: MasterDriver, a: seq<Event>, b: seq<Event>, t: Trace, u: Trace)
    requires RunEvents(d, a) == Some(t) && RunEvents(t.final, b) == Some(u)
    ensures RunEvents(d, a + b) == Some(Trace(u.final, t.outs + u.outs))
  {
    RunAppend(d, a, b);
  }

  // Transmit.

  /** `n` acknowledgements of transmitted data bytes. */
  function DataAcks(n: nat): seq<Event> {
    if n == 0 then [] else [Ev(MtDataAck, 0)] + DataAcks(n - 1)
  }

  /** `k` acknowledgements: of the address first, then of data bytes. */
  function Acks(k: nat): seq<Event> {
    if k == 0 then [] else [Ev(MtAddressAck, 0)] + DataAcks(k - 1)
  }

  /** START done, then `k` acknowledgements. */
  function WriteEvents(k: nat): seq<Event> {
    [Ev(MasterStart, 0)] + Acks(k)
  }

  /** The `n` bytes of `buf` from cursor `from` on put on the wire, each with ack enabled. */
  function Sent(buf: seq<byte>, from: nat, n: nat): (r: seq<Output>)
    requires from + n <= |buf|
    ensures |r| == n
    decreases n
  {
    if n == 0 then [] else [Send(buf[from], AckContinue)] + Sent(buf, from + 1, n - 1)
  }

  lemma {:induction false} DataAcksSnoc(n: nat)
    ensures DataAcks(n + 1) == DataAcks(n) + [Ev(MtDataAck, 0)]
    decreases n
  {
    if n > 0 {
      DataAcksSnoc(n - 1);
    }
  }

  lemma WriteEventsSnoc(k: nat)
    ensures WriteEvents(k + 1) == WriteEvents(k) + [Ev(if k == 0 then MtAddressAck else MtDataAck, 0)]
  {
    if k > 0 {
      DataAcksSnoc(k - 1);
    }
  }

  lemma {:induction false} EncodableDataAcks(n: nat)
    ensures Encodable(DataAcks(n))
    decreases n
  {
    if n > 0 {
      EncodableDataAcks(n - 1);
      EncodableAppend([Ev(MtDataAck, 0)], DataAcks(n - 1));
    }
  }

  lemma EncodableWriteEvents(k: nat)
    ensures Encodable(WriteEvents(k))
  {
    if k > 0 {
      EncodableDataAcks(k - 1);
      EncodableAppend([Ev(MtAddressAck, 0)], DataAcks(k - 1));
    }
    EncodableAppend([Ev(MasterStart, 0)], Acks(k));
  }

  lemma {:induction false} WrittenSent(buf: seq<byte>, from: nat, n: nat)
    requires from + n <= |buf|
    ensures Written(Sent(buf, from, n)) == buf[from..from + n]
    decreases n
  {
    if n > 0 {
      WrittenAppend([Send(buf[from], AckContinue)], Sent(buf, from + 1, n - 1));
      WrittenSent(buf, from + 1, n - 1);
      assert [buf[from]] + buf[from + 1..from + n] == buf[from..from + n];
    }
  }

  /** While bytes remain, an acknowledgement sends the byte under the cursor and advances it. */
  lemma SendsNextByte(d: MasterDriver, st: Status)
    requires st == MtAddressAck || st == MtDataAck
    requires d.pointer < d.length <= |d.txBuffer|
    ensures Safe(d, Some(st))
    ensures Handle(d, Some(st), 0) == Next(d.(pointer := d.pointer + 1), Send(d.txBuffer[d.pointer], AckContinue))
  {
  }

  /**
    While bytes remain, each data acknowledgement sends the byte under the
    cursor and advances the cursor, so `n` of them send the next `n` bytes
    of the buffer in order.
   */
  lemma {:induction false} SendData(d: MasterDriver, n: nat)
    requires d.pointer + n <= d.length <= |d.txBuffer|
    ensures RunEvents(d, DataAcks(n))
      == Some(Trace(d.(pointer := d.pointer + n), Sent(d.txBuffer, d.pointer, n)))
    decreases n
  {
    if n > 0 {
      SendData(d.(pointer := d.pointer + 1), n - 1);
      SendOneMore(d, MtDataAck, n);
    }
  }

  /** One more acknowledged byte in front of a run of acknowledged data bytes. */
  lemma SendOneMore(d: MasterDriver, st: Status, n: nat)
    requires st == MtAddressAck || st == MtDataAck
    requires 1 <= n && d.pointer + n <= d.length <= |d.txBuffer|
    requires var d' := d.(pointer := d.pointer + 1);
      RunEvents(d', DataAcks(n - 1))
        == Some(Trace(d'.(pointer := d'.pointer + (n - 1)), Sent(d'.txBuffer, d'.pointer, n - 1)))
    ensures RunEvents(d, [Ev(st, 0)] + DataAcks(n - 1))
      == Some(Trace(d.(pointer := d.pointer + n), Sent(d.txBuffer, d.pointer, n)))
  {
    var p := d.pointer;
    var d' := d.(pointer := p + 1);
    assert d'.(pointer := d'.pointer + (n - 1)) == d.(pointer := p + n);
    SendsNextByte(d, st);
    RunCons(d, Ev(st, 0), DataAcks(n - 1), Next(d', Send(d.txBuffer[p], AckContinue)),
            Trace(d.(pointer := p + n), Sent(d.txBuffer, p + 1, n - 1)));
  }

  /**
    Byte order on transmit: from an armed write, START and `k` acknowledged
    bytes (`k` at most the length) put the address byte and then exactly the
    first `k` buffer bytes on the wire, each with ack enabled, and move the
    cursor to `k`; nothing else changes.
   */
  lemma SendPrefix(d: MasterDriver, k: nat)
    requires d.pointer == 0 && k <= d.length <= |d.txBuffer|
    ensures RunEvents(d, WriteEvents(k))
      == Some(Trace(d.(pointer := k), [Send(d.address, AckContinue)] + Sent(d.txBuffer, 0, k)))
  {
    var first := Send(d.address, AckContinue);
    if k == 0 {
      RunOne(d, Ev(MasterStart, 0), Next(d, first));
      assert WriteEvents(0) == [Ev(MasterStart, 0)];
    } else {
      SendAcks(d, k);
      RunCons(d, Ev(MasterStart, 0), Acks(k), Next(d, first),
              Trace(d.(pointer := k), Sent(d.txBuffer, 0, k)));
    }
  }

  /** The acknowledgements after START, from the address on, send the buffer's first `k` bytes. */
  lemma SendAcks(d: MasterDriver, k: nat)
    requires d.pointer == 0 && 1 <= k <= d.length <= |d.txBuffer|
    ensures RunEvents(d, Acks(k)) == Some(Trace(d.(pointer := k), Sent(d.txBuffer, 0, k)))
  {
    SendData(d.(pointer := 1), k - 1);
    SendOneMore(d, MtAddressAck, k);
    assert Acks(k) == [Ev(MtAddressAck, 0)] + DataAcks(k - 1);
  }

  /** The written bytes of a write prefix: the address byte, then the buffer's first `k` bytes. */
  lemma SendPrefixWrites(d: MasterDriver, k: nat)
    requires d.pointer == 0 && k <= d.length <= |d.txBuffer|
    ensures RunEvents(d, WriteEvents(k)).Some?
    ensures Written(RunEvents(d, WriteEvents(k)).value.outs) == [d.address] + d.txBuffer[..k]
  {
    SendPrefix(d, k);
    WrittenAppend([Send(d.address, AckContinue)], Sent(d.txBuffer, 0, k));
    WrittenSent(d.txBuffer, 0, k);
    assert d.txBuffer[0..k] == d.txBuffer[..k];
  }

  /**
    A complete write: from an armed write, START and `length + 1`
    acknowledgements send the address and the whole buffer in order, each
    with ack enabled, then a STOP, and leave the driver READY with the cursor
    at the length and the error slot unchanged.
   */
  lemma SendCompletes(d: MasterDriver)
    requires d.pointer == 0 && d.length <= |d.txBuffer|
    ensures RunEvents(d, WriteEvents(d.length + 1)).Some?
    ensures var t := RunEvents(d, WriteEvents(d.length + 1)).value;
      && t.final == d.(pointer := d.length, role := Ready)
      && t.outs == [Send(d.address, AckContinue)] + Sent(d.txBuffer, 0, d.length) + [Issue(Stop)]
      && Written(t.outs) == [d.address] + d.txBuffer[..d.length]
  {
    var n: nat := d.length;
    var last := Ev(if n == 0 then MtAddressAck else MtDataAck, 0);
    var pre := [Send(d.address, AckContinue)] + Sent(d.txBuffer, 0, n);
    var dn := d.(pointer := n);
    SendPrefix(d, n);
    RunOne(dn, last, Next(dn.(role := Ready), Issue(Stop)));
    RunThen(d, WriteEvents(n), [last], Trace(dn, pre), Trace(dn.(role := Ready), [Issue(Stop)]));
    WriteEventsSnoc(n);
    SendPrefixWrites(d, n);
    WrittenAppend(pre, [Issue(Stop)]);
  }

  /**
    A write aborted by the peer: after `k >= 1` acknowledged bytes a data NACK
    records MISSING_ACK, sends STOP and leaves the driver READY with the
    cursor at `k`, the address and the first `k` bytes having been sent.
   */
  lemma SendNackAborts(d: MasterDriver, k: nat)
    requires d.pointer == 0 && 1 <= k <= d.length <= |d.txBuffer|
    ensures RunEvents(d, WriteEvents(k) + [Ev(MtDataNack, 0)]).Some?
    ensures var t := RunEvents(d, WriteEvents(k) + [Ev(MtDataNack, 0)]).value;
      && t.final == d.(pointer := k, error := MissingAck, role := Ready)
      && t.outs == [Send(d.address, AckContinue)] + Sent(d.txBuffer, 0, k) + [Issue(Stop)]
  {
    var dk := d.(pointer := k);
    var df := dk.(error := MissingAck, role := Ready);
    SendPrefix(d, k);
    RunOne(dk, Ev(MtDataNack, 0), Next(df, Issue(Stop)));
    RunThen(d, WriteEvents(k), [Ev(MtDataNack, 0)],
            Trace(dk, [Send(d.address, AckContinue)] + Sent(d.txBuffer, 0, k)), Trace(df, [Issue(Stop)]));
  }

  /**
    `sendTo` from READY followed by the interrupts of a fully acknowledged
    transfer, with any data register where none is read and any prescaler
    bits: the address byte and the first `length` bytes of `data` go out in
    order, and the driver ends READY with its error slot unchanged. Such
    interrupts exist: the encoded write is one.
   */
  lemma SendToTransfers(d: MasterDriver, address: byte, data: seq<byte>, length: byte, irqs: seq<Interrupt>)
    requires d.role == Ready && length <= |data|
    requires SameReads(Decoded(irqs), WriteEvents(length + 1))
    ensures Encodable(WriteEvents(length + 1))
    ensures SameReads(Decoded(Encode(WriteEvents(length + 1))), WriteEvents(length + 1))
    ensures var a := SendTo(d, address, data, length).driver;
      && Run(a, irqs).Some?
      && var t := Run(a, irqs).value;
      && Written(t.outs) == [AddressByte(address, false)] + data[..length]
      && t.final.role == Ready && t.final.error == d.error
  {
    var a := SendTo(d, address, data, length).driver;
    EncodableWriteEvents(length + 1);
    EncodedSameReads(WriteEvents(length + 1));
    RunReads(a, irqs, WriteEvents(length + 1));
    SendToWrites(d, address, data, length);
  }

  /** `SendToTransfers` on the level of events. */
  lemma SendToWrites(d: MasterDriver, address: byte, data: seq<byte>, length: byte)
    requires d.role == Ready && length <= |data|
    ensures var a := SendTo(d, address, data, length).driver;
      && RunEvents(a, WriteEvents(length + 1)).Some?
      && var t := RunEvents(a, WriteEvents(length + 1)).value;
      && Written(t.outs) == [AddressByte(address, false)] + data[..length]
      && t.final.role == Ready && t.final.error == d.error
  {
    SendCompletes(SendTo(d, address, data, length).driver);
  }

  // Receive.

  /** Bytes received, each answered with ACK (status 0x50). */
  function DataIn(bs: seq<byte>): seq<Event>
    decreases |bs|
  {
    if bs == [] then [] else [Ev(MrDataAck, bs[0])] + DataIn(bs[1..])
  }

  /** The acknowledgement requests after storing bytes `from - 1 .. upto - 1` of a read of `count` bytes. */
  function AckRequests(from: nat, upto: nat, count: nat): (r: seq<Output>)
    requires from <= upto
    ensures |r| == upto - from
    decreases upto - from
  {
    if from == upto then [] else [Issue(AckIf(from + 1 < count))] + AckRequests(from + 1, upto, count)
  }

  lemma {:induction false} AckRequestsAt(from: nat, upto: nat, count: nat, j: nat)
    requires from <= upto && j < upto - from
    ensures AckRequests(from, upto, count)[j] == Issue(AckIf(from + j + 1 < count))
    decreases upto - from
  {
    if j > 0 {
      AckRequestsAt(from + 1, upto, count, j - 1);
    }
  }

  /**
    Receiving with ACK from cursor `p` up to the last byte: each byte is
    stored at the cursor, which advances, the rest of the buffer is left
    alone, and after each byte the next one is requested with ACK exactly
    when it is not the last one.
   */
  lemma {:induction false} ReceiveData(d: MasterDriver, input: seq<byte>, p: nat)
    requires 1 <= |input| == d.length <= |d.rxBuffer|
    requires d.pointer == p < |input|
    ensures RunEvents(d, DataIn(input[p..|input| - 1])) == Some(Trace(
      d.(pointer := |input| - 1,
         rxBuffer := d.rxBuffer[..p] + input[p..|input| - 1] + d.rxBuffer[|input| - 1..]),
      AckRequests(p + 1, |input|, |input|)))
    decreases |input| - p
  {
    if p == |input| - 1 {
      ReceiveNothing(d, input);
    } else {
      ReceiveData(d.(pointer := p + 1, rxBuffer := d.rxBuffer[p := input[p]]), input, p + 1);
      ReceiveOneMore(d, input, p);
    }
  }

  lemma ReceiveNothing(d: MasterDriver, input: seq<byte>)
    requires 1 <= |input| <= |d.rxBuffer|
    requires d.pointer == |input| - 1
    ensures var m := |input| - 1;
      RunEvents(d, DataIn(input[m..m]))
        == Some(Trace(d.(pointer := m, rxBuffer := d.rxBuffer[..m] + input[m..m] + d.rxBuffer[m..]),
                      AckRequests(m + 1, m + 1, m + 1)))
  {
    var m := |input| - 1;
    assert DataIn(input[m..m]) == [];
    assert d.rxBuffer[..m] + input[m..m] + d.rxBuffer[m..] == d.rxBuffer;
  }

  /** While the byte is not the last, a data byte answered with ACK is stored at the cursor, which advances. */
  lemma StoresAcked(d: MasterDriver, data: byte)
    requires d.pointer + 1 < d.length && d.pointer < |d.rxBuffer|
    ensures Safe(d, Some(MrDataAck))
    ensures Handle(d, Some(MrDataAck), data)
      == Next(d.(pointer := d.pointer + 1, rxBuffer := d.rxBuffer[d.pointer := data]),
              Issue(AckIf(d.pointer + 2 < d.length)))
  {
  }

  /** One more stored byte in front of a run of stored bytes. */
  lemma ReceiveOneMore(d: MasterDriver, input: seq<byte>, p: nat)
    requires 1 <= |input| == d.length <= |d.rxBuffer|
    requires d.pointer == p < |input| - 1
    requires var d' := d.(pointer := p + 1, rxBuffer := d.rxBuffer[p := input[p]]);
      RunEvents(d', DataIn(input[p + 1..|input| - 1])) == Some(Trace(
        d'.(pointer := |input| - 1,
            rxBuffer := d'.rxBuffer[..p + 1] + input[p + 1..|input| - 1] + d'.rxBuffer[|input| - 1..]),
        AckRequests(p + 2, |input|, |input|)))
    ensures RunEvents(d, DataIn(input[p..|input| - 1])) == Some(Trace(
      d.(pointer := |input| - 1,
         rxBuffer := d.rxBuffer[..p] + input[p..|input| - 1] + d.rxBuffer[|input| - 1..]),
      AckRequests(p + 1, |input|, |input|)))
  {
    var m: nat := |input| - 1;
    var d' := d.(pointer := p + 1, rxBuffer := d.rxBuffer[p := input[p]]);
    var rx := d.rxBuffer[..p] + input[p..m] + d.rxBuffer[m..];
    StoreAdvances(d.rxBuffer, input, p, m);
    SliceTail(input, p, m);
    StoresAcked(d, input[p]);
    RunCons(d, Ev(MrDataAck, input[p]), DataIn(input[p + 1..m]),
            Next(d', Issue(AckIf(p + 2 < m + 1))),
            Trace(d.(pointer := m, rxBuffer := rx), AckRequests(p + 2, m + 1, m + 1)));
  }

  /** START done and the address acknowledged, in a read. */
  const ReadHead: seq<Event> := [Ev(MasterStart, 0), Ev(MrAddressAck, 0)]

  /** A read up to, not including, its last byte: START, the address acknowledged, the ACKed bytes. */
  function ReadAcked(input: seq<byte>): seq<Event>
    requires 1 <= |input|
  {
    ReadHead + DataIn(input[..|input| - 1])
  }

  /** A complete read: the ACKed bytes, then the NACKed last byte. */
  function ReadEvents(input: seq<byte>): seq<Event>
    requires 1 <= |input|
  {
    ReadAcked(input) + [Ev(MrDataNack, input[|input| - 1])]
  }

  /** The outputs of a read of `count` bytes before its STOP. */
  function ReadRequests(address: byte, count: nat): seq<Output>
    requires 1 <= count
  {
    [Send(address, AckContinue), Issue(AckIf(1 < count))] + AckRequests(1, count, count)
  }

  /** The outputs of a complete read of `count` bytes. */
  function ReadOuts(address: byte, count: nat): seq<Output>
    requires 1 <= count
  {
    ReadRequests(address, count) + [Issue(Stop)]
  }

  /**
    The acknowledgement rule of a read: the output of interrupt `i`
    (1 <= i <= count) requests ACK for the next byte exactly when that byte
    is not the last.
   */
  lemma ReadOutsAckRule(address: byte, count: nat)
    requires 1 <= count
    ensures |ReadOuts(address, count)| == count + 2
    ensures ReadOuts(address, count)[0] == Send(address, AckContinue)
    ensures forall i :: 1 <= i <= count ==> ReadOuts(address, count)[i].command == Some(AckIf(i < count))
    ensures ReadOuts(address, count)[count + 1] == Issue(Stop)
  {
    var o := ReadOuts(address, count);
    var acks := AckRequests(1, count, count);
    assert o == [Send(address, AckContinue), Issue(AckIf(1 < count))] + acks + [Issue(Stop)];
    forall i | 1 <= i <= count
      ensures o[i].command == Some(AckIf(i < count))
    {
      if i >= 2 {
        assert o[i] == acks[i - 2];
        AckRequestsAt(1, count, count, i - 2);
      }
    }
  }

  /** START and the address acknowledgement of a read: the address goes out, then the first ack request. */
  lemma ReadStarts(d: MasterDriver)
    ensures RunEvents(d, ReadHead)
      == Some(Trace(d, [Send(d.address, AckContinue), Issue(AckIf(d.pointer + 1 < d.length))]))
  {
    var c := Issue(AckIf(d.pointer + 1 < d.length));
    RunOne(d, Ev(MrAddressAck, 0), Next(d, c));
    RunCons(d, Ev(MasterStart, 0), [Ev(MrAddressAck, 0)], Next(d, Send(d.address, AckContinue)), Trace(d, [c]));
    assert [Ev(MasterStart, 0)] + [Ev(MrAddressAck, 0)] == ReadHead;
    assert [Send(d.address, AckContinue)] + [c] == [Send(d.address, AckContinue), c];
  }

  /** The ACKed bytes of a read, from its first byte on. */
  lemma ReceiveAllButLast(d: MasterDriver, input: seq<byte>)
    requires d.pointer == 0 && 1 <= |input| == d.length <= |d.rxBuffer|
    ensures RunEvents(d, DataIn(input[..|input| - 1])) == Some(Trace(
      d.(pointer := |input| - 1, rxBuffer := input[..|input| - 1] + d.rxBuffer[|input| - 1..]),
      AckRequests(1, |input|, |input|)))
  {
    var m := |input| - 1;
    ReceiveData(d, input, 0);
    assert input[0..m] == input[..m];
    assert d.rxBuffer[..0] + input[0..m] + d.rxBuffer[m..] == input[..m] + d.rxBuffer[m..];
  }

  /** A read up to, not including, its last byte. */
  lemma ReadUpToLast(d: MasterDriver, input: seq<byte>)
    requires d.pointer == 0 && 1 <= |input| == d.length <= |d.rxBuffer|
    ensures RunEvents(d, ReadAcked(input)) == Some(Trace(
      d.(pointer := |input| - 1, rxBuffer := input[..|input| - 1] + d.rxBuffer[|input| - 1..]),
      ReadRequests(d.address, |input|)))
  {
    var L := |input|;
    ReadStarts(d);
    ReceiveAllButLast(d, input);
    RunThen(d, ReadHead, DataIn(input[..L - 1]),
            Trace(d, [Send(d.address, AckContinue), Issue(AckIf(1 < L))]),
            Trace(d.(pointer := L - 1, rxBuffer := input[..L - 1] + d.rxBuffer[L - 1..]), AckRequests(1, L, L)));
  }

  /**
    A complete read of `L >= 1` bytes: the buffer's first `L` bytes become
    exactly the delivered bytes and the rest is untouched, the outputs are
    the address, the acknowledgement requests of the read and a STOP, and
    the driver is READY with its error slot unchanged.
   */
  lemma ReadCompletes(d: MasterDriver, input: seq<byte>)
    requires d.pointer == 0 && 1 <= |input| == d.length <= |d.rxBuffer|
    ensures RunEvents(d, ReadEvents(input))
      == Some(Trace(d.(pointer := |input|, rxBuffer := input + d.rxBuffer[|input|..], role := Ready),
                    ReadOuts(d.address, |input|)))
  {
    var L := |input|;
    var dm := d.(pointer := L - 1, rxBuffer := input[..L - 1] + d.rxBuffer[L - 1..]);
    var df := d.(pointer := L, rxBuffer := input + d.rxBuffer[L..], role := Ready);
    var last := Ev(MrDataNack, input[L - 1]);
    ReadUpToLast(d, input);
    StoreLast(d.rxBuffer, input);
    RunOne(dm, last, Next(df, Issue(Stop)));
    RunThen(d, ReadAcked(input), [last], Trace(dm, ReadRequests(d.address, L)), Trace(df, [Issue(Stop)]));
  }

  lemma {:induction false} EncodableDataIn(bs: seq<byte>)
    ensures Encodable(DataIn(bs))
    decreases |bs|
  {
    if bs != [] {
      EncodableDataIn(bs[1..]);
      EncodableAppend([Ev(MrDataAck, bs[0])], DataIn(bs[1..]));
    }
  }

  lemma EncodableReadEvents(input: seq<byte>)
    requires 1 <= |input|
    ensures Encodable(ReadEvents(input))
  {
    EncodableDataIn(input[..|input| - 1]);
    EncodableAppend(ReadHead, DataIn(input[..|input| - 1]));
    EncodableAppend(ReadAcked(input), [Ev(MrDataNack, input[|input| - 1])]);
  }

  /**
    `readFrom` from READY followed by the interrupts of a complete read, with
    any data register where none is read and any prescaler bits: the
    caller's buffer begins with exactly the delivered bytes and keeps the
    rest, the address byte with the read bit goes out first, ACK is
    requested for every byte but the last, and the driver ends READY with
    its error slot unchanged.
   */
  lemma ReadFromTransfers(d: MasterDriver, address: byte, data: seq<byte>, input: seq<byte>, irqs: seq<Interrupt>)
    requires d.role == Ready && 1 <= |input| <= |data| && |input| < 256
    requires SameReads(Decoded(irqs), ReadEvents(input))
    ensures Encodable(ReadEvents(input))
    ensures SameReads(Decoded(Encode(ReadEvents(input))), ReadEvents(input))
    ensures var a := ReadFrom(d, address, data, |input|).driver;
      && Run(a, irqs).Some?
      && var t := Run(a, irqs).value;
      && t.final.rxBuffer[..|input|] == input
      && t.final.rxBuffer[|input|..] == data[|input|..]
      && t.outs == ReadOuts(AddressByte(address, true), |input|)
      && t.final.role == Ready && t.final.error == d.error
  {
    var a := ReadFrom(d, address, data, |input|).driver;
    EncodableReadEvents(input);
    EncodedSameReads(ReadEvents(input));
    RunReads(a, irqs, ReadEvents(input));
    ReadCompletes(a, input);
    assert (input + data[|input|..])[..|input|] == input;
    assert (input + data[|input|..])[|input|..] == data[|input|..];
  }

  /**
    A read of zero bytes still lets one byte in: the handler answers the
    address acknowledgement with a NACK request, so the peer sends one byte,
    and storing it (0x58) writes index 0 of the caller's buffer, which the
    source does not guard. Into a non-empty buffer that overwrites a byte the
    caller never asked for and leaves the cursor at 1; into an empty one it is
    undefined.
   */
  lemma EmptyReadOverruns(d: MasterDriver, b: byte)
    requires d.pointer == 0 && d.length == 0
    ensures RunEvents(d, ReadHead) == Some(Trace(d, [Send(d.address, AckContinue), Issue(NackContinue)]))
    ensures Safe(d, Some(MrDataNack)) <==> |d.rxBuffer| >= 1
    ensures |d.rxBuffer| >= 1 ==>
      RunEvents(d, ReadHead + [Ev(MrDataNack, b)])
        == Some(Trace(d.(rxBuffer := [b] + d.rxBuffer[1..], pointer := 1, role := Ready),
                      [Send(d.address, AckContinue), Issue(NackContinue), Issue(Stop)]))
  {
    ReadStarts(d);
    if |d.rxBuffer| >= 1 {
      var n := Next(d.(rxBuffer := [b] + d.rxBuffer[1..], pointer := 1, role := Ready), Issue(Stop));
      assert d.rxBuffer[0 := b] == [b] + d.rxBuffer[1..];
      RunOne(d, Ev(MrDataNack, b), n);
      RunThen(d, ReadHead, [Ev(MrDataNack, b)],
              Trace(d, [Send(d.address, AckContinue), Issue(NackContinue)]), Trace(n.state, [n.out]));
      assert [Send(d.address, AckContinue), Issue(NackContinue)] + [n.out]
          == [Send(d.address, AckContinue), Issue(NackContinue), Issue(Stop)];
    }
  }

  lemma HandleIgnoresRole(d: MasterDriver, st: Option<Status>, data: byte, role: DriverState)
    requires Safe(d, st)
    ensures Safe(d.(role := role), st)
    ensures Handle(d.(role := role), st, data).out == Handle(d, st, data).out
    ensures Handle(d.(role := role), st, data).state
         == Handle(d, st, data).state.(role := Handle(d.(role := role), st, data).state.role)
  {
  }

  /**
    The state the driver is in never changes what a run of interrupts does:
    from two drivers that differ only in their state, the same interrupts
    are defined, produce the same outputs and leave the same variables apart
    from the state. In particular the MASTER_TRANSMIT state that `readFrom`
    sets instead of MASTER_RECEIVE changes nothing on the bus.
   */
  lemma RunIgnoresRole(d: MasterDriver, irqs: seq<Interrupt>, role: DriverState)
    ensures Run(d.(role := role), irqs).Some? <==> Run(d, irqs).Some?
    ensures Run(d, irqs).Some? ==>
      var a := Run(d.(role := role), irqs).value; var b := Run(d, irqs).value;
      && a.outs == b.outs
      && a.final == b.final.(role := a.final.role)
  {
    RunEventsIgnoresRole(d, Decoded(irqs), role);
  }

  lemma {:induction false} RunEventsIgnoresRole(d: MasterDriver, evs: seq<Event>, role: DriverState)
    ensures RunEvents(d.(role := role), evs).Some? <==> RunEvents(d, evs).Some?
    ensures RunEvents(d, evs).Some? ==>
      var a := RunEvents(d.(role := role), evs).value; var b := RunEvents(d, evs).value;
      && a.outs == b.outs
      && a.final == b.final.(role := a.final.role)
    decreases |evs|
  {
    if evs != [] && Safe(d, evs[0].kind) {
      var ev := evs[0];
      HandleIgnoresRole(d, ev.kind, ev.data, role);
      var na := Handle(d.(role := role), ev.kind, ev.data).state;
      var nb := Handle(d, ev.kind, ev.data).state;
      RunEventsIgnoresRole(nb, evs[1..], na.role);
    }
  }
}
