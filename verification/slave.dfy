/**
  The slave build of the driver: its variables, the two callback setters,
  and the slave switch of the TWI interrupt handler as a pure step function.
  The user callbacks are opaque: the receive callback is recorded as a call
  with the bytes it is handed, and the transmit callback's answer is part of
  the interrupt (`Interrupt.reply`).
 */
module Slave {
  import opened Wrappers
  import opened I2CTypes
  import opened Status

  /** The file-scope variables of the slave build. */
  datatype SlaveDriver = SlaveDriver(
    role: DriverState,           // driverState
    error: DriverError,          // lastRequestStatus
    pointer: byte,               // slaveDataPointer
    buffer: seq<byte>,           // slaveBuffer, I2C_BUFFER_SIZE bytes
    txBuffer: seq<byte>,         // the bytes slaveTransmitBuffer points at
    txCount: byte,               // nbByteToTransmit
    onReceive: Option<Handler>,  // slaveReceiveCallBack, None while null
    onTransmit: Option<Handler>) // slaveTransmitCallBack, None while null

  /** Static storage at program start: every variable zero, both callbacks null. */
  function PowerOn(bufferSize: nat): (d: SlaveDriver)
    ensures d.role == Ready && d.error == Ok && d.pointer == 0 && d.txCount == 0
    ensures |d.buffer| == bufferSize && forall i :: 0 <= i < |d.buffer| ==> d.buffer[i] == 0
    ensures d.txBuffer == [] && d.onReceive == None && d.onTransmit == None
  {
    SlaveDriver(Ready, Ok, 0, seq(bufferSize, _ => 0), [], 0, None, None)
  }

  /** `initialisation`: only the driver state is touched. */
  function Initialise(d: SlaveDriver): (r: SlaveDriver)
    ensures r.role == Ready
    ensures r.(role := d.role) == d
  {
    d.(role := Ready)
  }

  /** `setSlaveReceivedCallback`: registers the receive callback and nothing else. */
  function SetSlaveReceivedCallback(d: SlaveDriver, h: Handler): (r: SlaveDriver)
    ensures r.onReceive == Some(h)
    ensures r.(onReceive := d.onReceive) == d
  {
    d.(onReceive := Some(h))
  }

  /** `setSlaveTransmitCallback`: registers the transmit callback and the number of bytes to send. */
  function SetSlaveTransmitCallback(d: SlaveDriver, h: Handler, size: byte): (r: SlaveDriver)
    ensures r.onTransmit == Some(h) && r.txCount == size
    ensures r.(onTransmit := d.onTransmit, txCount := d.txCount) == d
  {
    d.(onTransmit := Some(h), txCount := size)
  }

  /** A data byte arrives from the master (0x80, 0x88, 0x90, 0x98). */
  predicate Receives(st: Option<Status>) {
    st == Some(SrDataAck) || st == Some(SrDataNack) || st == Some(SrGeneralDataAck) || st == Some(SrGeneralDataNack)
  }

  /** The slave is addressed for a write of the master (0x60, 0x68, 0x70, 0x78). */
  predicate AddressedForReceive(st: Option<Status>) {
    || st == Some(SrAddressMatched) || st == Some(SrArbitrationLostAddressMatched)
    || st == Some(SrGeneralCall) || st == Some(SrArbitrationLostGeneralCall)
  }

  /** The slave is addressed for a read of the master (0xA8, 0xB0). */
  predicate AddressedForTransmit(st: Option<Status>) {
    st == Some(StAddressMatched) || st == Some(StArbitrationLostAddressMatched)
  }

  /**
    The handler's memory accesses and calls are defined: a received byte is
    stored inside `slaveBuffer` (the source does not check the bound), the
    callback called is not null, the transmit callback's buffer holds at
    least the byte read from it, and a further transmitted byte lies inside
    that buffer. Outside this the source's behaviour is undefined.
   */
  predicate Safe(d: SlaveDriver, st: Option<Status>, reply: seq<byte>) {
    && (Receives(st) ==> d.pointer < |d.buffer|)
    && (st == Some(SrStop) ==> d.onReceive.Some?)
    && (AddressedForTransmit(st) ==> d.onTransmit.Some? && 1 <= |reply|)
    && (st == Some(StDataAck) ==> d.pointer < |d.txBuffer|)
  }

  /** The interrupt `irq` is handled without undefined behaviour. */
  predicate Defined(d: SlaveDriver, irq: Interrupt) {
    Safe(d, Dispatch(irq.status, SlaveMode), irq.reply)
  }

  /** The state an interrupt sets, if any. */
  function Entered(st: Option<Status>): Option<DriverState> {
    if AddressedForReceive(st) then Some(SlaveReceive)
    else if AddressedForTransmit(st) then Some(SlaveTransmit)
    else if st == Some(SrStop) || st == Some(StDataNack) || st == Some(StLastDataAck)
         || st == Some(NoInfo) || st == Some(BusFault) then Some(Ready)
    else None
  }

  /**
    `ISR(TWI_vect)` in the slave build. The dispatch depends on the status
    register only, never on the driver state.
   */
  function Step(d: SlaveDriver, irq: Interrupt): (r: Next<SlaveDriver>)
    requires Defined(d, irq)
    // the registered callbacks and the transmit count are never changed by the handler
    ensures r.state.onReceive == d.onReceive && r.state.onTransmit == d.onTransmit
    ensures r.state.txCount == d.txCount && |r.state.buffer| == |d.buffer|
    // only a bus error is recorded
    ensures r.state.error == if Dispatch(irq.status, SlaveMode) == Some(BusFault) then BusError else d.error
    // the state follows the table of states set, otherwise it keeps its value
    ensures r.state.role == Entered(Dispatch(irq.status, SlaveMode)).GetOr(d.role)
    // the receive buffer changes only by the data register stored at the cursor
    ensures r.state.buffer == d.buffer || (d.pointer < |d.buffer| && r.state.buffer == d.buffer[d.pointer := irq.data])
    // the receive callback is called only at a STOP, with the buffer and the cursor as count
    ensures r.out.call.Some? && r.out.call.value.ReceiveCall? <==> Dispatch(irq.status, SlaveMode) == Some(SrStop)
    ensures r.out.call.Some? && r.out.call.value.ReceiveCall? ==>
      r.out.call.value == ReceiveCall(d.onReceive.value, d.buffer, d.pointer)
    // the transmit callback is called exactly when addressed for a read of the master
    ensures r.out.call.Some? && r.out.call.value.TransmitCall? <==> AddressedForTransmit(Dispatch(irq.status, SlaveMode))
    // a byte put on the wire is the transmit buffer's byte under the cursor, which then advances
    ensures r.out.written.Some? ==>
      var p := if AddressedForTransmit(Dispatch(irq.status, SlaveMode)) then 0 else d.pointer;
      && p < |r.state.txBuffer|
      && r.out.written.value == r.state.txBuffer[p]
      && r.state.pointer == Inc8(p)
    // a status without a case label changes nothing
    ensures Dispatch(irq.status, SlaveMode).None? ==> r == Next(d, Quiet)
  {
    HandleKeeps(d, Dispatch(irq.status, SlaveMode), irq.data, irq.reply);
    HandleMoves(d, Dispatch(irq.status, SlaveMode), irq.data, irq.reply);
    HandleStores(d, Dispatch(irq.status, SlaveMode), irq.data, irq.reply);
    HandleOutputs(d, Dispatch(irq.status, SlaveMode), irq.data, irq.reply);
    Handle(d, Dispatch(irq.status, SlaveMode), irq.data, irq.reply)
  }

  /** The slave switch: the case selected by `st`, `data` being the data register and `reply` the transmit callback's answer. */
  function Handle(d: SlaveDriver, st: Option<Status>, data: byte, reply: seq<byte>): Next<SlaveDriver>
    requires Safe(d, st, reply)
  {
    match st
    case None => Next(d, Quiet)
    case Some(s) =>
      match s
      case SrAddressMatched | SrArbitrationLostAddressMatched | SrGeneralCall | SrArbitrationLostGeneralCall =>
        Next(d.(role := SlaveReceive, pointer := 0), Issue(AckContinue))
      case SrDataAck | SrGeneralDataAck =>
        Next(d.(buffer := d.buffer[d.pointer := data], pointer := Inc8(d.pointer)), Issue(AckContinue))
      case SrDataNack | SrGeneralDataNack =>
        Next(d.(buffer := d.buffer[d.pointer := data], pointer := Inc8(d.pointer)), Issue(NackContinue))
      case SrStop =>
        // the callback, then ENABLE_I2C and twi_releaseBus, whose write is the last one
        Next(d.(role := Ready),
             Output(Some(Release), None, Some(ReceiveCall(d.onReceive.value, d.buffer, d.pointer))))
      case StAddressMatched | StArbitrationLostAddressMatched =>
        Next(d.(role := SlaveTransmit, txBuffer := reply, pointer := 1),
             Output(Some(AckIf(1 < d.txCount)), Some(reply[0]), Some(TransmitCall(d.onTransmit.value))))
      case StDataAck =>
        var p := Inc8(d.pointer);
        Next(d.(pointer := p), Send(d.txBuffer[d.pointer], AckIf(p < d.txCount)))
      case StDataNack | StLastDataAck =>
        Next(d.(role := Ready), Issue(AckContinue))
      case NoInfo =>
        Next(d.(role := Ready), Quiet)
      case BusFault =>
        Next(d.(error := BusError, role := Ready), Issue(Stop))
      case _ =>
        // master codes are not case labels of the slave switch
        Next(d, Quiet)
  }

  /** What `Step` promises of the driver variables, for the case label `st`. */
  lemma HandleKeeps(d: SlaveDriver, st: Option<Status>, data: byte, reply: seq<byte>)
    requires Safe(d, st, reply)
    ensures var r := Handle(d, st, data, reply);
      && r.state.onReceive == d.onReceive && r.state.onTransmit == d.onTransmit
      && r.state.txCount == d.txCount && |r.state.buffer| == |d.buffer|
      && r.state.error == (if st == Some(BusFault) then BusError else d.error)
      && (st.None? ==> r == Next(d, Quiet))
  {
  }

  /** What `Step` promises of the state, for the case label `st`. */
  lemma HandleMoves(d: SlaveDriver, st: Option<Status>, data: byte, reply: seq<byte>)
    requires Safe(d, st, reply)
    ensures Handle(d, st, data, reply).state.role == Entered(st).GetOr(d.role)
  {
  }

  /** What `Step` promises of the receive buffer, for the case label `st`. */
  lemma HandleStores(d: SlaveDriver, st: Option<Status>, data: byte, reply: seq<byte>)
    requires Safe(d, st, reply)
    ensures var r := Handle(d, st, data, reply);
      r.state.buffer == d.buffer || (d.pointer < |d.buffer| && r.state.buffer == d.buffer[d.pointer := data])
  {
  }

  /** What `Step` promises of the calls and the bytes sent, for the case label `st`. */
  lemma HandleOutputs(d: SlaveDriver, st: Option<Status>, data: byte, reply: seq<byte>)
    requires Safe(d, st, reply)
    ensures var r := Handle(d, st, data, reply);
      && (r.out.call.Some? && r.out.call.value.ReceiveCall? <==> st == Some(SrStop))
      && (r.out.call.Some? && r.out.call.value.ReceiveCall? ==>
            r.out.call.value == ReceiveCall(d.onReceive.value, d.buffer, d.pointer))
      && (r.out.call.Some? && r.out.call.value.TransmitCall? <==> AddressedForTransmit(st))
      && (r.out.written.Some? ==>
            var p := if AddressedForTransmit(st) then 0 else d.pointer;
            && p < |r.state.txBuffer|
            && r.out.written.value == r.state.txBuffer[p]
            && r.state.pointer == Inc8(p))
  {
  }

  /** Addressed for a write of the master (0x60 to 0x78): the cursor is reset and ACK requested. */
  lemma ReceiveBegins(d: SlaveDriver, irq: Interrupt)
    requires AddressedForReceive(Dispatch(irq.status, SlaveMode))
    ensures Defined(d, irq)
    ensures Step(d, irq) == Next(d.(role := SlaveReceive, pointer := 0), Issue(AckContinue))
  {
  }

  /**
    A received byte (0x80 to 0x98) is stored at the cursor, which advances;
    the next byte is acknowledged exactly when this one was (0x80, 0x90).
   */
  lemma ReceiveStores(d: SlaveDriver, irq: Interrupt)
    requires Receives(Dispatch(irq.status, SlaveMode))
    requires Defined(d, irq)
    ensures var r := Step(d, irq);
      && r.state == d.(buffer := d.buffer[d.pointer := irq.data], pointer := Inc8(d.pointer))
      && r.out.written == None && r.out.call == None
      && (r.out.command == Some(AckContinue) <==>
            Dispatch(irq.status, SlaveMode) in {Some(SrDataAck), Some(SrGeneralDataAck)})
      && (r.out.command == Some(NackContinue) <==>
            Dispatch(irq.status, SlaveMode) in {Some(SrDataNack), Some(SrGeneralDataNack)})
  {
  }

  /**
    A STOP (0xA0) hands the whole receive buffer and the number of bytes
    received to the registered callback, releases the bus and returns to
    READY; the buffer itself is untouched.
   */
  lemma StopDelivers(d: SlaveDriver, irq: Interrupt)
    requires Dispatch(irq.status, SlaveMode) == Some(SrStop) && d.onReceive.Some?
    ensures Defined(d, irq)
    ensures Step(d, irq)
      == Next(d.(role := Ready), Output(Some(Release), None, Some(ReceiveCall(d.onReceive.value, d.buffer, d.pointer))))
  {
  }

  /**
    Addressed for a read of the master (0xA8, 0xB0): the transmit callback is
    asked for the buffer, its first byte goes out with the cursor at one,
    and ACK is requested exactly when more bytes are to be sent.
   */
  lemma TransmitBegins(d: SlaveDriver, irq: Interrupt)
    requires AddressedForTransmit(Dispatch(irq.status, SlaveMode))
    requires Defined(d, irq)
    ensures var r := Step(d, irq);
      && r.state == d.(role := SlaveTransmit, txBuffer := irq.reply, pointer := 1)
      && r.out.written == Some(irq.reply[0])
      && r.out.call == Some(TransmitCall(d.onTransmit.value))
      && (r.out.command == Some(AckContinue) <==> 1 < d.txCount)
      && (r.out.command == Some(NackContinue) <==> d.txCount <= 1)
  {
  }

  /** A transmitted byte acknowledged (0xB8): the byte under the cursor goes out and the cursor advances. */
  lemma TransmitNext(d: SlaveDriver, irq: Interrupt)
    requires Dispatch(irq.status, SlaveMode) == Some(StDataAck)
    requires Defined(d, irq)
    ensures var r := Step(d, irq);
      && r.state == d.(pointer := Inc8(d.pointer))
      && r.out.written == Some(d.txBuffer[d.pointer]) && r.out.call == None
      && (r.out.command == Some(AckContinue) <==> Inc8(d.pointer) < d.txCount)
      && r.out == Send(d.txBuffer[d.pointer], AckIf(Inc8(d.pointer) < d.txCount))
  {
  }

  /** The end of a transmission (0xC0, 0xC8): ACK is re-enabled and the driver is READY. */
  lemma TransmitEnds(d: SlaveDriver, irq: Interrupt)
    requires Dispatch(irq.status, SlaveMode) in {Some(StDataNack), Some(StLastDataAck)}
    ensures Defined(d, irq)
    ensures Step(d, irq) == Next(d.(role := Ready), Issue(AckContinue))
  {
  }

  /** A bus error (0x00) records the error, sends STOP and returns to READY; 0xF8 only returns to READY. */
  lemma CommonCases(d: SlaveDriver, irq: Interrupt)
    requires Dispatch(irq.status, SlaveMode) in {Some(BusFault), Some(NoInfo)}
    ensures Defined(d, irq)
    ensures Dispatch(irq.status, SlaveMode) == Some(BusFault) ==>
      Step(d, irq) == Next(d.(error := BusError, role := Ready), Issue(Stop))
    ensures Dispatch(irq.status, SlaveMode) == Some(NoInfo) ==>
      Step(d, irq) == Next(d.(role := Ready), Quiet)
  {
  }

  /**
    The slave handler never reads the driver state: two drivers that differ
    only in their state produce the same output and the same variables apart
    from the state.
   */
  lemma StepIgnoresRole(d: SlaveDriver, irq: Interrupt, role: DriverState)
    requires Defined(d, irq)
    ensures Defined(d.(role := role), irq)
    ensures Step(d.(role := role), irq).out == Step(d, irq).out
    ensures Step(d.(role := role), irq).state.(role := Ready) == Step(d, irq).state.(role := Ready)
  {
    HandleIgnoresRole(d, Dispatch(irq.status, SlaveMode), irq.data, irq.reply, role);
  }

  lemma HandleIgnoresRole(d: SlaveDriver, st: Option<Status>, data: byte, reply: seq<byte>, role: DriverState)
    requires Safe(d, st, reply)
    ensures Safe(d.(role := role), st, reply)
    ensures Handle(d.(role := role), st, data, reply).out == Handle(d, st, data, reply).out
    ensures Handle(d.(role := role), st, data, reply).state.(role := Ready)
         == Handle(d, st, data, reply).state.(role := Ready)
  {
    match st
    case None =>
    case Some(s) =>
  }

  /** A registered receive callback is the one a STOP calls. */
  lemma ReceiveCallbackUsed(d: SlaveDriver, h: Handler, irq: Interrupt)
    requires Dispatch(irq.status, SlaveMode) == Some(SrStop)
    ensures Defined(SetSlaveReceivedCallback(d, h), irq)
    ensures Step(SetSlaveReceivedCallback(d, h), irq).out.call == Some(ReceiveCall(h, d.buffer, d.pointer))
  {
  }

  /** A registered transmit callback is the one an address match for a read calls, and its size bounds the ACKs. */
  lemma TransmitCallbackUsed(d: SlaveDriver, h: Handler, size: byte, irq: Interrupt)
    requires AddressedForTransmit(Dispatch(irq.status, SlaveMode)) && 1 <= |irq.reply|
    ensures Defined(SetSlaveTransmitCallback(d, h, size), irq)
    ensures var r := Step(SetSlaveTransmitCallback(d, h, size), irq);
      && r.out.call == Some(TransmitCall(h))
      && (r.out.command == Some(AckContinue) <==> 1 < size)
  {
  }
}
