/**
  The master build of the driver: its variables, the two entry points that
  arm a transfer, and the master switch of the TWI interrupt handler as a
  pure step function.
 */
module Master {
  import opened Wrappers
  import opened I2CTypes
  import opened Status

  /** The file-scope variables of the master build. */
  datatype MasterDriver = MasterDriver(
    role: DriverState,    // driverState
    error: DriverError,   // lastRequestStatus
    address: byte,        // i2cAddress: the address byte sent after the START
    txBuffer: seq<byte>,  // the bytes i2cBuffer points at
    rxBuffer: seq<byte>,  // the bytes masterReceivedBuffer points at
    pointer: byte,        // dataPointer
    length: byte)         // nbDataToSend

  /** Static storage at program start: every variable zero, the buffer pointers null. */
  function PowerOn(): (d: MasterDriver)
    ensures d.role == Ready && d.error == Ok
    ensures d.pointer == 0 && d.length == 0
    ensures d.txBuffer == [] && d.rxBuffer == []
  {
    MasterDriver(Ready, Ok, 0, [], [], 0, 0)
  }

  /** `initialisation`: only the driver state is touched. */
  function Initialise(d: MasterDriver): (r: MasterDriver)
    ensures r.role == Ready
    ensures r.(role := d.role) == d
  {
    d.(role := Ready)
  }

  /** The address byte: the 7-bit address shifted left, the read bit added, truncated to 8 bits. */
  function AddressByte(address: byte, read: bool): byte {
    (address * 2 + (if read then 1 else 0)) % 256
  }

  /** The new driver variables, the command issued and the value returned by an entry point. */
  datatype Request = Request(driver: MasterDriver, command: Option<Command>, result: byte)

  /** `sendTo`: arms a write of `length` bytes of `data` to `address`, only when READY. */
  function SendTo(d: MasterDriver, address: byte, data: seq<byte>, length: byte): (r: Request)
    ensures r.result == 0
    ensures d.role != Ready ==> r.driver == d && r.command == None
    ensures d.role == Ready ==>
      && r.command == Some(Start)
      && r.driver.role == MasterTransmit
      && r.driver.pointer == 0 && r.driver.length == length
      && r.driver.address == AddressByte(address, false)
      && r.driver.txBuffer == data
      && r.driver.error == d.error && r.driver.rxBuffer == d.rxBuffer
  {
    if d.role == Ready then
      Request(d.(role := MasterTransmit, pointer := 0, length := length,
                 address := AddressByte(address, false), txBuffer := data),
              Some(Start), 0)
    else
      Request(d, None, 0)
  }

  /**
    `readFrom`: arms a read of `length` bytes from `address` into `data`, only
    when READY. The state it sets is MASTER_TRANSMIT, as in the source.
   */
  function ReadFrom(d: MasterDriver, address: byte, data: seq<byte>, length: byte): (r: Request)
    ensures r.result == 0
    ensures d.role != Ready ==> r.driver == d && r.command == None
    ensures d.role == Ready ==>
      && r.command == Some(Start)
      && r.driver.role == MasterTransmit
      && r.driver.pointer == 0 && r.driver.length == length
      && r.driver.address == AddressByte(address, true)
      && r.driver.rxBuffer == data && r.driver.txBuffer == data
      && r.driver.error == d.error
  {
    if d.role == Ready then
      Request(d.(role := MasterTransmit, pointer := 0, length := length, rxBuffer := data,
                 address := AddressByte(address, true), txBuffer := data),
              Some(Start), 0)
    else
      Request(d, None, 0)
  }

  /**
    The handler's memory accesses stay inside the caller's buffers: the
    transmit case reads `i2cBuffer[dataPointer]` and the receive cases write
    `masterReceivedBuffer[dataPointer]`. Outside this the source's behaviour
    is undefined.
   */
  predicate Safe(d: MasterDriver, st: Option<Status>) {
    && ((st == Some(MtAddressAck) || st == Some(MtDataAck)) && d.pointer < d.length ==> d.pointer < |d.txBuffer|)
    && (st == Some(MrDataAck) || st == Some(MrDataNack) ==> d.pointer < |d.rxBuffer|)
  }

  /** The interrupt `irq` is handled without undefined behaviour. */
  predicate Defined(d: MasterDriver, irq: Interrupt) {
    Safe(d, Dispatch(irq.status, MasterMode))
  }

  /** The error an interrupt records, if any: the master error table. */
  function RecordedError(st: Option<Status>): Option<DriverError> {
    match st
    case Some(MtAddressNack) => Some(MissingAck)
    case Some(MtDataNack) => Some(MissingAck)
    case Some(MasterArbitrationLost) => Some(LostArbitration)
    case Some(BusFault) => Some(BusError)
    case _ => None
  }

  /** The interrupts that end the master transfer. */
  predicate Ends(d: MasterDriver, st: Option<Status>) {
    match st
    case Some(MtAddressAck) | Some(MtDataAck) => d.pointer >= d.length
    case Some(MtAddressNack) | Some(MtDataNack) | Some(MrAddressNack) | Some(MrDataNack) => true
    case Some(MasterArbitrationLost) | Some(NoInfo) | Some(BusFault) => true
    case _ => false
  }

  /**
    `ISR(TWI_vect)` in the master build. The dispatch depends on the status
    register only, never on the driver state.
   */
  function Step(d: MasterDriver, irq: Interrupt): (r: Next<MasterDriver>)
    requires Defined(d, irq)
    // the armed request is never changed by the handler
    ensures r.state.address == d.address && r.state.txBuffer == d.txBuffer && r.state.length == d.length
    ensures |r.state.rxBuffer| == |d.rxBuffer|
    // the receive buffer changes only by the data register stored at the cursor
    ensures r.state.rxBuffer == d.rxBuffer
         || (d.pointer < |d.rxBuffer| && r.state.rxBuffer == d.rxBuffer[d.pointer := irq.data])
    // the error slot follows the error table, otherwise it keeps its value
    ensures r.state.error == RecordedError(Dispatch(irq.status, MasterMode)).GetOr(d.error)
    // the handler only ever sends the driver back to READY
    ensures Ends(d, Dispatch(irq.status, MasterMode)) ==> r.state.role == Ready
    ensures !Ends(d, Dispatch(irq.status, MasterMode)) ==> r.state.role == d.role
    // the cursor stays put or advances by one
    ensures r.state.pointer == d.pointer || r.state.pointer == Inc8(d.pointer)
    // a byte put on the wire is the address or the next buffer byte, always sent with ack enabled
    ensures r.out.written.Some? ==>
      && r.out.command == Some(AckContinue)
      && (|| r.out.written.value == d.address
          || (d.pointer < |d.txBuffer| && r.out.written.value == d.txBuffer[d.pointer]
              && r.state.pointer == d.pointer + 1))
    ensures r.out.call == None
    // a status without a case label changes nothing
    ensures Dispatch(irq.status, MasterMode).None? ==> r == Next(d, Quiet)
  {
    Handle(d, Dispatch(irq.status, MasterMode), irq.data)
  }

  /** The master switch: the case selected by `st`, `data` being the data register. */
  function Handle(d: MasterDriver, st: Option<Status>, data: byte): Next<MasterDriver>
    requires Safe(d, st)
  {
    match st
    case None => Next(d, Quiet)
    case Some(s) =>
      match s
      case MasterStart | MasterRepeatedStart =>
        Next(d, Send(d.address, AckContinue))
      case MtAddressAck | MtDataAck =>
        if d.pointer < d.length then
          Next(d.(pointer := d.pointer + 1), Send(d.txBuffer[d.pointer], AckContinue))
        else
          Next(d.(role := Ready), Issue(Stop))
      case MtAddressNack | MtDataNack =>
        Next(d.(error := MissingAck, role := Ready), Issue(Stop))
      case MrAddressAck =>
        Next(d, Issue(AckIf(d.pointer < d.length - 1)))
      case MrDataAck =>
        var p := Inc8(d.pointer);
        Next(d.(rxBuffer := d.rxBuffer[d.pointer := data], pointer := p),
             Issue(AckIf(p < d.length - 1)))
      case MrDataNack =>
        Next(d.(rxBuffer := d.rxBuffer[d.pointer := data], pointer := Inc8(d.pointer), role := Ready),
             Issue(Stop))
      case MrAddressNack =>
        Next(d.(role := Ready), Issue(Stop))
      case MasterArbitrationLost =>
        // twi_releaseBus
        Next(d.(error := LostArbitration, role := Ready), Issue(Release))
      case NoInfo =>
        Next(d.(role := Ready), Quiet)
      case BusFault =>
        Next(d.(error := BusError, role := Ready), Issue(Stop))
      case _ =>
        // slave codes are not case labels of the master switch
        Next(d, Quiet)
  }

  /**
    A START or repeated START has gone out (0x08, 0x10): the address byte is
    loaded with ACK enabled and no variable changes.
   */
  lemma StartSendsAddress(d: MasterDriver, irq: Interrupt)
    requires Dispatch(irq.status, MasterMode) in {Some(MasterStart), Some(MasterRepeatedStart)}
    ensures Defined(d, irq)
    ensures Step(d, irq) == Next(d, Send(d.address, AckContinue))
  {
  }

  /**
    Transmit on an address or data acknowledgement (0x18, 0x28): while bytes
    remain, the next one goes out and the cursor advances; once none remain
    a STOP ends the transfer.
   */
  lemma TransmitAcknowledged(d: MasterDriver, irq: Interrupt)
    requires Dispatch(irq.status, MasterMode) in {Some(MtAddressAck), Some(MtDataAck)}
    requires Defined(d, irq)
    ensures var r := Step(d, irq);
      if d.pointer < d.length then
        && r.out == Send(d.txBuffer[d.pointer], AckContinue)
        && r.state == d.(pointer := d.pointer + 1)
      else
        && r.out == Issue(Stop)
        && r.state == d.(role := Ready)
  {
  }

  /** `dataPointer <= nbDataToSend` survives every interrupt except a received data byte. */
  lemma PointerBoundKept(d: MasterDriver, irq: Interrupt)
    requires Defined(d, irq) && d.pointer <= d.length
    requires Dispatch(irq.status, MasterMode) !in {Some(MrDataAck), Some(MrDataNack)}
    ensures Step(d, irq).state.pointer <= Step(d, irq).state.length
  {
  }

  /**
    Receive (0x40, 0x50): the acknowledgement requested for the next byte is
    ACK exactly when the cursor is still below `nbDataToSend - 1`, so the
    last byte is answered with NACK. On 0x40 nothing else happens.
   */
  lemma ReceiveAckRule(d: MasterDriver, irq: Interrupt)
    requires Dispatch(irq.status, MasterMode) in {Some(MrAddressAck), Some(MrDataAck)}
    requires Defined(d, irq)
    ensures var r := Step(d, irq);
      && (r.out.command == Some(AckContinue) <==> r.state.pointer < d.length - 1)
      && (r.out.command == Some(NackContinue) <==> r.state.pointer >= d.length - 1)
      && r.state.role == d.role
      && (Dispatch(irq.status, MasterMode) == Some(MrAddressAck) ==> r.state == d && r.out.written == None)
  {
  }

  /**
    A received byte (0x50, 0x58) is stored at the cursor, which advances; on
    the NACKed last byte (0x58) a STOP follows and the driver is READY.
   */
  lemma ReceiveStores(d: MasterDriver, irq: Interrupt)
    requires Dispatch(irq.status, MasterMode) in {Some(MrDataAck), Some(MrDataNack)}
    requires Defined(d, irq)
    ensures var r := Step(d, irq);
      && r.state.rxBuffer == d.rxBuffer[d.pointer := irq.data]
      && r.state.pointer == Inc8(d.pointer)
      && r.out.written == None
      && (Dispatch(irq.status, MasterMode) == Some(MrDataNack) ==>
            r.out.command == Some(Stop) && r.state.role == Ready)
  {
  }

  /**
    The error paths: a missing acknowledgement of the address or of a data
    byte while transmitting (0x20, 0x30) and a bus error (0x00) record the
    error and send STOP; arbitration loss (0x38) records it and releases the
    bus. All of them leave the driver READY and the buffers untouched.
   */
  lemma ErrorPaths(d: MasterDriver, irq: Interrupt)
    requires RecordedError(Dispatch(irq.status, MasterMode)).Some?
    ensures Defined(d, irq)
    ensures var r := Step(d, irq);
      && r.state == d.(error := RecordedError(Dispatch(irq.status, MasterMode)).value, role := Ready)
      && r.out.written == None
      && (r.out.command == Some(Release) <==> r.state.error == LostArbitration)
      && (r.out.command == Some(Stop) <==> r.state.error != LostArbitration)
  {
  }

  /** A missing acknowledgement of the address in receive mode (0x48) ends the transfer without recording an error. */
  lemma ReadAddressNackKeepsError(d: MasterDriver, irq: Interrupt)
    requires Dispatch(irq.status, MasterMode) == Some(MrAddressNack)
    ensures Defined(d, irq)
    ensures Step(d, irq) == Next(d.(role := Ready), Issue(Stop))
  {
  }

  /** "No relevant state" (0xF8) sets READY and touches nothing else, not even the bus. */
  lemma NoInfoOnlyReadies(d: MasterDriver, irq: Interrupt)
    requires Dispatch(irq.status, MasterMode) == Some(NoInfo)
    ensures Defined(d, irq)
    ensures Step(d, irq) == Next(d.(role := Ready), Quiet)
  {
  }

  /**
    The master handler never reads the driver state: two drivers that differ
    only in their state produce the same output and the same variables apart
    from the state.
   */
  lemma StepIgnoresRole(d: MasterDriver, irq: Interrupt, role: DriverState)
    requires Defined(d, irq)
    ensures Defined(d.(role := role), irq)
    ensures Step(d.(role := role), irq).out == Step(d, irq).out
    ensures Step(d.(role := role), irq).state.(role := Ready) == Step(d, irq).state.(role := Ready)
  {
  }

  /**
    With a 7-bit address the address byte carries the address in its upper
    seven bits and the direction in bit 0; an 8-bit address loses its top bit.
   */
  lemma AddressByteRoundTrip(address: byte, read: bool)
    ensures address < 128 ==> AddressByte(address, read) / 2 == address
    ensures address >= 128 ==> AddressByte(address, read) / 2 == address - 128
    ensures AddressByte(address, read) % 2 == 1 <==> read
  {
  }
}
