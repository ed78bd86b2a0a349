/**
  The vocabulary shared by both halves of the TWI driver: the unsigned 8-bit
  integers the driver computes with, the error and state enumerations of the
  driver header, the abstract command the interrupt handler leaves in the
  control register, and what one interrupt consumes and produces.
 */
module I2CTypes {
  import opened Wrappers

  /** A `uint8_t`. */
  type byte = x: int | 0 <= x < 256

  /** `x++` on a `uint8_t`: wraps from 255 to 0. */
  function Inc8(x: byte): byte {
    (x + 1) % 256
  }

  /** The two builds selected by `I2C_MODE`. */
  datatype Mode = MasterMode | SlaveMode

  /** `tI2CDriverError`: the last failure recorded by the interrupt handler. */
  datatype DriverError = Ok | MissingAck | LostArbitration | BusError

  /** `tI2CDriverState`. */
  datatype DriverState =
    | Ready
    | MasterTransmit
    | MasterReceive
    | SlaveReceive
    | SlaveTransmit

  /**
    What the handler asks of the bus by its final write to the control
    register: send a START, send a STOP, clear the interrupt flag with the
    acknowledge bit set or clear, or release the bus.
   */
  datatype Command = Start | Stop | AckContinue | NackContinue | Release

  /** The acknowledge-or-not choice the handler makes before the next byte. */
  function AckIf(more: bool): Command {
    if more then AckContinue else NackContinue
  }

  /** A registered user callback, known only by its identity. */
  type Handler = nat

  /** A call into user code made from inside the interrupt handler. */
  datatype CallbackCall =
      /** The slave receive callback, given the whole receive buffer and a byte count. */
    | ReceiveCall(handler: Handler, buffer: seq<byte>, count: byte)
      /** The slave transmit callback, asked for the buffer to send. */
    | TransmitCall(handler: Handler)

  /**
    One interrupt as the handler sees it: the raw status register, the data
    register, and (slave mode) the bytes the transmit callback hands back if
    the handler calls it.
   */
  datatype Interrupt = Interrupt(status: byte, data: byte, reply: seq<byte>)

  /** What one interrupt leaves behind outside the driver's own variables. */
  datatype Output = Output(command: Option<Command>, written: Option<byte>, call: Option<CallbackCall>)

  /** No register write at all. */
  const Quiet := Output(None, None, None)

  /** Only a control-register command. */
  function Issue(c: Command): Output {
    Output(Some(c), None, None)
  }

  /** A byte loaded into the data register, then a command. */
  function Send(b: byte, c: Command): Output {
    Output(Some(c), Some(b), None)
  }

  /** The driver state after one interrupt, and what the interrupt produced. */
  datatype Next<S> = Next(state: S, out: Output)

  /** The bytes loaded into the data register over a run, in order. */
  function Written(outs: seq<Output>): seq<byte>
    decreases |outs|
  {
    if outs == [] then []
    else (match outs[0].written case Some(b) => [b] case None => []) + Written(outs[1..])
  }

  lemma {:induction false} WrittenAppend(a: seq<Output>, b: seq<Output>)
    ensures Written(a + b) == Written(a) + Written(b)
    decreases |a|
  {
    if a == [] {
      assert a + b == b;
    } else {
      assert (a + b)[0] == a[0];
      assert (a + b)[1..] == a[1..] + b;
      WrittenAppend(a[1..], b);
    }
  }
}
