/**
  The compile-time configuration of the driver and the `#error` checks the
  driver header applies to it. A macro is either undefined (None) or defined
  with an integer value; inside `#if` an undefined macro reads as 0.
 */
module Config {
  import opened Wrappers
  import opened I2CTypes

  const MODE_MASTER: int := 1
  const MODE_SLAVE: int := 0
  const MAX_SPEED: int := 400000
  const MAX_ADDRESS: int := 127
  const MAX_BUFFER_SIZE: int := 128

  datatype Config = Config(
    mode: Option<int>,        // I2C_MODE
    speed: Option<int>,       // I2C_SPEED
    address: Option<int>,     // I2C_ADDRESS
    bufferSize: Option<int>,  // I2C_BUFFER_SIZE
    pullUp: Option<int>)      // PULL_UP_USAGE

  /** One `#error` directive that the configuration triggers. */
  datatype Diagnostic =
    | ModeUndefined
    | ModeInvalid
    | SpeedUndefined
    | SpeedTooHigh
    | AddressUndefined
    | AddressNegative
    | AddressTooHigh
    | BufferSizeUndefined
    | BufferSizeSuspicious

  /** The value a macro has inside a `#if` expression. */
  function IfValue(m: Option<int>): int {
    match m
    case Some(v) => v
    case None => 0
  }

  /** The `#error` directives the preprocessor reaches for `c`. */
  function Diagnostics(c: Config): set<Diagnostic> {
    (if c.mode.None? then {ModeUndefined}
     else if c.mode.value != MODE_MASTER && c.mode.value != MODE_SLAVE then {ModeInvalid}
     else {})
    + (if IfValue(c.mode) != MODE_MASTER then {}
       else if c.speed.None? then {SpeedUndefined}
       else if c.speed.value > MAX_SPEED then {SpeedTooHigh}
       else {})
    + (if IfValue(c.mode) != MODE_SLAVE then {}
       else if c.address.None? then {AddressUndefined}
       else (if c.address.value < 0 then {AddressNegative} else {})
            + (if c.address.value > MAX_ADDRESS then {AddressTooHigh} else {}))
    + (if c.bufferSize.None? then {BufferSizeUndefined}
       else if c.bufferSize.value > MAX_BUFFER_SIZE then {BufferSizeSuspicious}
       else {})
  }

  /** The header compiles without reaching any `#error`. */
  predicate Valid(c: Config) {
    Diagnostics(c) == {}
  }

  /** The build a valid configuration selects. */
  function ModeOf(c: Config): (m: Mode)
    requires Valid(c)
    ensures m == MasterMode <==> c.mode == Some(MODE_MASTER)
    ensures m == SlaveMode <==> c.mode == Some(MODE_SLAVE)
  {
    if c.mode == Some(MODE_MASTER) then MasterMode else SlaveMode
  }

  /**
    The configuration rules in plain words: the mode is exactly master or
    slave; a master has a speed of at most 400000; a slave has an address in
    0..127; the buffer size is defined and at most 128. The pull-up option is
    not checked by any directive.
   */
  lemma ValidIff(c: Config)
    ensures Valid(c) <==>
      && (|| (c.mode == Some(MODE_MASTER) && c.speed.Some? && c.speed.value <= MAX_SPEED)
          || (c.mode == Some(MODE_SLAVE) && c.address.Some? && 0 <= c.address.value <= MAX_ADDRESS))
      && c.bufferSize.Some? && c.bufferSize.value <= MAX_BUFFER_SIZE
  {
    if c.mode.Some? && c.mode.value == MODE_SLAVE && c.address.Some? {
      if c.address.value < 0 {
        assert AddressNegative in Diagnostics(c);
      } else if c.address.value > MAX_ADDRESS {
        assert AddressTooHigh in Diagnostics(c);
      }
    }
    if c.mode.None? {
      assert ModeUndefined in Diagnostics(c);
    } else if c.mode.value != MODE_MASTER && c.mode.value != MODE_SLAVE {
      assert ModeInvalid in Diagnostics(c);
    }
    if c.bufferSize.None? {
      assert BufferSizeUndefined in Diagnostics(c);
    } else if c.bufferSize.value > MAX_BUFFER_SIZE {
      assert BufferSizeSuspicious in Diagnostics(c);
    }
  }

  /**
    An undefined `I2C_MODE` reads as 0, which is `MODE_SLAVE`, so the slave
    address checks are reached as well as the mode check.
   */
  lemma UndefinedModeChecksAddress(c: Config)
    requires c.mode.None? && c.address.None?
    ensures {ModeUndefined, AddressUndefined} <= Diagnostics(c)
  {
  }
}
