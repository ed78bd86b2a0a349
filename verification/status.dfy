/**
  The `tI2CStatus` enumeration of the driver header and the way the interrupt
  handler dispatches on it: the status register is masked with 0xF8 and
  compared with the case labels of the switch compiled for the current mode.
 */
module Status {
  import opened Wrappers
  import opened I2CTypes

  datatype Status =
      // common to both master directions
    | MasterStart                      // 0x08
    | MasterRepeatedStart              // 0x10
    | MasterArbitrationLost            // 0x38
      // master transmitter
    | MtAddressAck                     // 0x18
    | MtAddressNack                    // 0x20
    | MtDataAck                        // 0x28
    | MtDataNack                       // 0x30
      // master receiver
    | MrAddressAck                     // 0x40
    | MrAddressNack                    // 0x48
    | MrDataAck                        // 0x50
    | MrDataNack                       // 0x58
      // slave receiver
    | SrAddressMatched                 // 0x60
    | SrArbitrationLostAddressMatched  // 0x68
    | SrGeneralCall                    // 0x70
    | SrArbitrationLostGeneralCall     // 0x78
    | SrDataAck                        // 0x80
    | SrDataNack                       // 0x88
    | SrGeneralDataAck                 // 0x90
    | SrGeneralDataNack                // 0x98
    | SrStop                           // 0xA0
      // slave transmitter
    | StAddressMatched                 // 0xA8
    | StArbitrationLostAddressMatched  // 0xB0
    | StDataAck                        // 0xB8
    | StDataNack                       // 0xC0
    | StLastDataAck                    // 0xC8
      // common to both modes
    | NoInfo                           // 0xF8
    | BusFault                         // 0x00

  /** The value of each enumerator. */
  function Code(st: Status): byte {
    match st
    case MasterStart => 0x08
    case MasterRepeatedStart => 0x10
    case MasterArbitrationLost => 0x38
    case MtAddressAck => 0x18
    case MtAddressNack => 0x20
    case MtDataAck => 0x28
    case MtDataNack => 0x30
    case MrAddressAck => 0x40
    case MrAddressNack => 0x48
    case MrDataAck => 0x50
    case MrDataNack => 0x58
    case SrAddressMatched => 0x60
    case SrArbitrationLostAddressMatched => 0x68
    case SrGeneralCall => 0x70
    case SrArbitrationLostGeneralCall => 0x78
    case SrDataAck => 0x80
    case SrDataNack => 0x88
    case SrGeneralDataAck => 0x90
    case SrGeneralDataNack => 0x98
    case SrStop => 0xA0
    case StAddressMatched => 0xA8
    case StArbitrationLostAddressMatched => 0xB0
    case StDataAck => 0xB8
    case StDataNack => 0xC0
    case StLastDataAck => 0xC8
    case NoInfo => 0xF8
    case BusFault => 0x00
  }

  /** Enumerators that exist only in the master build. */
  predicate MasterOnly(st: Status) {
    match st
    case MasterStart | MasterRepeatedStart | MasterArbitrationLost
      | MtAddressAck | MtAddressNack | MtDataAck | MtDataNack
      | MrAddressAck | MrAddressNack | MrDataAck | MrDataNack => true
    case _ => false
  }

  /** Enumerators present in both builds. */
  predicate Common(st: Status) {
    st == NoInfo || st == BusFault
  }

  /** Enumerators that exist only in the slave build. */
  predicate SlaveOnly(st: Status) {
    match st
    case SrAddressMatched | SrArbitrationLostAddressMatched | SrGeneralCall | SrArbitrationLostGeneralCall
      | SrDataAck | SrDataNack | SrGeneralDataAck | SrGeneralDataNack | SrStop
      | StAddressMatched | StArbitrationLostAddressMatched | StDataAck | StDataNack | StLastDataAck => true
    case _ => false
  }

  /** The enumerators the build for `mode` declares. */
  predicate InEnum(st: Status, mode: Mode) {
    Common(st) || (if mode == MasterMode then MasterOnly(st) else SlaveOnly(st))
  }

  /** `TWSR & 0xF8`: the three prescaler bits of a byte cleared. */
  function Mask(b: byte): (r: byte)
    ensures r % 8 == 0
    ensures r <= b < r + 8
  {
    b - b % 8
  }

  /** The enumerator, in either build, whose value is `b`. */
  function Lookup(b: byte): Option<Status>
  {
    match b
    case 0x08 => Some(MasterStart)
    case 0x10 => Some(MasterRepeatedStart)
    case 0x38 => Some(MasterArbitrationLost)
    case 0x18 => Some(MtAddressAck)
    case 0x20 => Some(MtAddressNack)
    case 0x28 => Some(MtDataAck)
    case 0x30 => Some(MtDataNack)
    case 0x40 => Some(MrAddressAck)
    case 0x48 => Some(MrAddressNack)
    case 0x50 => Some(MrDataAck)
    case 0x58 => Some(MrDataNack)
    case 0x60 => Some(SrAddressMatched)
    case 0x68 => Some(SrArbitrationLostAddressMatched)
    case 0x70 => Some(SrGeneralCall)
    case 0x78 => Some(SrArbitrationLostGeneralCall)
    case 0x80 => Some(SrDataAck)
    case 0x88 => Some(SrDataNack)
    case 0x90 => Some(SrGeneralDataAck)
    case 0x98 => Some(SrGeneralDataNack)
    case 0xA0 => Some(SrStop)
    case 0xA8 => Some(StAddressMatched)
    case 0xB0 => Some(StArbitrationLostAddressMatched)
    case 0xB8 => Some(StDataAck)
    case 0xC0 => Some(StDataNack)
    case 0xC8 => Some(StLastDataAck)
    case 0xF8 => Some(NoInfo)
    case 0x00 => Some(BusFault)
    case _ => None
  }

  /**
    The case label of the `mode` build's switch that the raw status register
    selects, or None when no label matches (the switch has no default, so
    nothing happens then).
   */
  function Dispatch(twsr: byte, mode: Mode): Option<Status> {
    match Lookup(Mask(twsr))
    case Some(st) => if InEnum(st, mode) then Some(st) else None
    case None => None
  }

  /** What the lookup finds is the enumerator with exactly that value. */
  lemma LookupSound(b: byte)
    ensures Lookup(b).Some? ==> Code(Lookup(b).value) == b
  {
  }

  /** The dispatched enumerator is declared by the build and has the masked status as its value. */
  lemma DispatchSound(twsr: byte, mode: Mode)
    ensures Dispatch(twsr, mode).Some? ==>
      InEnum(Dispatch(twsr, mode).value, mode) && Code(Dispatch(twsr, mode).value) == Mask(twsr)
  {
    LookupSound(Mask(twsr));
  }

  /** Every enumerator is found by its value. */
  lemma LookupFindsCode(st: Status)
    ensures Lookup(Code(st)) == Some(st)
  {
  }

  /**
    A status with no case label in the `mode` build matches no enumerator
    that build declares, so the switch, having no default, does nothing.
   */
  lemma DispatchNoneMeansNoLabel(twsr: byte, mode: Mode)
    ensures Dispatch(twsr, mode).None? <==> forall st :: InEnum(st, mode) ==> Code(st) != Mask(twsr)
  {
    DispatchSound(twsr, mode);
    if Dispatch(twsr, mode).None? {
      forall st | InEnum(st, mode)
        ensures Code(st) != Mask(twsr)
      {
        LookupFindsCode(st);
      }
    }
  }

  /** Distinct enumerators have distinct values, so the switch is deterministic. */
  lemma CodeInjective(a: Status, b: Status)
    ensures Code(a) == Code(b) <==> a == b
  {
  }

  /** Every enumerator has its three low bits clear, so it survives the mask. */
  lemma CodeSurvivesMask(st: Status)
    ensures Code(st) % 8 == 0
    ensures Mask(Code(st)) == Code(st)
  {
  }

  /** Adding prescaler bits to a multiple of 8 does not change its masked value. */
  lemma MaskClearsLowBits(c: byte, low: byte)
    requires c % 8 == 0 && low < 8
    ensures c + low < 256
    ensures Mask(c + low) == c
  {
    var q := c / 8;
    assert c == 8 * q;
    assert (8 * q + low) % 8 == low;
  }

  /**
    A status register whose upper five bits carry an enumerator of the build
    dispatches to that enumerator, whatever the prescaler bits hold.
   */
  lemma DispatchFindsCode(st: Status, mode: Mode, low: byte)
    requires InEnum(st, mode) && low < 8
    ensures Code(st) + low < 256
    ensures Dispatch(Code(st) + low, mode) == Some(st)
  {
    CodeSurvivesMask(st);
    MaskClearsLowBits(Code(st), low);
    LookupFindsCode(st);
  }

  /**
    A status register carrying the value of an enumerator the build does not
    declare selects no case label, whatever the prescaler bits hold.
   */
  lemma DispatchSkipsOtherBuild(st: Status, mode: Mode, low: byte)
    requires !InEnum(st, mode) && low < 8
    ensures Code(st) + low < 256
    ensures Dispatch(Code(st) + low, mode) == None
  {
    CodeSurvivesMask(st);
    MaskClearsLowBits(Code(st), low);
    LookupFindsCode(st);
  }

  /**
    The three groups of the enumeration (the master `#if` block, the slave
    `#if` block and the common tail) cover every enumerator exactly once.
   */
  lemma EnumPartition(st: Status)
    ensures MasterOnly(st) || SlaveOnly(st) || Common(st)
    ensures !(MasterOnly(st) && SlaveOnly(st))
    ensures !(MasterOnly(st) && Common(st)) && !(SlaveOnly(st) && Common(st))
  {
  }

  /** The only values that both builds declare are 0xF8 and 0x00. */
  lemma SharedCodes(v: byte)
    ensures (exists a, b :: InEnum(a, MasterMode) && InEnum(b, SlaveMode) && Code(a) == v && Code(b) == v)
        <==> v == 0xF8 || v == 0x00
  {
    if v == 0xF8 {
      assert InEnum(NoInfo, MasterMode) && InEnum(NoInfo, SlaveMode) && Code(NoInfo) == v;
    } else if v == 0x00 {
      assert InEnum(BusFault, MasterMode) && InEnum(BusFault, SlaveMode) && Code(BusFault) == v;
    } else {
      forall a, b | InEnum(a, MasterMode) && InEnum(b, SlaveMode) && Code(a) == v
        ensures Code(b) != v
      {
        if MasterOnly(a) && SlaveOnly(b) {
          MasterSlaveDisjoint(a, b);
        }
      }
    }
  }

  /** A master-only and a slave-only enumerator never share a value. */
  lemma MasterSlaveDisjoint(a: Status, b: Status)
    requires MasterOnly(a) && SlaveOnly(b)
    ensures Code(a) != Code(b)
  {
  }
}
