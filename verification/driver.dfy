/**
  The driver as one build of the header and source: the configuration picks
  the master or the slave variables and interrupt table, and `initialisation`
  brings the chosen build to its starting state.
 */
module Driver {
  import opened Wrappers
  import opened I2CTypes
  import opened Status
  import Config
  import Master
  import Slave

  /**
    A build of the driver. A slave build also holds the value written to the
    own-address register, `I2C_ADDRESS` shifted left by one.
   */
  datatype Build =
    | MasterBuild(master: Master.MasterDriver)
    | SlaveBuild(slave: Slave.SlaveDriver, ownAddress: byte)

  function ModeOfBuild(b: Build): Mode {
    if b.MasterBuild? then MasterMode else SlaveMode
  }

  /**
    Compiling a configuration and calling `initialisation`. A configuration
    the header accepts still fails to compile as a slave when its buffer size
    is negative, since the slave buffer is an array of that size: None.
   */
  function Boot(cfg: Config.Config): (r: Option<Build>)
    requires Config.Valid(cfg)
    ensures r.None? <==> cfg.mode == Some(Config.MODE_SLAVE) && cfg.bufferSize.value < 0
    ensures r.Some? ==> ModeOfBuild(r.value) == Config.ModeOf(cfg)
    ensures r.Some? && r.value.MasterBuild? ==>
      var m := r.value.master;
      m.role == Ready && m.error == Ok && m.pointer == 0 && m.length == 0
    ensures r.Some? && r.value.SlaveBuild? ==>
      var s := r.value.slave;
      && s.role == Ready && s.error == Ok && s.pointer == 0
      && |s.buffer| == cfg.bufferSize.value
      && s.onReceive == None && s.onTransmit == None
      && r.value.ownAddress / 2 == cfg.address.value && r.value.ownAddress % 2 == 0
  {
    Config.ValidIff(cfg);
    if cfg.mode == Some(Config.MODE_MASTER) then
      Some(MasterBuild(Master.Initialise(Master.PowerOn())))
    else if cfg.bufferSize.value < 0 then
      None
    else
      Some(SlaveBuild(Slave.Initialise(Slave.PowerOn(cfg.bufferSize.value)), (cfg.address.value * 2) % 256))
  }

  /** The interrupt may be served: the build's own table defines its effect. */
  predicate Defined(b: Build, irq: Interrupt) {
    match b
    case MasterBuild(m) => Master.Defined(m, irq)
    case SlaveBuild(s, _) => Slave.Defined(s, irq)
  }

  /** `ISR(TWI_vect)` of the build: the master or the slave switch. */
  function Service(b: Build, irq: Interrupt): (r: Next<Build>)
    requires Defined(b, irq)
    ensures ModeOfBuild(r.state) == ModeOfBuild(b)
    ensures r.state.SlaveBuild? ==> r.state.ownAddress == b.ownAddress
    ensures Dispatch(irq.status, ModeOfBuild(b)).None? ==> r == Next(b, Quiet)
    ensures Dispatch(irq.status, ModeOfBuild(b)) == Some(BusFault) ==>
      r.out == Issue(Stop) && (if b.MasterBuild? then r.state.master.error else r.state.slave.error) == BusError
  {
    match b
    case MasterBuild(m) =>
      var n := Master.Step(m, irq);
      Next(MasterBuild(n.state), n.out)
    case SlaveBuild(s, a) =>
      var n := Slave.Step(s, irq);
      Next(SlaveBuild(n.state, a), n.out)
  }

  /**
    A status the other build's enumeration names, whatever the prescaler
    bits, is not a case label of this build: the interrupt changes nothing.
   */
  lemma OtherBuildCodesIgnored(b: Build, st: Status, low: byte, data: byte, reply: seq<byte>)
    requires !InEnum(st, ModeOfBuild(b)) && low < 8
    ensures Code(st) + low < 256
    ensures Defined(b, Interrupt(Code(st) + low, data, reply))
    ensures Service(b, Interrupt(Code(st) + low, data, reply)) == Next(b, Quiet)
  {
    DispatchSkipsOtherBuild(st, ModeOfBuild(b), low);
    UnlabelledIgnored(b, Interrupt(Code(st) + low, data, reply));
  }

  /** An interrupt whose status selects no case label of the build changes nothing. */
  lemma UnlabelledIgnored(b: Build, irq: Interrupt)
    requires Dispatch(irq.status, ModeOfBuild(b)).None?
    ensures Defined(b, irq)
    ensures Service(b, irq) == Next(b, Quiet)
  {
    match b
    case MasterBuild(m) =>
      assert Master.Safe(m, None);
    case SlaveBuild(s, _) =>
      assert Slave.Safe(s, None, irq.reply);
  }
}
