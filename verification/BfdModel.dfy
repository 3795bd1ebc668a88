/**
  One BFD session as a value (lib/bfd.c, following RFC 5880): the effect of each
  operation and the invariant that every run of operations keeps.
 */
module BfdModel {
  import opened Collections

  datatype State = AdminDown | Down | Init | Up {
    function Rank(): nat {
      match this case AdminDown => 0 case Down => 1 case Init => 2 case Up => 3
    }
  }

  const DIAG_NONE: nat := 0
  const DIAG_EXPIRED: nat := 1
  const DIAG_RMT_DOWN: nat := 3
  const DIAG_CPATH_DOWN: nat := 6

  const BFD_VERSION: nat := 1
  const BFD_PACKET_LEN: nat := 24
  const U32: nat := 0x1_0000_0000

  datatype Flags = Flags(multipoint: bool, demand: bool, auth: bool, ctl: bool, final: bool, poll: bool)

  const NO_FLAGS := Flags(false, false, false, false, false, false)

  /** struct msg.  Intervals are in microseconds, as on the wire. */
  datatype Msg = Msg(version: nat, diag: nat, state: State, flags: Flags, mult: nat, length: nat,
                     myDisc: nat, yourDisc: nat, minTx: nat, minRx: nat, minRxEcho: nat)

  /** What an operation reads from its surroundings: the clock, the device's
      received packet count and the random jitter percentage. */
  datatype Env = Env(now: int, rxPackets: int, jitter: nat)

  /** The settings bfd_configure() reads; the integers are C ints. */
  datatype Config = Config(minTx: int, minRx: int, decayMinRx: int, cpathDown: bool, forwardingIfRx: bool)

  /** struct bfd.  Intervals and times are in milliseconds. */
  datatype Session = Session(
    disc: nat, cpathDown: bool, mult: nat, rxPackets: int,
    state: State, rmtState: State, diag: nat, rmtDiag: nat,
    poll: bool, final: bool, rmtFlags: Flags, rmtDisc: nat,
    rmtMinRx: int, rmtMinTx: int, cfgMinTx: int, cfgMinRx: int,
    pollMinTx: int, pollMinRx: int, minTx: int, minRx: int,
    lastTx: int, nextTx: int, detectTime: int,
    forwardingIfRx: bool, forwardingDetectTime: int,
    inDecay: bool, decayMinRx: int, decayRxCtl: int, decayRxPackets: int, decayDetectTime: int)

  function Max(a: int, b: int): int {
    if a > b then a else b
  }

  /** The difference of two uint64_t counters, stored in an int64_t. */
  function Diff64(a: int, b: int): int {
    var d := (a - b) % 0x1_0000_0000_0000_0000;
    if d < 0x8000_0000_0000_0000 then d else d - 0x1_0000_0000_0000_0000
  }

  // ------------------------------------------------------------- helpers

  function MinTx(b: Session): int {
    if b.state == Up then b.minTx else Max(b.minTx, 1000)
  }

  function TxInterval(b: Session): int {
    Max(MinTx(b), b.rmtMinRx)
  }

  function RxInterval(b: Session): int {
    Max(b.minRx, b.rmtMinTx)
  }

  function SetNextTx(b: Session, env: Env): Session {
    var interval := TxInterval(b);
    b.(nextTx := b.lastTx + interval - interval * env.jitter / 100)
  }

  function DecayUpdate(b: Session, env: Env): Session {
    b.(decayRxPackets := env.rxPackets, decayRxCtl := 0,
       decayDetectTime := Max(b.decayMinRx, 2000) + env.now)
  }

  function ForwardingUpdate(b: Session, env: Env): Session {
    b.(forwardingDetectTime := Max(RxInterval(b) * b.mult, 2000) + env.now)
  }

  function Poll(b: Session): Session {
    if b.state.Rank() > Down.Rank() && !b.poll && !b.final then
      b.(pollMinTx := b.cfgMinTx,
         pollMinRx := if b.inDecay then b.decayMinRx else b.cfgMinRx,
         poll := true, nextTx := 0)
    else b
  }

  function ForgetRemote(b: Session): Session {
    b.(rmtState := Down, rmtDiag := DIAG_NONE, rmtMinRx := 1, rmtFlags := NO_FLAGS,
       rmtDisc := 0, rmtMinTx := 0,
       minRx := if b.inDecay then b.cfgMinRx else b.minRx, inDecay := false)
  }

  function SetState(b: Session, state: State, diag: nat, env: Env): Session {
    var d := if diag == DIAG_NONE && b.cpathDown then DIAG_CPATH_DOWN else diag;
    if b.state == state && b.diag == d then b
    else Enter(b.(state := state, diag := d), env)
  }

  /** What else changes when a session enters its state. */
  function Enter(b: Session, env: Env): Session {
    if b.state.Rank() <= Down.Rank() then ForgetRemote(b)
    else if b.state == Up && b.decayMinRx != 0 then DecayUpdate(b, env)
    else b
  }

  // ---------------------------------------------------------- operations

  /** The zeroed session that bfd_configure() allocates, once set to Down. */
  function Fresh(disc: nat, env: Env): Session {
    SetState(Zero(disc, env), Down, DIAG_NONE, env)
  }

  function Zero(disc: nat, env: Env): Session {
    Session(disc, false, 3, env.rxPackets, AdminDown, AdminDown, DIAG_NONE, DIAG_NONE,
            false, false, NO_FLAGS, 0, 0, 0, 0, 0, 0, 0, 1000, 0, 0, 0, 0,
            false, 0, false, 0, 0, 0, 0)
  }

  function ConfigureTx(b: Session, minTx: int): Session {
    if b.cfgMinTx == minTx then b
    else
      b.(cfgMinTx := minTx,
         minTx := if b.state != Up || (!b.poll && minTx < b.minTx) then minTx else b.minTx)
  }

  function ConfigureRx(b: Session, minRx: int): Session {
    if b.cfgMinRx == minRx then b
    else
      b.(cfgMinRx := minRx,
         minRx := if b.state != Up || (!b.poll && minRx > b.minRx) then minRx else b.minRx)
  }

  function ConfigureDecay(b: Session, decayMinRx: int, rxChanged: bool, env: Env): Session {
    if b.decayMinRx == decayMinRx && !rxChanged then b
    else
      DecayUpdate(b.(decayMinRx := if 0 < decayMinRx < b.cfgMinRx then 0 else decayMinRx,
                     inDecay := false), env)
  }

  function ConfigureCpath(b: Session, cpathDown: bool, env: Env): Session {
    if b.cpathDown == cpathDown then b
    else
      var b1 := b.(cpathDown := cpathDown);
      if b.diag == DIAG_NONE || b.diag == DIAG_CPATH_DOWN then SetState(b1, b.state, DIAG_NONE, env) else b1
  }

  function ConfigureForwarding(b: Session, forwardingIfRx: bool, env: Env): Session {
    if b.forwardingIfRx == forwardingIfRx then b
    else
      var b1 := b.(forwardingIfRx := forwardingIfRx);
      if b.state == Up && forwardingIfRx then ForwardingUpdate(b1, env) else b1.(forwardingDetectTime := 0)
  }

  function ConfigureRest(b: Session, cfg: Config, rxChanged: bool, env: Env): Session {
    ConfigureForwarding(
      ConfigureCpath(ConfigureDecay(b, cfg.decayMinRx, rxChanged, env), cfg.cpathDown, env),
      cfg.forwardingIfRx, env)
  }

  /** bfd_configure() on an existing session. */
  function Configure(b: Session, cfg: Config, env: Env): Session {
    var (tx, rx) := (Max(cfg.minTx, 100), Max(cfg.minRx, 100));
    var b3 := ConfigureRest(ConfigureRx(ConfigureTx(b, tx), rx), cfg, b.cfgMinRx != rx, env);
    if b.cfgMinTx != tx || b.cfgMinRx != rx || b.decayMinRx != cfg.decayMinRx || b.cpathDown != cfg.cpathDown
    then Poll(b3) else b3
  }

  function TryDecay(b: Session, env: Env): Session {
    var expected := 2 * Max(b.decayRxCtl, 1);
    DecayUpdate(b.(inDecay := Diff64(env.rxPackets, b.decayRxPackets) <= expected), env)
  }

  function CheckRx(b: Session, env: Env): Session {
    var b1 := b.(rxPackets := env.rxPackets);
    if b.forwardingIfRx && Diff64(env.rxPackets, b.rxPackets) > 0 then ForwardingUpdate(b1, env) else b1
  }

  function Expire(b: Session, env: Env): Session {
    if b.state.Rank() > Down.Rank() && env.now >= b.detectTime
    then SetState(b, Down, DIAG_EXPIRED, env) else b
  }

  function CheckDecay(b: Session, env: Env): Session {
    if b.state == Up && b.decayMinRx > 0 && env.now >= b.decayDetectTime then TryDecay(b, env) else b
  }

  /** bfd_run(). */
  function Run(b: Session, env: Env): Session {
    var b3 := CheckRx(CheckDecay(Expire(b, env), env), env);
    if b3.minTx != b3.cfgMinTx || (b3.minRx != b3.cfgMinRx && b3.minRx != b3.decayMinRx)
       || b3.inDecay != b.inDecay
    then Poll(b3) else b3
  }

  /** The intervals, in milliseconds, that bfd_put_packet() advertises. */
  function AdvertisedMinTx(b: Session): int {
    if b.poll then b.pollMinTx else MinTx(b)
  }

  function AdvertisedMinRx(b: Session): int {
    if b.poll then b.pollMinRx else b.minRx
  }

  /** htonl(ms * 1000): the 32 bits that reach the wire. */
  function OnWire(ms: int): nat {
    ms * 1000 % U32
  }

  function Packet(b: Session): Msg {
    Msg(BFD_VERSION, b.diag, b.state, NO_FLAGS.(poll := b.poll, final := b.final), b.mult, BFD_PACKET_LEN,
        b.disc, b.rmtDisc, OnWire(AdvertisedMinTx(b)), OnWire(AdvertisedMinRx(b)), 0)
  }

  /** bfd_put_packet(), apart from the packet itself. */
  function AfterPut(b: Session, env: Env): Session {
    SetNextTx(b.(final := false, lastTx := env.now), env)
  }

  /** The checks of section 6.8.6 of RFC 5880 that bfd_process_packet() makes
      before it believes a packet. */
  predicate Accepts(b: Session, ttl: nat, msg: Option<Msg>) {
    && ttl == 255
    && msg.Some?
    && var m := msg.value;
    && m.version == BFD_VERSION
    && !m.flags.auth
    && m.length >= BFD_PACKET_LEN
    && m.mult != 0
    && !m.flags.multipoint
    && m.myDisc != 0
    && (if m.yourDisc != 0 then m.yourDisc == b.disc else m.state.Rank() <= Down.Rank())
  }

  /** What a believed packet tells about the remote system, and the end or the
      answer of a poll sequence (section 6.5 of RFC 5880). */
  function LearnRemote(b: Session, m: Msg): Session {
    b.(rmtDisc := m.myDisc, rmtState := m.state, rmtFlags := m.flags, rmtDiag := m.diag)
  }

  function LearnPoll(b: Session, flags: Flags): Session {
    var b1 := if flags.final && b.poll then b.(minTx := b.pollMinTx, minRx := b.pollMinRx, poll := false) else b;
    if flags.poll then b1.(poll := false, final := true) else b1
  }

  function LearnIntervals(b: Session, m: Msg, env: Env): Session {
    var rx := Max(m.minRx / 1000, 1);
    var b1 := if b.rmtMinRx != rx then SetNextTx(b.(rmtMinRx := rx), env) else b;
    var b2 := b1.(rmtMinTx := Max(m.minTx / 1000, 1));
    b2.(detectTime := RxInterval(b2) * b2.mult + env.now)
  }

  function Learn(b: Session, m: Msg, env: Env): Session {
    LearnIntervals(LearnPoll(LearnRemote(b, m), m.flags), m, env)
  }

  /** The state machine of section 6.8.6 of RFC 5880. */
  function React(b: Session, rmt: State, env: Env): Session {
    if b.state == AdminDown then b
    else if rmt == AdminDown then
      if b.state != Down then SetState(b, Down, DIAG_RMT_DOWN, env) else b
    else match b.state
      case AdminDown => b
      case Down =>
        if rmt == Down then SetState(b, Init, b.diag, env)
        else if rmt == Init then SetState(b, Up, b.diag, env)
        else b
      case Init => if rmt.Rank() > Down.Rank() then SetState(b, Up, b.diag, env) else b
      case Up => if rmt.Rank() <= Down.Rank() then SetState(b, Down, DIAG_RMT_DOWN, env) else b
  }

  /** Every control packet counts for the decay check, believed or not. */
  function CountControl(b: Session): Session {
    b.(decayRxCtl := b.decayRxCtl + 1)
  }

  /** bfd_process_packet(). */
  function Process(b: Session, ttl: nat, msg: Option<Msg>, env: Env): Session {
    var b1 := CountControl(b);
    if !Accepts(b, ttl, msg) then b1 else React(Learn(b1, msg.value, env), msg.value.state, env)
  }

  // ----------------------------------------------------------- invariant

  /** What holds of a session at every point of every operation. */
  ghost predicate Core(b: Session) {
    && b.disc != 0
    && b.mult == 3
    && !(b.poll && b.final)
    && b.state != AdminDown
    && (b.state.Rank() > Down.Rank() ==> b.rmtDisc != 0)
    && (b.inDecay ==> b.state == Up && b.decayMinRx > 0)
    && b.cfgMinTx >= 100 && b.cfgMinRx >= 100
    && b.minTx >= 100 && b.minRx >= 100
    && (b.poll ==> b.pollMinTx >= 100 && b.pollMinRx >= 100)
    && b.rmtMinRx >= 1 && b.rmtMinTx >= 0
  }

  ghost predicate DecayOk(b: Session) {
    b.decayMinRx > 0 ==> b.decayMinRx >= b.cfgMinRx
  }

  /** What holds of a session between operations. */
  ghost predicate Inv(b: Session) {
    Core(b) && DecayOk(b)
  }

  /** Everything that can happen to a session. */
  datatype Action =
    | Reconfigure(cfg: Config, env: Env)
    | Tick(env: Env)
    | Put(env: Env)
    | Receive(ttl: nat, msg: Option<Msg>, env: Env)

  function Do(b: Session, a: Action): Session {
    match a
    case Reconfigure(cfg, env) => Configure(b, cfg, env)
    case Tick(env) => Run(b, env)
    case Put(env) => AfterPut(b, env)
    case Receive(ttl, msg, env) => Process(b, ttl, msg, env)
  }

  /** A session from its creation through all of 'actions'. */
  function After(disc: nat, cfg: Config, env: Env, actions: seq<Action>): Session {
    if actions == [] then Configure(Fresh(disc, env), cfg, env)
    else Do(After(disc, cfg, env, actions[..|actions| - 1]), actions[|actions| - 1])
  }

  lemma SetStateKeeps(b: Session, state: State, diag: nat, env: Env)
    requires Inv(b) && state != AdminDown
    requires state.Rank() > Down.Rank() ==> b.rmtDisc != 0
    requires state == Init ==> !b.inDecay
    ensures Inv(SetState(b, state, diag, env))
    ensures SetState(b, state, diag, env).state == state
  {
  }

  lemma PollKeeps(b: Session)
    requires Inv(b)
    ensures Inv(Poll(b)) && Poll(b).state == b.state
  {
  }

  lemma FirstConfigure(disc: nat, cfg: Config, env: Env)
    requires disc != 0
    ensures Inv(Configure(Fresh(disc, env), cfg, env))
    ensures Configure(Fresh(disc, env), cfg, env).state == Down
  {
    var b := Fresh(disc, env);
    var (tx, rx) := (Max(cfg.minTx, 100), Max(cfg.minRx, 100));
    var b1 := ConfigureRx(ConfigureTx(b, tx), rx);
    assert Core(b1) && b.cfgMinRx != rx;
    ConfigureRestKeeps(b1, cfg, true, env);
    PollKeeps(ConfigureRest(b1, cfg, true, env));
  }

  lemma ConfigureTxRxKeep(b: Session, tx: int, rx: int)
    requires Core(b) && tx >= 100 && rx >= 100
    ensures var b1 := ConfigureRx(ConfigureTx(b, tx), rx);
            && Core(b1) && b1.state == b.state
            && (b.cfgMinRx == rx ==> b1.cfgMinRx == b.cfgMinRx && b1.decayMinRx == b.decayMinRx)
  {
    ConfigureTxKeeps(b, tx);
    ConfigureRxKeeps(ConfigureTx(b, tx), rx);
  }

  lemma ConfigureTxKeeps(b: Session, tx: int)
    requires Core(b) && tx >= 100
    ensures var b1 := ConfigureTx(b, tx);
            Core(b1) && b1.state == b.state && b1.cfgMinRx == b.cfgMinRx && b1.decayMinRx == b.decayMinRx
  {
  }

  lemma ConfigureRxKeeps(b: Session, rx: int)
    requires Core(b) && rx >= 100
    ensures var b1 := ConfigureRx(b, rx); Core(b1) && b1.state == b.state && b1.decayMinRx == b.decayMinRx
  {
  }

  lemma ConfigureDecayKeeps(b: Session, decayMinRx: int, rxChanged: bool, env: Env)
    requires Core(b) && (rxChanged || DecayOk(b))
    ensures var b2 := ConfigureDecay(b, decayMinRx, rxChanged, env);
            Inv(b2) && b2.state == b.state
  {
  }

  lemma ConfigureCpathKeeps(b: Session, cpathDown: bool, env: Env)
    requires Inv(b)
    ensures var b1 := ConfigureCpath(b, cpathDown, env); Inv(b1) && b1.state == b.state
  {
    SetStateKeeps(b.(cpathDown := cpathDown), b.state, DIAG_NONE, env);
  }

  lemma ConfigureForwardingKeeps(b: Session, forwardingIfRx: bool, env: Env)
    requires Inv(b)
    ensures var b1 := ConfigureForwarding(b, forwardingIfRx, env); Inv(b1) && b1.state == b.state
  {
  }

  lemma ConfigureRestKeeps(b: Session, cfg: Config, rxChanged: bool, env: Env)
    requires Core(b) && (rxChanged || DecayOk(b))
    ensures var b3 := ConfigureRest(b, cfg, rxChanged, env); Inv(b3) && b3.state == b.state
  {
    var b2 := ConfigureDecay(b, cfg.decayMinRx, rxChanged, env);
    ConfigureDecayKeeps(b, cfg.decayMinRx, rxChanged, env);
    ConfigureCpathKeeps(b2, cfg.cpathDown, env);
    ConfigureForwardingKeeps(ConfigureCpath(b2, cfg.cpathDown, env), cfg.forwardingIfRx, env);
  }

  lemma ConfigureKeeps(b: Session, cfg: Config, env: Env)
    requires Inv(b)
    ensures Inv(Configure(b, cfg, env))
    ensures Configure(b, cfg, env).state == b.state
  {
    var (tx, rx) := (Max(cfg.minTx, 100), Max(cfg.minRx, 100));
    ConfigureTxRxKeep(b, tx, rx);
    var b1 := ConfigureRx(ConfigureTx(b, tx), rx);
    ConfigureRestKeeps(b1, cfg, b.cfgMinRx != rx, env);
    PollKeeps(ConfigureRest(b1, cfg, b.cfgMinRx != rx, env));
  }

  lemma TryDecayKeeps(b: Session, env: Env)
    requires Inv(b) && b.state == Up && b.decayMinRx > 0
    ensures Inv(TryDecay(b, env))
  {
  }

  lemma CheckRxKeeps(b: Session, env: Env)
    requires Inv(b)
    ensures Inv(CheckRx(b, env))
  {
  }

  lemma RunKeeps(b: Session, env: Env)
    requires Inv(b)
    ensures Inv(Run(b, env))
  {
    SetStateKeeps(b, Down, DIAG_EXPIRED, env);
    var b1 := Expire(b, env);
    if b1.state == Up && b1.decayMinRx > 0 { TryDecayKeeps(b1, env); }
    CheckRxKeeps(CheckDecay(b1, env), env);
    PollKeeps(CheckRx(CheckDecay(b1, env), env));
  }

  // ------------------------------------------------- what stays unchanged

  /** The polling parameters, the detection time and the configured rate. */
  predicate SameTiming(a: Session, b: Session) {
    && a.poll == b.poll && a.final == b.final && a.pollMinTx == b.pollMinTx
    && a.detectTime == b.detectTime && a.cfgMinTx == b.cfgMinTx && a.disc == b.disc
  }

  lemma SetStateFrame(b: Session, state: State, diag: nat, env: Env)
    ensures SameTiming(b, SetState(b, state, diag, env))
    ensures SetState(b, state, diag, env).state == state
  {
    var d := if diag == DIAG_NONE && b.cpathDown then DIAG_CPATH_DOWN else diag;
    EnterTiming(b.(state := state, diag := d), env);
  }

  lemma EnterTiming(b: Session, env: Env)
    ensures SameTiming(b, Enter(b, env)) && Enter(b, env).state == b.state
  {
    ForgetTiming(b);
    DecayTiming(b, env);
  }

  lemma ForgetTiming(b: Session)
    ensures SameTiming(b, ForgetRemote(b)) && ForgetRemote(b).state == b.state
  {
  }

  lemma DecayTiming(b: Session, env: Env)
    ensures SameTiming(b, DecayUpdate(b, env)) && DecayUpdate(b, env).state == b.state
  {
  }

  lemma ConfigureRestFrame(b: Session, cfg: Config, rxChanged: bool, env: Env)
    ensures var b3 := ConfigureRest(b, cfg, rxChanged, env); SameTiming(b, b3) && b3.state == b.state
  {
    var b1 := ConfigureDecay(b, cfg.decayMinRx, rxChanged, env);
    assert SameTiming(b, b1) && b1.state == b.state;
    SetStateFrame(b1.(cpathDown := cfg.cpathDown), b1.state, DIAG_NONE, env);
    var b2 := ConfigureCpath(b1, cfg.cpathDown, env);
    assert SameTiming(b1, b2) && b2.state == b1.state;
    ForwardingFrame(b2, cfg.forwardingIfRx, env);
  }

  lemma ForwardingFrame(b: Session, forwardingIfRx: bool, env: Env)
    ensures var b1 := ConfigureForwarding(b, forwardingIfRx, env); SameTiming(b, b1) && b1.state == b.state
  {
  }

  lemma ConfigureTxRxFrame(b: Session, tx: int, rx: int)
    ensures var b1 := ConfigureRx(ConfigureTx(b, tx), rx);
            SameTiming(b.(cfgMinTx := tx), b1) && b1.state == b.state
  {
  }

  lemma ExpireTiming(b: Session, env: Env)
    ensures SameTiming(b, Expire(b, env))
  {
    SetStateFrame(b, Down, DIAG_EXPIRED, env);
  }

  lemma CheckDecayTiming(b: Session, env: Env)
    ensures SameTiming(b, CheckDecay(b, env)) && CheckDecay(b, env).state == b.state
  {
  }

  lemma CheckRxTiming(b: Session, env: Env)
    ensures SameTiming(b, CheckRx(b, env)) && CheckRx(b, env).state == b.state
  {
  }

  lemma TimingChain(a: Session, b: Session, c: Session)
    requires SameTiming(a, b) && SameTiming(b, c)
    ensures SameTiming(a, c)
  {
  }

  /** bfd_run() up to its call of bfd_poll(). */
  lemma RunFrame(b: Session, env: Env)
    ensures var b3 := CheckRx(CheckDecay(Expire(b, env), env), env);
            SameTiming(b, b3) && b3.state == Expire(b, env).state
  {
    var b1 := Expire(b, env);
    var b2 := CheckDecay(b1, env);
    ExpireTiming(b, env);
    CheckDecayTiming(b1, env);
    TimingChain(b, b1, b2);
    CheckRxTiming(b2, env);
    TimingChain(b, b2, CheckRx(b2, env));
  }

  lemma PollFrame(b: Session)
    ensures var b1 := Poll(b); b1.state == b.state && b1.detectTime == b.detectTime && b1.cfgMinTx == b.cfgMinTx
    ensures Poll(b).disc == b.disc && Poll(b).rmtDisc == b.rmtDisc && Poll(b).final == b.final
    ensures Poll(b).poll ==> Poll(b).pollMinTx == if b.poll then b.pollMinTx else b.cfgMinTx
    ensures Poll(b).poll <==> b.poll || (b.state.Rank() > Down.Rank() && !b.final)
  {
  }

  lemma LearnKeeps(b: Session, m: Msg, env: Env)
    requires Inv(b) && m.myDisc != 0
    ensures Inv(Learn(b, m, env))
    ensures Learn(b, m, env).state == b.state && Learn(b, m, env).rmtDisc == m.myDisc
  {
    var b1 := LearnRemote(b, m);
    LearnPollKeeps(b1, m.flags);
    LearnIntervalsKeeps(LearnPoll(b1, m.flags), m, env);
  }

  lemma LearnPollKeeps(b: Session, flags: Flags)
    requires Inv(b)
    ensures var b1 := LearnPoll(b, flags); Inv(b1) && b1.state == b.state && b1.rmtDisc == b.rmtDisc
  {
  }

  lemma LearnIntervalsKeeps(b: Session, m: Msg, env: Env)
    requires Inv(b)
    ensures var b1 := LearnIntervals(b, m, env); Inv(b1) && b1.state == b.state && b1.rmtDisc == b.rmtDisc
  {
  }

  lemma ReactKeeps(b: Session, rmt: State, env: Env)
    requires Inv(b) && b.rmtDisc != 0
    ensures Inv(React(b, rmt, env))
  {
    SetStateKeeps(b, Down, DIAG_RMT_DOWN, env);
    SetStateKeeps(b, Up, b.diag, env);
    if b.state == Down { SetStateKeeps(b, Init, b.diag, env); }
  }

  lemma ProcessKeeps(b: Session, ttl: nat, msg: Option<Msg>, env: Env)
    requires Inv(b)
    ensures Inv(Process(b, ttl, msg, env))
  {
    var b1 := CountControl(b);
    CountControlKeeps(b);
    if Accepts(b, ttl, msg) {
      var (m, b2) := (msg.value, Learn(b1, msg.value, env));
      LearnKeeps(b1, m, env);
      ReactKeeps(b2, m.state, env);
    }
  }

  lemma CountControlKeeps(b: Session)
    requires Inv(b)
    ensures Inv(CountControl(b))
  {
  }

  lemma DoKeeps(b: Session, a: Action)
    requires Inv(b)
    ensures Inv(Do(b, a))
  {
    match a
    case Reconfigure(cfg, env) => ConfigureKeeps(b, cfg, env);
    case Tick(env) => RunKeeps(b, env);
    case Put(env) =>
    case Receive(ttl, msg, env) => ProcessKeeps(b, ttl, msg, env);
  }

  /** Every session, through every sequence of configurations, ticks, sends and
      arbitrary received packets, keeps the invariant. */
  lemma {:induction false} EveryRunKeepsInv(disc: nat, cfg: Config, env: Env, actions: seq<Action>)
    requires disc != 0
    ensures Inv(After(disc, cfg, env, actions))
  {
    if actions == [] {
      FirstConfigure(disc, cfg, env);
    } else {
      EveryRunKeepsInv(disc, cfg, env, actions[..|actions| - 1]);
      DoKeeps(After(disc, cfg, env, actions[..|actions| - 1]), actions[|actions| - 1]);
    }
  }
}
