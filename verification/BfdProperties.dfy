/**
  What the BFD operations of lib/bfd.c add up to over whole runs, and the two
  places where the code does less than RFC 5880 asks.
 */
module BfdProperties {
  import opened Collections
  import opened BfdModel

  // ------------------------------------------------ advertised intervals

  /** No run ever advertises an interval below 100 ms, before the conversion to
      the wire format. */
  lemma AdvertisedAtLeast100(disc: nat, cfg: Config, env: Env, actions: seq<Action>)
    requires disc != 0
    ensures var b := After(disc, cfg, env, actions);
            AdvertisedMinTx(b) >= 100 && AdvertisedMinRx(b) >= 100 && !(b.poll && b.final)
  {
    EveryRunKeepsInv(disc, cfg, env, actions);
  }

  /** The 32-bit microsecond field carries an interval unchanged, and the peer
      reads it back, exactly up to 4294967 ms. */
  lemma WireCarriesInterval(ms: int)
    requires ms >= 1
    ensures OnWire(ms) == ms * 1000 <==> ms <= 4294967
    ensures Max(OnWire(ms) / 1000, 1) == ms <==> ms <= 4294967
  {
  }

  /** Above that limit even the 100 ms floor is lost: a session configured with
      a 4294968 ms receive interval advertises 704 microseconds. */
  lemma WireCanWrap(env: Env)
    ensures Packet(After(1, Config(100, 4294968, 0, false, false), env, [])).minRx == 704
  {
    var b := Fresh(1, env);
    var b1 := ConfigureRx(ConfigureTx(b, 100), 4294968);
    assert b1.minRx == 4294968;
    FirstMinRx(1, Config(100, 4294968, 0, false, false), env);
  }

  /** A new session starts with the configured receive interval. */
  lemma FirstMinRx(disc: nat, cfg: Config, env: Env)
    ensures var b := After(disc, cfg, env, []); b.minRx == Max(cfg.minRx, 100) && !b.poll
  {
  }

  /** Section 6.8.3 of RFC 5880: a session that is not Up must ask for at least
      one second between packets. */
  predicate SlowUnlessUp(b: Session) {
    b.state != Up ==> AdvertisedMinTx(b) >= 1000
  }

  /** The code meets that rule exactly when no poll sequence started from a
      shorter configured interval is under way. */
  lemma SlowUnlessUpExactly(b: Session)
    ensures SlowUnlessUp(b) <==> b.state == Up || !b.poll || b.pollMinTx >= 1000
  {
  }

  /** The peer's first packet. */
  const HELLO := Msg(BFD_VERSION, DIAG_NONE, Down, NO_FLAGS, 3, BFD_PACKET_LEN, 2, 0, 1000000, 1000000, 0)

  /** A run that breaks the rule: the session reaches Init and is then given a
      shorter interval, which starts a poll sequence that advertises 200 ms. */
  lemma FastWhileInit(env: Env)
    ensures var cfg := Config(100, 1000, 0, false, false);
            var b := After(1, cfg, env, [Receive(255, Some(HELLO), env), Reconfigure(cfg.(minTx := 200), env)]);
            b.state == Init && AdvertisedMinTx(b) == 200
  {
    var cfg := Config(100, 1000, 0, false, false);
    var (a1, a2) := (Receive(255, Some(HELLO), env), Reconfigure(cfg.(minTx := 200), env));
    assert [a1, a2][..1] == [a1] && [a1][..0] == [];
    var b0 := After(1, cfg, env, []);
    NewSession(1, cfg, env);
    var b1 := After(1, cfg, env, [a1]);
    HelloReachesInit(b0, env);
    assert b1 == Do(b0, a1);
    ShorterIntervalPolls(b1, cfg, env);
  }

  lemma NewSession(disc: nat, cfg: Config, env: Env)
    ensures var b := After(disc, cfg, env, []);
            && b.state == Down && !b.poll && !b.final && b.disc == disc
            && b.cfgMinTx == Max(cfg.minTx, 100) && b.cfgMinRx == Max(cfg.minRx, 100)
  {
  }

  lemma HelloReachesInit(b: Session, env: Env)
    requires b.state == Down && !b.poll && !b.final
    ensures var b1 := Process(b, 255, Some(HELLO), env);
            b1.state == Init && !b1.poll && !b1.final && b1.cfgMinTx == b.cfgMinTx
  {
    var b1 := Learn(CountControl(b), HELLO, env);
    assert b1.state == Down && !b1.poll && !b1.final && b1.cfgMinTx == b.cfgMinTx;
  }

  lemma ShorterIntervalPolls(b: Session, cfg: Config, env: Env)
    requires b.state == Init && !b.poll && !b.final && b.cfgMinTx == 100
    ensures var b1 := Configure(b, cfg.(minTx := 200), env);
            b1.state == Init && b1.poll && b1.pollMinTx == 200
  {
    var rx := Max(cfg.minRx, 100);
    ConfigureTxRxFrame(b, 200, rx);
    var b1 := ConfigureRx(ConfigureTx(b, 200), rx);
    ConfigureRestFrame(b1, cfg, b.cfgMinRx != rx, env);
    PollFrame(ConfigureRest(b1, cfg, b.cfgMinRx != rx, env));
  }

  /** A poll sequence that was begun while the session was Up outlives its fall: a
      session that expires while it polls for a short interval breaks the rule, too. */
  lemma PollOutlivesFall(b: Session, env: Env)
    requires b.state == Up && b.poll && b.pollMinTx < 1000 && env.now >= b.detectTime
    ensures Run(b, env).state == Down && AdvertisedMinTx(Run(b, env)) == b.pollMinTx
    ensures !SlowUnlessUp(Run(b, env))
  {
    SetStateFrame(b, Down, DIAG_EXPIRED, env);
    RunFrame(b, env);
    PollFrame(CheckRx(CheckDecay(Expire(b, env), env), env));
  }

  // ------------------------------------------ configured slow, stays slow

  /** Every interval the session may ask for while polling is slow. */
  ghost predicate SlowConfigured(b: Session) {
    b.cfgMinTx >= 1000 && (b.poll ==> b.pollMinTx >= 1000)
  }

  ghost predicate SlowAction(a: Action) {
    a.Reconfigure? ==> a.cfg.minTx >= 1000
  }

  lemma ConfigureSlow(b: Session, cfg: Config, env: Env)
    requires (b.poll ==> b.pollMinTx >= 1000) && cfg.minTx >= 1000
    ensures SlowConfigured(Configure(b, cfg, env))
  {
    var (tx, rx) := (Max(cfg.minTx, 100), Max(cfg.minRx, 100));
    ConfigureTxRxFrame(b, tx, rx);
    var b1 := ConfigureRx(ConfigureTx(b, tx), rx);
    ConfigureRestFrame(b1, cfg, b.cfgMinRx != rx, env);
    PollFrame(ConfigureRest(b1, cfg, b.cfgMinRx != rx, env));
  }

  lemma RunSlow(b: Session, env: Env)
    requires SlowConfigured(b)
    ensures SlowConfigured(Run(b, env))
  {
    RunFrame(b, env);
    PollFrame(CheckRx(CheckDecay(Expire(b, env), env), env));
  }

  lemma LearnSlow(b: Session, m: Msg, env: Env)
    requires SlowConfigured(b)
    ensures SlowConfigured(Learn(b, m, env))
  {
    var b1 := LearnPoll(LearnRemote(b, m), m.flags);
    assert SlowConfigured(b1);
    LearnIntervalsSlow(b1, m, env);
  }

  lemma LearnIntervalsSlow(b: Session, m: Msg, env: Env)
    requires SlowConfigured(b)
    ensures SlowConfigured(LearnIntervals(b, m, env))
  {
  }

  lemma ReactSlow(b: Session, rmt: State, env: Env)
    requires SlowConfigured(b)
    ensures SlowConfigured(React(b, rmt, env))
  {
    SetStateFrame(b, Down, DIAG_RMT_DOWN, env);
    SetStateFrame(b, Up, b.diag, env);
    SetStateFrame(b, Init, b.diag, env);
  }

  lemma ProcessSlow(b: Session, ttl: nat, msg: Option<Msg>, env: Env)
    requires SlowConfigured(b)
    ensures SlowConfigured(Process(b, ttl, msg, env))
  {
    var b1 := CountControl(b);
    assert SlowConfigured(b1);
    if Accepts(b, ttl, msg) {
      LearnSlow(b1, msg.value, env);
      ReactSlow(Learn(b1, msg.value, env), msg.value.state, env);
    }
  }

  /** A session whose every configuration asks for at least one second obeys
      section 6.8.3 throughout every run. */
  lemma {:induction false} SlowConfigurationObeys(disc: nat, cfg: Config, env: Env, actions: seq<Action>)
    requires cfg.minTx >= 1000 && forall i | 0 <= i < |actions| :: SlowAction(actions[i])
    ensures SlowConfigured(After(disc, cfg, env, actions))
    ensures SlowUnlessUp(After(disc, cfg, env, actions))
  {
    if actions == [] {
      ConfigureSlow(Fresh(disc, env), cfg, env);
    } else {
      var n := |actions| - 1;
      SlowConfigurationObeys(disc, cfg, env, actions[..n]);
      var b := After(disc, cfg, env, actions[..n]);
      assert SlowAction(actions[n]);
      match actions[n]
      case Reconfigure(c, e) => ConfigureSlow(b, c, e);
      case Tick(e) => RunSlow(b, e);
      case Put(e) =>
      case Receive(ttl, msg, e) => ProcessSlow(b, ttl, msg, e);
    }
    SlowUnlessUpExactly(After(disc, cfg, env, actions));
  }

  // -------------------------------------------------- failure detection

  /** Without a packet the detection time stands still and the state never rises. */
  lemma SilentStep(b: Session, a: Action)
    requires Inv(b) && !a.Receive?
    ensures Do(b, a).state.Rank() <= b.state.Rank()
    ensures Do(b, a).detectTime == b.detectTime
  {
    match a
    case Reconfigure(cfg, env) =>
      var (tx, rx) := (Max(cfg.minTx, 100), Max(cfg.minRx, 100));
      ConfigureTxRxFrame(b, tx, rx);
      var b1 := ConfigureRx(ConfigureTx(b, tx), rx);
      ConfigureRestFrame(b1, cfg, b.cfgMinRx != rx, env);
      PollFrame(ConfigureRest(b1, cfg, b.cfgMinRx != rx, env));
    case Tick(env) =>
      SetStateFrame(b, Down, DIAG_EXPIRED, env);
      RunFrame(b, env);
      PollFrame(CheckRx(CheckDecay(Expire(b, env), env), env));
    case Put(env) =>
  }

  function DoAll(b: Session, actions: seq<Action>): Session
    decreases |actions|
  {
    if actions == [] then b else DoAll(Do(b, actions[0]), actions[1..])
  }

  /** If no packet arrives, one tick at or after the detection time brings the
      session Down, and it stays Down whatever else happens. */
  lemma {:induction false} SilenceBringsDown(b: Session, actions: seq<Action>)
    requires Inv(b) && forall i | 0 <= i < |actions| :: !actions[i].Receive?
    requires b.state == Down
             || exists i :: 0 <= i < |actions| && actions[i].Tick? && actions[i].env.now >= b.detectTime
    ensures DoAll(b, actions).state == Down
    decreases |actions|
  {
    if actions != [] {
      var a := actions[0];
      var b1 := Do(b, a);
      DoKeeps(b, a);
      SilentStep(b, a);
      if a.Tick? && a.env.now >= b.detectTime {
        LateTick(b, a.env);
      } else if b.state != Down {
        var i :| 0 <= i < |actions| && actions[i].Tick? && actions[i].env.now >= b.detectTime;
        assert actions[1..][i - 1] == actions[i];
      }
      SilenceBringsDown(b1, actions[1..]);
    }
  }

  lemma LateTick(b: Session, env: Env)
    requires Inv(b) && env.now >= b.detectTime
    ensures Run(b, env).state == Down
  {
    SetStateFrame(b, Down, DIAG_EXPIRED, env);
    RunFrame(b, env);
    PollFrame(CheckRx(CheckDecay(Expire(b, env), env), env));
  }
}
