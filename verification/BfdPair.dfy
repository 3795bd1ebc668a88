/**
  Two BFD endpoints (lib/bfd.c) over a channel that may lose, duplicate, delay
  and reorder packets: an endpoint is Up only after a three-way handshake.
 */
module BfdPair {
  import opened Collections
  import opened BfdModel
  import BfdRuns

  datatype Side = Left | Right {
    function Other(): Side {
      match this case Left => Right case Right => Left
    }
  }

  /** What an observer of both endpoints records. */
  datatype Event =
    | Started(side: Side)                 // a new session was created
    | Sent(from: Side, msg: Msg)          // a packet went onto the channel
    | Accepted(who: Side, what: nat)       // the packet sent as event 'what' was believed

  datatype System = System(left: Session, right: Session, log: seq<Event>) {
    function At(x: Side): Session {
      match x case Left => left case Right => right
    }

    function With(x: Side, b: Session): System {
      match x case Left => this.(left := b) case Right => this.(right := b)
    }

    function Log(e: Event): System {
      this.(log := log + [e])
    }
  }

  /** One step of the pair.  Any packet ever sent may be delivered at any time,
      any number of times or never. */
  datatype Step =
    | Restart(side: Side, disc: nat, cfg: Config, env: Env)
    | Reconfiguring(side: Side, cfg: Config, env: Env)
    | Ticking(side: Side, env: Env)
    | Sending(side: Side, env: Env)
    | Delivering(side: Side, what: nat, ttl: nat, env: Env)

  predicate Deliverable(log: seq<Event>, x: Side, i: nat) {
    i < |log| && log[i].Sent? && log[i].from == x.Other()
  }

  function Deliver(s: System, x: Side, i: nat, ttl: nat, env: Env): System
    requires Deliverable(s.log, x, i)
  {
    var msg := Some(s.log[i].msg);
    var s1 := s.With(x, Process(s.At(x), ttl, msg, env));
    if Accepts(s.At(x), ttl, msg) then s1.Log(Accepted(x, i)) else s1
  }

  function Perform(s: System, step: Step): System {
    match step
    case Restart(x, disc, cfg, env) => s.With(x, Configure(Fresh(disc, env), cfg, env)).Log(Started(x))
    case Reconfiguring(x, cfg, env) => s.With(x, Configure(s.At(x), cfg, env))
    case Ticking(x, env) => s.With(x, Run(s.At(x), env))
    case Sending(x, env) => s.With(x, AfterPut(s.At(x), env)).Log(Sent(x, Packet(s.At(x))))
    case Delivering(x, i, ttl, env) => if Deliverable(s.log, x, i) then Deliver(s, x, i, ttl, env) else s
  }

  /** Discriminators are never zero; see generate_discriminator(). */
  predicate Legal(step: Step) {
    step.Restart? ==> step.disc != 0
  }

  function Start(dl: nat, dr: nat, cfg: Config, env: Env): System {
    System(Configure(Fresh(dl, env), cfg, env), Configure(Fresh(dr, env), cfg, env),
           [Started(Left), Started(Right)])
  }

  function Execute(dl: nat, dr: nat, cfg: Config, env: Env, steps: seq<Step>): System {
    if steps == [] then Start(dl, dr, cfg, env)
    else Perform(Execute(dl, dr, cfg, env, steps[..|steps| - 1]), steps[|steps| - 1])
  }

  // ----------------------------------------------------------- invariant

  /** Event 'k' is x accepting a packet that its peer sent as discriminator 'd'. */
  predicate Heard(log: seq<Event>, x: Side, k: nat, d: nat) {
    && k < |log| && log[k].Accepted? && log[k].who == x
    && log[k].what < k
    && Deliverable(log, x, log[k].what)
    && log[log[k].what].msg.myDisc == d
  }

  /** Event 'i' is x accepting a packet that its peer sent to discriminator 'd'
      while Init or Up, in x's present session. */
  ghost predicate Confirmed(log: seq<Event>, x: Side, i: nat, d: nat) {
    && i < |log| && log[i].Accepted? && log[i].who == x
    && log[i].what < i
    && Deliverable(log, x, log[i].what)
    && log[log[i].what].msg.state.Rank() > Down.Rank()
    && log[log[i].what].msg.yourDisc == d
    && d != 0
    && (forall n | 0 <= n < |log| && log[n] == Started(x) :: n < i)
  }

  ghost predicate KnowsPeer(s: System, x: Side) {
    s.At(x).rmtDisc != 0 ==> exists k :: Heard(s.log, x, k, s.At(x).rmtDisc)
  }

  /** Nobody names a discriminator without having heard it. */
  ghost predicate Justified(log: seq<Event>, j: nat) {
    j < |log| && log[j].Sent? && log[j].msg.yourDisc != 0 ==>
      exists k: nat :: k < j && Heard(log, log[j].from, k, log[j].msg.yourDisc)
  }

  ghost predicate AllJustified(log: seq<Event>) {
    forall j | 0 <= j < |log| :: Justified(log, j)
  }

  ghost predicate UpConfirmed(s: System, x: Side) {
    s.At(x).state == Up ==> exists i: nat :: Confirmed(s.log, x, i, s.At(x).disc)
  }

  ghost predicate PairInv(s: System) {
    && Inv(s.left) && Inv(s.right)
    && KnowsPeer(s, Left) && KnowsPeer(s, Right)
    && UpConfirmed(s, Left) && UpConfirmed(s, Right)
    && AllJustified(s.log)
  }

  // ------------------------------------------- what one session step keeps

  /** Learning nothing new: same discriminator, not newly Up, and the peer is
      either as before or forgotten. */
  predicate NoNews(b: Session, b': Session) {
    && b'.disc == b.disc
    && (b'.state == Up ==> b.state == Up)
    && (b'.rmtDisc == b.rmtDisc || b'.rmtDisc == 0)
  }

  lemma SetStateNews(b: Session, state: State, diag: nat, env: Env)
    ensures var b' := SetState(b, state, diag, env);
            b'.disc == b.disc && b'.state == state && (b'.rmtDisc == b.rmtDisc || b'.rmtDisc == 0)
  {
  }

  /** The part of NoNews that does not need the state. */
  predicate SamePeer(b: Session, b': Session) {
    b'.disc == b.disc && b'.state == b.state && (b'.rmtDisc == b.rmtDisc || b'.rmtDisc == 0)
  }

  lemma ConfigureRestNews(b: Session, cfg: Config, rxChanged: bool, env: Env)
    ensures SamePeer(b, ConfigureRest(b, cfg, rxChanged, env))
  {
    var b1 := ConfigureDecay(b, cfg.decayMinRx, rxChanged, env);
    assert b1.disc == b.disc && b1.rmtDisc == b.rmtDisc && b1.state == b.state;
    SetStateNews(b1.(cpathDown := cfg.cpathDown), b1.state, DIAG_NONE, env);
    var b2 := ConfigureCpath(b1, cfg.cpathDown, env);
    assert SamePeer(b1, b2);
    ForwardingNews(b2, cfg.forwardingIfRx, env);
  }

  lemma ConfigureNews(b: Session, cfg: Config, env: Env)
    ensures SamePeer(b, Configure(b, cfg, env))
  {
    var (tx, rx) := (Max(cfg.minTx, 100), Max(cfg.minRx, 100));
    var b1 := ConfigureRx(ConfigureTx(b, tx), rx);
    ConfigureTxRxNews(b, tx, rx);
    ConfigureRestNews(b1, cfg, b.cfgMinRx != rx, env);
    PollFrame(ConfigureRest(b1, cfg, b.cfgMinRx != rx, env));
  }

  lemma ConfigureTxRxNews(b: Session, tx: int, rx: int)
    ensures var b1 := ConfigureRx(ConfigureTx(b, tx), rx);
            b1.disc == b.disc && b1.rmtDisc == b.rmtDisc && b1.state == b.state
  {
  }

  lemma ForwardingNews(b: Session, forwardingIfRx: bool, env: Env)
    ensures var b1 := ConfigureForwarding(b, forwardingIfRx, env);
            b1.disc == b.disc && b1.rmtDisc == b.rmtDisc && b1.state == b.state
  {
  }

  lemma RunNews(b: Session, env: Env)
    ensures NoNews(b, Run(b, env))
  {
    SetStateNews(b, Down, DIAG_EXPIRED, env);
    var b1 := Expire(b, env);
    CheckDecayPeer(b1, env);
    var b2 := CheckDecay(b1, env);
    CheckRxPeer(b2, env);
    PollFrame(CheckRx(b2, env));
  }

  lemma CheckDecayPeer(b: Session, env: Env)
    ensures var b1 := CheckDecay(b, env); b1.disc == b.disc && b1.rmtDisc == b.rmtDisc && b1.state == b.state
  {
  }

  lemma CheckRxPeer(b: Session, env: Env)
    ensures var b1 := CheckRx(b, env); b1.disc == b.disc && b1.rmtDisc == b.rmtDisc && b1.state == b.state
  {
  }

  /** A believed packet: the peer is now the packet's sender, and a session comes
      Up only on a packet sent to its own discriminator from Init or Up. */
  lemma ProcessNews(b: Session, ttl: nat, m: Msg, env: Env)
    requires Inv(b)
    ensures var b' := Process(b, ttl, Some(m), env);
            if Accepts(b, ttl, Some(m)) then
              && b'.disc == b.disc
              && (b'.rmtDisc == m.myDisc || b'.rmtDisc == 0)
              && (b'.state == Up && b.state != Up ==> m.state.Rank() > Down.Rank() && m.yourDisc == b.disc)
            else NoNews(b, b')
  {
    if Accepts(b, ttl, Some(m)) {
      CountControlKeeps(b);
      var b1 := Learn(CountControl(b), m, env);
      LearnKeeps(CountControl(b), m, env);
      LearnDisc(CountControl(b), m, env);
      SetStateNews(b1, Down, DIAG_RMT_DOWN, env);
      SetStateNews(b1, Init, b1.diag, env);
      SetStateNews(b1, Up, b1.diag, env);
    }
  }

  lemma LearnDisc(b: Session, m: Msg, env: Env)
    ensures Learn(b, m, env).disc == b.disc
  {
    var b1 := LearnPoll(LearnRemote(b, m), m.flags);
    assert b1.disc == b.disc;
  }

  // --------------------------------------------------- growing the record

  lemma HeardGrows(log: seq<Event>, e: Event, x: Side, k: nat, d: nat)
    requires Heard(log, x, k, d)
    ensures Heard(log + [e], x, k, d)
  {
  }

  lemma ConfirmedGrows(log: seq<Event>, e: Event, x: Side, i: nat, d: nat)
    requires Confirmed(log, x, i, d) && e != Started(x)
    ensures Confirmed(log + [e], x, i, d)
  {
  }

  lemma JustifiedGrows(log: seq<Event>, e: Event)
    requires AllJustified(log)
    requires e.Sent? && e.msg.yourDisc != 0 ==> exists k :: Heard(log, e.from, k, e.msg.yourDisc)
    ensures AllJustified(log + [e])
  {
    var log' := log + [e];
    forall j | 0 <= j < |log'| ensures Justified(log', j) {
      if j < |log| {
        assert Justified(log, j);
        if log[j].Sent? && log[j].msg.yourDisc != 0 {
          var k: nat :| k < j && Heard(log, log[j].from, k, log[j].msg.yourDisc);
          HeardGrows(log, e, log[j].from, k, log[j].msg.yourDisc);
        }
      } else if e.Sent? && e.msg.yourDisc != 0 {
        var k :| Heard(log, e.from, k, e.msg.yourDisc);
        HeardGrows(log, e, e.from, k, e.msg.yourDisc);
      }
    }
  }

  /** One side learns nothing new and the record grows by at most 'e'. */
  lemma SideKept(s: System, s': System, x: Side, e: seq<Event>)
    requires KnowsPeer(s, x) && UpConfirmed(s, x)
    requires |e| <= 1 && s'.log == s.log + e && (e != [] ==> e[0] != Started(x))
    requires NoNews(s.At(x), s'.At(x))
    ensures KnowsPeer(s', x) && UpConfirmed(s', x)
  {
    if e == [] {
      assert s'.log == s.log;
    } else {
      assert e == [e[0]];
      if s'.At(x).rmtDisc != 0 {
        var k :| Heard(s.log, x, k, s.At(x).rmtDisc);
        HeardGrows(s.log, e[0], x, k, s.At(x).rmtDisc);
      }
      if s'.At(x).state == Up {
        var i :| Confirmed(s.log, x, i, s.At(x).disc);
        ConfirmedGrows(s.log, e[0], x, i, s.At(x).disc);
      }
    }
  }

  // ---------------------------------------------------------- each step

  lemma RestartKeeps(s: System, x: Side, disc: nat, cfg: Config, env: Env)
    requires PairInv(s) && disc != 0
    ensures PairInv(Perform(s, Restart(x, disc, cfg, env)))
  {
    var s' := Perform(s, Restart(x, disc, cfg, env));
    FirstConfigure(disc, cfg, env);
    FreshKnowsNobody(disc, cfg, env);
    SideKept(s, s', x.Other(), [Started(x)]);
    JustifiedGrows(s.log, Started(x));
  }

  lemma FreshKnowsNobody(disc: nat, cfg: Config, env: Env)
    requires disc != 0
    ensures Configure(Fresh(disc, env), cfg, env).rmtDisc == 0
  {
    assert Fresh(disc, env).rmtDisc == 0;
    ConfigureNews(Fresh(disc, env), cfg, env);
  }

  lemma LocalKeeps(s: System, x: Side, b: Session)
    requires PairInv(s) && Inv(b) && NoNews(s.At(x), b)
    ensures PairInv(s.With(x, b))
  {
    SideKept(s, s.With(x, b), x, []);
    SideKept(s, s.With(x, b), x.Other(), []);
  }

  lemma SendingKeeps(s: System, x: Side, env: Env)
    requires PairInv(s)
    ensures PairInv(Perform(s, Sending(x, env)))
  {
    var s' := Perform(s, Sending(x, env));
    var e := Sent(x, Packet(s.At(x)));
    SideKept(s, s', x, [e]);
    SideKept(s, s', x.Other(), [e]);
    JustifiedGrows(s.log, e);
    DoKeeps(s.At(x), Put(env));
  }

  lemma DeliveringKeeps(s: System, x: Side, i: nat, ttl: nat, env: Env)
    requires PairInv(s) && Deliverable(s.log, x, i)
    ensures PairInv(Deliver(s, x, i, ttl, env))
  {
    var m := s.log[i].msg;
    ProcessKeeps(s.At(x), ttl, Some(m), env);
    ProcessNews(s.At(x), ttl, m, env);
    if Accepts(s.At(x), ttl, Some(m)) {
      AcceptedKeeps(s, x, i, ttl, env);
    } else {
      LocalKeeps(s, x, Process(s.At(x), ttl, Some(m), env));
    }
  }

  lemma AcceptedKeeps(s: System, x: Side, i: nat, ttl: nat, env: Env)
    requires PairInv(s) && Deliverable(s.log, x, i) && Accepts(s.At(x), ttl, Some(s.log[i].msg))
    ensures PairInv(Deliver(s, x, i, ttl, env))
  {
    var (m, e, s') := (s.log[i].msg, Accepted(x, i), Deliver(s, x, i, ttl, env));
    ProcessKeeps(s.At(x), ttl, Some(m), env);
    ProcessNews(s.At(x), ttl, m, env);
    assert s'.log == s.log + [e];
    assert Heard(s'.log, x, |s.log|, m.myDisc);
    if s'.At(x).state == Up {
      if s.At(x).state == Up {
        var n :| Confirmed(s.log, x, n, s.At(x).disc);
        ConfirmedGrows(s.log, e, x, n, s.At(x).disc);
      } else {
        assert Confirmed(s'.log, x, |s.log|, s.At(x).disc);
      }
    }
    SideKept(s, s', x.Other(), [e]);
    JustifiedGrows(s.log, e);
  }

  lemma PerformKeeps(s: System, step: Step)
    requires PairInv(s) && Legal(step)
    ensures PairInv(Perform(s, step))
  {
    match step
    case Restart(x, disc, cfg, env) => RestartKeeps(s, x, disc, cfg, env);
    case Reconfiguring(x, cfg, env) =>
      ConfigureKeeps(s.At(x), cfg, env);
      ConfigureNews(s.At(x), cfg, env);
      LocalKeeps(s, x, Configure(s.At(x), cfg, env));
    case Ticking(x, env) =>
      RunKeeps(s.At(x), env);
      RunNews(s.At(x), env);
      LocalKeeps(s, x, Run(s.At(x), env));
    case Sending(x, env) => SendingKeeps(s, x, env);
    case Delivering(x, i, ttl, env) =>
      if Deliverable(s.log, x, i) { DeliveringKeeps(s, x, i, ttl, env); }
  }

  lemma {:induction false} EveryRunKeepsPairInv(dl: nat, dr: nat, cfg: Config, env: Env, steps: seq<Step>)
    requires dl != 0 && dr != 0 && forall i | 0 <= i < |steps| :: Legal(steps[i])
    ensures PairInv(Execute(dl, dr, cfg, env, steps))
  {
    if steps == [] {
      FirstConfigure(dl, cfg, env);
      FirstConfigure(dr, cfg, env);
      FreshKnowsNobody(dl, cfg, env);
      FreshKnowsNobody(dr, cfg, env);
    } else {
      EveryRunKeepsPairInv(dl, dr, cfg, env, steps[..|steps| - 1]);
      PerformKeeps(Execute(dl, dr, cfg, env, steps[..|steps| - 1]), steps[|steps| - 1]);
    }
  }

  // ------------------------------------------------------------- theorem

  /** Events l < k < j < i of a three-way handshake of x's present session: x
      sent a packet, the peer accepted it, the peer then sent a packet naming x
      while Init or Up, and x accepted that after its session started. */
  ghost predicate Handshake(s: System, x: Side, l: nat, k: nat, j: nat, i: nat) {
    && l < k < j < i < |s.log|
    && s.log[l].Sent? && s.log[l].from == x && s.log[l].msg.myDisc == s.At(x).disc
    && s.log[k] == Accepted(x.Other(), l)
    && s.log[j].Sent? && s.log[j].from == x.Other()
    && s.log[j].msg.state.Rank() > Down.Rank() && s.log[j].msg.yourDisc == s.At(x).disc
    && s.log[i] == Accepted(x, j)
    && (forall n | 0 <= n < |s.log| && s.log[n] == Started(x) :: n < i)
  }

  /** In every run, an endpoint that is Up has completed the handshake. */
  lemma UpOnlyAfterHandshake(dl: nat, dr: nat, cfg: Config, env: Env, steps: seq<Step>, x: Side)
    requires dl != 0 && dr != 0 && forall i | 0 <= i < |steps| :: Legal(steps[i])
    requires Execute(dl, dr, cfg, env, steps).At(x).state == Up
    ensures exists l: nat, k: nat, j: nat, i: nat :: Handshake(Execute(dl, dr, cfg, env, steps), x, l, k, j, i)
  {
    var s := Execute(dl, dr, cfg, env, steps);
    EveryRunKeepsPairInv(dl, dr, cfg, env, steps);
    ConfirmedHandshake(s, x);
  }

  lemma ConfirmedHandshake(s: System, x: Side)
    requires AllJustified(s.log) && exists i: nat :: Confirmed(s.log, x, i, s.At(x).disc)
    ensures exists l: nat, k: nat, j: nat, i: nat :: Handshake(s, x, l, k, j, i)
  {
    var i: nat :| Confirmed(s.log, x, i, s.At(x).disc);
    var j := s.log[i].what;
    assert Justified(s.log, j);
    var k: nat :| k < j && Heard(s.log, x.Other(), k, s.At(x).disc);
    assert Handshake(s, x, s.log[k].what, k, j, i);
  }

  // ------------------------------------- the whole handshake is this session's

  /** The discriminators that 'x' has had. */
  function Names(dl: nat, dr: nat, steps: seq<Step>, x: Side): set<nat> {
    if steps == [] then {if x == Left then dl else dr}
    else
      var last := steps[|steps| - 1];
      Names(dl, dr, steps[..|steps| - 1], x) + if last.Restart? && last.side == x then {last.disc} else {}
  }

  /** No endpoint takes a discriminator that it has had before. */
  ghost predicate FreshNames(dl: nat, dr: nat, steps: seq<Step>) {
    forall i | 0 <= i < |steps| && steps[i].Restart? :: steps[i].disc !in Names(dl, dr, steps[..i], steps[i].side)
  }

  /** Every packet from 'x' carries one of its names, and one with its present name was
      sent in its present session. */
  ghost predicate OwnPackets(s: System, x: Side, names: set<nat>) {
    && s.At(x).disc in names
    && forall l | 0 <= l < |s.log| && s.log[l].Sent? && s.log[l].from == x :: OwnPacket(s, x, names, l)
  }

  ghost predicate OwnPacket(s: System, x: Side, names: set<nat>, l: nat)
    requires l < |s.log| && s.log[l].Sent?
  {
    && s.log[l].msg.myDisc in names
    && (s.log[l].msg.myDisc == s.At(x).disc ==> forall n | 0 <= n < |s.log| && s.log[n] == Started(x) :: n < l)
  }

  /** A step other than a restart keeps both discriminators. */
  lemma SameNames(s: System, step: Step, x: Side)
    requires !(step.Restart? && step.side == x)
    ensures Perform(s, step).At(x).disc == s.At(x).disc
  {
    match step
    case Restart(_, _, _, _) =>
    case Reconfiguring(y, cfg, env) => BfdRuns.DoDisc(s.At(y), Reconfigure(cfg, env));
    case Ticking(y, env) => BfdRuns.DoDisc(s.At(y), Tick(env));
    case Sending(y, env) => BfdRuns.DoDisc(s.At(y), Put(env));
    case Delivering(y, i, ttl, env) =>
      if Deliverable(s.log, y, i) {
        BfdRuns.DoDisc(s.At(y), Receive(ttl, Some(s.log[i].msg), env));
      }
  }

  /** What a step adds to the record. */
  lemma LogGrows(s: System, step: Step) returns (e: seq<Event>)
    ensures |e| <= 1 && Perform(s, step).log == s.log + e
    ensures e != [] && e[0].Sent? ==> e[0].msg.myDisc == s.At(e[0].from).disc
    ensures e != [] && e[0].Started? ==> step.Restart? && e[0].side == step.side
  {
    match step
    case Restart(x, _, _, _) => e := [Started(x)];
    case Reconfiguring(_, _, _) => e := [];
    case Ticking(_, _) => e := [];
    case Sending(x, _) => e := [Sent(x, Packet(s.At(x)))];
    case Delivering(x, i, ttl, _) =>
      e := if Deliverable(s.log, x, i) && Accepts(s.At(x), ttl, Some(s.log[i].msg)) then [Accepted(x, i)] else [];
  }

  lemma OwnPacketsKept(s: System, step: Step, x: Side, names: set<nat>)
    requires OwnPackets(s, x, names) && !(step.Restart? && step.side == x)
    ensures OwnPackets(Perform(s, step), x, names)
  {
    SameNames(s, step, x);
    var s' := Perform(s, step);
    var e := LogGrows(s, step);
    forall l | 0 <= l < |s'.log| && s'.log[l].Sent? && s'.log[l].from == x ensures OwnPacket(s', x, names, l) {
      if l < |s.log| {
        assert OwnPacket(s, x, names, l);
      }
    }
  }

  lemma OwnPacketsRenamed(s: System, x: Side, disc: nat, cfg: Config, env: Env, names: set<nat>)
    requires OwnPackets(s, x, names) && disc !in names
    ensures OwnPackets(Perform(s, Restart(x, disc, cfg, env)), x, names + {disc})
  {
    var s' := Perform(s, Restart(x, disc, cfg, env));
    BfdRuns.SameDisc(disc, cfg, env, []);
    forall l | 0 <= l < |s'.log| && s'.log[l].Sent? && s'.log[l].from == x ensures OwnPacket(s', x, names + {disc}, l) {
      assert OwnPacket(s, x, names, l);
    }
  }

  lemma {:induction false} EveryRunKeepsOwnPackets(dl: nat, dr: nat, cfg: Config, env: Env, steps: seq<Step>, x: Side)
    requires FreshNames(dl, dr, steps)
    ensures OwnPackets(Execute(dl, dr, cfg, env, steps), x, Names(dl, dr, steps, x))
  {
    if steps == [] {
      BfdRuns.SameDisc(dl, cfg, env, []);
      BfdRuns.SameDisc(dr, cfg, env, []);
    } else {
      var (before, last) := (steps[..|steps| - 1], steps[|steps| - 1]);
      FreshBefore(dl, dr, steps);
      EveryRunKeepsOwnPackets(dl, dr, cfg, env, before, x);
      var (s, names) := (Execute(dl, dr, cfg, env, before), Names(dl, dr, before, x));
      if last.Restart? && last.side == x {
        OwnPacketsRenamed(s, x, last.disc, last.cfg, last.env, names);
      } else {
        OwnPacketsKept(s, last, x, names);
        assert names + {} == names;
      }
    }
  }

  lemma FreshBefore(dl: nat, dr: nat, steps: seq<Step>)
    requires FreshNames(dl, dr, steps) && steps != []
    ensures FreshNames(dl, dr, steps[..|steps| - 1])
    ensures var last := steps[|steps| - 1];
            last.Restart? ==> last.disc !in Names(dl, dr, steps[..|steps| - 1], last.side)
  {
    var before := steps[..|steps| - 1];
    forall i | 0 <= i < |before| && before[i].Restart? ensures before[i].disc !in Names(dl, dr, before[..i], before[i].side) {
      assert before[..i] == steps[..i] && before[i] == steps[i];
    }
  }

  /** When names are not used again, all four events of the handshake belong to the
      present session of 'x'. */
  lemma UpOnlyAfterOwnHandshake(dl: nat, dr: nat, cfg: Config, env: Env, steps: seq<Step>, x: Side)
    requires dl != 0 && dr != 0 && forall i | 0 <= i < |steps| :: Legal(steps[i])
    requires FreshNames(dl, dr, steps) && Execute(dl, dr, cfg, env, steps).At(x).state == Up
    ensures var s := Execute(dl, dr, cfg, env, steps);
            exists l: nat, k: nat, j: nat, i: nat :: Handshake(s, x, l, k, j, i)
              && forall n | 0 <= n < |s.log| && s.log[n] == Started(x) :: n < l
  {
    UpOnlyAfterHandshake(dl, dr, cfg, env, steps, x);
    var s := Execute(dl, dr, cfg, env, steps);
    EveryRunKeepsOwnPackets(dl, dr, cfg, env, steps, x);
    var l: nat, k: nat, j: nat, i: nat :| Handshake(s, x, l, k, j, i);
    assert OwnPacket(s, x, Names(dl, dr, steps, x), l);
  }

  // ----------------------------------------------- the handshake happens

  /** Sending as far as the state machine goes. */
  lemma SendEffect(s: System, x: Side, env: Env)
    ensures var s' := Perform(s, Sending(x, env));
            && s'.log == s.log + [Sent(x, Packet(s.At(x)))]
            && s'.At(x.Other()) == s.At(x.Other())
            && s'.At(x).state == s.At(x).state && s'.At(x).disc == s.At(x).disc && s'.At(x).rmtDisc == s.At(x).rmtDisc
  {
  }

  /** The state a believed packet leads to; see section 6.2 of RFC 5880. */
  function NextState(local: State, rmt: State): State {
    match (local, rmt)
    case (AdminDown, _) => AdminDown
    case (_, AdminDown) => Down
    case (Down, Down) => Init
    case (Down, Init) => Up
    case (Down, Up) => Down
    case (Init, Down) => Init
    case (Init, _) => Up
    case (Up, Down) => Down
    case (Up, _) => Up
  }

  lemma DeliverEffect(s: System, x: Side, i: nat, env: Env)
    requires Deliverable(s.log, x, i) && Inv(s.At(x)) && Accepts(s.At(x), 255, Some(s.log[i].msg))
    ensures var (m, s') := (s.log[i].msg, Perform(s, Delivering(x, i, 255, env)));
            && s'.log == s.log + [Accepted(x, i)]
            && s'.At(x.Other()) == s.At(x.Other())
            && Inv(s'.At(x))
            && s'.At(x).state == NextState(s.At(x).state, m.state)
            && s'.At(x).disc == s.At(x).disc
            && (s'.At(x).state.Rank() > Down.Rank() ==> s'.At(x).rmtDisc == m.myDisc)
  {
    var m := s.log[i].msg;
    ProcessKeeps(s.At(x), 255, Some(m), env);
    ProcessNews(s.At(x), 255, m, env);
    var b := CountControl(s.At(x));
    CountControlKeeps(s.At(x));
    LearnKeeps(b, m, env);
    var b1 := Learn(b, m, env);
    SetStateNews(b1, Down, DIAG_RMT_DOWN, env);
    SetStateNews(b1, Init, b1.diag, env);
    SetStateNews(b1, Up, b1.diag, env);
  }

  /** x sends a packet and its peer receives it. */
  function Exchange(s: System, x: Side, env: Env): System {
    Perform(Perform(s, Sending(x, env)), Delivering(x.Other(), |s.log|, 255, env))
  }

  lemma ExchangeEffect(s: System, x: Side, env: Env)
    requires Inv(s.left) && Inv(s.right)
    requires if s.At(x).rmtDisc == 0 then s.At(x).state == Down else s.At(x).rmtDisc == s.At(x.Other()).disc
    ensures var s' := Exchange(s, x, env);
            && Inv(s'.left) && Inv(s'.right) && |s'.log| == |s.log| + 2
            && s'.left.disc == s.left.disc && s'.right.disc == s.right.disc
            && s'.At(x).state == s.At(x).state && s'.At(x).rmtDisc == s.At(x).rmtDisc
            && s'.At(x.Other()).state == NextState(s.At(x.Other()).state, s.At(x).state)
            && (s'.At(x.Other()).state.Rank() > Down.Rank() ==> s'.At(x.Other()).rmtDisc == s.At(x).disc)
  {
    SendEffect(s, x, env);
    DoKeeps(s.At(x), Put(env));
    DeliverEffect(Perform(s, Sending(x, env)), x.Other(), |s.log|, env);
  }

  function ExchangeSteps(x: Side, what: nat, env: Env): seq<Step> {
    [Sending(x, env), Delivering(x.Other(), what, 255, env)]
  }

  lemma ExecuteExchange(dl: nat, dr: nat, cfg: Config, env: Env, t: seq<Step>, x: Side)
    ensures var s := Execute(dl, dr, cfg, env, t);
            Execute(dl, dr, cfg, env, t + ExchangeSteps(x, |s.log|, env)) == Exchange(s, x, env)
  {
    var n := |Execute(dl, dr, cfg, env, t).log|;
    var (a, b) := (Sending(x, env), Delivering(x.Other(), n, 255, env));
    ExecuteNext(dl, dr, cfg, env, t, a);
    ExecuteNext(dl, dr, cfg, env, t + [a], b);
    assert t + ExchangeSteps(x, n, env) == t + [a] + [b];
  }

  lemma ExecuteNext(dl: nat, dr: nat, cfg: Config, env: Env, t: seq<Step>, a: Step)
    ensures Execute(dl, dr, cfg, env, t + [a]) == Perform(Execute(dl, dr, cfg, env, t), a)
  {
    assert (t + [a])[..|t|] == t;
  }

  function HandshakeSteps(env: Env): seq<Step> {
    ExchangeSteps(Left, 2, env) + ExchangeSteps(Right, 4, env) + ExchangeSteps(Left, 6, env)
  }

  /** Three delivered packets bring both endpoints Up. */
  lemma BothComeUp(dl: nat, dr: nat, cfg: Config, env: Env)
    requires dl != 0 && dr != 0
    ensures var s := Execute(dl, dr, cfg, env, HandshakeSteps(env)); s.left.state == Up && s.right.state == Up
  {
    FirstConfigure(dl, cfg, env);
    FirstConfigure(dr, cfg, env);
    ConfigureNews(Fresh(dl, env), cfg, env);
    ConfigureNews(Fresh(dr, env), cfg, env);
    FreshKnowsNobody(dl, cfg, env);
    var s0 := Start(dl, dr, cfg, env);
    var s1 := Exchange(s0, Left, env);
    var s2 := Exchange(s1, Right, env);
    ExchangeEffect(s0, Left, env);
    ExchangeEffect(s1, Right, env);
    ExchangeEffect(s2, Left, env);
    assert [] + ExchangeSteps(Left, 2, env) == ExchangeSteps(Left, 2, env);
    ExecuteExchange(dl, dr, cfg, env, [], Left);
    ExecuteExchange(dl, dr, cfg, env, ExchangeSteps(Left, 2, env), Right);
    ExecuteExchange(dl, dr, cfg, env, ExchangeSteps(Left, 2, env) + ExchangeSteps(Right, 4, env), Left);
  }
}
