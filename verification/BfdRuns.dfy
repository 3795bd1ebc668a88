/**
  The packets that a BFD session sends over a whole run (lib/bfd.c): what holds of each
  of them, and that every Poll is answered by exactly one Final (section 6.5 of
  RFC 5880).
 */
module BfdRuns {
  import opened Collections
  import opened BfdModel
  import opened BfdSession

  /** A packet, with the intervals in milliseconds from which its fields were made. */
  datatype Sent = Sent(msg: Msg, minTx: int, minRx: int)

  function PacketOf(b: Session): Sent {
    Sent(Packet(b), AdvertisedMinTx(b), AdvertisedMinRx(b))
  }

  /** The packets of a run, in order. */
  function SentBy(disc: nat, cfg: Config, env: Env, actions: seq<Action>): seq<Sent> {
    if actions == [] then []
    else
      var before := actions[..|actions| - 1];
      SentBy(disc, cfg, env, before)
      + (if actions[|actions| - 1].Put? then [PacketOf(After(disc, cfg, env, before))] else [])
  }

  /** What holds of every packet: never Poll with Final, never AdminDown, intervals of at
      least 100 ms before they are converted, the sender's own discriminator, and the
      peer's once the session is Init or Up. */
  predicate PacketOk(disc: nat, s: Sent) {
    && !(s.msg.flags.poll && s.msg.flags.final)
    && s.msg.state != AdminDown
    && s.minTx >= 100 && s.minRx >= 100 && s.msg.minTx == OnWire(s.minTx) && s.msg.minRx == OnWire(s.minRx)
    && s.msg.myDisc == disc && disc != 0
    && (s.msg.state.Rank() > Down.Rank() ==> s.msg.yourDisc != 0)
  }

  // ----------------------------------------------------- one discriminator

  lemma ConfigureDisc(b: Session, cfg: Config, env: Env)
    ensures Configure(b, cfg, env).disc == b.disc && Configure(b, cfg, env).final == b.final
  {
    var (tx, rx) := (Max(cfg.minTx, 100), Max(cfg.minRx, 100));
    ConfigureTxRxFrame(b, tx, rx);
    var b1 := ConfigureRx(ConfigureTx(b, tx), rx);
    ConfigureRestFrame(b1, cfg, b.cfgMinRx != rx, env);
    PollFrame(ConfigureRest(b1, cfg, b.cfgMinRx != rx, env));
  }

  lemma RunDisc(b: Session, env: Env)
    ensures Run(b, env).disc == b.disc && Run(b, env).final == b.final
  {
    RunFrame(b, env);
    PollFrame(CheckRx(CheckDecay(Expire(b, env), env), env));
  }

  lemma ReactDisc(b: Session, rmt: State, env: Env)
    ensures React(b, rmt, env).disc == b.disc && React(b, rmt, env).final == b.final
  {
    SetStateFrame(b, Down, DIAG_RMT_DOWN, env);
    SetStateFrame(b, Up, b.diag, env);
    SetStateFrame(b, Init, b.diag, env);
  }

  lemma LearnDiscFinal(b: Session, m: Msg, env: Env)
    ensures Learn(b, m, env).disc == b.disc && Learn(b, m, env).final == (b.final || m.flags.poll)
  {
    var b1 := LearnPoll(LearnRemote(b, m), m.flags);
    assert b1.disc == b.disc && b1.final == (b.final || m.flags.poll);
    LearnIntervalsFrame(b1, m, env);
  }

  lemma LearnIntervalsFrame(b: Session, m: Msg, env: Env)
    ensures LearnIntervals(b, m, env).disc == b.disc && LearnIntervals(b, m, env).final == b.final
  {
  }

  /** A believed packet with Poll, and only that, makes the session owe a Final. */
  lemma ProcessDisc(b: Session, ttl: nat, msg: Option<Msg>, env: Env)
    ensures var b' := Process(b, ttl, msg, env);
            b'.disc == b.disc && b'.final == (b.final || (Accepts(b, ttl, msg) && msg.value.flags.poll))
  {
    var b1 := CountControl(b);
    assert b1.disc == b.disc && b1.final == b.final;
    if Accepts(b, ttl, msg) {
      LearnDiscFinal(b1, msg.value, env);
      ReactDisc(Learn(b1, msg.value, env), msg.value.state, env);
    }
  }

  /** What one action does to the session's discriminator and its debt. */
  lemma DoDisc(b: Session, a: Action)
    ensures Do(b, a).disc == b.disc
    ensures Do(b, a).final ==
            match a
            case Put(_) => false
            case Receive(ttl, msg, _) => b.final || (Accepts(b, ttl, msg) && msg.value.flags.poll)
            case _ => b.final
  {
    match a
    case Reconfigure(cfg, env) => ConfigureDisc(b, cfg, env);
    case Tick(env) => RunDisc(b, env);
    case Put(env) =>
    case Receive(ttl, msg, env) => ProcessDisc(b, ttl, msg, env);
  }

  lemma {:induction false} SameDisc(disc: nat, cfg: Config, env: Env, actions: seq<Action>)
    ensures After(disc, cfg, env, actions).disc == disc
  {
    if actions == [] {
      ConfigureDisc(Fresh(disc, env), cfg, env);
      SetStateFrame(Zero(disc, env), Down, DIAG_NONE, env);
    } else {
      SameDisc(disc, cfg, env, actions[..|actions| - 1]);
      DoDisc(After(disc, cfg, env, actions[..|actions| - 1]), actions[|actions| - 1]);
    }
  }

  // ----------------------------------------------------- Poll and Final

  /** Whether a Poll has been believed since the last packet was sent. */
  predicate PollUnanswered(disc: nat, cfg: Config, env: Env, actions: seq<Action>) {
    actions != [] &&
    var before := actions[..|actions| - 1];
    match actions[|actions| - 1]
    case Put(_) => false
    case Receive(ttl, msg, _) =>
      || (Accepts(After(disc, cfg, env, before), ttl, msg) && msg.value.flags.poll)
      || PollUnanswered(disc, cfg, env, before)
    case _ => PollUnanswered(disc, cfg, env, before)
  }

  /** In every run, the next packet carries Final exactly when a Poll has been believed
      since the last packet: every Poll is answered, once, and nothing else is. */
  lemma {:induction false} FinalAnswersPoll(disc: nat, cfg: Config, env: Env, actions: seq<Action>)
    ensures Packet(After(disc, cfg, env, actions)).flags.final <==> PollUnanswered(disc, cfg, env, actions)
  {
    if actions == [] {
      ConfigureDisc(Fresh(disc, env), cfg, env);
      SetStateFrame(Zero(disc, env), Down, DIAG_NONE, env);
    } else {
      var before := actions[..|actions| - 1];
      FinalAnswersPoll(disc, cfg, env, before);
      DoDisc(After(disc, cfg, env, before), actions[|actions| - 1]);
    }
  }

  // ------------------------------------------------------- every packet

  lemma PacketIsOk(disc: nat, cfg: Config, env: Env, actions: seq<Action>)
    requires disc != 0
    ensures PacketOk(disc, PacketOf(After(disc, cfg, env, actions)))
  {
    EveryRunKeepsInv(disc, cfg, env, actions);
    SameDisc(disc, cfg, env, actions);
  }

  /** Every packet of every run is as it should be. */
  lemma {:induction false} EveryPacketOk(disc: nat, cfg: Config, env: Env, actions: seq<Action>)
    requires disc != 0
    ensures forall s | s in SentBy(disc, cfg, env, actions) :: PacketOk(disc, s)
  {
    if actions != [] {
      EveryPacketOk(disc, cfg, env, actions[..|actions| - 1]);
      PacketIsOk(disc, cfg, env, actions[..|actions| - 1]);
    }
  }

  /** One action on the object; 'sent' is the packet, if the action sends one. */
  method Perform(b: Bfd, a: Action) returns (sent: seq<Sent>)
    requires b.Valid()
    modifies b
    ensures b.Valid() && b.bfd == Do(old(b.bfd), a)
    ensures sent == if a.Put? then [PacketOf(old(b.bfd))] else []
  {
    sent := [];
    match a {
      case Reconfigure(cfg, env) => b.Configure(cfg, env);
      case Tick(env) => b.Run(env);
      case Put(env) =>
        var msg, tx, rx := b.PutPacket(env);
        sent := [Sent(msg, tx, rx)];
      case Receive(ttl, msg, env) => b.ProcessPacket(ttl, msg, env);
    }
  }

  /** A session object through a whole run: the packets that it sends, and what holds of
      each. */
  method Drive(disc: nat, cfg: Config, env: Env, actions: seq<Action>) returns (b: Bfd, sent: seq<Sent>)
    requires disc != 0
    ensures b.Valid() && b.bfd == After(disc, cfg, env, actions)
    ensures sent == SentBy(disc, cfg, env, actions)
    ensures forall s | s in sent :: PacketOk(disc, s)
  {
    b := new Bfd(disc, cfg, env);
    sent := [];
    var i := 0;
    assert actions[..0] == [];
    while i < |actions|
      invariant i <= |actions| && fresh(b) && b.Valid()
      invariant b.bfd == After(disc, cfg, env, actions[..i]) && sent == SentBy(disc, cfg, env, actions[..i])
    {
      assert actions[..i + 1][..i] == actions[..i];
      var more := Perform(b, actions[i]);
      sent := sent + more;
      i := i + 1;
    }
    assert actions[..i] == actions;
    EveryPacketOk(disc, cfg, env, actions);
  }
}
