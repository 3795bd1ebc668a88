/**
  A BFD session as an object (lib/bfd.c): each operation updates the session's
  fields step by step and is proved to have the effect that BfdModel gives it.
 */
module BfdSession {
  import opened Collections
  import opened BfdModel

  class Bfd {
    /** The fields of struct bfd. */
    var bfd: Session

    ghost predicate Valid()
      reads this
    {
      Inv(bfd)
    }

    /** The part of bfd_configure() that creates a session. */
    constructor (disc: nat, cfg: Config, env: Env)
      requires disc != 0
      ensures Valid() && bfd == After(disc, cfg, env, [])
    {
      bfd := Session(disc, false, 3, env.rxPackets, AdminDown, AdminDown, DIAG_NONE, DIAG_NONE,
                     false, false, NO_FLAGS, 0, 0, 0, 0, 0, 0, 0, 1000, 0, 0, 0, 0,
                     false, 0, false, 0, 0, 0, 0);
      new;
      SetState(Down, DIAG_NONE, env);
      Configure(cfg, env);
      FirstConfigure(disc, cfg, env);
    }

    method SetNextTx(env: Env)
      modifies this
      ensures bfd == BfdModel.SetNextTx(old(bfd), env)
    {
      var interval := TxInterval(bfd);
      interval := interval - interval * env.jitter / 100;
      bfd := bfd.(nextTx := bfd.lastTx + interval);
    }

    /** bfd_poll(). */
    method StartPoll()
      modifies this
      ensures bfd == Poll(old(bfd))
    {
      if bfd.state.Rank() > Down.Rank() && !bfd.poll && !bfd.final {
        bfd := bfd.(pollMinTx := bfd.cfgMinTx);
        bfd := bfd.(pollMinRx := if bfd.inDecay then bfd.decayMinRx else bfd.cfgMinRx);
        bfd := bfd.(poll := true, nextTx := 0);
      }
    }

    method SetState(state: State, diag: nat, env: Env)
      modifies this
      ensures bfd == BfdModel.SetState(old(bfd), state, diag, env)
    {
      var d := diag;
      if d == DIAG_NONE && bfd.cpathDown {
        d := DIAG_CPATH_DOWN;
      }
      if bfd.state != state || bfd.diag != d {
        bfd := bfd.(state := state, diag := d);
        if bfd.state.Rank() <= Down.Rank() {
          ForgetPeer();
        }
        if bfd.state == Up && bfd.decayMinRx != 0 {
          bfd := DecayUpdate(bfd, env);
        }
      }
    }

    method ForgetPeer()
      modifies this
      ensures bfd == ForgetRemote(old(bfd))
    {
      bfd := bfd.(rmtState := Down, rmtDiag := DIAG_NONE, rmtMinRx := 1, rmtFlags := NO_FLAGS);
      bfd := bfd.(rmtDisc := 0, rmtMinTx := 0);
      if bfd.inDecay {
        bfd := bfd.(minRx := bfd.cfgMinRx, inDecay := false);
      }
    }

    /** bfd_configure() on an existing session. */
    method Configure(cfg: Config, env: Env)
      modifies this
      ensures bfd == BfdModel.Configure(old(bfd), cfg, env)
      ensures old(Valid()) ==> Valid()
    {
      ghost var b := bfd;
      var txChanged := SetMinTx(Max(cfg.minTx, 100));
      var rxChanged := SetMinRx(Max(cfg.minRx, 100));
      var decayChanged := SetDecay(cfg.decayMinRx, rxChanged, env);
      var cpathChanged := SetCpath(cfg.cpathDown, env);
      SetForwarding(cfg.forwardingIfRx, env);
      if txChanged || rxChanged || decayChanged || cpathChanged {
        StartPoll();
      }
      if Inv(b) { ConfigureKeeps(b, cfg, env); }
    }

    method SetMinTx(tx: int) returns (changed: bool)
      modifies this
      ensures bfd == ConfigureTx(old(bfd), tx) && changed == (old(bfd).cfgMinTx != tx)
      ensures bfd.cpathDown == old(bfd).cpathDown && bfd.cfgMinRx == old(bfd).cfgMinRx && bfd.decayMinRx == old(bfd).decayMinRx
    {
      changed := bfd.cfgMinTx != tx;
      if changed {
        bfd := bfd.(cfgMinTx := tx);
        if bfd.state != Up || (!bfd.poll && bfd.cfgMinTx < bfd.minTx) {
          bfd := bfd.(minTx := bfd.cfgMinTx);
        }
      }
    }

    method SetMinRx(rx: int) returns (changed: bool)
      modifies this
      ensures bfd == ConfigureRx(old(bfd), rx) && changed == (old(bfd).cfgMinRx != rx)
      ensures bfd.cpathDown == old(bfd).cpathDown && bfd.decayMinRx == old(bfd).decayMinRx
    {
      changed := bfd.cfgMinRx != rx;
      if changed {
        bfd := bfd.(cfgMinRx := rx);
        if bfd.state != Up || (!bfd.poll && bfd.cfgMinRx > bfd.minRx) {
          bfd := bfd.(minRx := bfd.cfgMinRx);
        }
      }
    }

    method SetDecay(decayMinRx: int, rxChanged: bool, env: Env) returns (changed: bool)
      modifies this
      ensures bfd == ConfigureDecay(old(bfd), decayMinRx, rxChanged, env)
      ensures changed == (old(bfd).decayMinRx != decayMinRx || rxChanged)
      ensures bfd.cpathDown == old(bfd).cpathDown
    {
      changed := bfd.decayMinRx != decayMinRx || rxChanged;
      if changed {
        if decayMinRx > 0 && decayMinRx < bfd.cfgMinRx {
          bfd := bfd.(decayMinRx := 0);
        } else {
          bfd := bfd.(decayMinRx := decayMinRx);
        }
        bfd := DecayUpdate(bfd.(inDecay := false), env);
      }
    }

    method SetCpath(cpathDown: bool, env: Env) returns (changed: bool)
      modifies this
      ensures bfd == ConfigureCpath(old(bfd), cpathDown, env)
      ensures changed == (old(bfd).cpathDown != cpathDown)
    {
      changed := bfd.cpathDown != cpathDown;
      if changed {
        bfd := bfd.(cpathDown := cpathDown);
        if bfd.diag == DIAG_NONE || bfd.diag == DIAG_CPATH_DOWN {
          SetState(bfd.state, DIAG_NONE, env);
        }
      }
    }

    method SetForwarding(forwardingIfRx: bool, env: Env)
      modifies this
      ensures bfd == ConfigureForwarding(old(bfd), forwardingIfRx, env)
    {
      if bfd.forwardingIfRx != forwardingIfRx {
        bfd := bfd.(forwardingIfRx := forwardingIfRx);
        if bfd.state == Up && bfd.forwardingIfRx {
          bfd := ForwardingUpdate(bfd, env);
        } else {
          bfd := bfd.(forwardingDetectTime := 0);
        }
      }
    }

    /** bfd_run(). */
    method Run(env: Env)
      modifies this
      ensures bfd == BfdModel.Run(old(bfd), env)
      ensures old(Valid()) ==> Valid()
    {
      ghost var b := bfd;
      var oldInDecay := bfd.inDecay;
      DetectExpiry(env);
      DetectDecay(env);
      CheckReceived(env);
      if bfd.minTx != bfd.cfgMinTx
         || (bfd.minRx != bfd.cfgMinRx && bfd.minRx != bfd.decayMinRx)
         || bfd.inDecay != oldInDecay {
        StartPoll();
      }
      if Inv(b) { RunKeeps(b, env); }
    }

    method DetectExpiry(env: Env)
      modifies this
      ensures bfd == Expire(old(bfd), env)
    {
      if bfd.state.Rank() > Down.Rank() && env.now >= bfd.detectTime {
        SetState(Down, DIAG_EXPIRED, env);
      }
    }

    method DetectDecay(env: Env)
      modifies this
      ensures bfd == CheckDecay(old(bfd), env)
    {
      if bfd.state == Up && bfd.decayMinRx > 0 && env.now >= bfd.decayDetectTime {
        var diff := Diff64(env.rxPackets, bfd.decayRxPackets);
        bfd := bfd.(inDecay := diff <= 2 * Max(bfd.decayRxCtl, 1));
        bfd := DecayUpdate(bfd, env);
      }
    }

    /** bfd_check_rx(). */
    method CheckReceived(env: Env)
      modifies this
      ensures bfd == CheckRx(old(bfd), env)
    {
      var diff := Diff64(env.rxPackets, bfd.rxPackets);
      bfd := bfd.(rxPackets := env.rxPackets);
      if bfd.forwardingIfRx && diff > 0 {
        bfd := ForwardingUpdate(bfd, env);
      }
    }

    /** bfd_put_packet(): the assertion on Poll and Final never fires.  'tx' and 'rx' are
        the intervals before they are converted for the wire. */
    method PutPacket(env: Env) returns (msg: Msg, tx: int, rx: int)
      requires Valid()
      modifies this
      ensures msg == Packet(old(bfd)) && !(msg.flags.poll && msg.flags.final)
      ensures tx == AdvertisedMinTx(old(bfd)) && rx == AdvertisedMinRx(old(bfd))
      ensures Valid() && bfd == AfterPut(old(bfd), env)
    {
      assert !bfd.poll || !bfd.final;
      tx, rx := MinTx(bfd), bfd.minRx;
      if bfd.poll {
        tx, rx := bfd.pollMinTx, bfd.pollMinRx;
      }
      msg := Msg(BFD_VERSION, bfd.diag, bfd.state, NO_FLAGS.(poll := bfd.poll, final := bfd.final), bfd.mult,
                 BFD_PACKET_LEN, bfd.disc, bfd.rmtDisc, OnWire(tx), OnWire(rx), 0);
      bfd := bfd.(final := false);
      bfd := bfd.(lastTx := env.now);
      SetNextTx(env);
    }

    /** bfd_process_packet(). */
    method ProcessPacket(ttl: nat, msg: Option<Msg>, env: Env)
      modifies this
      ensures bfd == Process(old(bfd), ttl, msg, env)
      ensures old(Valid()) ==> Valid()
    {
      ghost var b := bfd;
      if Inv(b) { ProcessKeeps(b, ttl, msg, env); }
      bfd := bfd.(decayRxCtl := bfd.decayRxCtl + 1);
      if ttl != 255 || msg.None? { return; }
      var m := msg.value;
      if m.version != BFD_VERSION || m.flags.auth { return; }
      if m.length < BFD_PACKET_LEN || m.mult == 0 || m.flags.multipoint || m.myDisc == 0 { return; }
      if m.yourDisc != 0 {
        if m.yourDisc != bfd.disc { return; }
      } else if m.state.Rank() > Down.Rank() {
        return;
      }
      bfd := bfd.(rmtDisc := m.myDisc, rmtState := m.state, rmtFlags := m.flags, rmtDiag := m.diag);
      FollowPoll(m.flags);
      FollowIntervals(m, env);
      ReactTo(m.state, env);
    }

    method FollowPoll(flags: Flags)
      modifies this
      ensures bfd == LearnPoll(old(bfd), flags)
    {
      if flags.final && bfd.poll {
        bfd := bfd.(minTx := bfd.pollMinTx);
        bfd := bfd.(minRx := bfd.pollMinRx);
        bfd := bfd.(poll := false);
      }
      if flags.poll {
        bfd := bfd.(poll := false);
        bfd := bfd.(final := true);
      }
    }

    method FollowIntervals(m: Msg, env: Env)
      modifies this
      ensures bfd == LearnIntervals(old(bfd), m, env)
    {
      var rx := Max(m.minRx / 1000, 1);
      if bfd.rmtMinRx != rx {
        bfd := bfd.(rmtMinRx := rx);
        SetNextTx(env);
      }
      bfd := bfd.(rmtMinTx := Max(m.minTx / 1000, 1));
      bfd := bfd.(detectTime := RxInterval(bfd) * bfd.mult + env.now);
    }

    method ReactTo(rmt: State, env: Env)
      modifies this
      ensures bfd == React(old(bfd), rmt, env)
    {
      if bfd.state == AdminDown { return; }
      if rmt == AdminDown {
        if bfd.state != Down {
          SetState(Down, DIAG_RMT_DOWN, env);
        }
      } else {
        match bfd.state
        case AdminDown =>
        case Down =>
          if rmt == Down {
            SetState(Init, bfd.diag, env);
          } else if rmt == Init {
            SetState(Up, bfd.diag, env);
          }
        case Init =>
          if rmt.Rank() > Down.Rank() {
            SetState(Up, bfd.diag, env);
          }
        case Up =>
          if rmt.Rank() <= Down.Rank() {
            SetState(Down, DIAG_RMT_DOWN, env);
          }
      }
    }
  }
}
