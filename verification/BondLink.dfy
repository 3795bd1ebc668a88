/**
  The timed link state of a bond slave (bond_link_status_update() in
  lib/bond.c): a slave is enabled or disabled exactly when its link has been
  steadily up or down for the configured delay.
 */
module BondLink {
  import opened Collections

  /** 'delayExpires' is None for LLONG_MAX. */
  datatype Link = Link(enabled: bool, delayExpires: Option<int>)

  /** The bond's delays, in milliseconds, and whether LACP is in use. */
  datatype Delays = Delays(up: nat, down: nat, lacp: bool)

  /** One call of bond_link_status_update(): the time, and whether the link has
      carrier and may be enabled. */
  datatype Observation = Observation(now: int, up: bool)

  function Delay(d: Delays, up: bool): nat {
    if d.lacp then 0 else if up then d.up else d.down
  }

  function StartOrCancel(l: Link, d: Delays, o: Observation): Link {
    if (o.up == l.enabled) == l.delayExpires.None? then l
    else if o.up == l.enabled then l.(delayExpires := None)
    else l.(delayExpires := Some(o.now + Delay(d, o.up)))
  }

  function Update(l: Link, d: Delays, o: Observation): Link {
    var l1 := StartOrCancel(l, d, o);
    if l1.delayExpires.Some? && o.now >= l1.delayExpires.value then Link(o.up, None) else l1
  }

  /** The link after all of 'obs', from a slave that was just registered. */
  function After(enabled: bool, d: Delays, obs: seq<Observation>): Link {
    if obs == [] then Link(enabled, None)
    else Update(After(enabled, d, obs[..|obs| - 1]), d, obs[|obs| - 1])
  }

  ghost predicate InOrder(obs: seq<Observation>) {
    forall i, j | 0 <= i < j < |obs| :: obs[i].now <= obs[j].now
  }

  /** Observations m to n (inclusive) all found the link 'up' or all down. */
  ghost predicate Steady(obs: seq<Observation>, m: nat, n: nat, up: bool) {
    m <= n < |obs| && forall k | m <= k <= n :: obs[k].up == up
  }

  /** A pending change dates from an observation since which the link has been
      steady. */
  ghost predicate PendingSince(l: Link, d: Delays, obs: seq<Observation>, m: nat) {
    && l.delayExpires.Some?
    && m < |obs|
    && Steady(obs, m, |obs| - 1, !l.enabled)
    && l.delayExpires.value == obs[m].now + Delay(d, !l.enabled)
  }

  lemma {:induction false} PendingHasCause(enabled: bool, d: Delays, obs: seq<Observation>)
    ensures var l := After(enabled, d, obs);
            && (l.delayExpires.Some? ==> exists m: nat :: PendingSince(l, d, obs, m))
            && (obs != [] ==> (l.delayExpires.Some? <==> l.enabled != obs[|obs| - 1].up))
  {
    if obs != [] {
      var n := |obs| - 1;
      var (before, l) := (After(enabled, d, obs[..n]), After(enabled, d, obs));
      PendingHasCause(enabled, d, obs[..n]);
      if l.delayExpires.Some? {
        if before.delayExpires.Some? {
          var m: nat :| PendingSince(before, d, obs[..n], m);
          forall k | m <= k <= n ensures obs[k].up == !l.enabled {
            assert k < n ==> obs[..n][k] == obs[k];
          }
          assert PendingSince(l, d, obs, m);
        } else {
          assert PendingSince(l, d, obs, n);
        }
      }
    }
  }

  /** No flapping: a change at observation n ends a steady period of at least the
      delay. */
  lemma ChangeNeedsSteadyLink(enabled: bool, d: Delays, obs: seq<Observation>, n: nat)
    requires n < |obs|
    requires After(enabled, d, obs[..n + 1]).enabled != After(enabled, d, obs[..n]).enabled
    ensures exists m: nat :: Steady(obs, m, n, After(enabled, d, obs[..n + 1]).enabled)
              && obs[n].now - obs[m].now >= Delay(d, After(enabled, d, obs[..n + 1]).enabled)
  {
    var (before, l) := (After(enabled, d, obs[..n]), After(enabled, d, obs[..n + 1]));
    assert obs[..n + 1][..n] == obs[..n];
    PendingHasCause(enabled, d, obs[..n]);
    if before.delayExpires.Some? {
      var m: nat :| PendingSince(before, d, obs[..n], m);
      forall k | m <= k <= n ensures obs[k].up == l.enabled {
        assert k < n ==> obs[..n][k] == obs[k];
      }
      assert Steady(obs, m, n, l.enabled);
    } else {
      assert Steady(obs, n, n, l.enabled);
    }
  }

  /** During a steady period the slave already agrees or is due to change within
      the delay of the period's start. */
  lemma {:induction false} SteadyLinkProgress(enabled: bool, d: Delays, obs: seq<Observation>, m: nat, n: nat, up: bool)
    requires InOrder(obs) && Steady(obs, m, n, up)
    ensures var l := After(enabled, d, obs[..n + 1]);
            l.enabled == up || (l.delayExpires.Some? && l.delayExpires.value <= obs[m].now + Delay(d, up))
    decreases n - m
  {
    assert obs[..n + 1][..n] == obs[..n];
    if n > m {
      SteadyLinkProgress(enabled, d, obs, m, n - 1, up);
    } else {
      PendingHasCause(enabled, d, obs[..n]);
      var before := After(enabled, d, obs[..n]);
      if before.delayExpires.Some? {
        var i: nat :| PendingSince(before, d, obs[..n], i);
        assert obs[i].now <= obs[n].now;
      }
    }
  }

  /** A steady period of the delay's length always takes effect. */
  lemma SteadyLinkTakesEffect(enabled: bool, d: Delays, obs: seq<Observation>, m: nat, n: nat, up: bool)
    requires InOrder(obs) && Steady(obs, m, n, up)
    requires obs[n].now - obs[m].now >= Delay(d, up)
    ensures After(enabled, d, obs[..n + 1]).enabled == up
  {
    SteadyLinkProgress(enabled, d, obs, m, n, up);
    PendingHasCause(enabled, d, obs[..n + 1]);
    var l := After(enabled, d, obs[..n + 1]);
    assert obs[..n + 1][..n] == obs[..n];
    if l.enabled != up {
      var i: nat :| PendingSince(l, d, obs[..n + 1], i);
      assert l.delayExpires.value <= obs[n].now;
      NothingOverdue(After(enabled, d, obs[..n]), d, obs[n]);
      assert false;
    }
  }

  lemma NothingOverdue(l: Link, d: Delays, o: Observation)
    ensures var l' := Update(l, d, o); l'.delayExpires.Some? ==> l'.delayExpires.value > o.now
  {
  }

  /** The slave object that bond_run() updates. */
  class Slave {
    var enabled: bool
    var delayExpires: Option<int>

    constructor (carrier: bool)
      ensures View() == Link(carrier, None)
    {
      enabled, delayExpires := carrier, None;
    }

    function View(): Link
      reads this
    {
      Link(enabled, delayExpires)
    }

    /** bond_enable_slave(). */
    method Enable(enable: bool) returns (changed: bool)
      modifies this
      ensures View() == Link(enable, None) && changed == (old(enabled) != enable)
    {
      delayExpires := None;
      changed := enable != enabled;
      if changed {
        enabled := enable;
      }
    }

    /** bond_link_status_update(). */
    method LinkStatusUpdate(d: Delays, carrier: bool, mayEnable: bool, now: int)
      modifies this
      ensures View() == Update(old(View()), d, Observation(now, carrier && mayEnable))
    {
      var up := carrier && mayEnable;
      if (up == enabled) != delayExpires.None? {
        if up == enabled {
          delayExpires := None;
        } else {
          var delay := if d.lacp then 0 else if up then d.up else d.down;
          delayExpires := Some(now + delay);
        }
      }
      if delayExpires.Some? && now >= delayExpires.value {
        var changed := Enable(up);
      }
    }
  }
}
