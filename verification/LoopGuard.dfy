/**
  The recursion guard of ovs_execute_actions() (datapath/actions.c): a packet
  sent to some ports comes back into the datapath at once, so executing one
  flow's actions can execute others, nested.  More than MAX_LOOPS levels count
  as a loop.
 */
module LoopGuard {
  import opened Collections
  import opened Actions

  const MAX_LOOPS: nat := 4

  type FlowId = nat

  /** The ports, and which flow a packet sent to a port comes back to, if any. */
  datatype Net<!P> = Net(vports: Vports, reenters: (nat, P) -> Option<(FlowId, P)>)

  type Table<!P> = map<FlowId, seq<Action<P>>>

  function ActionsOf<P>(acts: Table<P>, f: FlowId): seq<Action<P>> {
    if f in acts then acts[f] else []
  }

  /** The per-CPU loop counter and every flow's actions. */
  datatype Guard<!P> = Guard(count: nat, looping: bool, acts: Table<P>)

  function Suppress<P>(g: Guard<P>, f: FlowId): Guard<P> {
    g.(acts := g.acts[f := []])
  }

  /** Entering and leaving ovs_execute_actions(). */
  function Enter<P>(g: Guard<P>): Guard<P> {
    g.(count := g.count + 1, looping := g.looping || g.count + 1 > MAX_LOOPS)
  }

  function Leave<P>(g: Guard<P>): Guard<P>
    requires g.count > 0
  {
    g.(count := g.count - 1, looping := g.looping && g.count > 1)
  }

  /** ovs_execute_actions() for flow 'f'. */
  function RunFlow<P>(net: Net<P>, f: FlowId, packet: P, g: Guard<P>): (r: (seq<Event<P>>, Guard<P>))
    requires g.count <= MAX_LOOPS
    ensures r.1.count == g.count
    decreases MAX_LOOPS + 1 - g.count, 0
  {
    var g1 := Enter(g);
    if g1.looping then ([], Leave(Suppress(g1, f)))
    else
      var (t, g2) := RunEvents(net, Naive(net.vports, ActionsOf(g.acts, f), packet, false).trace, g1);
      (t, Leave(if g2.looping then Suppress(g2, f) else g2))
  }

  /** The sends of one flow's actions, each with the execution it sets off. */
  function RunEvents<P>(net: Net<P>, events: seq<Event<P>>, g: Guard<P>): (r: (seq<Event<P>>, Guard<P>))
    requires 0 < g.count <= MAX_LOOPS
    ensures r.1.count == g.count
    decreases MAX_LOOPS + 1 - g.count, 1 + |events|
  {
    if events == [] then ([], g)
    else
      var (t, g1) := RunEvent(net, events[0], g);
      var (t', g2) := RunEvents(net, events[1..], g1);
      ([events[0]] + t + t', g2)
  }

  function RunEvent<P>(net: Net<P>, e: Event<P>, g: Guard<P>): (r: (seq<Event<P>>, Guard<P>))
    requires 0 < g.count <= MAX_LOOPS
    ensures r.1.count == g.count
    decreases MAX_LOOPS + 1 - g.count, 1
  {
    match e
    case Sent(port, packet) =>
      (match net.reenters(port, packet)
       case Some((f, p)) => RunFlow(net, f, p, g)
       case None => ([], g))
    case Upcall(_, _) => ([], g)
  }

  // ------------------------------------------------ the unguarded meaning

  /** Executing flow 'f' without a guard, cut off below 'depth' levels; the
      second part tells whether anything was cut off. */
  function Unguarded<P>(net: Net<P>, acts: Table<P>, f: FlowId, packet: P, depth: nat): (seq<Event<P>>, bool)
    decreases depth, 0
  {
    if depth == 0 then ([], true)
    else UnguardedEvents(net, acts, Naive(net.vports, ActionsOf(acts, f), packet, false).trace, depth - 1)
  }

  function UnguardedEvents<P>(net: Net<P>, acts: Table<P>, events: seq<Event<P>>, depth: nat): (seq<Event<P>>, bool)
    decreases depth, 2 + |events|
  {
    if events == [] then ([], false)
    else
      var (t, over) := UnguardedEvent(net, acts, events[0], depth);
      var (t', over') := UnguardedEvents(net, acts, events[1..], depth);
      ([events[0]] + t + t', over || over')
  }

  function UnguardedEvent<P>(net: Net<P>, acts: Table<P>, e: Event<P>, depth: nat): (seq<Event<P>>, bool)
    decreases depth, 1
  {
    match e
    case Sent(port, packet) =>
      (match net.reenters(port, packet)
       case Some((f, p)) => Unguarded(net, acts, f, p, depth)
       case None => ([], false))
    case Upcall(_, _) => ([], false)
  }

  // -------------------------------------------------- the guard is invisible

  /** While nothing nests deeper than MAX_LOOPS, the guard changes nothing. */
  lemma {:induction false} GuardInvisible<P>(net: Net<P>, f: FlowId, packet: P, g: Guard<P>)
    requires g.count <= MAX_LOOPS && !g.looping
    requires !Unguarded(net, g.acts, f, packet, MAX_LOOPS - g.count).1
    ensures RunFlow(net, f, packet, g) == (Unguarded(net, g.acts, f, packet, MAX_LOOPS - g.count).0, g)
    decreases MAX_LOOPS + 1 - g.count, 0
  {
    EventsInvisible(net, Naive(net.vports, ActionsOf(g.acts, f), packet, false).trace, Enter(g));
  }

  lemma {:induction false} EventsInvisible<P>(net: Net<P>, events: seq<Event<P>>, g: Guard<P>)
    requires 0 < g.count <= MAX_LOOPS && !g.looping
    requires !UnguardedEvents(net, g.acts, events, MAX_LOOPS - g.count).1
    ensures RunEvents(net, events, g) == (UnguardedEvents(net, g.acts, events, MAX_LOOPS - g.count).0, g)
    decreases MAX_LOOPS + 1 - g.count, 1 + |events|
  {
    if events != [] {
      if events[0].Sent? && net.reenters(events[0].port, events[0].packet).Some? {
        var (f, p) := net.reenters(events[0].port, events[0].packet).value;
        GuardInvisible(net, f, p, g);
      }
      EventsInvisible(net, events[1..], g);
    }
  }

  // -------------------------------------------------- the guard breaks loops

  /** Once a loop is noticed, it stays noticed until the outermost exit. */
  lemma {:induction false} LoopingStays<P>(net: Net<P>, events: seq<Event<P>>, g: Guard<P>)
    requires 0 < g.count <= MAX_LOOPS && g.looping
    ensures RunEvents(net, events, g).1.looping
    decreases |events|
  {
    if events != [] {
      if events[0].Sent? && net.reenters(events[0].port, events[0].packet).Some? {
        var (f, p) := net.reenters(events[0].port, events[0].packet).value;
        assert RunFlow(net, f, p, g).1.looping;
      }
      LoopingStays(net, events[1..], RunEvent(net, events[0], g).1);
    }
  }

  /** Nesting too deep is always noticed: the flow loses its actions. */
  lemma {:induction false} LoopSuppressed<P>(net: Net<P>, f: FlowId, packet: P, g: Guard<P>)
    requires g.count <= MAX_LOOPS && !g.looping
    requires Unguarded(net, g.acts, f, packet, MAX_LOOPS - g.count).1
    ensures var g' := RunFlow(net, f, packet, g).1;
            ActionsOf(g'.acts, f) == [] && (g'.looping <==> g.count > 0)
    decreases MAX_LOOPS + 1 - g.count, 0
  {
    if g.count < MAX_LOOPS {
      LoopNoticed(net, Naive(net.vports, ActionsOf(g.acts, f), packet, false).trace, Enter(g));
    }
  }

  lemma {:induction false} LoopNoticed<P>(net: Net<P>, events: seq<Event<P>>, g: Guard<P>)
    requires 0 < g.count <= MAX_LOOPS && !g.looping
    requires UnguardedEvents(net, g.acts, events, MAX_LOOPS - g.count).1
    ensures RunEvents(net, events, g).1.looping
    decreases MAX_LOOPS + 1 - g.count, 1 + |events|
  {
    var (e, g1) := (events[0], RunEvent(net, events[0], g).1);
    if UnguardedEvent(net, g.acts, e, MAX_LOOPS - g.count).1 {
      var (f, p) := net.reenters(e.port, e.packet).value;
      LoopSuppressed(net, f, p, g);
      LoopingStays(net, events[1..], g1);
    } else {
      EventsInvisible(net, [e], g);
      assert RunEvents(net, [e], g).1 == g1;
      LoopNoticed(net, events[1..], g1);
    }
  }

  /** From an idle CPU, executing a flow is exactly the unguarded execution when
      that nests at most MAX_LOOPS deep; otherwise the flow does nothing from
      then on.  Either way the CPU is idle again afterwards. */
  lemma GuardExact<P>(net: Net<P>, f: FlowId, packet: P, acts: Table<P>)
    ensures var (t, over) := Unguarded(net, acts, f, packet, MAX_LOOPS);
            var (t', g') := RunFlow(net, f, packet, Guard(0, false, acts));
            && g'.count == 0 && !g'.looping
            && (!over ==> t' == t && g'.acts == acts)
            && (over ==> forall p: P :: RunFlow(net, f, p, g') == ([], g'))
  {
    var g := Guard(0, false, acts);
    if Unguarded(net, acts, f, packet, MAX_LOOPS).1 {
      LoopSuppressed(net, f, packet, g);
      var g' := RunFlow(net, f, packet, g).1;
      forall p: P ensures RunFlow(net, f, p, g') == ([], g') {
        assert Naive(net.vports, [], p, false).trace == [];
      }
    } else {
      GuardInvisible(net, f, packet, g);
    }
  }

  // ------------------------------------------------------ the code itself

  class Cpu<!P> {
    const net: Net<P>
    var count: nat
    var looping: bool
    var acts: Table<P>

    constructor (net: Net<P>, acts: Table<P>)
      ensures View() == Guard(0, false, acts) && this.net == net
    {
      this.net, this.acts := net, acts;
      count, looping := 0, false;
    }

    function View(): Guard<P>
      reads this
    {
      Guard(count, looping, acts)
    }

    /** ovs_execute_actions(). */
    method ExecuteActions(f: FlowId, packet: P) returns (trace: seq<Event<P>>)
      requires count <= MAX_LOOPS
      modifies this
      ensures (trace, View()) == RunFlow(net, f, packet, old(View()))
      decreases MAX_LOOPS + 1 - count, 0
    {
      trace := [];
      var mine := ActionsOf(acts, f);
      count := count + 1;
      if count > MAX_LOOPS {
        looping := true;
      }
      if looping {
        acts := acts[f := []];
      } else {
        var events, p, e, r := Execute(net.vports, mine, packet, false);
        trace := Deliver(events);
        if looping {
          acts := acts[f := []];
        }
      }
      count := count - 1;
      if count == 0 {
        looping := false;
      }
    }

    /** The sends of one execution, each handled before the next is made. */
    method Deliver(events: seq<Event<P>>) returns (trace: seq<Event<P>>)
      requires 0 < count <= MAX_LOOPS
      modifies this
      ensures (trace, View()) == RunEvents(net, events, old(View()))
      decreases MAX_LOOPS + 1 - count, 1 + |events|
    {
      if events == [] {
        return [];
      }
      var nested := [];
      if events[0].Sent? {
        var again := net.reenters(events[0].port, events[0].packet);
        if again.Some? {
          nested := ExecuteActions(again.value.0, again.value.1);
        }
      }
      var rest := Deliver(events[1..]);
      trace := [events[0]] + nested + rest;
    }
  }
}
