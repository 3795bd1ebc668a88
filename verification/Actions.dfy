/**
  Executing a flow's actions on a packet (do_execute_actions() in
  datapath/actions.c).  The code puts off each output until the next action so
  that the last one need not clone the packet; here that is compared with an
  interpreter that clones at every output.
 */
module Actions {
  import opened Collections

  /** An action, with its outcome where the outcome is not up to the executor: a
      rewrite is any function of the packet that may fail, a sample records whether the
      random draw went in its favour, and an output whether there is memory for a clone of
      the packet, should one be made for it. */
  datatype Action<!P> =
    | Output(port: nat, clones: bool)                    // a u32 port number
    | Userspace(data: int)
    | Rewrite(f: P -> Option<P>, freesOnFailure: bool)   // set, pop_vlan; push_vlan frees
    | Sample(hit: bool, acts: seq<Action<P>>)

  /** What the outside sees. */
  datatype Event<P> = Sent(port: nat, packet: P) | Upcall(data: int, packet: P)

  /** The result of running actions: the events in order, the packet as it is
      afterwards, and the sample depth at which an action failed, if one did. */
  datatype Outcome<P> = Outcome(trace: seq<Event<P>>, packet: P, fail: Option<nat>)

  const DP_MAX_PORTS: nat := 65535
  const U32: nat := 0x1_0000_0000

  /** Port numbers that a vport can have. */
  type Vports = v: set<nat> | forall p | p in v :: p < DP_MAX_PORTS witness {}

  /** A u32 stored in a C int. */
  function AsInt(port: nat): int {
    if port % U32 < 0x8000_0000 then port % U32 else port % U32 - U32
  }

  /** do_output(): the port number is looked up as a u16; a packet for a missing
      vport is dropped. */
  function Emit<P>(vports: Vports, port: int, packet: P): seq<Event<P>> {
    if port % 0x1_0000 in vports then [Sent(port % 0x1_0000, packet)] else []
  }

  // ------------------------------------------------- the naive interpreter

  function Then<P>(trace: seq<Event<P>>, o: Outcome<P>): Outcome<P> {
    o.(trace := trace + o.trace)
  }

  /** Clone at each output; an output whose clone fails is lost. */
  function NaiveOne<P>(vports: Vports, a: Action<P>, packet: P): Outcome<P>
    decreases a
  {
    match a
    case Output(port, clones) => Outcome(if clones then Emit(vports, port, packet) else [], packet, None)
    case Userspace(data) => Outcome([Upcall(data, packet)], packet, None)
    case Rewrite(f, _) =>
      (match f(packet)
       case Some(packet') => Outcome([], packet', None)
       case None => Outcome([], packet, Some(0)))
    case Sample(hit, acts) =>
      if !hit then Outcome([], packet, None)
      else
        var o := Naive(vports, acts, packet, true);
        o.(fail := if o.fail.Some? then Some(o.fail.value + 1) else None)
  }

  /** Only when a list ends with an output, and the packet need not be kept, no clone is
      made: the packet itself is sent. */
  function Naive<P>(vports: Vports, acts: seq<Action<P>>, packet: P, keep: bool): Outcome<P>
    decreases acts
  {
    if acts == [] then Outcome([], packet, None)
    else if |acts| == 1 && acts[0].Output? && !keep then Outcome(Emit(vports, acts[0].port, packet), packet, None)
    else
      var o := NaiveOne(vports, acts[0], packet);
      if o.fail.Some? then o else Then(o.trace, Naive(vports, acts[1..], o.packet, keep))
  }

  // --------------------------------------------------- the real executor

  /** How often the executor gives up the packet it was handed: by sending it,
      consuming it or freeing it. */
  function Releases(fail: Option<nat>, keep: bool): nat {
    match fail
    case None => if keep then 0 else 1
    case Some(depth) => depth + 1
  }

  /** What becomes of the output 'prev' that is waiting, if any. */
  function Waiting<P>(vports: Vports, prev: int, sends: bool, packet: P): seq<Event<P>> {
    if prev != -1 && sends then Emit(vports, prev, packet) else []
  }

  /** What is still to come when 'prev' is waiting to be sent, and a clone for it would
      succeed or not. */
  ghost function Pending<P>(vports: Vports, trace: seq<Event<P>>, prev: int, clones: bool, acts: seq<Action<P>>, packet: P,
                            keep: bool): Outcome<P>
  {
    Then(trace + Waiting(vports, prev, clones || (acts == [] && !keep), packet), Naive(vports, acts, packet, keep))
  }

  /** The port that looks like "none waiting" is no vport's number. */
  lemma SentinelIsNoPort<P>(vports: Vports, port: nat, packet: P)
    ensures AsInt(port) == -1 ==> Emit<P>(vports, port, packet) == []
    ensures Emit(vports, AsInt(port), packet) == Emit(vports, port, packet)
  {
    assert port % U32 % 0x1_0000 == port % 0x1_0000;
    assert AsInt(port) % 0x1_0000 == port % 0x1_0000;
  }

  lemma PendingStep<P>(vports: Vports, trace: seq<Event<P>>, acts: seq<Action<P>>, i: nat, packet: P, keep: bool)
    requires i < |acts| && !acts[i].Output?
    ensures var o := NaiveOne(vports, acts[i], packet);
            Pending(vports, trace, -1, true, acts[i..], packet, keep) ==
            if o.fail.Some? then Then(trace, o)
            else Pending(vports, trace + o.trace, -1, true, acts[i + 1..], o.packet, keep)
  {
    assert acts[i..][0] == acts[i] && acts[i..][1..] == acts[i + 1..];
    var o := NaiveOne(vports, acts[i], packet);
    assert trace + [] == trace && trace + o.trace + [] == trace + o.trace;
    if o.fail.None? {
      var rest := Naive(vports, acts[i + 1..], o.packet, keep);
      assert trace + (o.trace + rest.trace) == trace + o.trace + rest.trace;
    }
  }

  /** Before another action the waiting output is sent as a clone. */
  lemma PendingFlush<P>(vports: Vports, trace: seq<Event<P>>, prev: int, clones: bool, acts: seq<Action<P>>, packet: P,
                        keep: bool)
    requires acts != []
    ensures Pending(vports, trace, prev, clones, acts, packet, keep) ==
            Pending(vports, trace + Waiting(vports, prev, clones, packet), -1, true, acts, packet, keep)
  {
    var sent := Waiting(vports, prev, clones, packet);
    assert trace + sent + [] == trace + sent;
  }

  /** At the end it is sent as the packet itself, unless that is kept. */
  lemma PendingEnd<P>(vports: Vports, trace: seq<Event<P>>, prev: int, clones: bool, packet: P, keep: bool)
    ensures Pending(vports, trace, prev, clones, [], packet, keep) ==
            Outcome(trace + Waiting(vports, prev, clones || !keep, packet), packet, None)
  {
    var sent := trace + Waiting(vports, prev, clones || !keep, packet);
    assert sent + [] == sent;
  }

  /** Putting an output off. */
  lemma PendingOutput<P>(vports: Vports, trace: seq<Event<P>>, acts: seq<Action<P>>, i: nat, packet: P, keep: bool)
    requires i < |acts| && acts[i].Output?
    ensures Pending(vports, trace, -1, true, acts[i..], packet, keep) ==
            Pending(vports, trace, AsInt(acts[i].port), acts[i].clones, acts[i + 1..], packet, keep)
  {
    var (port, rest) := (acts[i].port, acts[i + 1..]);
    assert acts[i..][0] == acts[i] && acts[i..][1..] == rest;
    SentinelIsNoPort(vports, port, packet);
    var sent := Waiting(vports, AsInt(port), acts[i].clones || (rest == [] && !keep), packet);
    assert trace + [] == trace;
    if rest == [] && !keep {
      assert trace + sent + [] == trace + sent;
    } else {
      assert |acts[i..]| == 1 <==> rest == [];
      var (one, o) := (NaiveOne(vports, acts[i], packet), Naive(vports, rest, packet, keep));
      assert one.trace == sent;
      assert Naive(vports, acts[i..], packet, keep) == Then(one.trace, o);
      assert trace + (sent + o.trace) == trace + sent + o.trace;
    }
  }

  /** The switch in do_execute_actions(), for every action but an output, together
      with the release of the packet when the action fails. */
  method ExecuteOne<P>(vports: Vports, a: Action<P>, packet0: P)
    returns (trace: seq<Event<P>>, packet: P, fail: Option<nat>, released: nat)
    requires !a.Output?
    ensures Outcome(trace, packet, fail) == NaiveOne(vports, a, packet0)
    ensures released == Releases(fail, true)
    decreases a
  {
    trace, packet, fail, released := [], packet0, None, 0;
    match a
    case Userspace(data) =>
      trace := [Upcall(data, packet)];
    case Rewrite(f, freesOnFailure) =>
      var changed := f(packet);
      if changed.Some? {
        packet := changed.value;
      } else {
        // push_vlan() has freed the packet by now; otherwise it is freed here.
        fail := Some(0);
        released := if freesOnFailure then 1 else 0;
        if !freesOnFailure {
          released := released + 1;
        }
      }
    case Sample(hit, acts) =>
      if hit {
        trace, packet, fail, released := Execute(vports, acts, packet, true);
        if fail.Some? {
          // The sample has released the packet already; it is freed once more.
          fail, released := Some(fail.value + 1), released + 1;
        }
      }
  }

  /** do_execute_actions().  For every action list, with samples nested to any
      depth and with or without a failing action, the events, the packets they
      carry and the error are those of the naive interpreter.  'released' counts
      how often the caller's packet is given up: once, unless a sample fails. */
  method Execute<P>(vports: Vports, acts: seq<Action<P>>, packet0: P, keep: bool)
    returns (trace: seq<Event<P>>, packet: P, fail: Option<nat>, released: nat)
    ensures Outcome(trace, packet, fail) == Naive(vports, acts, packet0, keep)
    ensures released == Releases(fail, keep)
    ensures if keep then released == 0 <==> AllSucceed(acts, packet0) else released == 1 <==> SamplesSucceed(acts, packet0)
    decreases acts
  {
    ReleasedOnceExactly(vports, acts, packet0);
    var prev, clones, i := -1, true, 0;
    trace, packet, fail, released := [], packet0, None, 0;
    assert acts[0..] == acts;
    PendingStart(vports, acts, packet0, keep);
    while i < |acts|
      invariant i <= |acts|
      invariant Naive(vports, acts, packet0, keep) == Pending(vports, trace, prev, clones, acts[i..], packet, keep)
      invariant fail == None && released == 0
      decreases |acts| - i
    {
      PendingFlush(vports, trace, prev, clones, acts[i..], packet, keep);
      if prev != -1 {
        // do_output() of a clone; without one, nothing is sent.
        if clones {
          trace := trace + Emit(vports, prev, packet);
        }
        prev := -1;
      }
      clones := true;
      if acts[i].Output? {
        PendingOutput(vports, trace, acts, i, packet, keep);
        prev, clones := AsInt(acts[i].port), acts[i].clones;
      } else {
        PendingStep(vports, trace, acts, i, packet, keep);
        var t, p, e, r := ExecuteOne(vports, acts[i], packet);
        trace, packet := trace + t, p;
        if e.Some? {
          fail, released := e, r;
          return;
        }
      }
      i := i + 1;
    }
    assert acts[i..] == [];
    PendingEnd(vports, trace, prev, clones, packet, keep);
    if prev != -1 {
      if clones || !keep {
        trace := trace + Emit(vports, prev, packet);
      }
      released := if keep then 0 else 1;
    } else if !keep {
      released := 1;
    }
  }

  lemma PendingStart<P>(vports: Vports, acts: seq<Action<P>>, packet: P, keep: bool)
    ensures Naive(vports, acts, packet, keep) == Pending(vports, [], -1, true, acts, packet, keep)
  {
    var o := Naive(vports, acts, packet, keep);
    assert [] + o.trace == o.trace;
  }

  // ------------------------------------------- how often a packet is released

  /** Whether an action succeeds on a packet: a rewrite must, and so must everything in
      a sample that is taken. */
  predicate OneSucceeds<P>(a: Action<P>, packet: P)
    decreases a
  {
    match a
    case Output(_, _) => true
    case Userspace(_) => true
    case Rewrite(f, _) => f(packet).Some?
    case Sample(hit, acts) => hit ==> AllSucceed(acts, packet)
  }

  /** The packet after an action that succeeds. */
  function OneAfter<P>(a: Action<P>, packet: P): P
    decreases a
  {
    match a
    case Output(_, _) => packet
    case Userspace(_) => packet
    case Rewrite(f, _) => if f(packet).Some? then f(packet).value else packet
    case Sample(hit, acts) => if hit then AllAfter(acts, packet) else packet
  }

  predicate AllSucceed<P>(acts: seq<Action<P>>, packet: P)
    decreases acts
  {
    acts == [] || (OneSucceeds(acts[0], packet) && AllSucceed(acts[1..], OneAfter(acts[0], packet)))
  }

  function AllAfter<P>(acts: seq<Action<P>>, packet: P): P
    decreases acts
  {
    if acts == [] then packet else AllAfter(acts[1..], OneAfter(acts[0], packet))
  }

  /** Every sample of the list that is reached and taken succeeds; a rewrite of the list
      itself may fail, and then nothing after it is reached. */
  predicate SamplesSucceed<P>(acts: seq<Action<P>>, packet: P)
    decreases |acts|
  {
    acts == []
    || (if OneSucceeds(acts[0], packet) then SamplesSucceed(acts[1..], OneAfter(acts[0], packet)) else acts[0].Rewrite?)
  }

  lemma {:induction false} OneFails<P>(vports: Vports, a: Action<P>, packet: P)
    ensures var o := NaiveOne(vports, a, packet);
            && (o.fail.None? <==> OneSucceeds(a, packet))
            && (o.fail.None? ==> o.packet == OneAfter(a, packet))
            && (o.fail == Some(0) <==> !OneSucceeds(a, packet) && a.Rewrite?)
    decreases a
  {
    if a.Sample? && a.hit {
      SomeFail(vports, a.acts, packet, true);
    }
  }

  lemma {:induction false} SomeFail<P>(vports: Vports, acts: seq<Action<P>>, packet: P, keep: bool)
    ensures var o := Naive(vports, acts, packet, keep);
            && (o.fail.None? <==> AllSucceed(acts, packet))
            && (o.fail.None? ==> o.packet == AllAfter(acts, packet))
    decreases acts
  {
    if acts != [] {
      OneFails(vports, acts[0], packet);
      if OneSucceeds(acts[0], packet) {
        SomeFail(vports, acts[1..], OneAfter(acts[0], packet), keep);
      }
    }
  }

  lemma {:induction false} FailsAtTop<P>(vports: Vports, acts: seq<Action<P>>, packet: P, keep: bool)
    ensures var fail := Naive(vports, acts, packet, keep).fail;
            fail.None? || fail == Some(0) <==> SamplesSucceed(acts, packet)
    decreases |acts|
  {
    if acts != [] {
      OneFails(vports, acts[0], packet);
      if OneSucceeds(acts[0], packet) {
        FailsAtTop(vports, acts[1..], OneAfter(acts[0], packet), keep);
      }
    }
  }

  /** A packet that is handed over is released exactly once exactly when every sample
      that is taken succeeds on the packet it gets; one that is kept is not released
      exactly when every action succeeds. */
  lemma ReleasedOnceExactly<P>(vports: Vports, acts: seq<Action<P>>, packet: P)
    ensures Releases(Naive(vports, acts, packet, false).fail, false) == 1 <==> SamplesSucceed(acts, packet)
    ensures Releases(Naive(vports, acts, packet, true).fail, true) == 0 <==> AllSucceed(acts, packet)
  {
    SomeFail(vports, acts, packet, true);
    FailsAtTop(vports, acts, packet, false);
  }

  /** No rewrite anywhere in the list, however deep. */
  predicate Plain<P>(acts: seq<Action<P>>)
    decreases acts
  {
    acts == []
    || (!acts[0].Rewrite? && (acts[0].Sample? ==> Plain(acts[0].acts)) && Plain(acts[1..]))
  }

  /** No rewrite inside a sample. */
  predicate PlainSamples<P>(acts: seq<Action<P>>)
    decreases |acts|
  {
    acts == [] || ((acts[0].Sample? ==> Plain(acts[0].acts)) && PlainSamples(acts[1..]))
  }

  lemma {:induction false} PlainSucceeds<P>(acts: seq<Action<P>>, packet: P)
    requires Plain(acts)
    ensures AllSucceed(acts, packet)
    decreases acts
  {
    if acts != [] {
      if acts[0].Sample? {
        PlainSucceeds(acts[0].acts, packet);
      }
      PlainSucceeds(acts[1..], OneAfter(acts[0], packet));
    }
  }

  /** Whatever the rewrites and the draws: with no rewrite inside a sample, a packet
      that is handed over is released exactly once. */
  lemma {:induction false} PlainSamplesReleaseOnce<P>(vports: Vports, acts: seq<Action<P>>, packet: P)
    requires PlainSamples(acts)
    ensures SamplesSucceed(acts, packet)
    ensures Releases(Naive(vports, acts, packet, false).fail, false) == 1
    decreases |acts|
  {
    if acts != [] {
      if acts[0].Sample? {
        PlainSucceeds(acts[0].acts, packet);
      }
      PlainSamplesReleaseOnce(vports, acts[1..], OneAfter(acts[0], packet));
    }
    ReleasedOnceExactly(vports, acts, packet);
  }

  /** A failing action inside a sample gives the packet up twice. */
  lemma NestedFailureReleasesTwice(vports: Vports, packet: int)
    ensures Releases(Naive(vports, [Sample(true, [Rewrite((p: int) => None, false)])], packet, false).fail, false) == 2
  {
    var inner := [Rewrite((p: int) => None, false)];
    assert Naive(vports, inner, packet, true).fail == Some(0);
  }

  // ---------------------------------------------------- what clones cost

  /** Every clone succeeds, however deep. */
  predicate Clonable<P>(acts: seq<Action<P>>)
    decreases acts
  {
    acts == []
    || ((acts[0].Output? ==> acts[0].clones) && (acts[0].Sample? ==> Clonable(acts[0].acts)) && Clonable(acts[1..]))
  }

  /** With memory for every clone it makes no difference whether the packet is kept: all
      outputs are sent. */
  lemma {:induction false} KeepingCostsNothing<P>(vports: Vports, acts: seq<Action<P>>, packet: P)
    requires Clonable(acts)
    ensures Naive(vports, acts, packet, true) == Naive(vports, acts, packet, false)
    decreases |acts|
  {
    if acts != [] {
      var o := NaiveOne(vports, acts[0], packet);
      KeepingCostsNothing(vports, acts[1..], o.packet);
      if |acts| == 1 && acts[0].Output? {
        assert acts[1..] == [];
        assert o.trace + [] == o.trace;
      }
    }
  }
}
