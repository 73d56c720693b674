/**
 From a message on the wire to the observed set: what the wire keeps of each NLRI, which operations
 of the receiver dispatchUpdate (internal/peer/recv.go) makes of a message, and which operations a
 whole log of messages amounts to.
 */
module Dispatch {
  import opened Nlri
  import opened Packet
  import opened ObservedState
  import Runs = ObservedRuns
  import PathKey
  import Chunking
  import H = History
  import S = Send
  import O = ObservedSet

  type Time = H.Time

  // ----- the wire

  /** Path Identifiers reach the peer only for families with ADD-PATH send. */
  function Carried(modes: Modes, fam: Family, ns: seq<PathNlri>): seq<PathNlri> {
    if SendOn(modes, fam) then ns
    else seq(|ns|, i requires 0 <= i < |ns| => ns[i].(id := 0))
  }

  function CarriedAttr(modes: Modes, a: Attribute): Attribute {
    match a
    case Plain(_, _) => a
    case MpReach(fam, hopLen, ns) => MpReach(fam, hopLen, Carried(modes, fam, ns))
    case MpUnreach(fam, ns) => MpUnreach(fam, Carried(modes, fam, ns))
  }

  function CarriedAttrs(modes: Modes, attrs: seq<Attribute>): seq<Attribute> {
    seq(|attrs|, i requires 0 <= i < |attrs| => CarriedAttr(modes, attrs[i]))
  }

  /** The message the peer parses with the matching receive modes. */
  function Transmit(m: UpdateMsg, modes: Modes): UpdateMsg {
    UpdateMsg(Carried(modes, IPV4_UNICAST, m.withdrawn),
              CarriedAttrs(modes, m.attrs),
              Carried(modes, IPV4_UNICAST, m.nlri))
  }

  // ----- the receiver

  function AttrOps<E>(modes: Modes, a: Attribute, ts: Time): seq<Runs.Op<E>> {
    match a
    case Plain(_, _) => []
    case MpReach(fam, _, ns) => [Runs.Update(ts, KeysOf(ReceiveOn(modes, fam), ns), [])]
    case MpUnreach(fam, ns) => [Runs.Update(ts, [], KeysOf(ReceiveOn(modes, fam), ns))]
  }

  function AttrsOps<E>(modes: Modes, attrs: seq<Attribute>, ts: Time): seq<Runs.Op<E>> {
    if attrs == [] then []
    else AttrsOps(modes, attrs[..|attrs| - 1], ts) + AttrOps(modes, attrs[|attrs| - 1], ts)
  }

  function LegacyOps<E>(modes: Modes, u: UpdateMsg, ts: Time): seq<Runs.Op<E>> {
    if u.nlri == [] && u.withdrawn == [] then []
    else
      var on := ReceiveOn(modes, IPV4_UNICAST);
      [Runs.Update(ts, KeysOf(on, u.nlri), KeysOf(on, u.withdrawn))]
  }

  /** The operations one UPDATE amounts to. */
  function MessageOps<E>(modes: Modes, u: UpdateMsg, ts: Time): seq<Runs.Op<E>> {
    AttrsOps(modes, u.attrs, ts) + LegacyOps(modes, u, ts)
  }

  function Apply<E>(s: State<E>, enhanced: bool, ops: seq<Runs.Op<E>>): State<E> {
    if ops == [] then s
    else Runs.Step(Apply(s, enhanced, ops[..|ops| - 1]), enhanced, ops[|ops| - 1])
  }

  lemma {:induction false} ApplyIsRun<E>(enhanced: bool, ops: seq<Runs.Op<E>>, more: seq<Runs.Op<E>>)
    ensures Apply(Runs.Run(enhanced, ops), enhanced, more) == Runs.Run(enhanced, ops + more)
  {
    if more == [] {
      assert ops + more == ops;
    } else {
      var n := |more| - 1;
      ApplyIsRun(enhanced, ops, more[..n]);
      assert (ops + more)[..|ops + more| - 1] == ops + more[..n];
    }
  }

  lemma {:induction false} ApplyConcat<E>(s: State<E>, enhanced: bool, a: seq<Runs.Op<E>>, b: seq<Runs.Op<E>>)
    ensures Apply(s, enhanced, a + b) == Apply(Apply(s, enhanced, a), enhanced, b)
  {
    if b == [] {
      assert a + b == a;
    } else {
      var n := |b| - 1;
      ApplyConcat(s, enhanced, a, b[..n]);
      assert (a + b)[..|a + b| - 1] == a + b[..n];
    }
  }

  lemma ApplyOne<E>(s: State<E>, enhanced: bool, op: Runs.Op<E>)
    ensures Apply(s, enhanced, [op]) == Runs.Step(s, enhanced, op)
  {
    assert [op][..0] == [];
  }

  lemma ApplyAttr<E>(s: State<E>, enhanced: bool, modes: Modes, attrs: seq<Attribute>, i: nat, ts: Time)
    requires i < |attrs|
    ensures Apply(s, enhanced, AttrsOps(modes, attrs[..i + 1], ts))
         == Apply(Apply(s, enhanced, AttrsOps(modes, attrs[..i], ts)), enhanced, AttrOps(modes, attrs[i], ts))
  {
    assert attrs[..i + 1][..i] == attrs[..i];
    ApplyConcat(s, enhanced, AttrsOps(modes, attrs[..i], ts), AttrOps(modes, attrs[i], ts));
  }

  class Receiver<E> {
    const observed: O.ObservedSet<E>
    const addPathNegotiated: Modes
    const enhancedRefreshNegotiated: bool

    constructor (observed: O.ObservedSet<E>, modes: Modes, enhanced: bool)
      ensures this.observed == observed && this.addPathNegotiated == modes
      ensures this.enhancedRefreshNegotiated == enhanced
    {
      this.observed, addPathNegotiated, enhancedRefreshNegotiated := observed, modes, enhanced;
    }

    method DispatchUpdate(u: UpdateMsg, ts: Time)
      requires observed.Valid()
      modifies observed, observed.waiters
      ensures observed.Valid()
      ensures observed.state == Apply(old(observed.state), enhancedRefreshNegotiated,
                                      MessageOps(addPathNegotiated, u, ts))
    {
      ghost var s0 := observed.state;
      for i := 0 to |u.attrs|
        invariant observed.Valid() && observed.waiters == old(observed.waiters)
        invariant observed.state == Apply(s0, enhancedRefreshNegotiated, AttrsOps(addPathNegotiated, u.attrs[..i], ts))
      {
        ApplyAttr(s0, enhancedRefreshNegotiated, addPathNegotiated, u.attrs, i, ts);
        DispatchAttr(u.attrs[i], ts);
      }
      assert u.attrs[..|u.attrs|] == u.attrs;
      ApplyConcat(s0, enhancedRefreshNegotiated, AttrsOps(addPathNegotiated, u.attrs, ts),
                  LegacyOps(addPathNegotiated, u, ts));
      DispatchLegacy(u, ts);
    }

    /** The non-MP lists. */
    method DispatchLegacy(u: UpdateMsg, ts: Time)
      requires observed.Valid()
      modifies observed, observed.waiters
      ensures observed.Valid()
      ensures observed.state == Apply(old(observed.state), enhancedRefreshNegotiated, LegacyOps(addPathNegotiated, u, ts))
    {
      if |u.nlri| > 0 || |u.withdrawn| > 0 {
        var on := ReceiveOn(addPathNegotiated, IPV4_UNICAST);
        ApplyOne(observed.state, enhancedRefreshNegotiated, Runs.Update(ts, KeysOf(on, u.nlri), KeysOf(on, u.withdrawn)));
        observed.ApplyUpdate(on, ts, u.nlri, u.withdrawn);
      }
    }

    method DispatchRouteRefresh(fam: Family, demarcation: nat, ts: Time)
      requires observed.Valid()
      modifies observed, observed.refreshWaiters
      ensures observed.Valid()
      ensures observed.state == Runs.Step(old(observed.state), enhancedRefreshNegotiated,
                                          Runs.Refresh(fam, demarcation, ts))
    {
      observed.ApplyRouteRefresh(fam, demarcation, enhancedRefreshNegotiated, ts);
    }

    /** Body of the loop over path attributes. */
    method DispatchAttr(a: Attribute, ts: Time)
      requires observed.Valid()
      modifies observed, observed.waiters
      ensures observed.Valid() && observed.waiters == old(observed.waiters)
      ensures observed.state == Apply(old(observed.state), enhancedRefreshNegotiated, AttrOps(addPathNegotiated, a, ts))
    {
      match a {
        case Plain(_, _) =>
        case MpReach(fam, _, ns) =>
          var on := ReceiveOn(addPathNegotiated, fam);
          assert KeysOf(on, []) == [];
          ApplyOne(observed.state, enhancedRefreshNegotiated, Runs.Update(ts, KeysOf(on, ns), []));
          observed.ApplyUpdate(on, ts, ns, []);
        case MpUnreach(fam, ns) =>
          var on := ReceiveOn(addPathNegotiated, fam);
          assert KeysOf(on, []) == [];
          ApplyOne(observed.state, enhancedRefreshNegotiated, Runs.Update(ts, [], KeysOf(on, ns)));
          observed.ApplyUpdate(on, ts, [], ns);
      }
    }
  }

  // ----- what a message tells the receiver

  /** The events of one UPDATE operation. */
  lemma OpMembers<E>(ts: Time, on: bool, reach: seq<PathNlri>, unreach: seq<PathNlri>, e: H.Event)
    ensures e in Runs.Events<E>(Runs.Update(ts, KeysOf(on, reach), KeysOf(on, unreach)))
       <==> (exists n :: n in reach && e == H.Reach(KeyOf(on, n), ts))
            || (exists n :: n in unreach && e == H.Unreach(KeyOf(on, n)))
  {
    var h := Runs.Events<E>(Runs.Update(ts, KeysOf(on, reach), KeysOf(on, unreach)));
    assert |h| == |reach| + |unreach|;
    assert forall i :: 0 <= i < |reach| ==> h[i] == H.Reach(KeyOf(on, reach[i]), ts);
    assert forall i :: 0 <= i < |unreach| ==> h[|reach| + i] == H.Unreach(KeyOf(on, unreach[i]));
  }

  /** An attribute tells e. */
  ghost predicate AttrTells(modes: Modes, a: Attribute, ts: Time, e: H.Event) {
    match a
    case Plain(_, _) => false
    case MpReach(fam, _, ns) => exists n :: n in ns && e == H.Reach(KeyOf(ReceiveOn(modes, fam), n), ts)
    case MpUnreach(fam, ns) => exists n :: n in ns && e == H.Unreach(KeyOf(ReceiveOn(modes, fam), n))
  }

  lemma AttrMembers<E>(modes: Modes, a: Attribute, ts: Time, e: H.Event)
    ensures e in Runs.Delivered(AttrOps<E>(modes, a, ts)) <==> AttrTells(modes, a, ts, e)
  {
    match a
    case Plain(_, _) =>
    case MpReach(fam, _, ns) =>
      OneMember<E>(ts, ReceiveOn(modes, fam), ns, [], e);
    case MpUnreach(fam, ns) =>
      OneMember<E>(ts, ReceiveOn(modes, fam), [], ns, e);
  }

  lemma OneMember<E>(ts: Time, on: bool, reach: seq<PathNlri>, unreach: seq<PathNlri>, e: H.Event)
    ensures KeysOf(on, []) == []
    ensures e in Runs.Delivered<E>([Runs.Update(ts, KeysOf(on, reach), KeysOf(on, unreach))])
       <==> (exists n :: n in reach && e == H.Reach(KeyOf(on, n), ts))
            || (exists n :: n in unreach && e == H.Unreach(KeyOf(on, n)))
  {
    var op: Runs.Op<E> := Runs.Update(ts, KeysOf(on, reach), KeysOf(on, unreach));
    OpMembers<E>(ts, on, reach, unreach, e);
    assert [op] == [] + [op];
    Runs.DeliveredSnoc([], op);
  }

  lemma {:induction false} AttrsMembers<E>(modes: Modes, attrs: seq<Attribute>, ts: Time, e: H.Event)
    ensures e in Runs.Delivered(AttrsOps<E>(modes, attrs, ts))
       <==> exists i :: 0 <= i < |attrs| && AttrTells(modes, attrs[i], ts, e)
  {
    if attrs != [] {
      var init, last := attrs[..|attrs| - 1], attrs[|attrs| - 1];
      assert attrs == init + [last];
      AttrsMembers<E>(modes, init, ts, e);
      AttrMembers<E>(modes, last, ts, e);
      AttrsOpsSnoc<E>(modes, init, last, ts);
      Runs.DeliveredConcat(AttrsOps<E>(modes, init, ts), AttrOps<E>(modes, last, ts));
      assert forall i :: 0 <= i < |init| ==> attrs[i] == init[i];
      assert attrs[|init|] == last;
    }
  }

  /** Any UPDATE, ours or not, is recorded completely: the receiver's history gets exactly one kind of
      event for each NLRI of each MP attribute, under the attribute's own family, and of both legacy
      lists, under IPv4 unicast; and nothing else. */
  lemma EveryNlriIsRecorded<E>(modes: Modes, u: UpdateMsg, ts: Time, e: H.Event)
    ensures var on := ReceiveOn(modes, IPV4_UNICAST);
            e in Runs.Delivered(MessageOps<E>(modes, u, ts))
            <==> || (exists i :: 0 <= i < |u.attrs| && AttrTells(modes, u.attrs[i], ts, e))
                 || (exists n :: n in u.nlri && e == H.Reach(KeyOf(on, n), ts))
                 || (exists n :: n in u.withdrawn && e == H.Unreach(KeyOf(on, n)))
  {
    AttrsMembers<E>(modes, u.attrs, ts, e);
    Runs.DeliveredConcat(AttrsOps<E>(modes, u.attrs, ts), LegacyOps<E>(modes, u, ts));
    OneMember<E>(ts, ReceiveOn(modes, IPV4_UNICAST), u.nlri, u.withdrawn, e);
  }

  // ----- one message of a request

  /** The receiver's keys for a list of routes. */
  function RouteKeys(on: bool, routes: seq<Route>): seq<string> {
    seq(|routes|, i requires 0 <= i < |routes| => KeyOf(on, routes[i].Nlri()))
  }

  /** A key is the route's prefix, followed with ADD-PATH by its Path Identifier, 0 if it has none. */
  lemma RouteKeyText(on: bool, routes: seq<Route>, i: nat)
    requires i < |routes|
    ensures |RouteKeys(on, routes)| == |routes|
    ensures !on ==> RouteKeys(on, routes)[i] == routes[i].name
    ensures on ==> RouteKeys(on, routes)[i] ==
                   routes[i].name + ":" + PathKey.Decimal(match routes[i].pathId case Some(id) => id case None => 0)
  {
  }

  function SidedOp<E>(withdraw: bool, ts: Time, keys: seq<string>): Runs.Op<E> {
    Runs.Update(ts, if withdraw then [] else keys, if withdraw then keys else [])
  }

  /** The operation a chunk of a request stands for: its keys, all on one side. */
  function UpdateOp<E>(withdraw: bool, on: bool, chunk: seq<Route>, ts: Time): Runs.Op<E> {
    SidedOp(withdraw, ts, RouteKeys(on, chunk))
  }

  /** One request's message, however it is encoded, is that one operation at the receiver. */
  lemma DispatchBuilt<E>(receive: Modes, withdraw: bool, a: PathAttrs, chunk: seq<Route>, fam: Family, o: Options,
                         ts: Time)
    requires Chunking.OfFamily(chunk, fam) && Build(withdraw, a, chunk, o).Ok?
    requires SendOn(o.addPath, fam) == ReceiveOn(receive, fam)
    ensures MessageOps<E>(receive, Transmit(Build(withdraw, a, chunk, o).value, o.addPath), ts)
         == [UpdateOp(withdraw, SendOn(o.addPath, fam), chunk, ts)]
  {
    var ns := Nlris(chunk);
    assert KeysOf(ReceiveOn(receive, fam), Carried(o.addPath, fam, ns)) == RouteKeys(SendOn(o.addPath, fam), chunk);
    Chunking.BuildDomain(withdraw, a, chunk, fam, o);
    if o.Mp(fam) {
      assert Build(withdraw, a, chunk, o) == BuildMp(withdraw, a, fam, ns, o);
      MpOps<E>(receive, withdraw, a, ns, fam, o, ts);
    } else {
      assert Build(withdraw, a, chunk, o) == BuildIPv4Unicast(withdraw, a, ns, o);
      TraditionalOps<E>(receive, withdraw, a, ns, o, ts);
    }
  }

  lemma TraditionalOps<E>(receive: Modes, withdraw: bool, a: PathAttrs, nlris: seq<PathNlri>, o: Options, ts: Time)
    requires Chunking.Buildable(withdraw, a, IPV4_UNICAST, o) && !o.useMpReach && nlris != []
    ensures BuildIPv4Unicast(withdraw, a, nlris, o).Ok?
    ensures MessageOps<E>(receive, Transmit(BuildIPv4Unicast(withdraw, a, nlris, o).value, o.addPath), ts)
         == [SidedOp(withdraw, ts, KeysOf(ReceiveOn(receive, IPV4_UNICAST), Carried(o.addPath, IPV4_UNICAST, nlris)))]
  {
    var on := ReceiveOn(receive, IPV4_UNICAST);
    assert KeysOf(on, []) == [] && Carried(o.addPath, IPV4_UNICAST, []) == [];
    if withdraw {
      var u := Transmit(BuildIPv4Unicast(true, a, nlris, o).value, o.addPath);
      assert AttrsOps<E>(receive, u.attrs, ts) == [] && u.withdrawn != [];
    } else {
      var attrs := Chunking.Others(false, a, IPV4_UNICAST, o);
      Chunking.TraditionalShape(a, nlris, o);
      Chunking.OthersPlain(false, a, IPV4_UNICAST, o);
      CarriedPlain(o.addPath, attrs);
      PlainOps<E>(receive, attrs, ts);
    }
  }

  lemma MpOps<E>(receive: Modes, withdraw: bool, a: PathAttrs, nlris: seq<PathNlri>, fam: Family, o: Options, ts: Time)
    requires Chunking.Buildable(withdraw, a, fam, o) && o.Mp(fam)
    ensures BuildMp(withdraw, a, fam, nlris, o).Ok?
    ensures MessageOps<E>(receive, Transmit(BuildMp(withdraw, a, fam, nlris, o).value, o.addPath), ts)
         == [SidedOp(withdraw, ts, KeysOf(ReceiveOn(receive, fam), Carried(o.addPath, fam, nlris)))]
  {
    var ns := Carried(o.addPath, fam, nlris);
    var u := Transmit(BuildMp(withdraw, a, fam, nlris, o).value, o.addPath);
    var op := SidedOp<E>(withdraw, ts, KeysOf(ReceiveOn(receive, fam), ns));
    assert Carried(o.addPath, IPV4_UNICAST, []) == [];
    if withdraw {
      assert u.attrs == [] + [MpUnreach(fam, ns)] + [];
      OpsAround<E>(receive, [], MpUnreach(fam, ns), [], ts);
    } else {
      var pre, post := Chunking.MpReachShape(a, fam, nlris, o);
      var hop := a.nextHop.value.mpLen;
      Chunking.OthersPlain(false, a, fam, o);
      CarriedAround(o.addPath, pre, MpReach(fam, hop, nlris), post);
      OpsAround<E>(receive, pre, MpReach(fam, hop, ns), post, ts);
    }
    assert AttrsOps<E>(receive, u.attrs, ts) == [op];
    assert LegacyOps<E>(receive, u, ts) == [];
    assert [op] + [] == [op];
  }

  lemma CarriedPlain(modes: Modes, attrs: seq<Attribute>)
    requires Chunking.AllPlain(attrs)
    ensures CarriedAttrs(modes, attrs) == attrs
  {
  }

  /** Only the MP attribute is touched by the wire. */
  lemma CarriedAround(modes: Modes, pre: seq<Attribute>, mp: Attribute, post: seq<Attribute>)
    requires Chunking.AllPlain(pre + post)
    ensures CarriedAttrs(modes, pre + [mp] + post) == pre + [CarriedAttr(modes, mp)] + post
  {
    PlainParts(pre, post);
  }

  lemma {:induction false} PlainOps<E>(receive: Modes, attrs: seq<Attribute>, ts: Time)
    requires Chunking.AllPlain(attrs)
    ensures AttrsOps<E>(receive, attrs, ts) == []
  {
    if attrs != [] { PlainOps<E>(receive, attrs[..|attrs| - 1], ts); }
  }

  lemma AttrsOpsSnoc<E>(receive: Modes, attrs: seq<Attribute>, a: Attribute, ts: Time)
    ensures AttrsOps<E>(receive, attrs + [a], ts) == AttrsOps(receive, attrs, ts) + AttrOps(receive, a, ts)
  {
    assert (attrs + [a])[..|attrs|] == attrs;
  }

  lemma {:induction false} AttrsOpsConcat<E>(receive: Modes, x: seq<Attribute>, y: seq<Attribute>, ts: Time)
    ensures AttrsOps<E>(receive, x + y, ts) == AttrsOps(receive, x, ts) + AttrsOps(receive, y, ts)
  {
    if y == [] {
      assert x + y == x;
    } else {
      var init, last := y[..|y| - 1], y[|y| - 1];
      assert y == init + [last];
      AttrsOpsConcat<E>(receive, x, init, ts);
      Runs.Regroup(x, init, [last]);
      AttrsOpsSnoc<E>(receive, x + init, last, ts);
      AttrsOpsSnoc<E>(receive, init, last, ts);
      Runs.Regroup(AttrsOps<E>(receive, x, ts), AttrsOps<E>(receive, init, ts), AttrOps<E>(receive, last, ts));
    }
  }

  lemma PlainParts(pre: seq<Attribute>, post: seq<Attribute>)
    requires Chunking.AllPlain(pre + post)
    ensures Chunking.AllPlain(pre) && Chunking.AllPlain(post)
  {
    assert forall i :: 0 <= i < |pre| ==> pre[i] == (pre + post)[i];
    assert forall i :: 0 <= i < |post| ==> post[i] == (pre + post)[|pre| + i];
  }

  lemma OpsAround<E>(receive: Modes, pre: seq<Attribute>, mp: Attribute, post: seq<Attribute>, ts: Time)
    requires Chunking.AllPlain(pre + post)
    ensures AttrsOps<E>(receive, pre + [mp] + post, ts) == AttrOps(receive, mp, ts)
  {
    PlainParts(pre, post);
    AttrsOpsConcat<E>(receive, pre + [mp], post, ts);
    AttrsOpsSnoc<E>(receive, pre, mp, ts);
    PlainOps<E>(receive, pre, ts);
    PlainOps<E>(receive, post, ts);
  }

  // ----- a log of messages

  /** The operations the receiver makes of a frame read at ts; keepalives and refreshes make none here. */
  function FrameOps<E>(f: S.Frame, modes: Modes, receive: Modes, ts: Time): seq<Runs.Op<E>> {
    if f.payload.Update? then MessageOps(receive, Transmit(f.payload.m, modes), ts) else []
  }

  /** The UPDATE operations of a whole log, frame i read at tss[i]. */
  function LogOps<E>(log: seq<S.Frame>, modes: Modes, receive: Modes, tss: seq<Time>): seq<Runs.Op<E>>
    requires |tss| == |log|
  {
    if log == [] then []
    else
      var n := |log| - 1;
      LogOps(log[..n], modes, receive, tss[..n]) + FrameOps(log[n], modes, receive, tss[n])
  }

  /** The operations of a request's chunks, chunk i read at tss[i]. */
  function UpdateOps<E>(withdraw: bool, on: bool, chunks: seq<seq<Route>>, tss: seq<Time>): (ops: seq<Runs.Op<E>>)
    requires |tss| == |chunks|
    ensures |ops| == |chunks|
  {
    if chunks == [] then []
    else
      var n := |chunks| - 1;
      UpdateOps(withdraw, on, chunks[..n], tss[..n]) + [UpdateOp(withdraw, on, chunks[n], tss[n])]
  }

  /** The read times of one writer's frames. */
  function OwnTimes(log: seq<S.Frame>, tss: seq<Time>, me: nat): (own: seq<Time>)
    requires |tss| == |log|
    ensures |own| == |S.Own(log, me)|
  {
    if log == [] then []
    else
      var n := |log| - 1;
      var init := OwnTimes(log[..n], tss[..n], me);
      if log[n].writer == me then init + [tss[n]] else init
  }
}
