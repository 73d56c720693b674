/**
 What ChunkRoutes guarantees: its packing is optimal, and exactly how long the message of each
 chunk gets. The octet bound its documentation promises holds for traditional IPv4 unicast and
 fails by one octet for MP attributes in one family of inputs, described exactly.
 */
module Chunking {
  import opened Outcomes
  import opened Nlri
  import opened Packet

  // ----- concatenations

  lemma {:induction false} FlattenPrefix<T>(parts: seq<seq<T>>, i: nat)
    requires i <= |parts|
    ensures Flatten(parts[..i]) <= Flatten(parts)
  {
    if i == |parts| {
      assert parts[..i] == parts;
    } else {
      FlattenPrefix(parts[..|parts| - 1], i);
      assert parts[..|parts| - 1][..i] == parts[..i];
    }
  }

  /** Part i occupies the positions from |Flatten(parts[..i])| on. */
  lemma FlattenSlice<T>(parts: seq<seq<T>>, i: nat)
    requires i < |parts|
    ensures |Flatten(parts[..i + 1])| == |Flatten(parts[..i])| + |parts[i]| <= |Flatten(parts)|
    ensures parts[i] == Flatten(parts)[|Flatten(parts[..i])|..|Flatten(parts[..i + 1])|]
  {
    assert parts[..i + 1][..i] == parts[..i];
    FlattenPrefix(parts, i + 1);
    assert Flatten(parts[..i + 1]) == Flatten(parts[..i]) + parts[i];
  }

  lemma {:induction false} WeightConcat(r: seq<Route>, s: seq<Route>, per: nat)
    ensures Weight(r + s, per) == Weight(r, per) + Weight(s, per)
  {
    if s == [] {
      assert r + s == r;
    } else {
      WeightConcat(r, s[..|s| - 1], per);
      assert (r + s)[..|r + s| - 1] == r + s[..|s| - 1];
    }
  }

  lemma WeightSub(routes: seq<Route>, a: nat, b: nat, c: nat, d: nat, per: nat)
    requires a <= b <= c <= d <= |routes|
    ensures Weight(routes[b..c], per) <= Weight(routes[a..d], per)
  {
    assert routes[a..d] == routes[a..b] + routes[b..c] + routes[c..d];
    WeightConcat(routes[a..b] + routes[b..c], routes[c..d], per);
    WeightConcat(routes[a..b], routes[b..c], per);
  }

  // ----- optimality

  /** A part that starts no later than a closed chunk cannot end later than it. */
  lemma CannotOvertake(routes: seq<Route>, a: nat, a': nat, b: nat, b': nat, per: nat, budget: int)
    requires a <= b <= b' < |routes| && a <= a' <= |routes|
    requires Weight(routes[a..a'], per) <= budget
    requires Closed(routes[b..b'], routes[b'], per, budget)
    ensures a' <= b'
  {
    if a' > b' {
      assert routes[b..b' + 1][..b' - b] == routes[b..b'];
      assert Weight(routes[b..b' + 1], per) == Weight(routes[b..b'], per) + routes[b'].wireLen + per;
      WeightSub(routes, a, b, b' + 1, a', per);
    }
  }

  /** Greedy stays ahead: no other split has covered more routes after the same number of parts. */
  lemma {:induction false} StaysAhead(routes: seq<Route>, chunks: seq<seq<Route>>, parts: seq<seq<Route>>,
                                      per: nat, budget: int, n: nat)
    requires Greedy(routes, chunks, per, budget) && Split(routes, parts, per, budget)
    requires n <= |parts| && n <= |chunks|
    ensures |Flatten(parts[..n])| <= |Flatten(chunks[..n])|
  {
    if n > 0 {
      var i := n - 1;
      StaysAhead(routes, chunks, parts, per, budget, i);
      FlattenSlice(parts, i);
      FlattenSlice(chunks, i);
      if n == |chunks| {
        assert chunks[..n] == chunks;
      } else {
        FlattenSlice(chunks, n);
        assert chunks[n][0] == routes[|Flatten(chunks[..n])|];
        assert ClosedAt(chunks, i, per, budget);
        CannotOvertake(routes, |Flatten(parts[..i])|, |Flatten(parts[..n])|,
                       |Flatten(chunks[..i])|, |Flatten(chunks[..n])|, per, budget);
      }
    }
  }

  /** No order-preserving way of splitting the routes within the budget uses fewer messages. */
  lemma GreedyIsOptimal(routes: seq<Route>, chunks: seq<seq<Route>>, parts: seq<seq<Route>>, per: nat, budget: int)
    requires Greedy(routes, chunks, per, budget) && Split(routes, parts, per, budget)
    ensures |chunks| <= |parts|
  {
    if |parts| < |chunks| {
      var n := |parts|;
      StaysAhead(routes, chunks, parts, per, budget, n);
      assert parts[..n] == parts;
      FlattenSlice(chunks, n);
    }
  }

  // ----- encoded lengths

  lemma {:induction false} NlriLenIsWeight(routes: seq<Route>, addPath: bool)
    ensures NlriLen(addPath, Nlris(routes)) == Weight(routes, if addPath then 4 else 0)
  {
    if routes != [] {
      NlriLenIsWeight(routes[..|routes| - 1], addPath);
      assert Nlris(routes)[..|routes| - 1] == Nlris(routes[..|routes| - 1]);
    }
  }

  lemma {:induction false} AttrsLenConcat(x: seq<Attribute>, y: seq<Attribute>, modes: Modes)
    ensures AttrsLen(x + y, modes) == AttrsLen(x, modes) + AttrsLen(y, modes)
  {
    if y == [] {
      assert x + y == x;
    } else {
      AttrsLenConcat(x, y[..|y| - 1], modes);
      assert (x + y)[..|x + y| - 1] == x + y[..|y| - 1];
    }
  }

  ghost predicate AllPlain(attrs: seq<Attribute>) { forall i :: 0 <= i < |attrs| ==> attrs[i].Plain? }

  lemma {:induction false} PlainLen(attrs: seq<Attribute>, modes: Modes)
    requires AllPlain(attrs)
    ensures AttrsLen(attrs, modes) == AttrsLen(attrs, map[])
  {
    if attrs != [] { PlainLen(attrs[..|attrs| - 1], modes); }
  }

  /** Octets of an MP attribute value apart from its NLRI. */
  function MpBase(withdraw: bool, a: PathAttrs): nat
    requires !withdraw ==> a.nextHop.Some?
  {
    if withdraw then 3 else 5 + a.nextHop.value.mpLen
  }

  function HeaderLen(valueLen: nat): nat { if valueLen > 255 then 4 else 3 }

  /** Attributes of an UPDATE other than the one that carries NLRI. */
  function Others(withdraw: bool, a: PathAttrs, fam: Family, o: Options): seq<Attribute>
    requires !withdraw ==> a.nextHop.Some? && TrailingAttributes(a).Ok?
  {
    if withdraw then []
    else [Plain(Origin, 1)] + AsPathAttributes(a.localAS, o.use2ByteAS)
         + ((if o.Mp(fam) && !(fam == IPV4_UNICAST && a.nextHop.value.kind != V6) then []
             else [Plain(NextHopAttr, a.nextHop.value.attrLen)]) + TrailingAttributes(a).value)
  }

  ghost predicate Buildable(withdraw: bool, a: PathAttrs, fam: Family, o: Options) {
    withdraw || (a.nextHop.Some? && a.localAS != 0 && TrailingAttributes(a).Ok?
                 && (o.Mp(fam) || a.nextHop.value.kind != V6))
  }

  ghost predicate OfFamily(routes: seq<Route>, fam: Family) {
    routes != [] && forall i :: 0 <= i < |routes| ==> routes[i].family == fam
  }

  /** Whether an UPDATE can be built depends on the attributes and the family, not on the routes. */
  lemma BuildDomain(withdraw: bool, a: PathAttrs, routes: seq<Route>, fam: Family, o: Options)
    requires OfFamily(routes, fam)
    ensures Build(withdraw, a, routes, o).Ok? <==> Buildable(withdraw, a, fam, o)
  {
  }

  lemma AttrsAround(pre: seq<Attribute>, mp: Attribute, post: seq<Attribute>, modes: Modes)
    requires AllPlain(pre + post)
    ensures AttrsLen(pre + [mp] + post, modes) == AttrsLen(pre + post, map[]) + AttrLen(mp, modes)
  {
    AttrsLenConcat(pre + [mp], post, modes);
    AttrsLenConcat(pre, [mp], modes);
    AttrsLenConcat(pre, post, modes);
    assert [mp][..0] == [];
    assert AttrsLen([mp], modes) == AttrLen(mp, modes);
    PlainLen(pre + post, modes);
  }

  lemma OthersPlain(withdraw: bool, a: PathAttrs, fam: Family, o: Options)
    requires Buildable(withdraw, a, fam, o)
    ensures AllPlain(Others(withdraw, a, fam, o))
  {
  }

  /** An advertisement's attributes are the plain ones around one MP_REACH_NLRI. */
  lemma MpReachShape(a: PathAttrs, fam: Family, nlris: seq<PathNlri>, o: Options)
    returns (pre: seq<Attribute>, post: seq<Attribute>)
    requires Buildable(false, a, fam, o) && o.Mp(fam)
    ensures BuildMp(false, a, fam, nlris, o)
         == Ok(UpdateMsg([], pre + [MpReach(fam, a.nextHop.value.mpLen, nlris)] + post, []))
    ensures pre + post == Others(false, a, fam, o)
  {
    pre := [Plain(Origin, 1)] + AsPathAttributes(a.localAS, o.use2ByteAS);
    post := (if fam == IPV4_UNICAST && a.nextHop.value.kind != V6
             then [Plain(NextHopAttr, a.nextHop.value.attrLen)] else []) + TrailingAttributes(a).value;
  }

  lemma MpAttrsLen(withdraw: bool, a: PathAttrs, fam: Family, ns: seq<PathNlri>, o: Options, modes: Modes)
    requires Buildable(withdraw, a, fam, o) && o.Mp(fam)
    ensures BuildMp(withdraw, a, fam, ns, o).Ok?
    ensures var m, value := BuildMp(withdraw, a, fam, ns, o).value,
                            MpBase(withdraw, a) + NlriLen(SendOn(modes, fam), ns);
            && m.withdrawn == m.nlri == []
            && AttrsLen(m.attrs, modes)
               == AttrsLen(Others(withdraw, a, fam, o), map[]) + HeaderLen(value) + value
  {
    OthersPlain(withdraw, a, fam, o);
    if withdraw {
      assert [] + [MpUnreach(fam, ns)] + [] == [MpUnreach(fam, ns)];
      AttrsAround([], MpUnreach(fam, ns), [], modes);
    } else {
      var pre, post := MpReachShape(a, fam, ns, o);
      AttrsAround(pre, MpReach(fam, a.nextHop.value.mpLen, ns), post, modes);
    }
  }

  lemma BodyOfMp(withdraw: bool, a: PathAttrs, routes: seq<Route>, fam: Family, o: Options, modes: Modes)
    requires OfFamily(routes, fam) && Buildable(withdraw, a, fam, o) && o.Mp(fam)
    ensures Build(withdraw, a, routes, o).Ok?
    ensures var value := MpBase(withdraw, a) + Weight(routes, if SendOn(modes, fam) then 4 else 0);
            BodyLen(Build(withdraw, a, routes, o).value, modes)
            == 4 + AttrsLen(Others(withdraw, a, fam, o), map[]) + HeaderLen(value) + value
  {
    var ns := Nlris(routes);
    NlriLenIsWeight(routes, SendOn(modes, fam));
    assert Build(withdraw, a, routes, o) == BuildMp(withdraw, a, fam, ns, o);
    MpAttrsLen(withdraw, a, fam, ns, o, modes);
  }

  lemma TraditionalShape(a: PathAttrs, nlris: seq<PathNlri>, o: Options)
    requires Buildable(false, a, IPV4_UNICAST, o) && !o.useMpReach
    ensures BuildIPv4Unicast(false, a, nlris, o) == Ok(UpdateMsg([], Others(false, a, IPV4_UNICAST, o), nlris))
  {
    var pre := [Plain(Origin, 1)] + AsPathAttributes(a.localAS, o.use2ByteAS);
    var hop := [Plain(NextHopAttr, a.nextHop.value.attrLen)];
    var more := TrailingAttributes(a).value;
    assert pre + hop + more == pre + (hop + more);
  }

  lemma BodyOfTraditional(withdraw: bool, a: PathAttrs, routes: seq<Route>, o: Options, modes: Modes)
    requires OfFamily(routes, IPV4_UNICAST) && Buildable(withdraw, a, IPV4_UNICAST, o) && !o.useMpReach
    ensures Build(withdraw, a, routes, o).Ok?
    ensures BodyLen(Build(withdraw, a, routes, o).value, modes)
            == 4 + AttrsLen(Others(withdraw, a, IPV4_UNICAST, o), map[])
               + Weight(routes, if SendOn(modes, IPV4_UNICAST) then 4 else 0)
  {
    var ns := Nlris(routes);
    NlriLenIsWeight(routes, SendOn(modes, IPV4_UNICAST));
    assert Build(withdraw, a, routes, o) == BuildIPv4Unicast(withdraw, a, ns, o);
    if !withdraw {
      TraditionalShape(a, ns, o);
      OthersPlain(false, a, IPV4_UNICAST, o);
      PlainLen(Others(false, a, IPV4_UNICAST, o), modes);
    }
  }

  /** The MP attribute header grows from 3 to 4 octets between the probe and the chunk. */
  predicate HeaderGrows(withdraw: bool, a: PathAttrs, probe: Route, chunk: seq<Route>, o: Options)
    requires !withdraw ==> a.nextHop.Some?
  {
    && o.Mp(probe.family)
    && MpBase(withdraw, a) + probe.wireLen <= 255
       < MpBase(withdraw, a) + Weight(chunk, PerNlri(o, probe.family))
  }

  predicate HeaderShrinks(withdraw: bool, a: PathAttrs, probe: Route, chunk: seq<Route>, o: Options)
    requires !withdraw ==> a.nextHop.Some?
  {
    && o.Mp(probe.family)
    && MpBase(withdraw, a) + Weight(chunk, PerNlri(o, probe.family)) <= 255
       < MpBase(withdraw, a) + probe.wireLen
  }

  lemma OverheadOfMp(withdraw: bool, a: PathAttrs, probe: Route, o: Options)
    requires Buildable(withdraw, a, probe.family, o) && o.Mp(probe.family)
    ensures ShellOverhead(withdraw, a, probe, o)
         == Ok(4 + AttrsLen(Others(withdraw, a, probe.family, o), map[])
               + HeaderLen(MpBase(withdraw, a) + probe.wireLen) + MpBase(withdraw, a))
  {
    WeightOne(probe);
    BodyOfMp(withdraw, a, [probe], probe.family, o, map[]);
  }

  lemma OverheadOfTraditional(withdraw: bool, a: PathAttrs, probe: Route, o: Options)
    requires Buildable(withdraw, a, probe.family, o) && !o.Mp(probe.family)
    ensures ShellOverhead(withdraw, a, probe, o) == Ok(4 + AttrsLen(Others(withdraw, a, IPV4_UNICAST, o), map[]))
  {
    WeightOne(probe);
    BodyOfTraditional(withdraw, a, [probe], o, map[]);
  }

  lemma WeightOne(r: Route)
    ensures Weight([r], 0) == r.wireLen
  {
    assert [r][..0] == [];
  }

  /** Exact length of a chunk's message, in terms of the overhead measured on the probe. */
  lemma ChunkLength(withdraw: bool, a: PathAttrs, probe: Route, chunk: seq<Route>, o: Options)
    requires OfFamily(chunk, probe.family) && Buildable(withdraw, a, probe.family, o)
    ensures Build(withdraw, a, chunk, o).Ok? && ShellOverhead(withdraw, a, probe, o).Ok?
    ensures MessageLen(Build(withdraw, a, chunk, o).value, o.addPath)
            == HEADER_LEN + ShellOverhead(withdraw, a, probe, o).value + Weight(chunk, PerNlri(o, probe.family))
               + (if HeaderGrows(withdraw, a, probe, chunk, o) then 1 else 0)
               - (if HeaderShrinks(withdraw, a, probe, chunk, o) then 1 else 0)
  {
    if o.Mp(probe.family) {
      OverheadOfMp(withdraw, a, probe, o);
      BodyOfMp(withdraw, a, chunk, probe.family, o, o.addPath);
    } else {
      OverheadOfTraditional(withdraw, a, probe, o);
      BodyOfTraditional(withdraw, a, chunk, o, o.addPath);
    }
  }

  /** A chunk within the budget is sendable unless it fills the budget to the last octet and its MP
      header grew since the probe; then it is one octet too long. Traditional IPv4 unicast, with
      or without path ids, always fits. */
  lemma ChunkFits(withdraw: bool, a: PathAttrs, probe: Route, chunk: seq<Route>, o: Options)
    requires OfFamily(chunk, probe.family) && Buildable(withdraw, a, probe.family, o)
    ensures Build(withdraw, a, chunk, o).Ok? && ShellOverhead(withdraw, a, probe, o).Ok?
    ensures var budget := Budget(o, ShellOverhead(withdraw, a, probe, o).value);
            var len := MessageLen(Build(withdraw, a, chunk, o).value, o.addPath);
            var w := Weight(chunk, PerNlri(o, probe.family));
            w <= budget ==>
              && len <= o.Limit() + 1
              && (SerializeMessage(Build(withdraw, a, chunk, o).value, o).Ok?
                  <==> !(w == budget && HeaderGrows(withdraw, a, probe, chunk, o)))
              && (!o.Mp(probe.family) ==> len <= o.Limit())
  {
    ChunkLength(withdraw, a, probe, chunk, o);
  }

  // ----- the failing family has members

  const IPV6_UNICAST: Family := 0x0002_0001

  const HOST: Route := Route(IPV6_UNICAST, "2001:db8::1/128", IpWireLen(128), None)
  const NET: Route := Route(IPV6_UNICAST, "2001:d00::/24", IpWireLen(24), None)

  const OVERFULL: seq<Route> := seq(239, _ => HOST) + [NET]

  const NO_ATTRS: PathAttrs := PathAttrs(None, 0, false, false, 0, None, None)
  const PLAIN_OPTIONS: Options := Options(false, false, map[], false)

  lemma {:induction false} WeightUniform(r: Route, n: nat, per: nat)
    ensures Weight(seq(n, _ => r), per) == n * (r.wireLen + per)
  {
    if n > 0 {
      WeightUniform(r, n - 1, per);
      assert seq(n, _ => r)[..n - 1] == seq(n - 1, _ => r);
    }
  }

  /** Withdrawing 239 IPv6 hosts and one /24 is packed into a single message of 4097 octets, which
      cannot be sent: ChunkRoutes does not keep its documented bound. */
  lemma ChunkRoutesCanOverflow()
    ensures OfFamily(OVERFULL, IPV6_UNICAST) && Build(true, NO_ATTRS, OVERFULL, PLAIN_OPTIONS).Ok?
    ensures ShellOverhead(true, NO_ATTRS, OVERFULL[0], PLAIN_OPTIONS) == Ok(10)
    ensures Weight(OVERFULL, 0) == Budget(PLAIN_OPTIONS, 10) == 4067
    ensures forall chunks :: Greedy(OVERFULL, chunks, 0, 4067) ==> chunks == [OVERFULL]
    ensures SerializeMessage(Build(true, NO_ATTRS, OVERFULL, PLAIN_OPTIONS).value, PLAIN_OPTIONS) == Err(4097)
  {
    OverfullWeight();
    assert Others(true, NO_ATTRS, IPV6_UNICAST, PLAIN_OPTIONS) == [];
    OverheadOfMp(true, NO_ATTRS, HOST, PLAIN_OPTIONS);
    ChunkLength(true, NO_ATTRS, HOST, OVERFULL, PLAIN_OPTIONS);
    forall chunks | Greedy(OVERFULL, chunks, 0, 4067) ensures chunks == [OVERFULL] {
      OneChunkIsForced(OVERFULL, chunks, 0, 4067);
    }
  }

  lemma OverfullWeight()
    ensures OVERFULL[0] == HOST && OfFamily(OVERFULL, IPV6_UNICAST) && Weight(OVERFULL, 0) == 4067
  {
    WeightUniform(HOST, 239, 0);
    WeightConcat(seq(239, _ => HOST), [NET], 0);
    WeightOne(NET);
  }

  lemma OneChunkIsForced(routes: seq<Route>, chunks: seq<seq<Route>>, per: nat, budget: int)
    requires routes != [] && Greedy(routes, chunks, per, budget) && Weight(routes, per) <= budget
    ensures chunks == [routes]
  {
    assert [routes][..0] == [];
    assert Flatten([routes]) == routes;
    GreedyIsOptimal(routes, chunks, [routes], per, budget);
    assert chunks != [];
    assert chunks[..0] == [];
    assert Flatten(chunks) == chunks[0];
  }
}
