/**
 internal/packet/path.go: building one UPDATE, its encoded length, and splitting routes into
 messages. Messages are structural; lengths follow section 4.3 of RFC 4271, sections 3 and 4 of
 RFC 4760 and section 3 of RFC 7911, with path attribute headers in their shortest form.
 */
module Packet {
  import opened Outcomes
  import opened Nlri

  const HEADER_LEN: nat := 19
  const MAX_LEN: nat := 4096
  const EXTENDED_MAX_LEN: nat := 65535

  const ADD_PATH_RECEIVE: bv8 := 1
  const ADD_PATH_SEND: bv8 := 2

  type Modes = map<Family, bv8>

  predicate SendOn(modes: Modes, fam: Family) { fam in modes && modes[fam] & ADD_PATH_SEND != 0 }

  predicate ReceiveOn(modes: Modes, fam: Family) { fam in modes && modes[fam] & ADD_PATH_RECEIVE != 0 }

  /** pathId is Some for a route wrapped by WithPathID; wireLen never includes the 4 id octets. */
  datatype Route = Route(family: Family, name: string, wireLen: nat, pathId: Option<nat>)
  {
    function Nlri(): PathNlri {
      PathNlri(name, wireLen, if pathId.Some? then pathId.value else 0)
    }
  }

  /** Length octet plus the address octets that carry `bits` bits, and not one more. */
  function IpWireLen(bits: nat): (len: nat)
    ensures 8 * (len - 2) < bits <= 8 * (len - 1)
  {
    1 + (bits + 7) / 8
  }

  datatype HopKind = V4 | V4in6 | V6

  /** A next hop with the octets it takes in NEXT_HOP and in MP_REACH_NLRI. */
  datatype NextHop = NextHop(kind: HopKind, attrLen: nat, mpLen: nat)

  /** An optional attribute whose builder may refuse its configuration. */
  datatype Built = Built(valid: bool, valueLen: nat)

  datatype PathAttrs = PathAttrs(nextHop: Option<NextHop>, localAS: nat, med: bool, localPref: bool,
                                 extCommunities: nat, srv6: Option<Built>, pmsi: Option<Built>)

  datatype Options = Options(useMpReach: bool, useExtended: bool, addPath: Modes, use2ByteAS: bool)
  {
    function Limit(): nat { if useExtended then EXTENDED_MAX_LEN else MAX_LEN }

    predicate Mp(fam: Family) { fam != IPV4_UNICAST || useMpReach }
  }

  datatype Code = Origin | AsPath | NextHopAttr | Med | LocalPref | ExtCommunities | As4Path | PrefixSid | Pmsi

  datatype Attribute =
    | Plain(code: Code, len: nat)
    | MpReach(fam: Family, hopLen: nat, reach: seq<PathNlri>)
    | MpUnreach(fam: Family, unreach: seq<PathNlri>)

  datatype UpdateMsg = UpdateMsg(withdrawn: seq<PathNlri>, attrs: seq<Attribute>, nlri: seq<PathNlri>)

  datatype BuildError =
    | NoRoutes | MixedFamily(i: nat) | NextHopRequired | LocalASRequired | NextHopNotIPv4
    | BadSrv6Sid | BadPmsi

  // ----- building

  function Nlris(routes: seq<Route>): seq<PathNlri> {
    seq(|routes|, i requires 0 <= i < |routes| => routes[i].Nlri())
  }

  /** Least index whose family differs, or |routes|. */
  function Mismatch(routes: seq<Route>, fam: Family): (i: nat)
    ensures i <= |routes| && (forall j :: 0 <= j < i ==> routes[j].family == fam)
    ensures i < |routes| ==> routes[i].family != fam
  {
    if routes == [] then 0
    else if routes[0].family != fam then 0
    else 1 + Mismatch(routes[1..], fam)
  }

  function AsPathAttributes(localAS: nat, use2ByteAS: bool): seq<Attribute> {
    if !use2ByteAS then [Plain(AsPath, 6)]
    else if localAS <= 0xffff then [Plain(AsPath, 4)]
    else [Plain(AsPath, 4), Plain(As4Path, 6)]
  }

  function TrailingAttributes(a: PathAttrs): Result<seq<Attribute>, BuildError> {
    if a.srv6.Some? && !a.srv6.value.valid then Err(BadSrv6Sid)
    else if a.pmsi.Some? && !a.pmsi.value.valid then Err(BadPmsi)
    else
      Ok((if a.med then [Plain(Med, 4)] else [])
         + (if a.localPref then [Plain(LocalPref, 4)] else [])
         + (if a.extCommunities > 0 then [Plain(ExtCommunities, 8 * a.extCommunities)] else [])
         + (if a.srv6.Some? then [Plain(PrefixSid, a.srv6.value.valueLen)] else [])
         + (if a.pmsi.Some? then [Plain(Pmsi, a.pmsi.value.valueLen)] else []))
  }

  function BuildIPv4Unicast(withdraw: bool, a: PathAttrs, nlris: seq<PathNlri>, o: Options)
    : Result<UpdateMsg, BuildError>
  {
    if withdraw then Ok(UpdateMsg(nlris, [], []))
    else if a.nextHop.None? then Err(NextHopRequired)
    else if a.localAS == 0 then Err(LocalASRequired)
    else if a.nextHop.value.kind == V6 then Err(NextHopNotIPv4)
    else
      match TrailingAttributes(a)
      case Err(e) => Err(e)
      case Ok(more) =>
        Ok(UpdateMsg([], [Plain(Origin, 1)] + AsPathAttributes(a.localAS, o.use2ByteAS)
                         + [Plain(NextHopAttr, a.nextHop.value.attrLen)] + more, nlris))
  }

  function BuildMp(withdraw: bool, a: PathAttrs, fam: Family, nlris: seq<PathNlri>, o: Options)
    : Result<UpdateMsg, BuildError>
  {
    if withdraw then Ok(UpdateMsg([], [MpUnreach(fam, nlris)], []))
    else if a.nextHop.None? then Err(NextHopRequired)
    else if a.localAS == 0 then Err(LocalASRequired)
    else
      var hop := a.nextHop.value;
      match TrailingAttributes(a)
      case Err(e) => Err(e)
      case Ok(more) =>
        Ok(UpdateMsg([], [Plain(Origin, 1)] + AsPathAttributes(a.localAS, o.use2ByteAS)
                         + [MpReach(fam, hop.mpLen, nlris)]
                         + ((if fam == IPV4_UNICAST && hop.kind != V6
                             then [Plain(NextHopAttr, hop.attrLen)] else []) + more), []))
  }

  function Build(withdraw: bool, a: PathAttrs, routes: seq<Route>, o: Options): Result<UpdateMsg, BuildError> {
    if routes == [] then Err(NoRoutes)
    else
      var fam := routes[0].family;
      if Mismatch(routes, fam) < |routes| then Err(MixedFamily(Mismatch(routes, fam)))
      else if !o.Mp(fam) then BuildIPv4Unicast(withdraw, a, Nlris(routes), o)
      else BuildMp(withdraw, a, fam, Nlris(routes), o)
  }

  method BuildUpdateMessage(withdraw: bool, a: PathAttrs, routes: seq<Route>, o: Options)
    returns (r: Result<UpdateMsg, BuildError>)
    ensures r == Build(withdraw, a, routes, o)
  {
    if |routes| == 0 { return Err(NoRoutes); }
    var family := routes[0].family;
    var nlris: seq<PathNlri> := [];
    for i := 0 to |routes|
      invariant nlris == Nlris(routes[..i]) && forall j :: 0 <= j < i ==> routes[j].family == family
    {
      if routes[i].family != family {
        return Err(MixedFamily(i));
      }
      nlris := nlris + [routes[i].Nlri()];
    }
    assert routes[..|routes|] == routes;
    if family == IPV4_UNICAST && !o.useMpReach {
      return BuildIPv4Unicast(withdraw, a, nlris, o);
    }
    return BuildMp(withdraw, a, family, nlris, o);
  }

  // ----- encoded lengths

  function NlriLen(addPath: bool, ns: seq<PathNlri>): nat {
    if ns == [] then 0
    else NlriLen(addPath, ns[..|ns| - 1]) + ns[|ns| - 1].size + if addPath then 4 else 0
  }

  function ValueLen(a: Attribute, modes: Modes): nat {
    match a
    case Plain(_, len) => len
    case MpReach(fam, hopLen, ns) => 5 + hopLen + NlriLen(SendOn(modes, fam), ns)
    case MpUnreach(fam, ns) => 3 + NlriLen(SendOn(modes, fam), ns)
  }

  function AttrLen(a: Attribute, modes: Modes): nat {
    (if ValueLen(a, modes) > 255 then 4 else 3) + ValueLen(a, modes)
  }

  function AttrsLen(attrs: seq<Attribute>, modes: Modes): nat {
    if attrs == [] then 0
    else AttrsLen(attrs[..|attrs| - 1], modes) + AttrLen(attrs[|attrs| - 1], modes)
  }

  function BodyLen(m: UpdateMsg, modes: Modes): nat {
    2 + NlriLen(SendOn(modes, IPV4_UNICAST), m.withdrawn)
    + 2 + AttrsLen(m.attrs, modes)
    + NlriLen(SendOn(modes, IPV4_UNICAST), m.nlri)
  }

  function MessageLen(m: UpdateMsg, modes: Modes): nat { HEADER_LEN + BodyLen(m, modes) }

  /** Octets of the message, or the length refused: 4096, or 65535 with Extended Messages. */
  function SerializeMessage(m: UpdateMsg, o: Options): Result<nat, nat> {
    if MessageLen(m, o.addPath) > o.Limit() then Err(MessageLen(m, o.addPath))
    else Ok(MessageLen(m, o.addPath))
  }

  // ----- chunking

  function PerNlri(o: Options, fam: Family): nat { if SendOn(o.addPath, fam) then 4 else 0 }

  function Weight(routes: seq<Route>, per: nat): nat {
    if routes == [] then 0 else Weight(routes[..|routes| - 1], per) + routes[|routes| - 1].wireLen + per
  }

  /** shellOverhead: the probe is measured without marshalling options, so without path ids. */
  function ShellOverhead(withdraw: bool, a: PathAttrs, probe: Route, o: Options): Result<int, BuildError> {
    match Build(withdraw, a, [probe], o)
    case Err(e) => Err(e)
    case Ok(m) => Ok(BodyLen(m, map[]) - probe.wireLen)
  }

  function Budget(o: Options, overhead: int): int { o.Limit() - HEADER_LEN - overhead }

  function Flatten<T>(parts: seq<seq<T>>): seq<T> {
    if parts == [] then [] else Flatten(parts[..|parts| - 1]) + parts[|parts| - 1]
  }

  ghost predicate Split(routes: seq<Route>, parts: seq<seq<Route>>, per: nat, budget: int) {
    Flatten(parts) == routes && forall i :: 0 <= i < |parts| ==> Weight(parts[i], per) <= budget
  }

  /** No chunk is empty, and none could also take the first route of the next. */
  ghost predicate Greedy(routes: seq<Route>, chunks: seq<seq<Route>>, per: nat, budget: int) {
    && Split(routes, chunks, per, budget)
    && (forall i :: 0 <= i < |chunks| ==> chunks[i] != [])
    && (forall i :: 0 <= i < |chunks| - 1 ==> ClosedAt(chunks, i, per, budget))
  }

  /** Chunk i could not also take the first route of the next. */
  predicate ClosedAt(chunks: seq<seq<Route>>, i: nat, per: nat, budget: int)
    requires i + 1 < |chunks|
  {
    chunks[i + 1] != [] && Closed(chunks[i], chunks[i + 1][0], per, budget)
  }

  datatype ChunkError = BadAttrs(e: BuildError) | NoRoom | RouteTooBig(i: nat)

  method ChunkRoutes(withdraw: bool, a: PathAttrs, routes: seq<Route>, o: Options)
    returns (r: Result<seq<seq<Route>>, ChunkError>)
    ensures routes == [] ==> r == Ok([])
    ensures routes != [] ==>
              var overhead := ShellOverhead(withdraw, a, routes[0], o);
              if overhead.Err? then r == Err(BadAttrs(overhead.error))
              else
                var budget, per := Budget(o, overhead.value), PerNlri(o, routes[0].family);
                if budget <= 0 then r == Err(NoRoom)
                else match r
                     case Ok(chunks) => Greedy(routes, chunks, per, budget)
                     case Err(RouteTooBig(i)) =>
                       i < |routes| && !Fits(routes[i], per, budget) && AllFit(routes, i, per, budget)
                     case Err(_) => false
  {
    if |routes| == 0 { return Ok([]); }
    var shell := ShellOverhead(withdraw, a, routes[0], o);
    if shell.Err? { return Err(BadAttrs(shell.error)); }
    var budget := Budget(o, shell.value);
    if budget <= 0 { return Err(NoRoom); }
    var perNLRI := PerNlri(o, routes[0].family);

    var chunks, start, tooBig, used := Pack(routes, perNLRI, budget);
    if tooBig.Some? { return Err(RouteTooBig(tooBig.value)); }
    FinishPacking(routes, chunks, start, used, perNLRI, budget);
    return Ok(chunks + [routes[start..]]);
  }

  predicate Fits(r: Route, per: nat, budget: int) { r.wireLen + per <= budget }

  ghost predicate AllFit(routes: seq<Route>, n: nat, per: nat, budget: int)
    requires n <= |routes|
  {
    forall j :: 0 <= j < n ==> Fits(routes[j], per, budget)
  }

  lemma OneMoreFits(routes: seq<Route>, n: nat, per: nat, budget: int)
    requires n < |routes| && AllFit(routes, n, per, budget) && Fits(routes[n], per, budget)
    ensures AllFit(routes, n + 1, per, budget)
  {
  }

  /** The packing loop of ChunkRoutes; routes[start..] are left for the last chunk. */
  method Pack(routes: seq<Route>, perNLRI: nat, budget: int)
    returns (chunks: seq<seq<Route>>, start: nat, tooBig: Option<nat>, used: nat)
    requires routes != [] && 0 < budget
    ensures match tooBig
            case None => Packing(routes, chunks, start, |routes|, used, perNLRI, budget)
            case Some(i) => i < |routes| && !Fits(routes[i], perNLRI, budget) && AllFit(routes, i, perNLRI, budget)
  {
    chunks, start, tooBig, used := [], 0, None, 0;
    StartPacking(routes, perNLRI, budget);
    for i := 0 to |routes|
      invariant AllFit(routes, i, perNLRI, budget)
      invariant Packing(routes, chunks, start, i, used, perNLRI, budget)
    {
      var sz := routes[i].wireLen + perNLRI;
      if sz > budget {
        tooBig := Some(i);
        return;
      }
      OneMoreFits(routes, i, perNLRI, budget);
      if used + sz > budget {
        CloseChunk(routes, chunks, start, i, used, perNLRI, budget);
        chunks := chunks + [routes[start..i]];
        start, used := i, 0;
      } else {
        GrowChunk(routes, chunks, start, i, used, perNLRI, budget);
      }
      used := used + sz;
    }
  }

  /** State of the packing loop before route i: chunks pack routes[..start], routes[start..i] are open. */
  ghost predicate Packing(routes: seq<Route>, chunks: seq<seq<Route>>, start: nat, i: nat, used: nat,
                          per: nat, budget: int)
  {
    && start <= i <= |routes| && (i > 0 ==> start < i)
    && used == Weight(routes[start..i], per) <= budget
    && Greedy(routes[..start], chunks, per, budget)
    && (chunks != [] ==> start < i && Closed(chunks[|chunks| - 1], routes[start], per, budget))
  }

  lemma StartPacking(routes: seq<Route>, per: nat, budget: int)
    requires 0 < budget
    ensures Packing(routes, [], 0, 0, 0, per, budget)
  {
  }

  lemma GrowChunk(routes: seq<Route>, chunks: seq<seq<Route>>, start: nat, i: nat, used: nat, per: nat, budget: int)
    requires Packing(routes, chunks, start, i, used, per, budget) && i < |routes|
    requires used + routes[i].wireLen + per <= budget
    ensures Packing(routes, chunks, start, i + 1, used + routes[i].wireLen + per, per, budget)
  {
    assert routes[start..i + 1][..i - start] == routes[start..i];
  }

  lemma CloseChunk(routes: seq<Route>, chunks: seq<seq<Route>>, start: nat, i: nat, used: nat, per: nat, budget: int)
    requires Packing(routes, chunks, start, i, used, per, budget) && i < |routes|
    requires used + routes[i].wireLen + per > budget >= routes[i].wireLen + per
    ensures Packing(routes, chunks + [routes[start..i]], i, i + 1, routes[i].wireLen + per, per, budget)
  {
    assert used > 0;
    assert start < i;
    ExtendGreedy(routes, start, i, chunks, per, budget);
    assert routes[i..i + 1] == [routes[i]];
    assert [routes[i]][..0] == [];
  }

  lemma FinishPacking(routes: seq<Route>, chunks: seq<seq<Route>>, start: nat, used: nat, per: nat, budget: int)
    requires routes != [] && Packing(routes, chunks, start, |routes|, used, per, budget)
    ensures Greedy(routes, chunks + [routes[start..]], per, budget)
  {
    ExtendGreedy(routes, start, |routes|, chunks, per, budget);
    assert routes[..|routes|] == routes && routes[start..|routes|] == routes[start..];
  }

  /** The chunk could not also take r. */
  predicate Closed(chunk: seq<Route>, r: Route, per: nat, budget: int) {
    Weight(chunk, per) + r.wireLen + per > budget
  }

  lemma ExtendGreedy(routes: seq<Route>, start: nat, end: nat, chunks: seq<seq<Route>>, per: nat, budget: int)
    requires start < end <= |routes|
    requires Greedy(routes[..start], chunks, per, budget) && Weight(routes[start..end], per) <= budget
    requires chunks != [] ==> Closed(chunks[|chunks| - 1], routes[start], per, budget)
    ensures Greedy(routes[..end], chunks + [routes[start..end]], per, budget)
  {
    var g := chunks + [routes[start..end]];
    assert g[..|chunks|] == chunks;
    forall i | 0 <= i < |g| - 1 ensures ClosedAt(g, i, per, budget) {
      assert i < |chunks| - 1 ==> ClosedAt(chunks, i, per, budget);
    }
    assert routes[..start] + routes[start..end] == routes[..end];
  }
}
