/**
 The octets of an UPDATE, written out field by field as section 4.3 of RFC 4271, sections 3 and 4 of
 RFC 4760 and section 3 of RFC 7911 lay them out. The lengths that ChunkRoutes and SerializeMessage reckon
 with are the lengths of these, and the reader of Framing.dfy cuts them off a stream as one message.
 What the codecs of next hops, extended communities, SRv6, PMSI and NLRI write is given, octet by octet.
 */
module Octets {
  import opened Outcomes
  import opened Nlri
  import opened Packet
  import opened Framing
  import Chunking
  import OpenMessage

  type Bytes = seq<Byte>

  function U8(n: nat): Bytes { [n % 256] }

  function U16(n: nat): Bytes { U8(n / 256) + U8(n) }

  function U32(n: nat): Bytes { U16(n / 0x1_0000) + U16(n) }

  /** The parts this model does not look into, and the plain numbers of PathAttrs. */
  datatype Parts = Parts(origin: Byte, med: nat, localPref: nat, hop: Bytes, mpHop: Bytes,
                         communities: seq<Bytes>, srv6: Bytes, pmsi: Bytes, nlri: PathNlri -> Bytes)

  /** The parts have the sizes the rest of the model knows them by. */
  ghost predicate Fit(x: Parts, a: PathAttrs) {
    && (a.nextHop.Some? ==> |x.hop| == a.nextHop.value.attrLen && |x.mpHop| == a.nextHop.value.mpLen)
    && |x.communities| == a.extCommunities
    && (forall i :: 0 <= i < |x.communities| ==> |x.communities[i]| == 8)
    && (a.srv6.Some? ==> |x.srv6| == a.srv6.value.valueLen)
    && (a.pmsi.Some? ==> |x.pmsi| == a.pmsi.value.valueLen)
    && FitNlri(x)
  }

  ghost predicate FitNlri(x: Parts) { forall n :: |x.nlri(n)| == n.size }

  function Joined8(parts: seq<Bytes>): Bytes {
    if parts == [] then [] else Joined8(parts[..|parts| - 1]) + parts[|parts| - 1]
  }

  /** One AS_SEQUENCE of one AS. */
  function OneAS(as_: Bytes): Bytes { [2, 1] + as_ }

  /** The value of a plain attribute. */
  function PlainValue(c: Code, a: PathAttrs, o: Options, x: Parts): Bytes {
    match c
    case Origin => [x.origin]
    case AsPath => OneAS(if !o.use2ByteAS then U32(a.localAS)
                         else U16(if a.localAS > 0xffff then OpenMessage.AS_TRANS else a.localAS))
    case As4Path => OneAS(U32(a.localAS))
    case NextHopAttr => x.hop
    case Med => U32(x.med)
    case LocalPref => U32(x.localPref)
    case ExtCommunities => Joined8(x.communities)
    case PrefixSid => x.srv6
    case Pmsi => x.pmsi
  }

  /** Attribute type code and flags (optional 0x80, transitive 0x40) without the extended-length bit. */
  function TypeOf(a: Attribute): Byte {
    match a
    case MpReach(_, _, _) => 14
    case MpUnreach(_, _) => 15
    case Plain(c, _) =>
      match c
      case Origin => 1
      case AsPath => 2
      case NextHopAttr => 3
      case Med => 4
      case LocalPref => 5
      case ExtCommunities => 16
      case As4Path => 17
      case Pmsi => 22
      case PrefixSid => 40
  }

  function FlagsOf(a: Attribute): Byte {
    match a
    case MpReach(_, _, _) => 0x80
    case MpUnreach(_, _) => 0x80
    case Plain(c, _) =>
      match c
      case Med => 0x80
      case ExtCommunities | As4Path | PrefixSid | Pmsi => 0xc0
      case _ => 0x40
  }

  function NlriOctets(addPath: bool, n: PathNlri, x: Parts): Bytes {
    (if addPath then U32(n.id) else []) + x.nlri(n)
  }

  function NlrisOctets(addPath: bool, ns: seq<PathNlri>, x: Parts): Bytes {
    if ns == [] then []
    else NlrisOctets(addPath, ns[..|ns| - 1], x) + NlriOctets(addPath, ns[|ns| - 1], x)
  }

  /** AFI and SAFI. */
  function FamilyOctets(fam: Family): Bytes { U16(fam / 0x1_0000) + U8(fam) }

  function ValueOctets(at: Attribute, modes: Modes, a: PathAttrs, o: Options, x: Parts): Bytes {
    match at
    case Plain(c, _) => PlainValue(c, a, o, x)
    case MpReach(fam, hopLen, ns) =>
      FamilyOctets(fam) + U8(hopLen) + x.mpHop + [0] + NlrisOctets(SendOn(modes, fam), ns, x)
    case MpUnreach(fam, ns) => FamilyOctets(fam) + NlrisOctets(SendOn(modes, fam), ns, x)
  }

  /** Flags, type, one length octet or two with the extended-length bit, and the value. */
  function AttrOctets(at: Attribute, modes: Modes, a: PathAttrs, o: Options, x: Parts): Bytes {
    var v := ValueOctets(at, modes, a, o, x);
    if |v| > 255 then [FlagsOf(at) + 0x10, TypeOf(at)] + U16(|v|) + v
    else [FlagsOf(at), TypeOf(at)] + U8(|v|) + v
  }

  function AttrsOctets(attrs: seq<Attribute>, modes: Modes, a: PathAttrs, o: Options, x: Parts): Bytes {
    if attrs == [] then []
    else AttrsOctets(attrs[..|attrs| - 1], modes, a, o, x) + AttrOctets(attrs[|attrs| - 1], modes, a, o, x)
  }

  function BodyOctets(m: UpdateMsg, modes: Modes, a: PathAttrs, o: Options, x: Parts): Bytes {
    var withdrawn := NlrisOctets(SendOn(modes, IPV4_UNICAST), m.withdrawn, x);
    var attrs := AttrsOctets(m.attrs, modes, a, o, x);
    U16(|withdrawn|) + withdrawn + U16(|attrs|) + attrs + NlrisOctets(SendOn(modes, IPV4_UNICAST), m.nlri, x)
  }

  /** Marker, length, type UPDATE and the body (section 4.1 of RFC 4271). */
  function Encode(m: UpdateMsg, modes: Modes, a: PathAttrs, o: Options, x: Parts): Bytes {
    UpdateFrame(BodyOctets(m, modes, a, o, x))
  }

  function UpdateFrame(body: Bytes): Bytes { seq(16, _ => 0xff) + (U16(19 + |body|) + [2]) + body }

  // ----- their lengths

  /** Every attribute of the message has the length its value is written with. */
  ghost predicate Sized(attrs: seq<Attribute>, a: PathAttrs, o: Options, x: Parts) {
    forall i :: 0 <= i < |attrs| ==>
                  match attrs[i]
                  case Plain(c, len) => |PlainValue(c, a, o, x)| == len
                  case MpReach(_, hopLen, _) => |x.mpHop| == hopLen
                  case MpUnreach(_, _) => true
  }

  lemma {:induction false} NlrisLength(addPath: bool, ns: seq<PathNlri>, x: Parts)
    requires FitNlri(x)
    ensures |NlrisOctets(addPath, ns, x)| == NlriLen(addPath, ns)
  {
    if ns != [] { NlrisLength(addPath, ns[..|ns| - 1], x); }
  }

  lemma AttrLength(at: Attribute, modes: Modes, a: PathAttrs, o: Options, x: Parts)
    requires FitNlri(x) && Sized([at], a, o, x)
    ensures |AttrOctets(at, modes, a, o, x)| == AttrLen(at, modes)
  {
    assert [at][0] == at;
    match at
    case Plain(_, _) =>
    case MpReach(fam, _, ns) => NlrisLength(SendOn(modes, fam), ns, x);
    case MpUnreach(fam, ns) => NlrisLength(SendOn(modes, fam), ns, x);
  }

  lemma {:induction false} AttrsLength(attrs: seq<Attribute>, modes: Modes, a: PathAttrs, o: Options, x: Parts)
    requires FitNlri(x) && Sized(attrs, a, o, x)
    ensures |AttrsOctets(attrs, modes, a, o, x)| == AttrsLen(attrs, modes)
  {
    if attrs != [] {
      AttrsLength(attrs[..|attrs| - 1], modes, a, o, x);
      AttrLength(attrs[|attrs| - 1], modes, a, o, x);
    }
  }

  /** Whatever the message, the length reckoned with is the number of its octets, under whatever modes it
      is written. */
  lemma EncodedLength(m: UpdateMsg, modes: Modes, a: PathAttrs, o: Options, x: Parts)
    requires FitNlri(x) && Sized(m.attrs, a, o, x)
    ensures |Encode(m, modes, a, o, x)| == MessageLen(m, modes)
    ensures |BodyOctets(m, modes, a, o, x)| == BodyLen(m, modes)
  {
    NlrisLength(SendOn(modes, IPV4_UNICAST), m.withdrawn, x);
    NlrisLength(SendOn(modes, IPV4_UNICAST), m.nlri, x);
    AttrsLength(m.attrs, modes, a, o, x);
  }

  lemma {:induction false} JoinedLength(parts: seq<Bytes>)
    requires forall i :: 0 <= i < |parts| ==> |parts[i]| == 8
    ensures |Joined8(parts)| == 8 * |parts|
  {
    if parts != [] { JoinedLength(parts[..|parts| - 1]); }
  }

  lemma SizedConcat(p: seq<Attribute>, q: seq<Attribute>, a: PathAttrs, o: Options, x: Parts)
    requires Sized(p, a, o, x) && Sized(q, a, o, x)
    ensures Sized(p + q, a, o, x)
  {
  }

  lemma TrailingSized(a: PathAttrs, o: Options, x: Parts)
    requires Fit(x, a) && TrailingAttributes(a).Ok?
    ensures Sized(TrailingAttributes(a).value, a, o, x)
  {
    JoinedLength(x.communities);
    var p1 := if a.med then [Plain(Med, 4)] else [];
    var p2 := if a.localPref then [Plain(LocalPref, 4)] else [];
    var p3 := if a.extCommunities > 0 then [Plain(ExtCommunities, 8 * a.extCommunities)] else [];
    var p4 := if a.srv6.Some? then [Plain(PrefixSid, a.srv6.value.valueLen)] else [];
    var p5 := if a.pmsi.Some? then [Plain(Pmsi, a.pmsi.value.valueLen)] else [];
    SizedConcat(p1, p2, a, o, x);
    SizedConcat(p1 + p2, p3, a, o, x);
    SizedConcat(p1 + p2 + p3, p4, a, o, x);
    SizedConcat(p1 + p2 + p3 + p4, p5, a, o, x);
  }

  lemma LeadingSized(a: PathAttrs, o: Options, x: Parts)
    ensures Sized([Plain(Origin, 1)] + AsPathAttributes(a.localAS, o.use2ByteAS), a, o, x)
  {
  }

  /** Every message the builder makes is one whose octets are written with the lengths it records. */
  lemma BuiltIsSized(withdraw: bool, a: PathAttrs, routes: seq<Route>, o: Options, x: Parts)
    requires Fit(x, a) && Build(withdraw, a, routes, o).Ok?
    ensures Sized(Build(withdraw, a, routes, o).value.attrs, a, o, x)
  {
    if !withdraw {
      var fam := routes[0].family;
      LeadingSized(a, o, x);
      TrailingSized(a, o, x);
      var head := [Plain(Origin, 1)] + AsPathAttributes(a.localAS, o.use2ByteAS);
      var hop := a.nextHop.value;
      var more := TrailingAttributes(a).value;
      var nh := [Plain(NextHopAttr, hop.attrLen)];
      assert Sized(nh, a, o, x) && Sized([], a, o, x);
      if o.Mp(fam) {
        var mp := [MpReach(fam, hop.mpLen, Nlris(routes))];
        var tail := if fam == IPV4_UNICAST && hop.kind != V6 then nh else [];
        SizedConcat(head, mp, a, o, x);
        SizedConcat(tail, more, a, o, x);
        SizedConcat(head + mp, tail + more, a, o, x);
      } else {
        SizedConcat(head, nh, a, o, x);
        SizedConcat(head + nh, more, a, o, x);
      }
    }
  }

  /** Octets on the wire: the message of a request is written in exactly the octets that SerializeMessage
      reports, it passes exactly if they fit the limit, and what passes is one well-framed message that a
      reader with that limit cuts off a stream again. */
  lemma WrittenAsReckoned(withdraw: bool, a: PathAttrs, routes: seq<Route>, o: Options, x: Parts, more: Bytes, codec: Codec)
    requires Fit(x, a) && Build(withdraw, a, routes, o).Ok?
    ensures var m := Build(withdraw, a, routes, o).value;
            var octets := Encode(m, o.addPath, a, o, x);
            && (SerializeMessage(m, o) == if |octets| <= (if o.useExtended then 65535 else 4096) then Ok(|octets|)
                                          else Err(|octets|))
            && (SerializeMessage(m, o).Ok? ==>
                  && WellFramed(octets, o.Limit())
                  && ReadOne(octets + more, o.Limit(), codec)
                     == if codec(octets) then Got(octets, more) else Failed(Unparsable(octets), more))
  {
    var m := Build(withdraw, a, routes, o).value;
    var octets := Encode(m, o.addPath, a, o, x);
    BuiltIsSized(withdraw, a, routes, o, x);
    EncodedLength(m, o.addPath, a, o, x);
    if SerializeMessage(m, o).Ok? {
      FrameIsWellFramed(BodyOctets(m, o.addPath, a, o, x));
      ReadHead(octets, more, o.Limit(), codec);
    }
  }

  lemma FrameIsWellFramed(body: Bytes)
    requires 19 + |body| <= 65535
    ensures |UpdateFrame(body)| == 19 + |body| && WellFramed(UpdateFrame(body), 19 + |body|)
  {
    var head: Bytes := seq(16, _ => 0xff) + (U16(19 + |body|) + [2]);
    assert |head| == 19 && head[16] == (19 + |body|) / 256 && head[17] == (19 + |body|) % 256;
    assert UpdateFrame(body)[..19] == head;
  }

  /** The overhead measured on a probe is the octets of its message body apart from the route's. */
  lemma OverheadIsOctets(withdraw: bool, a: PathAttrs, probe: Route, o: Options, x: Parts)
    requires Fit(x, a) && ShellOverhead(withdraw, a, probe, o).Ok?
    ensures Build(withdraw, a, [probe], o).Ok?
    ensures ShellOverhead(withdraw, a, probe, o).value
         == |BodyOctets(Build(withdraw, a, [probe], o).value, map[], a, o, x)| - |x.nlri(probe.Nlri())|
  {
    BuiltIsSized(withdraw, a, [probe], o, x);
    EncodedLength(Build(withdraw, a, [probe], o).value, map[], a, o, x);
  }

  /** The bound ChunkRoutes documents, in octets: a chunk packed within the budget that the probe leaves is
      written in at most 4096 octets, or 65535, with traditional IPv4 unicast; with MP attributes in at most
      one more, and one more exactly if it fills the budget and the MP attribute header grew. */
  lemma ChunkOctets(withdraw: bool, a: PathAttrs, probe: Route, chunk: seq<Route>, o: Options, x: Parts)
    requires Fit(x, a) && Chunking.OfFamily(chunk, probe.family) && Chunking.Buildable(withdraw, a, probe.family, o)
    ensures Build(withdraw, a, chunk, o).Ok? && ShellOverhead(withdraw, a, probe, o).Ok?
    ensures var octets := Encode(Build(withdraw, a, chunk, o).value, o.addPath, a, o, x);
            var limit := if o.useExtended then 65535 else 4096;
            var budget := limit - 19 - ShellOverhead(withdraw, a, probe, o).value;
            var w := |NlrisOctets(SendOn(o.addPath, probe.family), Nlris(chunk), x)|;
            w <= budget ==>
              if w == budget && Chunking.HeaderGrows(withdraw, a, probe, chunk, o) then |octets| == limit + 1
              else |octets| <= limit
  {
    Chunking.ChunkFits(withdraw, a, probe, chunk, o);
    BuiltIsSized(withdraw, a, chunk, o, x);
    EncodedLength(Build(withdraw, a, chunk, o).value, o.addPath, a, o, x);
    NlrisLength(SendOn(o.addPath, probe.family), Nlris(chunk), x);
    Chunking.NlriLenIsWeight(chunk, SendOn(o.addPath, probe.family));
  }

  // ----- which attributes an advertisement carries

  ghost predicate Has(attrs: seq<Attribute>, c: Code) {
    exists i :: 0 <= i < |attrs| && attrs[i].Plain? && attrs[i].code == c
  }

  ghost predicate HasReach(attrs: seq<Attribute>, at: Attribute) {
    && (exists i :: 0 <= i < |attrs| && attrs[i] == at)
    && forall i :: 0 <= i < |attrs| && !attrs[i].Plain? ==> attrs[i] == at
  }

  /** Whether a plain attribute is called for. */
  predicate Called(c: Code, a: PathAttrs, fam: Family, o: Options)
    requires a.nextHop.Some?
  {
    match c
    case Origin | AsPath => true
    case As4Path => o.use2ByteAS && a.localAS > 0xffff
    case NextHopAttr => fam == IPV4_UNICAST && (!o.useMpReach || a.nextHop.value.kind != V6)
    case Med => a.med
    case LocalPref => a.localPref
    case ExtCommunities => a.extCommunities > 0
    case PrefixSid => a.srv6.Some?
    case Pmsi => a.pmsi.Some?
  }

  lemma HasConcat(p: seq<Attribute>, q: seq<Attribute>, c: Code)
    ensures Has(p + q, c) <==> Has(p, c) || Has(q, c)
  {
    assert forall i :: 0 <= i < |p| ==> (p + q)[i] == p[i];
    assert forall i :: 0 <= i < |q| ==> (p + q)[|p| + i] == q[i];
  }

  lemma HasOne(at: Attribute, c: Code)
    ensures Has([at], c) <==> at.Plain? && at.code == c
    ensures !Has([], c)
  {
    assert [at][0] == at;
  }

  /** Appending an attribute, or nothing. */
  lemma HasMore(p: seq<Attribute>, add: bool, at: Attribute, c: Code)
    ensures Has(p + (if add then [at] else []), c) <==> Has(p, c) || (add && at.Plain? && at.code == c)
  {
    HasOne(at, c);
    HasConcat(p, if add then [at] else [], c);
  }

  lemma TrailingHas(a: PathAttrs, c: Code)
    requires TrailingAttributes(a).Ok?
    ensures Has(TrailingAttributes(a).value, c)
       <==> match c
            case Med => a.med
            case LocalPref => a.localPref
            case ExtCommunities => a.extCommunities > 0
            case PrefixSid => a.srv6.Some?
            case Pmsi => a.pmsi.Some?
            case _ => false
  {
    var p1 := if a.med then [Plain(Med, 4)] else [];
    var p2 := p1 + if a.localPref then [Plain(LocalPref, 4)] else [];
    var p3 := p2 + if a.extCommunities > 0 then [Plain(ExtCommunities, 8 * a.extCommunities)] else [];
    HasOne(Plain(Med, 4), c);
    HasMore(p1, a.localPref, Plain(LocalPref, 4), c);
    HasMore(p2, a.extCommunities > 0, Plain(ExtCommunities, 8 * a.extCommunities), c);
    var sid := if a.srv6.Some? then a.srv6.value.valueLen else 0;
    var p4 := p3 + if a.srv6.Some? then [Plain(PrefixSid, sid)] else [];
    HasMore(p3, a.srv6.Some?, Plain(PrefixSid, sid), c);
    var tunnel := if a.pmsi.Some? then a.pmsi.value.valueLen else 0;
    HasMore(p4, a.pmsi.Some?, Plain(Pmsi, tunnel), c);
    assert TrailingAttributes(a).value == p4 + if a.pmsi.Some? then [Plain(Pmsi, tunnel)] else [];
  }

  lemma LeadingHas(a: PathAttrs, o: Options, c: Code)
    ensures Has([Plain(Origin, 1)] + AsPathAttributes(a.localAS, o.use2ByteAS), c)
       <==> c == Origin || c == AsPath || (c == As4Path && o.use2ByteAS && a.localAS > 0xffff)
  {
    var p := [Plain(Origin, 1)];
    var path := Plain(AsPath, if o.use2ByteAS then 4 else 6);
    HasOne(Plain(Origin, 1), c);
    HasMore(p, true, path, c);
    HasMore(p + [path], o.use2ByteAS && a.localAS > 0xffff, Plain(As4Path, 6), c);
    assert p + AsPathAttributes(a.localAS, o.use2ByteAS)
        == p + [path] + if o.use2ByteAS && a.localAS > 0xffff then [Plain(As4Path, 6)] else [];
  }

  lemma OthersHas(a: PathAttrs, fam: Family, o: Options, c: Code)
    requires Chunking.Buildable(false, a, fam, o)
    ensures Has(Chunking.Others(false, a, fam, o), c) <==> Called(c, a, fam, o)
  {
    var head := [Plain(Origin, 1)] + AsPathAttributes(a.localAS, o.use2ByteAS);
    var more := TrailingAttributes(a).value;
    var nh := Plain(NextHopAttr, a.nextHop.value.attrLen);
    var hops := if o.Mp(fam) && !(fam == IPV4_UNICAST && a.nextHop.value.kind != V6) then [] else [nh];
    LeadingHas(a, o, c);
    TrailingHas(a, c);
    HasOne(nh, c);
    HasConcat(hops, more, c);
    HasConcat(head, hops + more, c);
  }

  lemma Around(pre: seq<Attribute>, mp: Attribute, post: seq<Attribute>, c: Code)
    requires Chunking.AllPlain(pre + post) && !mp.Plain?
    ensures Has(pre + [mp] + post, c) <==> Has(pre + post, c)
    ensures HasReach(pre + [mp] + post, mp)
  {
    var attrs := pre + [mp] + post;
    HasConcat(pre, post, c);
    HasOne(mp, c);
    HasConcat(pre, [mp], c);
    HasConcat(pre + [mp], post, c);
    assert attrs[|pre|] == mp;
    assert forall i :: 0 <= i < |pre| ==> attrs[i] == (pre + post)[i];
    assert forall i :: |pre| < i < |attrs| ==> attrs[i] == (pre + post)[i - 1];
  }

  /** An advertisement carries exactly the attributes its configuration calls for, and the routes, all of
      them and in order, in exactly one place: NLRI, or MP_REACH_NLRI of their family. */
  lemma AttributesAreAsConfigured(a: PathAttrs, routes: seq<Route>, o: Options, c: Code)
    requires Build(false, a, routes, o).Ok?
    ensures a.nextHop.Some?
    ensures var m, fam := Build(false, a, routes, o).value, routes[0].family;
            && (Has(m.attrs, c) <==> Called(c, a, fam, o))
            && m.withdrawn == []
            && (if o.Mp(fam) then m.nlri == [] && HasReach(m.attrs, MpReach(fam, a.nextHop.value.mpLen, Nlris(routes)))
                else m.nlri == Nlris(routes) && Chunking.AllPlain(m.attrs))
  {
    var fam, ns := routes[0].family, Nlris(routes);
    Chunking.BuildDomain(false, a, routes, fam, o);
    Chunking.OthersPlain(false, a, fam, o);
    OthersHas(a, fam, o, c);
    if o.Mp(fam) {
      var pre, post := Chunking.MpReachShape(a, fam, ns, o);
      Around(pre, MpReach(fam, a.nextHop.value.mpLen, ns), post, c);
    } else {
      Chunking.TraditionalShape(a, ns, o);
    }
  }

  /** A withdrawal carries its routes and nothing else. */
  lemma WithdrawalIsBare(a: PathAttrs, routes: seq<Route>, o: Options)
    requires Build(true, a, routes, o).Ok?
    ensures var m, fam := Build(true, a, routes, o).value, routes[0].family;
            if o.Mp(fam) then m == UpdateMsg([], [MpUnreach(fam, Nlris(routes))], []) else m == UpdateMsg(Nlris(routes), [], [])
  {
  }
}
