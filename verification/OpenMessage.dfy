/**
 What a Peer puts in its OPEN: configuration checks and defaults (internal/peer/peer.go), the
 capability list (internal/packet/caps.go) and the message itself (internal/peer/message.go).
 Durations are nanoseconds.
 */
module OpenMessage {
  import opened Outcomes
  import opened Nlri
  import opened Packet

  const SECOND: int := 1_000_000_000
  const AS_TRANS: nat := 23456
  const DEFAULT_HOLD: int := 180 * SECOND
  const DEFAULT_OPEN_TIMEOUT: int := 30 * SECOND

  // Capability codes.
  const ROUTE_REFRESH: nat := 2
  const EXTENDED_MESSAGE: nat := 6
  const ENHANCED_REFRESH: nat := 70

  datatype Tuple = Tuple(fam: Family, mode: bv8)

  datatype Graceful = Graceful(restarting: bool, notification: bool, time: nat)

  datatype Cap =
    | MultiProtocol(fam: Family)
    | FourOctetAS(asn: nat)
    | AddPath(tuples: seq<Tuple>)
    | GracefulRestart(restart: Graceful, fams: seq<Family>)
    | PlainCap(code: nat)
  {
    function Code(): nat {
      match this
      case MultiProtocol(_) => 1
      case GracefulRestart(_, _) => 64
      case FourOctetAS(_) => 65
      case AddPath(_) => 69
      case PlainCap(code) => code
    }
  }

  datatype Param = Capabilities(caps: seq<Cap>) | OtherParam

  datatype Open = Open(myAS: nat, holdTime: nat, params: seq<Param>)

  datatype CapsConfig = CapsConfig(families: seq<Family>, fourOctetAS: nat, routeRefresh: bool,
                                   extendedMessage: bool, enhancedRefresh: bool,
                                   graceful: Option<Graceful>, addPath: Modes)

  datatype Config = Config(localAS: nat, peerAS: nat, routerIs4: bool, hasTarget: bool,
                           families: seq<Family>, holdTime: int, openTimeout: int, caps: CapsConfig)

  /** Duration / time.Second, which truncates toward zero. */
  function Seconds(d: int): int { if d >= 0 then d / SECOND else -((-d) / SECOND) }

  /** Conversion to uint16. */
  function U16(n: int): nat { n % 0x1_0000 }

  datatype ConfigError = NoLocalAS | NoTarget | BadRouterId | NoFamilies | BadHoldTime | BadFamily(i: nat)

  function ZeroFamily(families: seq<Family>): (i: nat)
    ensures i <= |families| && (forall j :: 0 <= j < i ==> families[j] != 0)
    ensures i < |families| ==> families[i] == 0
  {
    if families == [] || families[0] == 0 then 0 else 1 + ZeroFamily(families[1..])
  }

  function Validate(c: Config): Option<ConfigError> {
    var hs := Seconds(c.holdTime);
    if c.localAS == 0 then Some(NoLocalAS)
    else if !c.hasTarget then Some(NoTarget)
    else if !c.routerIs4 then Some(BadRouterId)
    else if c.families == [] then Some(NoFamilies)
    else if hs != 0 && (hs < 3 || hs > 65535) then Some(BadHoldTime)
    else if ZeroFamily(c.families) < |c.families| then Some(BadFamily(ZeroFamily(c.families)))
    else None
  }

  function ApplyDefaults(c: Config): Config {
    c.(holdTime := if c.holdTime == 0 then DEFAULT_HOLD else c.holdTime,
       openTimeout := if c.openTimeout == 0 then DEFAULT_OPEN_TIMEOUT else c.openTimeout,
       caps := c.caps.(families := c.families,
                       fourOctetAS := if c.caps.fourOctetAS == 0 then c.localAS else c.caps.fourOctetAS))
  }

  // ----- capabilities

  ghost predicate ValidAddPath(c: CapsConfig) {
    forall f :: f in c.addPath ==> 1 <= c.addPath[f] <= 3 && f in c.families
  }

  function FamilyCaps(families: seq<Family>): seq<Cap> {
    seq(|families|, i requires 0 <= i < |families| => MultiProtocol(families[i]))
  }

  /** One tuple for each listed family with a mode, in the order of the families. */
  function Tuples(families: seq<Family>, modes: Modes): seq<Tuple> {
    if families == [] then []
    else
      var f, init := families[|families| - 1], Tuples(families[..|families| - 1], modes);
      if f in modes then init + [Tuple(f, modes[f])] else init
  }

  function AppendIf(caps: seq<Cap>, add: bool, c: Cap): seq<Cap> { if add then caps + [c] else caps }

  function FlagCaps(c: CapsConfig): seq<Cap> {
    var s1 := FamilyCaps(c.families) + [FourOctetAS(c.fourOctetAS)];
    var s2 := AppendIf(s1, c.routeRefresh, PlainCap(ROUTE_REFRESH));
    var s3 := AppendIf(s2, c.enhancedRefresh, PlainCap(ENHANCED_REFRESH));
    AppendIf(s3, c.extendedMessage, PlainCap(EXTENDED_MESSAGE))
  }

  /** The capability list, in the order it is serialized. */
  function CapsOf(c: CapsConfig): seq<Cap> {
    var s5 := AppendIf(FlagCaps(c), |c.addPath| > 0, AddPath(Tuples(c.families, c.addPath)));
    if c.graceful.Some? then s5 + [GracefulRestart(c.graceful.value, c.families)] else s5
  }

  datatype OpenError = NoCapFamilies | NoCapAS | BadAddPath | RouterIdNotIPv4

  method BuildCapabilities(c: CapsConfig) returns (r: Result<seq<Cap>, OpenError>)
    ensures r == if c.families == [] then Err(NoCapFamilies)
                 else if c.fourOctetAS == 0 then Err(NoCapAS)
                 else if !ValidAddPath(c) then Err(BadAddPath)
                 else Ok(CapsOf(c))
  {
    if |c.families| == 0 { return Err(NoCapFamilies); }
    if c.fourOctetAS == 0 { return Err(NoCapAS); }
    var caps: seq<Cap> := [];
    for i := 0 to |c.families|
      invariant caps == FamilyCaps(c.families[..i])
    {
      caps := caps + [MultiProtocol(c.families[i])];
    }
    assert c.families[..|c.families|] == c.families;
    caps := caps + [FourOctetAS(c.fourOctetAS)];
    if c.routeRefresh { caps := caps + [PlainCap(ROUTE_REFRESH)]; }
    if c.enhancedRefresh { caps := caps + [PlainCap(ENHANCED_REFRESH)]; }
    if c.extendedMessage { caps := caps + [PlainCap(EXTENDED_MESSAGE)]; }
    assert caps == FlagCaps(c);
    if |c.addPath| > 0 {
      var ok := CheckAddPath(c);
      if !ok { return Err(BadAddPath); }
      var tuples: seq<Tuple> := [];
      for i := 0 to |c.families|
        invariant tuples == Tuples(c.families[..i], c.addPath)
      {
        assert c.families[..i + 1][..i] == c.families[..i];
        var f := c.families[i];
        if f in c.addPath { tuples := tuples + [Tuple(f, c.addPath[f])]; }
      }
      assert c.families[..|c.families|] == c.families;
      caps := caps + [AddPath(tuples)];
    } else {
      assert c.addPath == map[];
    }
    if c.graceful.Some? { caps := caps + [GracefulRestart(c.graceful.value, c.families)]; }
    return Ok(caps);
  }

  /** The validation loop over the ADD-PATH map. */
  method CheckAddPath(c: CapsConfig) returns (ok: bool)
    ensures ok <==> ValidAddPath(c)
  {
    var rest := c.addPath.Keys;
    while rest != {}
      invariant rest <= c.addPath.Keys
      invariant forall f :: f in c.addPath.Keys - rest ==> 1 <= c.addPath[f] <= 3 && f in c.families
      decreases rest
    {
      var f :| f in rest;
      if c.addPath[f] < 1 || c.addPath[f] > 3 { return false; }
      if f !in c.families { return false; }
      rest := rest - {f};
    }
    return true;
  }

  ghost function OpenOf(c: Config): Result<Open, OpenError> {
    var caps := c.caps.(fourOctetAS := if c.caps.fourOctetAS == 0 then c.localAS else c.caps.fourOctetAS);
    if !c.routerIs4 then Err(RouterIdNotIPv4)
    else if caps.families == [] then Err(NoCapFamilies)
    else if caps.fourOctetAS == 0 then Err(NoCapAS)
    else if !ValidAddPath(caps) then Err(BadAddPath)
    else Ok(Open(if c.localAS > 0xffff then AS_TRANS else c.localAS, U16(Seconds(c.holdTime)),
                 [Capabilities(CapsOf(caps))]))
  }

  method BuildOpen(c: Config) returns (r: Result<Open, OpenError>)
    ensures r == OpenOf(c)
  {
    if !c.routerIs4 { return Err(RouterIdNotIPv4); }
    var myAS := U16(c.localAS);
    if c.localAS > 0xffff { myAS := AS_TRANS; }
    var caps := c.caps;
    if caps.fourOctetAS == 0 { caps := caps.(fourOctetAS := c.localAS); }
    var params := BuildCapabilities(caps);
    if params.Err? { return Err(params.error); }
    return Ok(Open(myAS, U16(Seconds(c.holdTime)), [Capabilities(params.value)]));
  }

  // ----- what a list of capabilities offers

  ghost predicate Offers(caps: seq<Cap>, code: nat) {
    exists i :: 0 <= i < |caps| && caps[i].Code() == code
  }

  ghost predicate HasMode(tuples: seq<Tuple>, fam: Family, bit: bv8) {
    exists j :: 0 <= j < |tuples| && tuples[j].fam == fam && tuples[j].mode & bit != 0
  }

  ghost predicate OffersMode(caps: seq<Cap>, fam: Family, bit: bv8) {
    exists i :: 0 <= i < |caps| && caps[i].AddPath? && HasMode(caps[i].tuples, fam, bit)
  }

  /** The last 4-octet AS capability, if any. */
  ghost function AdvertisedAS(caps: seq<Cap>): Option<nat> {
    if caps == [] then None
    else if caps[|caps| - 1].FourOctetAS? then Some(caps[|caps| - 1].asn)
    else AdvertisedAS(caps[..|caps| - 1])
  }

  ghost function AllCaps(params: seq<Param>): seq<Cap> {
    if params == [] then []
    else AllCaps(params[..|params| - 1])
         + if params[|params| - 1].Capabilities? then params[|params| - 1].caps else []
  }

  lemma HasModeSnoc(ts: seq<Tuple>, t: Tuple, fam: Family, bit: bv8)
    ensures HasMode(ts + [t], fam, bit) <==> HasMode(ts, fam, bit) || (t.fam == fam && t.mode & bit != 0)
  {
    assert (ts + [t])[|ts|] == t;
    assert forall j :: 0 <= j < |ts| ==> (ts + [t])[j] == ts[j];
  }

  lemma {:induction false} TuplesMode(families: seq<Family>, modes: Modes, fam: Family, bit: bv8)
    ensures HasMode(Tuples(families, modes), fam, bit)
       <==> fam in families && fam in modes && modes[fam] & bit != 0
  {
    if families != [] {
      var n := |families| - 1;
      TuplesMode(families[..n], modes, fam, bit);
      assert families == families[..n] + [families[n]];
      if families[n] in modes {
        HasModeSnoc(Tuples(families[..n], modes), Tuple(families[n], modes[families[n]]), fam, bit);
      }
    }
  }

  lemma OffersConcat(a: seq<Cap>, b: seq<Cap>)
    ensures forall code :: Offers(a + b, code) <==> Offers(a, code) || Offers(b, code)
    ensures forall fam, bit :: OffersMode(a + b, fam, bit) <==> OffersMode(a, fam, bit) || OffersMode(b, fam, bit)
  {
    assert forall i :: 0 <= i < |a| ==> (a + b)[i] == a[i];
    assert forall i :: 0 <= i < |b| ==> (a + b)[|a| + i] == b[i];
  }

  lemma {:induction false} ASConcat(a: seq<Cap>, b: seq<Cap>)
    ensures AdvertisedAS(a + b) == if AdvertisedAS(b).Some? then AdvertisedAS(b) else AdvertisedAS(a)
  {
    if b == [] {
      assert a + b == a;
    } else {
      var n := |b| - 1;
      assert (a + b)[..|a + b| - 1] == a + b[..n];
      ASConcat(a, b[..n]);
    }
  }

  lemma OffersOne(c: Cap)
    ensures forall code :: Offers([c], code) <==> c.Code() == code
    ensures forall fam, bit :: OffersMode([c], fam, bit) <==> c.AddPath? && HasMode(c.tuples, fam, bit)
    ensures AdvertisedAS([c]) == if c.FourOctetAS? then Some(c.asn) else None
  {
    assert [c][0] == c && [c][..0] == [];
  }

  /** Appending a capability, or nothing. */
  lemma OffersMore(caps: seq<Cap>, add: bool, c: Cap)
    ensures var more := AppendIf(caps, add, c);
            && (forall code :: Offers(more, code) <==> Offers(caps, code) || (add && c.Code() == code))
            && (forall fam, bit :: OffersMode(more, fam, bit)
                             <==> OffersMode(caps, fam, bit) || (add && c.AddPath? && HasMode(c.tuples, fam, bit)))
            && (!c.FourOctetAS? ==> AdvertisedAS(more) == AdvertisedAS(caps))
  {
    OffersOne(c);
    OffersConcat(caps, [c]);
    ASConcat(caps, [c]);
  }

  lemma FlagsOffer(c: CapsConfig)
    ensures Offers(FlagCaps(c), ROUTE_REFRESH) <==> c.routeRefresh
    ensures Offers(FlagCaps(c), ENHANCED_REFRESH) <==> c.enhancedRefresh
    ensures Offers(FlagCaps(c), EXTENDED_MESSAGE) <==> c.extendedMessage
    ensures AdvertisedAS(FlagCaps(c)) == Some(c.fourOctetAS)
    ensures forall fam, bit :: !OffersMode(FlagCaps(c), fam, bit)
  {
    var s0 := FamilyCaps(c.families);
    var s1 := s0 + [FourOctetAS(c.fourOctetAS)];
    OffersConcat(s0, [FourOctetAS(c.fourOctetAS)]);
    OffersOne(FourOctetAS(c.fourOctetAS));
    ASConcat(s0, [FourOctetAS(c.fourOctetAS)]);
    OffersMore(s1, c.routeRefresh, PlainCap(ROUTE_REFRESH));
    var s2 := AppendIf(s1, c.routeRefresh, PlainCap(ROUTE_REFRESH));
    OffersMore(s2, c.enhancedRefresh, PlainCap(ENHANCED_REFRESH));
    var s3 := AppendIf(s2, c.enhancedRefresh, PlainCap(ENHANCED_REFRESH));
    OffersMore(s3, c.extendedMessage, PlainCap(EXTENDED_MESSAGE));
  }

  /** What the peer can read back from our capability list: exactly our configuration. */
  lemma CapsOffer(c: CapsConfig)
    requires ValidAddPath(c)
    ensures Offers(CapsOf(c), ROUTE_REFRESH) <==> c.routeRefresh
    ensures Offers(CapsOf(c), ENHANCED_REFRESH) <==> c.enhancedRefresh
    ensures Offers(CapsOf(c), EXTENDED_MESSAGE) <==> c.extendedMessage
    ensures AdvertisedAS(CapsOf(c)) == Some(c.fourOctetAS)
    ensures forall fam, bit :: OffersMode(CapsOf(c), fam, bit)
                          <==> fam in c.addPath && c.addPath[fam] & bit != 0
  {
    FlagsOffer(c);
    var ap := AddPath(Tuples(c.families, c.addPath));
    OffersMore(FlagCaps(c), |c.addPath| > 0, ap);
    var s5 := AppendIf(FlagCaps(c), |c.addPath| > 0, ap);
    if c.graceful.Some? { OffersMore(s5, true, GracefulRestart(c.graceful.value, c.families)); }
    TupleModes(c);
  }

  lemma TupleModes(c: CapsConfig)
    requires ValidAddPath(c)
    ensures forall fam, bit :: HasMode(Tuples(c.families, c.addPath), fam, bit)
                          <==> fam in c.addPath && c.addPath[fam] & bit != 0
  {
    forall fam, bit ensures HasMode(Tuples(c.families, c.addPath), fam, bit)
                       <==> fam in c.addPath && c.addPath[fam] & bit != 0
    {
      TuplesMode(c.families, c.addPath, fam, bit);
    }
  }

  lemma AppendMember(caps: seq<Cap>, add: bool, c: Cap, x: Cap)
    ensures x in AppendIf(caps, add, c) <==> x in caps || (add && x == c)
  {
  }

  /** Exactly these capabilities, no more and no less, are put in an OPEN. */
  lemma CapsContain(c: CapsConfig, x: Cap)
    ensures x in CapsOf(c)
       <==> match x
            case MultiProtocol(fam) => fam in c.families
            case FourOctetAS(asn) => asn == c.fourOctetAS
            case AddPath(tuples) => c.addPath != map[] && tuples == Tuples(c.families, c.addPath)
            case GracefulRestart(restart, fams) => c.graceful == Some(restart) && fams == c.families
            case PlainCap(code) => || (code == ROUTE_REFRESH && c.routeRefresh)
                                   || (code == ENHANCED_REFRESH && c.enhancedRefresh)
                                   || (code == EXTENDED_MESSAGE && c.extendedMessage)
  {
    FlagsContain(c, x);
    var ap := AddPath(Tuples(c.families, c.addPath));
    AppendMember(FlagCaps(c), |c.addPath| > 0, ap, x);
    var s5 := AppendIf(FlagCaps(c), |c.addPath| > 0, ap);
    if c.graceful.Some? { AppendMember(s5, true, GracefulRestart(c.graceful.value, c.families), x); }
  }

  lemma FlagsContain(c: CapsConfig, x: Cap)
    ensures x in FlagCaps(c)
       <==> match x
            case MultiProtocol(fam) => fam in c.families
            case FourOctetAS(asn) => asn == c.fourOctetAS
            case PlainCap(code) => || (code == ROUTE_REFRESH && c.routeRefresh)
                                   || (code == ENHANCED_REFRESH && c.enhancedRefresh)
                                   || (code == EXTENDED_MESSAGE && c.extendedMessage)
            case _ => false
  {
    var s0 := FamilyCaps(c.families);
    assert x in s0 <==> x.MultiProtocol? && x.fam in c.families by {
      if x.MultiProtocol? && x.fam in c.families {
        var i :| 0 <= i < |c.families| && c.families[i] == x.fam;
        assert s0[i] == x;
      }
    }
    var s1 := s0 + [FourOctetAS(c.fourOctetAS)];
    AppendMember(s1, c.routeRefresh, PlainCap(ROUTE_REFRESH), x);
    var s2 := AppendIf(s1, c.routeRefresh, PlainCap(ROUTE_REFRESH));
    AppendMember(s2, c.enhancedRefresh, PlainCap(ENHANCED_REFRESH), x);
    var s3 := AppendIf(s2, c.enhancedRefresh, PlainCap(ENHANCED_REFRESH));
    AppendMember(s3, c.extendedMessage, PlainCap(EXTENDED_MESSAGE), x);
  }

  /** Which configurations New accepts: a local AS, a target, an IPv4 router id, families that are all
      known, and a hold time of less than a second, or 3 to 65535 whole seconds. And an accepted one can
      always be put in an OPEN, if its ADD-PATH modes are valid and of its families; every field fits. */
  lemma AcceptedConfigsOpen(c: Config)
    ensures Validate(c) == None
       <==> && c.localAS != 0 && c.hasTarget && c.routerIs4 && c.families != []
            && (-SECOND < c.holdTime < SECOND || 3 * SECOND <= c.holdTime < 65536 * SECOND)
            && 0 !in c.families
    ensures Validate(c) == None ==>
              && (OpenOf(ApplyDefaults(c)).Ok? <==> ValidAddPath(ApplyDefaults(c).caps))
              && (OpenOf(ApplyDefaults(c)).Ok? ==>
                    var m := OpenOf(ApplyDefaults(c)).value;
                    && m.myAS == (if c.localAS < 0x1_0000 then c.localAS else 23456)
                    && m.holdTime == (if c.holdTime == 0 then 180 else if c.holdTime < SECOND then 0
                                      else c.holdTime / SECOND)
                    && m.holdTime < 0x1_0000)
  {
    assert ZeroFamily(c.families) < |c.families| <==> 0 in c.families;
  }
}
