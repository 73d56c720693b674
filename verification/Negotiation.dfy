/** What two Peers, or a Peer and any other speaker, agree on once each accepted the other's OPEN. */
module Negotiation {
  import opened Outcomes
  import opened Nlri
  import opened Packet
  import opened OpenMessage
  import opened Fsm

  /** The 32-bit AS a configuration stands for on the wire. */
  function RealAS(c: Config): nat { if c.caps.fourOctetAS != 0 then c.caps.fourOctetAS else c.localAS }

  /** Both ends ran New, built an OPEN and accepted the other's. */
  ghost predicate Exchanged(a: Config, b: Config, oa: Open, ob: Open) {
    && Validate(a) == None && Validate(b) == None
    && OpenOf(ApplyDefaults(a)) == Ok(oa) && OpenOf(ApplyDefaults(b)) == Ok(ob)
    && Verdict(ApplyDefaults(a), ob) == None && Verdict(ApplyDefaults(b), oa) == None
  }

  // ----- who the peer says it is

  /** Capability i of optional parameter p is c. */
  ghost predicate CapAt(params: seq<Param>, p: int, i: int, c: Cap) {
    0 <= p < |params| && params[p].Capabilities? && 0 <= i < |params[p].caps| && params[p].caps[i] == c
  }

  ghost predicate LastAS(params: seq<Param>, p: int, i: int, asn: nat) {
    && CapAt(params, p, i, FourOctetAS(asn))
    && forall q, j, c :: CapAt(params, q, j, c) && c.FourOctetAS? ==> q < p || (q == p && j <= i)
  }

  ghost predicate NoAS(params: seq<Param>) {
    forall p, i, c :: CapAt(params, p, i, c) ==> !c.FourOctetAS?
  }

  /** The AS an OPEN speaks for (RFC 6793): its last 4-octet AS capability, or My AS without any. */
  ghost predicate SpeaksFor(m: Open, asn: nat) {
    (exists p, i :: LastAS(m.params, p, i, asn)) || (NoAS(m.params) && m.myAS == asn)
  }

  /** The last 4-octet AS of the parameters, or that there is none. */
  ghost predicate Finds(params: seq<Param>, r: Option<nat>) {
    match r
    case None => NoAS(params)
    case Some(asn) => exists p, i :: LastAS(params, p, i, asn)
  }

  ghost predicate LastIn(caps: seq<Cap>, i: int, asn: nat) {
    && 0 <= i < |caps| && caps[i] == FourOctetAS(asn)
    && forall j :: i < j < |caps| ==> !caps[j].FourOctetAS?
  }

  ghost predicate FindsIn(caps: seq<Cap>, r: Option<nat>) {
    match r
    case None => forall i :: 0 <= i < |caps| ==> !caps[i].FourOctetAS?
    case Some(asn) => exists i :: LastIn(caps, i, asn)
  }

  lemma {:induction false} LastOfCaps(caps: seq<Cap>)
    ensures FindsIn(caps, AdvertisedAS(caps))
  {
    if caps != [] {
      var init, last := caps[..|caps| - 1], caps[|caps| - 1];
      assert caps == init + [last];
      LastOfCaps(init);
      if last.FourOctetAS? {
        assert LastIn(caps, |init|, last.asn);
      } else if AdvertisedAS(init).Some? {
        var i :| LastIn(init, i, AdvertisedAS(init).value);
        assert LastIn(caps, i, AdvertisedAS(init).value);
      }
    }
  }

  lemma {:induction false} LastOfParams(params: seq<Param>)
    ensures Finds(params, AdvertisedAS(AllCaps(params)))
  {
    if params != [] {
      var init, last := params[..|params| - 1], params[|params| - 1];
      assert params == init + [last];
      LastOfParams(init);
      var caps := if last.Capabilities? then last.caps else [];
      assert AllCaps(params) == AllCaps(init) + caps;
      ASConcat(AllCaps(init), caps);
      LastOfCaps(caps);
      LastOfMore(init, last, caps, AdvertisedAS(AllCaps(init)), AdvertisedAS(caps));
    }
  }

  lemma LastOfMore(init: seq<Param>, last: Param, caps: seq<Cap>, r: Option<nat>, more: Option<nat>)
    requires caps == if last.Capabilities? then last.caps else []
    requires Finds(init, r) && FindsIn(caps, more)
    ensures Finds(init + [last], if more.Some? then more else r)
  {
    var params := init + [last];
    assert params[|init|] == last;
    assert forall p :: 0 <= p < |init| ==> params[p] == init[p];
    if more.Some? {
      var i :| LastIn(caps, i, more.value);
      assert LastAS(params, |init|, i, more.value);
    } else {
      assert forall p, i, c :: CapAt(params, p, i, c) && c.FourOctetAS? ==> CapAt(init, p, i, c);
      if r.Some? {
        var p, i :| LastAS(init, p, i, r.value);
        assert CapAt(params, p, i, FourOctetAS(r.value));
        assert LastAS(params, p, i, r.value);
      }
    }
  }

  lemma SpeaksForOne(m: Open, x: nat, y: nat)
    requires SpeaksFor(m, x) && SpeaksFor(m, y)
    ensures x == y
  {
    if !NoAS(m.params) {
      var p, i :| LastAS(m.params, p, i, x);
      var q, j :| LastAS(m.params, q, j, y);
      assert CapAt(m.params, q, j, FourOctetAS(y)) && CapAt(m.params, p, i, FourOctetAS(x));
    }
  }

  /** The scan over the capabilities finds the AS the OPEN speaks for, and no other. */
  lemma PeerASIsSpokenFor(cfg: Config, m: Open, asn: nat)
    ensures SpeaksFor(m, asn) <==> Outcome(cfg, m).peerAS == asn
  {
    LastOfParams(m.params);
    if SpeaksFor(m, asn) { SpeaksForOne(m, asn, Outcome(cfg, m).peerAS); }
  }

  /** An OPEN is refused for its hold time if that is one or two seconds, else for its AS if one is
      configured and it speaks for another, else not at all. */
  lemma VerdictIsExact(cfg: Config, m: Open, asn: nat)
    requires SpeaksFor(m, asn)
    ensures Verdict(cfg, m) == Some(UnacceptableHoldTime) <==> 0 < m.holdTime < 3
    ensures Verdict(cfg, m) == Some(BadPeerAS)
       <==> !(0 < m.holdTime < 3) && cfg.peerAS != 0 && asn != cfg.peerAS
    ensures Verdict(cfg, m) == None <==> !(0 < m.holdTime < 3) && (cfg.peerAS == 0 || asn == cfg.peerAS)
  {
    PeerASIsSpokenFor(cfg, m, asn);
  }

  /** Open succeeds only with the configured AS at the other end. */
  lemma OpenChecksPeerAS(cfg: Config, dialOk: bool, writeOk: bool, env: nat -> Turn)
    requires OpenRefusal(cfg, dialOk, writeOk, env) == None && cfg.peerAS != 0
    ensures env(0).read.GotOpen? && SpeaksFor(env(0).read.m, cfg.peerAS)
  {
    PeerASIsSpokenFor(cfg, env(0).read.m, cfg.peerAS);
  }

  /** What an unacceptable OPEN meets with: the call fails with the reason, the state falls from OpenSent to
      Idle, and the peer is told by NOTIFICATION 2/6 or 2/2 if that can be written (section 6.2 of
      RFC 4271). */
  lemma BadOpenIsRefused(cfg: Config, env: nat -> Turn, asn: nat)
    requires env(0).read.GotOpen? && !env(0).cancelled && OpenOf(cfg).Ok? && SpeaksFor(env(0).read.m, asn)
    requires 0 < env(0).read.m.holdTime < 3 || (cfg.peerAS != 0 && asn != cfg.peerAS)
    ensures var bad := 0 < env(0).read.m.holdTime < 3;
            && OpenRefusal(cfg, true, true, env)
               == Some(HandshakeFailed(Rejected(if bad then UnacceptableHoldTime else BadPeerAS)))
            && OpenTrace(cfg, true, true, env) == [Active, OpenSent, Idle]
            && HandshakeSent(cfg, env) == if env(0).writeOk then [Notification(2, if bad then 6 else 2)] else []
  {
    VerdictIsExact(cfg, env(0).read.m, asn);
  }

  /** Two Peers that accepted each other's OPEN are the ones the other was configured for. */
  lemma PeersAreChecked(a: Config, b: Config, oa: Open, ob: Open)
    requires Exchanged(a, b, oa, ob)
    ensures a.peerAS == 0 || a.peerAS == RealAS(b)
    ensures b.peerAS == 0 || b.peerAS == RealAS(a)
  {
    ViewsAreDual(a, b, oa, ob);
    PeerASIsSpokenFor(ApplyDefaults(a), ob, RealAS(b));
    PeerASIsSpokenFor(ApplyDefaults(b), oa, RealAS(a));
    VerdictIsExact(ApplyDefaults(a), ob, RealAS(b));
    VerdictIsExact(ApplyDefaults(b), oa, RealAS(a));
  }

  // ----- what both ends hold

  lemma AllCapsOne(caps: seq<Cap>)
    ensures AllCaps([Capabilities(caps)]) == caps
  {
    assert [Capabilities(caps)][..0] == [] && AllCaps([]) == [];
  }

  lemma OpenContents(c: Config, m: Open)
    requires Validate(c) == None && OpenOf(ApplyDefaults(c)) == Ok(m)
    ensures m.holdTime == Seconds(ApplyDefaults(c).holdTime)
    ensures ValidAddPath(ApplyDefaults(c).caps) && AllCaps(m.params) == CapsOf(ApplyDefaults(c).caps)
  {
    AllCapsOne(CapsOf(ApplyDefaults(c).caps));
  }

  lemma OpenOffers(c: Config, m: Open)
    requires Validate(c) == None && OpenOf(ApplyDefaults(c)) == Ok(m)
    ensures m.holdTime == Seconds(ApplyDefaults(c).holdTime)
    ensures var caps := AllCaps(m.params);
            && (Offers(caps, ROUTE_REFRESH) <==> c.caps.routeRefresh)
            && (Offers(caps, ENHANCED_REFRESH) <==> c.caps.enhancedRefresh)
            && (Offers(caps, EXTENDED_MESSAGE) <==> c.caps.extendedMessage)
            && AdvertisedAS(caps) == Some(RealAS(c))
            && (forall fam, bit :: OffersMode(caps, fam, bit)
                              <==> fam in c.caps.addPath && c.caps.addPath[fam] & bit != 0)
  {
    OpenContents(c, m);
    CapsOffer(ApplyDefaults(c).caps);
  }

  lemma AgreedBits(local: bv8, peer: seq<Cap>, fam: Family)
    ensures Agreed(local, peer, fam) & ADD_PATH_SEND != 0
       <==> local & ADD_PATH_SEND != 0 && OffersMode(peer, fam, ADD_PATH_RECEIVE)
    ensures Agreed(local, peer, fam) & ADD_PATH_RECEIVE != 0
       <==> local & ADD_PATH_RECEIVE != 0 && OffersMode(peer, fam, ADD_PATH_SEND)
    ensures Agreed(local, peer, fam) & ADD_PATH_SEND != 0 || Agreed(local, peer, fam) & ADD_PATH_RECEIVE != 0
            ==> Agreed(local, peer, fam) != 0
  {
  }

  /** Send is on for a family exactly when we advertised send and the peer receive; receive mirrors it. */
  lemma AddPathOutcome(cfg: Config, m: Open, fam: Family)
    ensures SendOn(Outcome(cfg, m).addPath, fam)
       <==> SendOn(cfg.caps.addPath, fam) && OffersMode(AllCaps(m.params), fam, ADD_PATH_RECEIVE)
    ensures ReceiveOn(Outcome(cfg, m).addPath, fam)
       <==> ReceiveOn(cfg.caps.addPath, fam) && OffersMode(AllCaps(m.params), fam, ADD_PATH_SEND)
  {
    if fam in cfg.caps.addPath { AgreedBits(cfg.caps.addPath[fam], AllCaps(m.params), fam); }
  }

  /** The two ends of a session hold dual views: one hold time, one view of Extended Messages and of
      Enhanced Refresh, each other's real AS, and for every family one end sends Path Identifiers
      exactly when the other expects them. */
  lemma ViewsAreDual(a: Config, b: Config, oa: Open, ob: Open)
    requires Exchanged(a, b, oa, ob)
    ensures var na, nb := Outcome(ApplyDefaults(a), ob), Outcome(ApplyDefaults(b), oa);
            && na.hold == nb.hold && na.tick == nb.tick
            && na.hold == SECOND * (if HoldSeconds(a) < HoldSeconds(b) then HoldSeconds(a) else HoldSeconds(b))
            && na.extended == nb.extended == (a.caps.extendedMessage && b.caps.extendedMessage)
            && na.enhancedRefresh == nb.enhancedRefresh == (a.caps.enhancedRefresh && b.caps.enhancedRefresh)
            && na.routeRefresh == b.caps.routeRefresh && nb.routeRefresh == a.caps.routeRefresh
            && na.fourOctetAS && nb.fourOctetAS
            && na.peerAS == RealAS(b) && nb.peerAS == RealAS(a)
            && (forall fam :: SendOn(na.addPath, fam) == ReceiveOn(nb.addPath, fam))
            && (forall fam :: ReceiveOn(na.addPath, fam) == SendOn(nb.addPath, fam))
  {
    OpenOffers(a, oa);
    OpenOffers(b, ob);
    HoldIsSafe(a, ob);
    HoldIsSafe(b, oa);
    forall fam
      ensures SendOn(Outcome(ApplyDefaults(a), ob).addPath, fam)
              == ReceiveOn(Outcome(ApplyDefaults(b), oa).addPath, fam)
      ensures ReceiveOn(Outcome(ApplyDefaults(a), ob).addPath, fam)
              == SendOn(Outcome(ApplyDefaults(b), oa).addPath, fam)
    {
      AddPathOutcome(ApplyDefaults(a), ob, fam);
      AddPathOutcome(ApplyDefaults(b), oa, fam);
    }
  }

  /** The whole seconds of the configured hold time, three minutes by default. */
  function HoldSeconds(c: Config): nat {
    if c.holdTime == 0 then 180 else if c.holdTime < 0 then 0 else c.holdTime / 1_000_000_000
  }

  /** Against any speaker: the hold timer is off or at least 3 s, and three keepalives fit in it. */
  lemma HoldIsSafe(c: Config, m: Open)
    requires Validate(c) == None && Verdict(ApplyDefaults(c), m) == None
    ensures var n := Outcome(ApplyDefaults(c), m);
            && (n.hold == 0 || 3 * SECOND <= n.hold)
            && (n.hold == 0 <==> n.tick == 0)
            && 0 <= 3 * n.tick <= n.hold && n.hold < 3 * n.tick + 3
            && n.hold <= m.holdTime * SECOND && n.hold <= Max(0, ApplyDefaults(c).holdTime)
            && n.hold == SECOND * (if m.holdTime < HoldSeconds(c) then m.holdTime else HoldSeconds(c))
  {
    var d := ApplyDefaults(c).holdTime;
    var hs := Seconds(d);
    assert 0 <= hs <= 65535 && U16(hs) == hs;
    var seconds := Min(hs, m.holdTime);
    assert seconds == 0 || 3 <= seconds;
    assert d >= 0 ==> hs * SECOND <= d;
  }

  /** What the sender may put in one message is what the other end's read loop accepts. */
  lemma LimitsAgree(a: Config, b: Config, oa: Open, ob: Open, msg: UpdateMsg, o: Options)
    requires Exchanged(a, b, oa, ob)
    requires o.useExtended ==> Outcome(ApplyDefaults(a), ob).extended
    requires SerializeMessage(msg, o).Ok?
    ensures SerializeMessage(msg, o).value
            <= (if Outcome(ApplyDefaults(b), oa).extended then EXTENDED_MAX_LEN else MAX_LEN)
  {
    ViewsAreDual(a, b, oa, ob);
  }
}
