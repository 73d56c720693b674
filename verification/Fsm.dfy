/**
 internal/peer/fsm.go up to Established: accepting the peer's OPEN, the handshake loop and Open.
 Reads, deadlines, cancellation and write results come from an environment that may answer
 anything.
 */
module Fsm {
  import opened Outcomes
  import opened Nlri
  import opened Packet
  import opened OpenMessage

  datatype State = Idle | Active | OpenSent | OpenConfirm | Established

  /** Session parameters fixed by the OPEN exchange. Times are nanoseconds. */
  datatype Negotiated = Negotiated(hold: int, tick: int, peerAS: nat, extended: bool, fourOctetAS: bool,
                                   routeRefresh: bool, enhancedRefresh: bool, addPath: Modes)

  const NOTHING: Negotiated := Negotiated(0, 0, 0, false, false, false, false, map[])

  datatype Reject = UnacceptableHoldTime | BadPeerAS

  function Min(a: int, b: int): int { if a < b then a else b }

  function Max(a: int, b: int): int { if a < b then b else a }

  /** The effective ADD-PATH mode of a family: each direction needs the opposite one at the peer. */
  ghost function Agreed(local: bv8, peer: seq<Cap>, fam: Family): bv8 {
    (if local & ADD_PATH_SEND != 0 && OffersMode(peer, fam, ADD_PATH_RECEIVE) then ADD_PATH_SEND else 0)
    | (if local & ADD_PATH_RECEIVE != 0 && OffersMode(peer, fam, ADD_PATH_SEND) then ADD_PATH_RECEIVE else 0)
  }

  /** The same with the peer's advertised modes already merged. */
  function EffectiveMode(local: bv8, peerMode: bv8): bv8 {
    (if local & ADD_PATH_SEND != 0 && peerMode & ADD_PATH_RECEIVE != 0 then ADD_PATH_SEND else 0)
    | (if local & ADD_PATH_RECEIVE != 0 && peerMode & ADD_PATH_SEND != 0 then ADD_PATH_RECEIVE else 0)
  }

  /** The agreed modes among fams that are not zero. */
  ghost function AgreedModes(local: Modes, peer: seq<Cap>, fams: set<Family>): Modes {
    map f | f in local && f in fams && Agreed(local[f], peer, f) != 0 :: Agreed(local[f], peer, f)
  }

  lemma AgreeOneMore(local: Modes, peer: seq<Cap>, fams: set<Family>, fam: Family)
    requires fam in local && fam !in fams
    ensures var mode := Agreed(local[fam], peer, fam);
            AgreedModes(local, peer, fams + {fam})
            == if mode != 0 then AgreedModes(local, peer, fams)[fam := mode] else AgreedModes(local, peer, fams)
  {
  }

  /** The outcome of an OPEN with an acceptable hold time, as questions about its capabilities. */
  ghost function Outcome(cfg: Config, m: Open): Negotiated {
    var caps := AllCaps(m.params);
    var hold := Min(U16(Seconds(cfg.holdTime)), m.holdTime) * SECOND;
    Negotiated(hold, if hold == 0 then 0 else Max(hold / 3, SECOND),
               if AdvertisedAS(caps).Some? then AdvertisedAS(caps).value else m.myAS,
               cfg.caps.extendedMessage && Offers(caps, EXTENDED_MESSAGE),
               AdvertisedAS(caps).Some?,
               Offers(caps, ROUTE_REFRESH),
               cfg.caps.enhancedRefresh && Offers(caps, ENHANCED_REFRESH),
               AgreedModes(cfg.caps.addPath, caps, cfg.caps.addPath.Keys))
  }

  predicate BadHold(m: Open) { m.holdTime == 1 || m.holdTime == 2 }

  ghost function Verdict(cfg: Config, m: Open): Option<Reject> {
    if BadHold(m) then Some(UnacceptableHoldTime)
    else if cfg.peerAS != 0 && Outcome(cfg, m).peerAS != cfg.peerAS then Some(BadPeerAS)
    else None
  }

  datatype Incoming = ReadError | GotOpen(m: Open) | GotKeepalive | GotNotification | GotOther

  /** One turn of the handshake loop as the environment plays it. */
  datatype Turn = Turn(read: Incoming, cancelled: bool, writeOk: bool, late: bool)

  datatype HandshakeError =
    | ReadFailed | Cancelled | DuplicateOpen | Rejected(why: Reject) | KeepaliveWrite
    | KeepaliveBeforeOpen | PeerNotification | UnexpectedMessage | OpenTimeout

  datatype Sent = OpenMsg | Keepalive | Notification(code: nat, subcode: nat)

  datatype OpenFailure = WrongState | DialFailed | BadOpen(e: OpenError) | OpenWrite | HandshakeFailed(h: HandshakeError)

  /** The only conversation that establishes a session: an acceptable OPEN, our KEEPALIVE written,
      within the deadline, then the peer's KEEPALIVE. */
  ghost predicate Establishes(cfg: Config, env: nat -> Turn) {
    && env(0).read.GotOpen? && !env(0).cancelled && Verdict(cfg, env(0).read.m) == None
    && env(0).writeOk && !env(0).late
    && env(1).read.GotKeepalive? && !env(1).cancelled
  }

  /** Why Open fails before anything is on the wire. */
  ghost function ConnectRefusal(cfg: Config, dialOk: bool, writeOk: bool): Option<OpenFailure> {
    if !dialOk then Some(DialFailed)
    else if OpenOf(cfg).Err? then Some(BadOpen(OpenOf(cfg).error))
    else if !writeOk then Some(OpenWrite)
    else None
  }

  /** Why the handshake fails, turn by turn; None only for the conversation that establishes. */
  ghost function Refusal(cfg: Config, env: nat -> Turn): Option<HandshakeError> {
    var turn := env(0);
    if turn.read.ReadError? then Some(ReadFailed)
    else if turn.cancelled then Some(Cancelled)
    else
      match turn.read
      case GotOpen(m) =>
        if Verdict(cfg, m).Some? then Some(Rejected(Verdict(cfg, m).value))
        else if !turn.writeOk then Some(KeepaliveWrite)
        else if turn.late then Some(OpenTimeout)
        else LaterRefusal(env(1))
      case GotKeepalive => Some(KeepaliveBeforeOpen)
      case GotNotification => Some(PeerNotification)
      case _ => Some(UnexpectedMessage)
  }

  /** The same for the turn after an accepted OPEN. */
  ghost function LaterRefusal(turn: Turn): Option<HandshakeError> {
    if turn.read.ReadError? then Some(ReadFailed)
    else if turn.cancelled then Some(Cancelled)
    else
      match turn.read
      case GotOpen(_) => Some(DuplicateOpen)
      case GotKeepalive => None
      case GotNotification => Some(PeerNotification)
      case _ => Some(UnexpectedMessage)
  }

  ghost function OpenRefusal(cfg: Config, dialOk: bool, writeOk: bool, env: nat -> Turn): Option<OpenFailure> {
    if ConnectRefusal(cfg, dialOk, writeOk).Some? then ConnectRefusal(cfg, dialOk, writeOk)
    else if Refusal(cfg, env).Some? then Some(HandshakeFailed(Refusal(cfg, env).value))
    else None
  }

  /** The turn that takes the session to OpenConfirm. */
  ghost predicate Confirms(cfg: Config, turn: Turn) {
    turn.read.GotOpen? && !turn.cancelled && Verdict(cfg, turn.read.m) == None && turn.writeOk
  }

  /** The states one call of Open stores, in order. */
  ghost function OpenTrace(cfg: Config, dialOk: bool, writeOk: bool, env: nat -> Turn): seq<State> {
    if ConnectRefusal(cfg, dialOk, writeOk).Some? then [Active, Idle]
    else if !Confirms(cfg, env(0)) then [Active, OpenSent, Idle]
    else if Refusal(cfg, env).Some? then [Active, OpenSent, OpenConfirm, Idle]
    else [Active, OpenSent, OpenConfirm, Established]
  }

  /** What the handshake puts on the wire; a NOTIFICATION that cannot be written is lost in silence. */
  ghost function HandshakeSent(cfg: Config, env: nat -> Turn): seq<Sent> {
    if Confirms(cfg, env(0)) then [Keepalive]
    else if env(0).writeOk then
      match Refusal(cfg, env)
      case Some(Rejected(UnacceptableHoldTime)) => [Notification(2, 6)]
      case Some(Rejected(BadPeerAS)) => [Notification(2, 2)]
      case _ => []
    else []
  }

  /** Each reason an opening fails for, and the two messages of one that does not. */
  lemma RefusalReasons(cfg: Config, env: nat -> Turn)
    ensures Refusal(cfg, env) == None <==> Establishes(cfg, env)
    ensures Refusal(cfg, env) == None ==> HandshakeSent(cfg, env) == [Keepalive]
    ensures Refusal(cfg, env) == Some(OpenTimeout) <==> Confirms(cfg, env(0)) && env(0).late
    ensures Refusal(cfg, env) == Some(KeepaliveBeforeOpen) <==> env(0).read.GotKeepalive? && !env(0).cancelled
    ensures Refusal(cfg, env) == Some(KeepaliveWrite)
       <==> env(0).read.GotOpen? && !env(0).cancelled && Verdict(cfg, env(0).read.m) == None && !env(0).writeOk
    ensures Refusal(cfg, env) == Some(DuplicateOpen)
       <==> Confirms(cfg, env(0)) && !env(0).late && env(1).read.GotOpen? && !env(1).cancelled
    ensures Refusal(cfg, env) == Some(PeerNotification)
       <==> var turn := if Confirms(cfg, env(0)) then env(1) else env(0);
            turn.read.GotNotification? && !turn.cancelled && (Confirms(cfg, env(0)) ==> !env(0).late)
    ensures Refusal(cfg, env) == Some(UnexpectedMessage)
       <==> var turn := if Confirms(cfg, env(0)) then env(1) else env(0);
            turn.read.GotOther? && !turn.cancelled && (Confirms(cfg, env(0)) ==> !env(0).late)
  {
  }

  class Fsm {
    const cfg: Config
    var state: State
    var negotiatedHold: int
    var keepaliveTick: int
    var peerAS: nat
    var peerCaps: seq<Cap>
    var extendedMessagesNegotiated: bool
    var fourOctetASNegotiated: bool
    var routeRefreshNegotiated: bool
    var enhancedRefreshNegotiated: bool
    var addPathNegotiated: Modes
    var sent: seq<Sent>
    ghost var trace: seq<State> // every state stored, in order

    ghost function View(): Negotiated reads this {
      Negotiated(negotiatedHold, keepaliveTick, peerAS, extendedMessagesNegotiated, fourOctetASNegotiated,
                 routeRefreshNegotiated, enhancedRefreshNegotiated, addPathNegotiated)
    }

    /** No OPEN has been accepted yet; a duplicate OPEN never reaches AcceptPeerOpen. */
    ghost predicate Pristine() reads this { View() == NOTHING && peerCaps == [] }

    constructor (cfg: Config)
      ensures this.cfg == cfg && state == Idle && Pristine() && trace == [Idle] && sent == []
    {
      this.cfg, state, trace, sent := cfg, Idle, [Idle], [];
      negotiatedHold, keepaliveTick, peerAS, peerCaps := 0, 0, 0, [];
      extendedMessagesNegotiated, fourOctetASNegotiated := false, false;
      routeRefreshNegotiated, enhancedRefreshNegotiated := false, false;
      addPathNegotiated := map[];
    }

    method SetState(s: State)
      modifies this`state, this`trace
      ensures state == s && trace == old(trace) + [s]
    {
      state := s;
      trace := trace + [s];
    }

    /** The fields answer the capability questions for the capabilities scanned so far. */
    ghost predicate Scanned(seen: seq<Cap>, myAS: nat, peerAddPath: Modes)
      reads this
    {
      && peerCaps == seen
      && peerAS == (if AdvertisedAS(seen).Some? then AdvertisedAS(seen).value else myAS)
      && (fourOctetASNegotiated <==> AdvertisedAS(seen).Some?)
      && (extendedMessagesNegotiated <==> cfg.caps.extendedMessage && Offers(seen, EXTENDED_MESSAGE))
      && (routeRefreshNegotiated <==> Offers(seen, ROUTE_REFRESH))
      && (enhancedRefreshNegotiated <==> cfg.caps.enhancedRefresh && Offers(seen, ENHANCED_REFRESH))
      && (forall fam :: SendOn(peerAddPath, fam) <==> OffersMode(seen, fam, ADD_PATH_SEND))
      && (forall fam :: ReceiveOn(peerAddPath, fam) <==> OffersMode(seen, fam, ADD_PATH_RECEIVE))
    }

    method AcceptPeerOpen(m: Open) returns (err: Option<Reject>)
      requires Pristine()
      modifies this`negotiatedHold, this`keepaliveTick, this`peerAS, this`peerCaps,
               this`extendedMessagesNegotiated, this`fourOctetASNegotiated, this`routeRefreshNegotiated,
               this`enhancedRefreshNegotiated, this`addPathNegotiated
      ensures err == Verdict(cfg, m)
      ensures if BadHold(m) then Pristine() else View() == Outcome(cfg, m) && peerCaps == AllCaps(m.params)
    {
      if m.holdTime != 0 && m.holdTime < 3 { return Some(UnacceptableHoldTime); }
      var negotiated := Min(U16(Seconds(cfg.holdTime)), m.holdTime);
      negotiatedHold := negotiated * SECOND;
      if negotiated == 0 {
        keepaliveTick := 0;
      } else {
        keepaliveTick := Max(negotiatedHold / 3, SECOND);
      }
      peerAS := m.myAS;
      var peerAddPath := ScanParams(m);
      AgreeAddPath(peerAddPath, AllCaps(m.params));
      if cfg.peerAS != 0 && peerAS != cfg.peerAS { return Some(BadPeerAS); }
      return None;
    }

    /** The nested loop over optional parameters and their capabilities. */
    method ScanParams(m: Open) returns (peerAddPath: Modes)
      requires Scanned([], m.myAS, map[])
      modifies this`peerAS, this`peerCaps, this`extendedMessagesNegotiated, this`fourOctetASNegotiated,
               this`routeRefreshNegotiated, this`enhancedRefreshNegotiated
      ensures Scanned(AllCaps(m.params), m.myAS, peerAddPath)
    {
      peerAddPath := map[];
      for i := 0 to |m.params|
        invariant Scanned(AllCaps(m.params[..i]), m.myAS, peerAddPath)
      {
        assert m.params[..i + 1][..i] == m.params[..i];
        ghost var seen := AllCaps(m.params[..i]);
        if m.params[i].OtherParam? {
          assert AllCaps(m.params[..i + 1]) == seen;
          continue;
        }
        var caps := m.params[i].caps;
        for j := 0 to |caps|
          invariant Scanned(seen + caps[..j], m.myAS, peerAddPath)
        {
          assert seen + caps[..j + 1] == (seen + caps[..j]) + [caps[j]];
          peerAddPath := ScanCap(caps[j], seen + caps[..j], m.myAS, peerAddPath);
        }
        assert caps[..|caps|] == caps;
      }
      assert m.params[..|m.params|] == m.params;
    }

    /** Body of the capability loop. */
    method ScanCap(c: Cap, ghost seen: seq<Cap>, ghost myAS: nat, before: Modes) returns (peerAddPath: Modes)
      requires Scanned(seen, myAS, before)
      modifies this`peerAS, this`peerCaps, this`extendedMessagesNegotiated, this`fourOctetASNegotiated,
               this`routeRefreshNegotiated, this`enhancedRefreshNegotiated
      ensures Scanned(seen + [c], myAS, peerAddPath)
    {
      OffersOne(c);
      OffersConcat(seen, [c]);
      ASConcat(seen, [c]);
      peerAddPath := before;
      if c.FourOctetAS? {
        peerAS := c.asn;
        fourOctetASNegotiated := true;
      }
      if c.Code() == EXTENDED_MESSAGE && cfg.caps.extendedMessage { extendedMessagesNegotiated := true; }
      if c.Code() == ROUTE_REFRESH { routeRefreshNegotiated := true; }
      if c.Code() == ENHANCED_REFRESH && cfg.caps.enhancedRefresh { enhancedRefreshNegotiated := true; }
      if c.AddPath? { peerAddPath := MergeTuples(before, c.tuples); }
      peerCaps := peerCaps + [c];
    }

    /** The loop over the local ADD-PATH modes. */
    method AgreeAddPath(peerAddPath: Modes, ghost peer: seq<Cap>)
      requires addPathNegotiated == map[]
      requires forall fam :: SendOn(peerAddPath, fam) <==> OffersMode(peer, fam, ADD_PATH_SEND)
      requires forall fam :: ReceiveOn(peerAddPath, fam) <==> OffersMode(peer, fam, ADD_PATH_RECEIVE)
      modifies this`addPathNegotiated
      ensures addPathNegotiated == AgreedModes(cfg.caps.addPath, peer, cfg.caps.addPath.Keys)
    {
      var rest := cfg.caps.addPath.Keys;
      while rest != {}
        invariant rest <= cfg.caps.addPath.Keys
        invariant addPathNegotiated == AgreedModes(cfg.caps.addPath, peer, cfg.caps.addPath.Keys - rest)
        decreases rest
      {
        var fam :| fam in rest;
        var mode := EffectiveMode(cfg.caps.addPath[fam], if fam in peerAddPath then peerAddPath[fam] else 0);
        assert mode == Agreed(cfg.caps.addPath[fam], peer, fam);
        AgreeOneMore(cfg.caps.addPath, peer, cfg.caps.addPath.Keys - rest, fam);
        assert cfg.caps.addPath.Keys - rest + {fam} == cfg.caps.addPath.Keys - (rest - {fam});
        if mode != 0 { addPathNegotiated := addPathNegotiated[fam := mode]; }
        rest := rest - {fam};
      }
    }

    method Handshake(env: nat -> Turn) returns (err: Option<HandshakeError>, turns: nat)
      requires Pristine() && state == OpenSent
      modifies this
      ensures 1 <= turns <= 2
      ensures err == None <==> Establishes(cfg, env)
      ensures err == Refusal(cfg, env)
      ensures err == None ==> turns == 2 && state == Established && View() == Outcome(cfg, env(0).read.m)
      ensures trace == old(trace) + (if Confirms(cfg, env(0)) then [OpenConfirm] else [])
                       + (if err == None then [Established] else [])
      ensures err != None ==> state == if Confirms(cfg, env(0)) then OpenConfirm else OpenSent
      ensures sent == old(sent) + HandshakeSent(cfg, env)
    {
      var gotPeerOpen, gotPeerKA := false, false;
      turns := 0;
      while true
        invariant turns == (if gotPeerOpen then 1 else 0) && !gotPeerKA
        invariant !gotPeerOpen ==> Pristine() && state == OpenSent && trace == old(trace) && sent == old(sent)
        invariant gotPeerOpen ==>
                    && env(0).read.GotOpen? && !env(0).cancelled && Verdict(cfg, env(0).read.m) == None
                    && env(0).writeOk && !env(0).late
                    && View() == Outcome(cfg, env(0).read.m)
                    && state == OpenConfirm && trace == old(trace) + [OpenConfirm]
                    && sent == old(sent) + [Keepalive]
        decreases 2 - turns
      {
        var turn := env(turns);
        turns := turns + 1;
        if turn.read.ReadError? { return Some(ReadFailed), turns; }
        if turn.cancelled { return Some(Cancelled), turns; }
        match turn.read {
          case GotOpen(m) =>
            if gotPeerOpen { return Some(DuplicateOpen), turns; }
            var rejected := AcceptPeerOpen(m);
            if rejected.Some? {
              if turn.writeOk {
                sent := sent + [Notification(2, if rejected.value == UnacceptableHoldTime then 6 else 2)];
              }
              return Some(Rejected(rejected.value)), turns;
            }
            if !turn.writeOk { return Some(KeepaliveWrite), turns; }
            sent := sent + [Keepalive];
            gotPeerOpen := true;
            SetState(OpenConfirm);
          case GotKeepalive =>
            if !gotPeerOpen { return Some(KeepaliveBeforeOpen), turns; }
            gotPeerKA := true;
          case GotNotification => return Some(PeerNotification), turns;
          case _ => return Some(UnexpectedMessage), turns;
        }
        if gotPeerOpen && gotPeerKA {
          SetState(Established);
          return None, turns;
        }
        if turn.late { return Some(OpenTimeout), turns; }
      }
    }

    /** Open up to our OPEN on the wire. */
    method Connect(dialOk: bool, writeOk: bool) returns (err: Option<OpenFailure>)
      requires state == Idle
      modifies this`state, this`trace, this`sent
      ensures err == ConnectRefusal(cfg, dialOk, writeOk)
      ensures if err == None
              then state == OpenSent && trace == old(trace) + [Active, OpenSent] && sent == old(sent) + [OpenMsg]
              else state == Idle && trace == old(trace) + [Active, Idle] && sent == old(sent)
    {
      SetState(Active);
      if !dialOk {
        SetState(Idle);
        return Some(DialFailed);
      }
      var open := BuildOpen(cfg);
      if open.Err? {
        SetState(Idle);
        return Some(BadOpen(open.error));
      }
      if !writeOk {
        SetState(Idle);
        return Some(OpenWrite);
      }
      sent := sent + [OpenMsg];
      SetState(OpenSent);
      return None;
    }

    method Open(dialOk: bool, writeOk: bool, env: nat -> Turn) returns (err: Option<OpenFailure>)
      requires state == Idle ==> Pristine()
      modifies this
      ensures old(state) != Idle ==> err == Some(WrongState) && trace == old(trace) && state == old(state)
      ensures old(state) == Idle ==>
                && (err == None <==> dialOk && OpenOf(cfg).Ok? && writeOk && Establishes(cfg, env))
                && err == OpenRefusal(cfg, dialOk, writeOk, env)
                && trace == old(trace) + OpenTrace(cfg, dialOk, writeOk, env)
                && state == (if err == None then Established else Idle)
                && sent == old(sent) + (if ConnectRefusal(cfg, dialOk, writeOk).Some? then []
                                        else [OpenMsg] + HandshakeSent(cfg, env))
                && (err == None ==> View() == Outcome(cfg, env(0).read.m))
    {
      if state != Idle { return Some(WrongState); }
      err := Connect(dialOk, writeOk);
      if err.Some? { return; }
      var failed, turns := Handshake(env);
      if failed.Some? {
        SetState(Idle);
        return Some(HandshakeFailed(failed.value));
      }
    }
  }

  /** The loop over one ADD-PATH capability: modes of repeated families accumulate. */
  method MergeTuples(before: Modes, tuples: seq<Tuple>) returns (after: Modes)
    ensures forall fam :: SendOn(after, fam) <==> SendOn(before, fam) || HasMode(tuples, fam, ADD_PATH_SEND)
    ensures forall fam :: ReceiveOn(after, fam) <==> ReceiveOn(before, fam) || HasMode(tuples, fam, ADD_PATH_RECEIVE)
  {
    after := before;
    for j := 0 to |tuples|
      invariant forall fam :: SendOn(after, fam) <==> SendOn(before, fam) || HasMode(tuples[..j], fam, ADD_PATH_SEND)
      invariant forall fam :: ReceiveOn(after, fam)
                         <==> ReceiveOn(before, fam) || HasMode(tuples[..j], fam, ADD_PATH_RECEIVE)
    {
      var t := tuples[j];
      assert tuples[..j + 1] == tuples[..j] + [t];
      forall fam, bit ensures HasMode(tuples[..j + 1], fam, bit)
                         <==> HasMode(tuples[..j], fam, bit) || (t.fam == fam && t.mode & bit != 0)
      {
        HasModeSnoc(tuples[..j], t, fam, bit);
      }
      MergeOne(after, t);
      after := Merged(after, t);
    }
    assert tuples[..|tuples|] == tuples;
  }

  function Merged(modes: Modes, t: Tuple): Modes {
    modes[t.fam := (if t.fam in modes then modes[t.fam] else 0) | t.mode]
  }

  lemma MergeOne(modes: Modes, t: Tuple)
    ensures forall fam :: SendOn(Merged(modes, t), fam)
                     <==> SendOn(modes, fam) || (t.fam == fam && t.mode & ADD_PATH_SEND != 0)
    ensures forall fam :: ReceiveOn(Merged(modes, t), fam)
                     <==> ReceiveOn(modes, fam) || (t.fam == fam && t.mode & ADD_PATH_RECEIVE != 0)
  {
    OrBits(if t.fam in modes then modes[t.fam] else 0, t.mode);
  }

  lemma OrBits(x: bv8, y: bv8)
    ensures (x | y) & ADD_PATH_SEND != 0 <==> x & ADD_PATH_SEND != 0 || y & ADD_PATH_SEND != 0
    ensures (x | y) & ADD_PATH_RECEIVE != 0 <==> x & ADD_PATH_RECEIVE != 0 || y & ADD_PATH_RECEIVE != 0
  {
  }
}
