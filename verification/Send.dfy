/**
 internal/peer/send.go: validating a request and writing its UPDATEs on a connection shared with
 other writers (keepalives, refreshes, notifications, other calls). The write mutex makes each
 message one unit of the log; between two of our writes the others may append anything.
 */
module Send {
  import opened Outcomes
  import opened Nlri
  import opened Packet
  import Chunking
  import F = Fsm
  import OpenMessage
  import Negotiation

  type Time = nat

  datatype Payload = Update(m: UpdateMsg, len: nat) | OtherMessage(len: nat)

  /** A whole message on the wire, with the writer that put it there and its write timestamp. */
  datatype Frame = Frame(writer: nat, at: Time, payload: Payload)

  /** The frames of one writer, in order. */
  function Own(log: seq<Frame>, me: nat): seq<Frame> {
    if log == [] then []
    else
      var init, f := Own(log[..|log| - 1], me), log[|log| - 1];
      if f.writer == me then init + [f] else init
  }

  function Foreign(log: seq<Frame>, me: nat): (r: seq<Frame>)
    ensures forall i :: 0 <= i < |r| ==> r[i].writer != me
  {
    if log == [] then []
    else if log[0].writer == me then Foreign(log[1..], me) else [log[0]] + Foreign(log[1..], me)
  }

  /** at lists, in order, exactly the positions of one writer's frames, and mine what is there. */
  ghost predicate OwnAt(log: seq<Frame>, me: nat, at: seq<nat>, mine: seq<Frame>) {
    && |at| == |mine|
    && (forall i :: 0 <= i < |at| ==> at[i] < |log| && log[at[i]].writer == me && log[at[i]] == mine[i])
    && (forall i, j :: 0 <= i < j < |at| ==> at[i] < at[j])
    && (forall p: nat :: p < |log| && log[p].writer == me ==> p in at)
  }

  lemma OwnAtSnoc(log: seq<Frame>, f: Frame, me: nat, at: seq<nat>, mine: seq<Frame>)
    requires OwnAt(log, me, at, mine)
    ensures if f.writer == me then OwnAt(log + [f], me, at + [|log|], mine + [f]) else OwnAt(log + [f], me, at, mine)
  {
    var all := log + [f];
    var more := if f.writer == me then at + [|log|] else at;
    assert all[|log|] == f;
    assert forall p :: 0 <= p < |log| ==> all[p] == log[p];
    forall p: nat | p < |all| && all[p].writer == me ensures p in more {
      if p < |log| {
        assert p in at;
      } else {
        assert more[|at|] == p;
      }
    }
  }

  /** Own is every frame of the writer, once each, in the order of the log. */
  lemma {:induction false} OwnPositions(log: seq<Frame>, me: nat) returns (at: seq<nat>)
    ensures OwnAt(log, me, at, Own(log, me))
  {
    if log == [] {
      at := [];
    } else {
      var init, last := log[..|log| - 1], log[|log| - 1];
      assert log == init + [last];
      at := OwnPositions(init, me);
      OwnAtSnoc(init, last, me, at, Own(init, me));
      if last.writer == me { at := at + [|init|]; }
    }
  }

  lemma {:induction false} OwnForeign(log: seq<Frame>, more: seq<Frame>, me: nat)
    requires forall i :: 0 <= i < |more| ==> more[i].writer != me
    ensures Own(log + more, me) == Own(log, me)
  {
    if more == [] {
      assert log + more == log;
    } else {
      var n := |more| - 1;
      OwnForeign(log, more[..n], me);
      assert (log + more)[..|log + more| - 1] == log + more[..n];
    }
  }

  lemma {:induction false} OwnConcat(log: seq<Frame>, more: seq<Frame>, me: nat)
    ensures Own(log + more, me) == Own(log, me) + Own(more, me)
  {
    if more == [] {
      assert log + more == log;
    } else {
      var n := |more| - 1;
      OwnConcat(log, more[..n], me);
      assert (log + more)[..|log + more| - 1] == log + more[..n];
    }
  }

  /** What a writer has on the log since base grows by what it put there since a later point. */
  lemma OwnGrows(before: seq<Frame>, now: seq<Frame>, base: nat, me: nat)
    requires base <= |before| && before <= now
    ensures Own(now[base..], me) == Own(before[base..], me) + Own(now[|before|..], me)
  {
    OwnConcat(before[base..], now[|before|..], me);
    assert now[base..] == before[base..] + now[|before|..];
  }

  class Conn {
    var log: seq<Frame>
    var clock: Time

    /** Any messages of any other writers, taking any time. */
    method OthersWrite(me: nat)
      modifies this
      ensures old(log) <= log && old(clock) <= clock
      ensures forall i :: |old(log)| <= i < |log| ==> log[i].writer != me
    {
      var frames: seq<Frame> := *;
      var elapsed :| 0 <= elapsed;
      log := log + Foreign(frames, me);
      clock := clock + elapsed;
    }

    /** Lock, take the timestamp, write, unlock. A failing Write leaves nothing on the wire. */
    method WriteLocked(me: nat, payload: Payload) returns (ok: bool, ts: Time)
      modifies this
      ensures old(clock) <= ts == clock && 0 < ts
      ensures log == if ok then old(log) + [Frame(me, ts, payload)] else old(log)
    {
      var elapsed :| 0 <= elapsed;
      clock := clock + elapsed + 1;
      ts := clock;
      ok := *;
      if ok { log := log + [Frame(me, ts, payload)]; }
    }
  }

  datatype SendError =
    | NotReady | NothingToSend | WrongFamily(i: nat) | ExtendedNotNegotiated | PathIdNotNegotiated(i: nat)
    | Unchunkable(c: ChunkError) | Unbuildable(b: BuildError) | TooLong(len: nat) | WriteFailed

  datatype Request = Request(withdraw: bool, family: Family, attrs: PathAttrs, routes: seq<Route>, encoding: Options)

  /** Frame n carries exactly the UPDATE built from chunk n. */
  ghost predicate Carries(f: Frame, withdraw: bool, a: PathAttrs, chunk: seq<Route>, o: Options) {
    && Build(withdraw, a, chunk, o).Ok?
    && SerializeMessage(Build(withdraw, a, chunk, o).value, o).Ok?
    && f.payload == Update(Build(withdraw, a, chunk, o).value,
                           SerializeMessage(Build(withdraw, a, chunk, o).value, o).value)
  }

  /** The frames are, in order, the UPDATEs of the first |mine| chunks. */
  ghost predicate Covers(mine: seq<Frame>, withdraw: bool, a: PathAttrs, chunks: seq<seq<Route>>, o: Options) {
    && |mine| <= |chunks|
    && forall i :: 0 <= i < |mine| ==> Carries(mine[i], withdraw, a, chunks[i], o)
  }

  /** ts is the earliest write timestamp, 0 if nothing was written. */
  ghost predicate EarliestAt(mine: seq<Frame>, ts: Time) {
    && (mine == [] <==> ts == 0)
    && (mine != [] ==> ts == mine[0].at)
    && forall i :: 0 <= i < |mine| ==> ts <= mine[i].at
  }

  /** The encoding options after the session's negotiation overrode the caller's. */
  function Effective(o: Options, fsm: F.Fsm): Options
    reads fsm
  {
    o.(addPath := fsm.addPathNegotiated, use2ByteAS := !fsm.fourOctetASNegotiated)
  }

  /** What is sent on a session is encoded as that session negotiated, whatever the caller asked for: with
      2-octet AS numbers exactly if the peer's OPEN has no 4-octet AS capability, and with Path Identifiers
      exactly where we advertised sending and the peer receiving them. The rest is the caller's choice. */
  lemma EncodedAsNegotiated(o: Options, fsm: F.Fsm, m: OpenMessage.Open, fam: Family)
    requires fsm.View() == F.Outcome(fsm.cfg, m)
    ensures Effective(o, fsm).use2ByteAS <==> Negotiation.NoAS(m.params)
    ensures SendOn(Effective(o, fsm).addPath, fam)
       <==> SendOn(fsm.cfg.caps.addPath, fam)
            && OpenMessage.OffersMode(OpenMessage.AllCaps(m.params), fam, ADD_PATH_RECEIVE)
    ensures Effective(o, fsm).useMpReach == o.useMpReach && Effective(o, fsm).useExtended == o.useExtended
  {
    Negotiation.LastOfParams(m.params);
    Negotiation.AddPathOutcome(fsm.cfg, m, fam);
  }

  /** Least index of a route of another family, as validateRouteFamily reports it. */
  method ValidateRouteFamily(want: Family, routes: seq<Route>) returns (bad: Option<nat>)
    ensures match bad
            case None => forall j :: 0 <= j < |routes| ==> routes[j].family == want
            case Some(i) => i < |routes| && routes[i].family != want
                            && forall j :: 0 <= j < i ==> routes[j].family == want
  {
    for i := 0 to |routes|
      invariant forall j :: 0 <= j < i ==> routes[j].family == want
    {
      if routes[i].family != want { return Some(i); }
    }
    return None;
  }

  /** Routes that carry a Path Identifier need ADD-PATH send for the family. */
  method ValidatePathIDs(modes: Modes, fam: Family, routes: seq<Route>) returns (bad: Option<nat>)
    ensures bad == None <==> SendOn(modes, fam) || forall j :: 0 <= j < |routes| ==> routes[j].pathId == None
    ensures bad.Some? ==> bad.value < |routes| && routes[bad.value].pathId.Some?
                          && forall j :: 0 <= j < bad.value ==> routes[j].pathId == None
  {
    if SendOn(modes, fam) { return None; }
    for i := 0 to |routes|
      invariant forall j :: 0 <= j < i ==> routes[j].pathId == None
    {
      if routes[i].pathId.Some? { return Some(i); }
    }
    return None;
  }

  /** The frames are the UPDATEs of a prefix of the chunks, total the routes they carry and firstTs
      their earliest write. */
  ghost predicate Written(mine: seq<Frame>, withdraw: bool, a: PathAttrs, chunks: seq<seq<Route>>, o: Options,
                          firstTs: Time, total: nat)
  {
    && Covers(mine, withdraw, a, chunks, o)
    && total == |Flatten(chunks[..|mine|])|
    && EarliestAt(mine, firstTs)
  }

  lemma WrittenOneMore(mine: seq<Frame>, f: Frame, withdraw: bool, a: PathAttrs, chunks: seq<seq<Route>>, o: Options,
                       firstTs: Time, total: nat)
    requires Written(mine, withdraw, a, chunks, o, firstTs, total) && |mine| < |chunks|
    requires Carries(f, withdraw, a, chunks[|mine|], o) && 0 < f.at && firstTs <= f.at
    ensures Written(mine + [f], withdraw, a, chunks, o, if firstTs == 0 then f.at else firstTs,
                    total + |chunks[|mine|]|)
  {
    assert chunks[..|mine| + 1][..|mine|] == chunks[..|mine|];
  }

  lemma LogOneMore(before: seq<Frame>, now: seq<Frame>, base: nat, me: nat, withdraw: bool, a: PathAttrs,
                   chunks: seq<seq<Route>>, o: Options, firstTs: Time, total: nat)
    requires base <= |before| && before <= now && |Own(before[base..], me)| < |chunks|
    requires Written(Own(before[base..], me), withdraw, a, chunks, o, firstTs, total)
    requires |Own(now[|before|..], me)| == 1
    requires var f, n := Own(now[|before|..], me)[0], |Own(before[base..], me)|;
             Carries(f, withdraw, a, chunks[n], o) && 0 < f.at && firstTs <= f.at
    ensures var f, n := Own(now[|before|..], me)[0], |Own(before[base..], me)|;
            && |Own(now[base..], me)| == n + 1
            && Written(Own(now[base..], me), withdraw, a, chunks, o, if firstTs == 0 then f.at else firstTs,
                       total + |chunks[n]|)
  {
    var added := Own(now[|before|..], me);
    OwnGrows(before, now, base, me);
    WrittenOneMore(Own(before[base..], me), added[0], withdraw, a, chunks, o, firstTs, total);
    assert added == [added[0]];
  }

  /** Why and where a call stopped after writing n messages. */
  ghost predicate Stopped(n: nat, err: Option<SendError>, withdraw: bool, a: PathAttrs,
                          chunks: seq<seq<Route>>, o: Options)
  {
    match err
    case None => n == |chunks|
    case Some(Unchunkable(_)) => n == |chunks| == 0
    case Some(Unbuildable(_)) => n < |chunks| && Build(withdraw, a, chunks[n], o).Err?
    case Some(TooLong(_)) => n < |chunks| && Build(withdraw, a, chunks[n], o).Ok?
                             && SerializeMessage(Build(withdraw, a, chunks[n], o).value, o).Err?
    case Some(WriteFailed) => n < |chunks|
    case Some(_) => false
  }

  ghost predicate Chunked(withdraw: bool, a: PathAttrs, routes: seq<Route>, chunks: seq<seq<Route>>, o: Options) {
    && routes != []
    && ShellOverhead(withdraw, a, routes[0], o).Ok?
    && Greedy(routes, chunks, PerNlri(o, routes[0].family),
              Budget(o, ShellOverhead(withdraw, a, routes[0], o).value))
  }

  /** Why the routes cannot be split at all: unusable attributes, no room for any NLRI, or the least route
      that does not fit. */
  ghost predicate Unsplittable(withdraw: bool, a: PathAttrs, routes: seq<Route>, o: Options, c: ChunkError) {
    routes != [] &&
    match ShellOverhead(withdraw, a, routes[0], o)
    case Err(e) => c == BadAttrs(e)
    case Ok(overhead) =>
      var budget, per := Budget(o, overhead), PerNlri(o, routes[0].family);
      if budget <= 0 then c == NoRoom
      else c.RouteTooBig? && c.i < |routes| && routes[c.i].wireLen + per > budget
           && forall j :: 0 <= j < c.i ==> routes[j].wireLen + per <= budget
  }

  class Sender {
    const fsm: F.Fsm
    const conn: Conn

    constructor (fsm: F.Fsm, conn: Conn)
      ensures this.fsm == fsm && this.conn == conn
    {
      this.fsm, this.conn := fsm, conn;
    }

    /** Body of the chunk loop: build, serialize, then write under the mutex. */
    method WriteChunk(me: nat, withdraw: bool, a: PathAttrs, chunk: seq<Route>, o: Options)
      returns (ts: Time, err: Option<SendError>)
      modifies conn
      ensures old(conn.log) <= conn.log && old(conn.clock) <= conn.clock
      ensures var mine := Own(conn.log[|old(conn.log)|..], me);
              if err == None then
                && |mine| == 1 && Carries(mine[0], withdraw, a, chunk, o)
                && mine[0].at == ts == conn.clock && 0 < ts
              else mine == []
      ensures match err
              case None | Some(WriteFailed) => true
              case Some(Unbuildable(_)) => Build(withdraw, a, chunk, o).Err?
              case Some(TooLong(_)) => Build(withdraw, a, chunk, o).Ok?
                                       && SerializeMessage(Build(withdraw, a, chunk, o).value, o).Err?
              case _ => false
    {
      ts, err := 0, None;
      ghost var before := conn.log;
      assert before[|before|..] == [];
      var msg := BuildUpdateMessage(withdraw, a, chunk, o);
      if msg.Err? { err := Some(Unbuildable(msg.error)); return; }
      var buf := SerializeMessage(msg.value, o);
      if buf.Err? { err := Some(TooLong(buf.error)); return; }
      conn.OthersWrite(me);
      ghost var middle := conn.log;
      OwnForeign([], middle[|before|..], me);
      assert [] + middle[|before|..] == middle[|before|..];
      var ok, t := conn.WriteLocked(me, Update(msg.value, buf.value));
      ts := t;
      if !ok { err := Some(WriteFailed); return; }
      ghost var tail := conn.log[|before|..];
      assert tail[..|tail| - 1] == middle[|before|..];
    }

    /** The chunk loop. */
    method WriteChunks(me: nat, withdraw: bool, a: PathAttrs, chunks: seq<seq<Route>>, o: Options)
      returns (firstTs: Time, total: nat, err: Option<SendError>)
      modifies conn
      ensures old(conn.log) <= conn.log
      ensures var mine := Own(conn.log[|old(conn.log)|..], me);
              Written(mine, withdraw, a, chunks, o, firstTs, total) && Stopped(|mine|, err, withdraw, a, chunks, o)
    {
      firstTs, total, err := 0, 0, None;
      ghost var base := |conn.log|;
      assert conn.log[base..] == [] && chunks[..0] == [];
      for i := 0 to |chunks|
        invariant old(conn.log) <= conn.log && |Own(conn.log[base..], me)| == i
        invariant Written(Own(conn.log[base..], me), withdraw, a, chunks, o, firstTs, total)
        invariant firstTs <= conn.clock
      {
        ghost var before := conn.log;
        var ts, failed := WriteChunk(me, withdraw, a, chunks[i], o);
        if failed.Some? {
          OwnGrows(before, conn.log, base, me);
          err := failed;
          return;
        }
        LogOneMore(before, conn.log, base, me, withdraw, a, chunks, o, firstTs, total);
        if firstTs == 0 { firstTs := ts; }
        total := total + |chunks[i]|;
      }
    }

    /** Whatever the others do in between, our messages get on the wire whole, in order, and cover a
        chunk-aligned prefix of the routes; all of them on success. A message is refused as too long
        only at the first chunk that does not serialize. */
    method WriteUpdates(me: nat, withdraw: bool, a: PathAttrs, routes: seq<Route>, encoding: Options)
      returns (firstTs: Time, total: nat, err: Option<SendError>, ghost chunks: seq<seq<Route>>)
      modifies conn
      ensures old(conn.log) <= conn.log
      ensures var o, mine := Effective(encoding, fsm), Own(conn.log[|old(conn.log)|..], me);
              Written(mine, withdraw, a, chunks, o, firstTs, total) && Stopped(|mine|, err, withdraw, a, chunks, o)
      ensures chunks != [] ==> Chunked(withdraw, a, routes, chunks, Effective(encoding, fsm))
      ensures err == None ==> Flatten(chunks) == routes && total == |routes|
      ensures err.Some? && err.value.Unchunkable? ==>
                Unsplittable(withdraw, a, routes, Effective(encoding, fsm), err.value.c)
    {
      firstTs, total, err, chunks := 0, 0, None, [];
      assert conn.log[|conn.log|..] == [];
      if |routes| == 0 { return; }
      var o := Effective(encoding, fsm);
      var split := ChunkRoutes(withdraw, a, routes, o);
      if split.Err? {
        err := Some(Unchunkable(split.error));
        return;
      }
      chunks := split.value;
      firstTs, total, err := WriteChunks(me, withdraw, a, split.value, o);
      assert chunks[..|chunks|] == chunks;
    }

    /** The guards of Peer.Advertise and Peer.Withdraw. */
    method Admit(req: Request) returns (err: Option<SendError>)
      ensures err == Guard(req, fsm)
      ensures err == None <==> Admissible(req, fsm)
    {
      if fsm.state != F.Established { return Some(NotReady); }
      if |req.routes| == 0 { return Some(NothingToSend); }
      var bad := ValidateRouteFamily(req.family, req.routes);
      if bad.Some? { return Some(WrongFamily(bad.value)); }
      if req.encoding.useExtended && !fsm.extendedMessagesNegotiated { return Some(ExtendedNotNegotiated); }
      bad := ValidatePathIDs(fsm.addPathNegotiated, req.family, req.routes);
      if bad.Some? { return Some(PathIdNotNegotiated(bad.value)); }
      return None;
    }

    /** Peer.Advertise and Peer.Withdraw: an inadmissible request writes nothing; success means every
        route was written, in order, whatever else was written meanwhile. A failure in between reports
        nothing sent, although a chunk-aligned prefix, and no more, is on the wire. */
    method Submit(me: nat, req: Request)
      returns (sentAt: Time, sent: nat, err: Option<SendError>, ghost chunks: seq<seq<Route>>)
      modifies conn
      ensures old(conn.log) <= conn.log
      ensures !Admissible(req, fsm) ==> err == Guard(req, fsm) != None && conn.log == old(conn.log)
      ensures Admissible(req, fsm) ==>
                var mine := Own(conn.log[|old(conn.log)|..], me);
                var o := Effective(req.encoding, fsm);
                && (chunks != [] ==> Chunked(req.withdraw, req.attrs, req.routes, chunks, o))
                && Covers(mine, req.withdraw, req.attrs, chunks, o)
                && Stopped(|mine|, err, req.withdraw, req.attrs, chunks, o)
      ensures Admissible(req, fsm) && err.Some? && err.value.Unchunkable? ==>
                Unsplittable(req.withdraw, req.attrs, req.routes, Effective(req.encoding, fsm), err.value.c)
      ensures err != None ==> sent == 0 && sentAt == 0
      ensures err == None ==>
                var mine := Own(conn.log[|old(conn.log)|..], me);
                && Chunked(req.withdraw, req.attrs, req.routes, chunks, Effective(req.encoding, fsm))
                && |mine| == |chunks| && sent == |req.routes|
                && Written(mine, req.withdraw, req.attrs, chunks, Effective(req.encoding, fsm), sentAt, sent)
    {
      sentAt, sent, chunks := 0, 0, [];
      err := Admit(req);
      if err.Some? { return; }
      sentAt, sent, err, chunks := WriteUpdates(me, req.withdraw, req.attrs, req.routes, req.encoding);
      if err.Some? { sentAt, sent := 0, 0; }
    }
  }

  /** Least index of a route that carries a Path Identifier, or |routes|. */
  function FirstWithId(routes: seq<Route>): (i: nat)
    ensures i <= |routes| && (forall j :: 0 <= j < i ==> routes[j].pathId == None)
    ensures i < |routes| ==> routes[i].pathId.Some?
  {
    if routes == [] || routes[0].pathId.Some? then 0 else 1 + FirstWithId(routes[1..])
  }

  /** The first guard that refuses the request, naming the least offending route. */
  ghost function Guard(req: Request, fsm: F.Fsm): Option<SendError>
    reads fsm
  {
    if fsm.state != F.Established then Some(NotReady)
    else if req.routes == [] then Some(NothingToSend)
    else if Mismatch(req.routes, req.family) < |req.routes| then Some(WrongFamily(Mismatch(req.routes, req.family)))
    else if req.encoding.useExtended && !fsm.extendedMessagesNegotiated then Some(ExtendedNotNegotiated)
    else if !SendOn(fsm.addPathNegotiated, req.family) && FirstWithId(req.routes) < |req.routes| then
      Some(PathIdNotNegotiated(FirstWithId(req.routes)))
    else None
  }

  /** What a request must satisfy before anything is written. */
  ghost predicate Admissible(req: Request, fsm: F.Fsm)
    reads fsm
  {
    && fsm.state == F.Established
    && Chunking.OfFamily(req.routes, req.family)
    && (req.encoding.useExtended ==> fsm.extendedMessagesNegotiated)
    && (SendOn(fsm.addPathNegotiated, req.family) || forall j :: 0 <= j < |req.routes| ==> req.routes[j].pathId == None)
  }

  /** The chunk fills its budget and its MP header grew: the one case that cannot be serialized. */
  ghost predicate IsOverfull(withdraw: bool, a: PathAttrs, routes: seq<Route>, chunk: seq<Route>, o: Options) {
    && routes != [] && (withdraw || a.nextHop.Some?)
    && ShellOverhead(withdraw, a, routes[0], o).Ok?
    && Weight(chunk, PerNlri(o, routes[0].family)) == Budget(o, ShellOverhead(withdraw, a, routes[0], o).value)
    && Chunking.HeaderGrows(withdraw, a, routes[0], chunk, o)
  }

  lemma ChunkFamily(routes: seq<Route>, chunks: seq<seq<Route>>, per: nat, budget: int, i: nat)
    requires Greedy(routes, chunks, per, budget) && i < |chunks|
    requires routes != [] && Chunking.OfFamily(routes, routes[0].family)
    ensures Chunking.OfFamily(chunks[i], routes[0].family)
  {
    Chunking.FlattenSlice(chunks, i);
  }

  /** Of the chunks of one request, exactly the overfull ones are refused. */
  lemma OnlyOverfullFails(withdraw: bool, a: PathAttrs, routes: seq<Route>, chunks: seq<seq<Route>>, i: nat, o: Options)
    requires routes != [] && Chunking.OfFamily(routes, routes[0].family)
    requires Chunked(withdraw, a, routes, chunks, o) && i < |chunks|
    ensures Build(withdraw, a, chunks[i], o).Ok?
    ensures SerializeMessage(Build(withdraw, a, chunks[i], o).value, o).Err?
       <==> IsOverfull(withdraw, a, routes, chunks[i], o)
  {
    var fam := routes[0].family;
    ChunkFamily(routes, chunks, PerNlri(o, fam), Budget(o, ShellOverhead(withdraw, a, routes[0], o).value), i);
    Chunking.BuildDomain(withdraw, a, [routes[0]], fam, o);
    Chunking.ChunkFits(withdraw, a, routes[0], chunks[i], o);
  }
}
