/**
 cmd/fakebgpd/main.go's refresh replay, seen from one client session, and the client end that
 reads it (internal/peer/send.go, internal/peer/recv.go): two FIFO links, the hub's handler thread
 for the session, and any other sessions recording and broadcasting at any moment.
 */
module Hub {
  import opened Outcomes
  import Runs = ObservedRuns
  import Refreshes = RefreshRuns
  import Observed = ObservedState

  type Session = nat
  type Raw = nat
  type Family = nat
  type Time = nat

  datatype Cached = Cached(from: Session, raw: Raw)

  /** Messages the hub writes to a session. */
  datatype Item = Upd(raw: Raw) | BoRR(fam: Family) | EoRR(fam: Family) | KeepAlive

  /** Messages a client writes to the hub. */
  datatype Request = Announce(raw: Raw) | Refresh(fam: Family)

  /** What the hub has cached from sessions other than s, in recording order. */
  function Others(updates: seq<Cached>, s: Session): seq<Raw> {
    if updates == [] then []
    else
      var init, u := Others(updates[..|updates| - 1], s), updates[|updates| - 1];
      if u.from != s then init + [u.raw] else init
  }

  function Upds(raws: seq<Raw>): seq<Item> {
    seq(|raws|, i requires 0 <= i < |raws| => Upd(raws[i]))
  }

  /** The writes of one replay. */
  function ReplayItems(fam: Family, raws: seq<Raw>, enhanced: bool): seq<Item> {
    if enhanced then [BoRR(fam)] + Upds(raws) + [EoRR(fam)] else Upds(raws)
  }

  class Hub {
    var clients: set<Session>
    var updates: seq<Cached>

    constructor ()
      ensures clients == {} && updates == []
    {
      clients, updates := {}, [];
    }

    method Record(from: Session, raw: Raw)
      modifies this`updates
      ensures updates == old(updates) + [Cached(from, raw)]
    {
      updates := updates + [Cached(from, raw)];
    }

    /** The locked part of replay and the order of its writes. */
    method Replay(s: Session, fam: Family, enhanced: bool) returns (writes: seq<Item>)
      ensures writes == ReplayItems(fam, Others(updates, s), enhanced)
    {
      var raws: seq<Raw> := [];
      for i := 0 to |updates|
        invariant raws == Others(updates[..i], s)
      {
        assert updates[..i + 1][..i] == updates[..i];
        if updates[i].from != s { raws := raws + [updates[i].raw]; }
      }
      assert updates[..|updates|] == updates;
      writes := [];
      if enhanced { writes := writes + [BoRR(fam)]; }
      for i := 0 to |raws|
        invariant writes == (if enhanced then [BoRR(fam)] else []) + Upds(raws[..i])
      {
        writes := writes + [Upd(raws[i])];
      }
      assert raws[..|raws|] == raws;
      if enhanced { writes := writes + [EoRR(fam)]; }
    }

    /** The locked part of broadcast: everyone but the origin, once each. */
    method Targets(from: Session) returns (peers: seq<Session>)
      ensures forall s :: s in peers <==> s in clients && s != from
      ensures |peers| == |clients - {from}|
    {
      peers := [];
      var rest := clients;
      while rest != {}
        invariant rest <= clients
        invariant forall s :: s in peers <==> s in clients - rest && s != from
        invariant |peers| + |rest - {from}| == |clients - {from}|
        decreases rest
      {
        var s :| s in rest;
        assert (rest - {s}) - {from} == (rest - {from}) - {s};
        rest := rest - {s};
        if s != from { peers := peers + [s]; }
      }
    }
  }

  // ----- the system around one session

  /** replay is what the handler still has to write of the refresh it is answering; the handler reads
      its next request only when that is empty. */
  datatype World = World(updates: seq<Cached>, toHub: seq<Request>, replay: seq<Item>, link: seq<Item>,
                         dispatched: seq<Raw>, lastEoRR: map<Family, Time>, clock: Time)

  datatype Action =
    | Record(from: Session, raw: Raw)       // another session's UPDATE reaches the hub
    | Broadcast(raw: Raw)                   // some broadcast writes to this session
    | HubKeepalive
    | Ask(fam: Family, dt: nat)             // RouteRefresh, anchored at the clock
    | Send(raw: Raw)                        // the client's own UPDATE
    | HubRead                               // the handler takes the next request
    | HubWrite                              // the handler writes the next replayed message
    | ClientRead(dt: nat)                   // readLoop takes the next message

  function Do(w: World, me: Session, enhanced: bool, a: Action): World {
    match a
    case Record(from, raw) => if from == me then w else w.(updates := w.updates + [Cached(from, raw)])
    case Broadcast(raw) => w.(link := w.link + [Upd(raw)])
    case HubKeepalive => w.(link := w.link + [KeepAlive])
    case Ask(fam, dt) => w.(toHub := w.toHub + [Refresh(fam)], clock := w.clock + dt)
    case Send(raw) => w.(toHub := w.toHub + [Announce(raw)])
    case HubRead =>
      if w.toHub == [] || w.replay != [] then w
      else
        var rest := w.toHub[1..];
        (match w.toHub[0]
         case Announce(raw) => w.(toHub := rest, updates := w.updates + [Cached(me, raw)])
         case Refresh(fam) => w.(toHub := rest, replay := ReplayItems(fam, Others(w.updates, me), enhanced)))
    case HubWrite =>
      if w.replay == [] then w else w.(link := w.link + [w.replay[0]], replay := w.replay[1..])
    case ClientRead(dt) =>
      if w.link == [] then w
      else
        var v := w.(link := w.link[1..], clock := w.clock + dt);
        (match w.link[0]
         case Upd(raw) => v.(dispatched := w.dispatched + [raw])
         case EoRR(fam) => v.(lastEoRR := w.lastEoRR[fam := v.clock])
         case _ => v)
  }

  function Run(w: World, me: Session, enhanced: bool, actions: seq<Action>): World {
    if actions == [] then w
    else Do(Run(w, me, enhanced, actions[..|actions| - 1]), me, enhanced, actions[|actions| - 1])
  }

  /** WaitForRouteRefreshEnd with this cutoff succeeds. */
  predicate Answered(w: World, fam: Family, cutoff: Time) { fam in w.lastEoRR && cutoff <= w.lastEoRR[fam] }

  // ----- subsequences

  ghost predicate Embeds<T>(n: seq<T>, s: seq<T>, at: seq<nat>) {
    && |at| == |n|
    && (forall i :: 0 <= i < |n| ==> at[i] < |s| && s[at[i]] == n[i])
    && (forall i, j :: 0 <= i < j < |n| ==> at[i] < at[j])
  }

  ghost predicate Subsequence<T>(n: seq<T>, s: seq<T>) { exists at :: Embeds(n, s, at) }

  lemma SubsequenceInsert<T>(n: seq<T>, a: seq<T>, x: T, b: seq<T>)
    requires Subsequence(n, a + b)
    ensures Subsequence(n, a + [x] + b)
  {
    var at :| Embeds(n, a + b, at);
    var shifted := seq(|n|, i requires 0 <= i < |n| => if at[i] < |a| then at[i] else at[i] + 1);
    assert Embeds(n, a + [x] + b, shifted);
  }

  lemma SubsequenceSuffix<T>(n: seq<T>, a: seq<T>, b: seq<T>)
    requires n <= b
    ensures Subsequence(n, a + b)
  {
    var at := seq(|n|, i requires 0 <= i < |n| => |a| + i);
    assert Embeds(n, a + b, at);
  }

  lemma {:induction false} AtLeast<T>(n: seq<T>, s: seq<T>, at: seq<nat>, i: nat)
    requires Embeds(n, s, at) && i < |n|
    ensures i <= at[i]
  {
    if i > 0 { AtLeast(n, s, at, i - 1); }
  }

  lemma SubsequenceLength<T>(n: seq<T>, s: seq<T>)
    requires Subsequence(n, s)
    ensures |n| <= |s|
  {
    var at :| Embeds(n, s, at);
    if n != [] { AtLeast(n, s, at, |n| - 1); }
  }

  // ----- what the hub has cached from others, position by position

  /** at lists, in order, exactly the positions of what others sent, and raws what was sent there. */
  ghost predicate FromOthers(updates: seq<Cached>, s: Session, at: seq<nat>, raws: seq<Raw>) {
    && |at| == |raws|
    && (forall i :: 0 <= i < |at| ==> at[i] < |updates| && updates[at[i]].from != s && updates[at[i]].raw == raws[i])
    && (forall i, j :: 0 <= i < j < |at| ==> at[i] < at[j])
    && (forall p: nat :: p < |updates| && updates[p].from != s ==> p in at)
  }

  lemma FromOthersSnoc(updates: seq<Cached>, u: Cached, s: Session, at: seq<nat>, raws: seq<Raw>)
    requires FromOthers(updates, s, at, raws)
    ensures if u.from != s then FromOthers(updates + [u], s, at + [|updates|], raws + [u.raw])
            else FromOthers(updates + [u], s, at, raws)
  {
    var all := updates + [u];
    var more := if u.from != s then at + [|updates|] else at;
    assert all[|updates|] == u;
    assert forall p :: 0 <= p < |updates| ==> all[p] == updates[p];
    forall p: nat | p < |all| && all[p].from != s ensures p in more {
      if p < |updates| {
        assert p in at;
      } else {
        assert more[|at|] == p;
      }
    }
  }

  /** Others is everything that sessions other than s have sent, once for each time, in order. */
  lemma {:induction false} OthersPositions(updates: seq<Cached>, s: Session) returns (at: seq<nat>)
    ensures FromOthers(updates, s, at, Others(updates, s))
  {
    if updates == [] {
      at := [];
    } else {
      var init, last := updates[..|updates| - 1], updates[|updates| - 1];
      assert updates == init + [last];
      at := OthersPositions(init, s);
      FromOthersSnoc(init, last, s, at, Others(init, s));
      if last.from != s { at := at + [|init|]; }
    }
  }

  /** Everything others had cached is among the messages, each as often and in the order it was cached:
      into maps each of their positions to a message of its own. */
  ghost predicate Holds(updates: seq<Cached>, s: Session, messages: seq<Raw>, into: map<nat, nat>) {
    && (forall p: nat :: p < |updates| && updates[p].from != s ==>
                           p in into && into[p] < |messages| && messages[into[p]] == updates[p].raw)
    && (forall p: nat, q: nat :: p < q < |updates| && updates[p].from != s && updates[q].from != s ==>
                                   into[p] < into[q])
  }

  ghost predicate Contains(updates: seq<Cached>, s: Session, messages: seq<Raw>) {
    exists into: map<nat, nat> :: Holds(updates, s, messages, into)
  }

  lemma ContainsIsSubsequence(updates: seq<Cached>, s: Session, messages: seq<Raw>)
    ensures Contains(updates, s, messages) <==> Subsequence(Others(updates, s), messages)
  {
    if Contains(updates, s, messages) { ContainsEmbeds(updates, s, messages); }
    if Subsequence(Others(updates, s), messages) { EmbedsContains(updates, s, messages); }
  }

  lemma ContainsEmbeds(updates: seq<Cached>, s: Session, messages: seq<Raw>)
    requires Contains(updates, s, messages)
    ensures Subsequence(Others(updates, s), messages)
  {
    var into :| Holds(updates, s, messages, into);
    var at := OthersPositions(updates, s);
    var embedding := seq(|at|, i requires 0 <= i < |at| => if at[i] in into then into[at[i]] else 0);
    forall i | 0 <= i < |at| ensures at[i] in into && embedding[i] == into[at[i]] {
    }
    assert Embeds(Others(updates, s), messages, embedding);
  }

  lemma EmbedsContains(updates: seq<Cached>, s: Session, messages: seq<Raw>)
    requires Subsequence(Others(updates, s), messages)
    ensures Contains(updates, s, messages)
  {
    var raws := Others(updates, s);
    var embedding :| Embeds(raws, messages, embedding);
    var at := OthersPositions(updates, s);
    var into := map p | p in at :: embedding[Rank(at, p)];
    forall p: nat | p < |updates| && updates[p].from != s
      ensures p in into && into[p] < |messages| && messages[into[p]] == updates[p].raw
    {
      assert p in at;
    }
    forall p: nat, q: nat | p < q < |updates| && updates[p].from != s && updates[q].from != s
      ensures into[p] < into[q]
    {
      assert p in at && q in at;
      assert Rank(at, p) < Rank(at, q);
    }
    assert Holds(updates, s, messages, into);
  }

  /** First index of p. */
  function Rank(at: seq<nat>, p: nat): (i: nat)
    requires p in at
    ensures i < |at| && at[i] == p
  {
    if at[0] == p then 0 else 1 + Rank(at[1..], p)
  }

  /** The writes of a replay: the messages of others, all of them and in order, between BoRR and EoRR with
      RFC 7313 and nothing else without. */
  lemma ReplayWrites(fam: Family, updates: seq<Cached>, s: Session, enhanced: bool) returns (at: seq<nat>, raws: seq<Raw>)
    ensures FromOthers(updates, s, at, raws)
    ensures var writes := ReplayItems(fam, Others(updates, s), enhanced);
            && |writes| == |raws| + (if enhanced then 2 else 0)
            && (forall i :: 0 <= i < |raws| ==> writes[if enhanced then i + 1 else i] == Upd(raws[i]))
            && (enhanced ==> writes[0] == BoRR(fam) && writes[|writes| - 1] == EoRR(fam))
  {
    at := OthersPositions(updates, s);
    raws := Others(updates, s);
  }

  // ----- the pipe: what is on the link, then what the handler still has to write

  /** UPDATEs ahead of the first EoRR of fam. */
  function UpTo(pipe: seq<Item>, fam: Family): seq<Raw> {
    if pipe == [] || pipe[0] == EoRR(fam) then []
    else if pipe[0].Upd? then [pipe[0].raw] + UpTo(pipe[1..], fam)
    else UpTo(pipe[1..], fam)
  }

  lemma {:induction false} UpToConcat(a: seq<Item>, b: seq<Item>, fam: Family)
    ensures UpTo(a + b, fam) == if EoRR(fam) in a then UpTo(a, fam) else UpTo(a, fam) + UpTo(b, fam)
  {
    if a == [] {
      assert a + b == b;
    } else {
      assert (a + b)[1..] == a[1..] + b;
      UpToConcat(a[1..], b, fam);
    }
  }

  lemma {:induction false} UpToUpds(raws: seq<Raw>, more: seq<Item>, fam: Family)
    ensures UpTo(Upds(raws) + more, fam) == raws + UpTo(more, fam)
    ensures forall g :: EoRR(g) !in Upds(raws)
  {
    if raws == [] {
      assert Upds(raws) + more == more;
    } else {
      assert (Upds(raws) + more)[1..] == Upds(raws[1..]) + more;
      UpToUpds(raws[1..], more, fam);
    }
  }

  lemma UpToReplay(fam: Family, raws: seq<Raw>, g: Family)
    ensures UpTo(ReplayItems(fam, raws, true), g) == raws
    ensures EoRR(g) in ReplayItems(fam, raws, true) <==> g == fam
  {
    var items := ReplayItems(fam, raws, true);
    UpToUpds(raws, [EoRR(fam)], g);
    assert items[1..] == Upds(raws) + [EoRR(fam)];
    assert UpTo([EoRR(fam)], g) == [];
    assert items[|items| - 1] == EoRR(fam);
  }

  /** Progress of one refresh of fam asked at t0 with `need` cached, when `base` UPDATEs had been
      dispatched. */
  ghost predicate OnTheWay(w: World, me: Session, fam: Family, t0: Time, need: seq<Raw>, base: nat) {
    && base <= |w.dispatched| && t0 <= w.clock
    && need <= Others(w.updates, me)
    && var got, pipe := w.dispatched[base..], w.link + w.replay;
       if Answered(w, fam, t0) then Subsequence(need, got)
       else if EoRR(fam) in pipe then Subsequence(need, got + UpTo(pipe, fam))
       else Refresh(fam) in w.toHub
  }

  lemma UpToInsert(a: seq<Item>, x: Item, b: seq<Item>, fam: Family)
    requires x.Upd? || x.KeepAlive?
    ensures UpTo(a + [x] + b, fam)
         == if EoRR(fam) in a || x.KeepAlive? then UpTo(a + b, fam)
            else UpTo(a, fam) + [x.raw] + UpTo(b, fam)
  {
    UpToConcat(a, b, fam);
    UpToConcat(a, [x] + b, fam);
    assert a + [x] + b == a + ([x] + b) && ([x] + b)[1..] == b;
  }

  /** Something else squeezed into the pipe only ever adds to what comes before the EoRR. */
  lemma PipeInsert(a: seq<Item>, x: Item, b: seq<Item>, fam: Family, need: seq<Raw>, got: seq<Raw>)
    requires x.Upd? || x.KeepAlive?
    requires Subsequence(need, got + UpTo(a + b, fam))
    ensures Subsequence(need, got + UpTo(a + [x] + b, fam))
  {
    UpToInsert(a, x, b, fam);
    if x.Upd? && EoRR(fam) !in a {
      UpToConcat(a, b, fam);
      var p, q := UpTo(a, fam), UpTo(b, fam);
      Runs.Regroup(got, p, q);
      SubsequenceInsert(need, got + p, x.raw, q);
      Runs.Regroup(got, p, [x.raw]);
      Runs.Regroup(got, p + [x.raw], q);
    }
  }

  lemma InsertKeepsWay(w: World, me: Session, fam: Family, t0: Time, need: seq<Raw>, base: nat, x: Item)
    requires OnTheWay(w, me, fam, t0, need, base) && (x.Upd? || x.KeepAlive?)
    ensures OnTheWay(w.(link := w.link + [x]), me, fam, t0, need, base)
  {
    if !Answered(w, fam, t0) && EoRR(fam) in w.link + w.replay {
      PipeInsert(w.link, x, w.replay, fam, need, w.dispatched[base..]);
    }
  }

  /** The handler answers a refresh of g from what is cached now. */
  lemma AnswerKeepsWay(w: World, me: Session, fam: Family, t0: Time, need: seq<Raw>, base: nat, g: Family)
    requires OnTheWay(w, me, fam, t0, need, base)
    requires w.toHub != [] && w.replay == [] && w.toHub[0] == Refresh(g)
    ensures OnTheWay(Do(w, me, true, HubRead), me, fam, t0, need, base)
  {
    var v := Do(w, me, true, HubRead);
    var raws, got := Others(w.updates, me), w.dispatched[base..];
    assert w.link + w.replay == w.link;
    assert w.toHub == [w.toHub[0]] + w.toHub[1..];
    UpToReplay(g, raws, fam);
    UpToConcat(w.link, v.replay, fam);
    if EoRR(fam) !in w.link && g == fam {
      SubsequenceSuffix(need, got + UpTo(w.link, fam), raws);
      Runs.Regroup(got, UpTo(w.link, fam), raws);
    }
  }

  lemma HubReadKeepsWay(w: World, me: Session, fam: Family, t0: Time, need: seq<Raw>, base: nat)
    requires OnTheWay(w, me, fam, t0, need, base)
    ensures OnTheWay(Do(w, me, true, HubRead), me, fam, t0, need, base)
  {
    if w.toHub != [] && w.replay == [] {
      match w.toHub[0]
      case Refresh(g) => AnswerKeepsWay(w, me, fam, t0, need, base, g);
      case Announce(raw) =>
        assert w.toHub == [w.toHub[0]] + w.toHub[1..];
        assert (w.updates + [Cached(me, raw)])[..|w.updates|] == w.updates;
    }
  }

  lemma ClientReadKeepsWay(w: World, me: Session, fam: Family, t0: Time, need: seq<Raw>, base: nat, dt: nat)
    requires OnTheWay(w, me, fam, t0, need, base)
    ensures OnTheWay(Do(w, me, true, ClientRead(dt)), me, fam, t0, need, base)
  {
    if w.link != [] {
      var v := Do(w, me, true, ClientRead(dt));
      var x, pipe, rest := w.link[0], w.link + w.replay, v.link + v.replay;
      assert pipe == [x] + rest;
      var got := w.dispatched[base..];
      if x.Upd? {
        assert v.dispatched[base..] == got + [x.raw];
        assert got + UpTo(pipe, fam) == v.dispatched[base..] + UpTo(rest, fam);
        if Answered(w, fam, t0) {
          assert got + [] == got;
          SubsequenceInsert(need, got, x.raw, []);
          assert got + [x.raw] + [] == got + [x.raw];
        }
      } else if x == EoRR(fam) {
        assert UpTo(pipe, fam) == [];
        assert got + [] == got;
        assert Answered(v, fam, t0);
      }
    }
  }

  lemma StepKeepsWay(w: World, me: Session, a: Action, fam: Family, t0: Time, need: seq<Raw>, base: nat)
    requires OnTheWay(w, me, fam, t0, need, base)
    ensures OnTheWay(Do(w, me, true, a), me, fam, t0, need, base)
  {
    match a
    case Record(from, raw) => if from != me { assert Do(w, me, true, a).updates[..|w.updates|] == w.updates; }
    case Broadcast(raw) => InsertKeepsWay(w, me, fam, t0, need, base, Upd(raw));
    case HubKeepalive => InsertKeepsWay(w, me, fam, t0, need, base, KeepAlive);
    case HubRead => HubReadKeepsWay(w, me, fam, t0, need, base);
    case HubWrite => if w.replay != [] {
      assert w.link + [w.replay[0]] + w.replay[1..] == w.link + w.replay;
    }
    case ClientRead(dt) => ClientReadKeepsWay(w, me, fam, t0, need, base, dt);
    case _ =>
  }

  lemma {:induction false} RunKeepsWay(w: World, me: Session, actions: seq<Action>, fam: Family, t0: Time,
                                       need: seq<Raw>, base: nat)
    requires OnTheWay(w, me, fam, t0, need, base)
    ensures OnTheWay(Run(w, me, true, actions), me, fam, t0, need, base)
  {
    if actions != [] {
      var n := |actions| - 1;
      RunKeepsWay(w, me, actions[..n], fam, t0, need, base);
      StepKeepsWay(Run(w, me, true, actions[..n]), me, actions[n], fam, t0, need, base);
    }
  }

  /** Whatever happens after the request, once the wait anchored at its write succeeds, every UPDATE
      other sessions had recorded before the request has been dispatched since, each as often and in the
      order it was recorded. */
  ghost predicate Complete(w: World, me: Session, fam: Family, dt: nat) {
    forall actions :: CompleteAfter(w, me, fam, dt, actions)
  }

  ghost predicate CompleteAfter(w: World, me: Session, fam: Family, dt: nat, actions: seq<Action>) {
    var end := Run(Do(w, me, true, Ask(fam, dt)), me, true, actions);
    Answered(end, fam, w.clock + dt) ==>
      && |w.dispatched| <= |end.dispatched|
      && Contains(w.updates, me, end.dispatched[|w.dispatched|..])
  }

  predicate NothingFromOthers(updates: seq<Cached>, me: Session) {
    forall i :: 0 <= i < |updates| ==> updates[i].from == me
  }

  lemma NothingIsEmpty(updates: seq<Cached>, me: Session)
    ensures NothingFromOthers(updates, me) <==> Others(updates, me) == []
  {
    var at := OthersPositions(updates, me);
    if at != [] { assert updates[at[0]].from != me; }
  }

  /** What a caller must know before asking: no EoRR already satisfies the wait, and if one is already
      on its way, what precedes it there already holds everything recorded. */
  ghost predicate Safe(w: World, me: Session, fam: Family, cutoff: Time) {
    var pipe := w.link + w.replay;
    if Answered(w, fam, cutoff) then NothingFromOthers(w.updates, me)
    else EoRR(fam) in pipe ==> Contains(w.updates, me, UpTo(pipe, fam))
  }

  /** Refresh completeness, exactly: from any state, under any interleaving of broadcasts, keepalives,
      further refreshes and other sessions. Requests of the same family that the hub has not read yet
      do no harm. */
  lemma CompleteExactlyWhenSafe(w: World, me: Session, fam: Family, dt: nat)
    ensures Complete(w, me, fam, dt) <==> Safe(w, me, fam, w.clock + dt)
  {
    if Safe(w, me, fam, w.clock + dt) {
      forall actions ensures CompleteAfter(w, me, fam, dt, actions) { SafeIsEnough(w, me, fam, dt, actions); }
    }
    if Complete(w, me, fam, dt) { SafeIsNeeded(w, me, fam, dt); }
  }

  lemma SafeIsEnough(w: World, me: Session, fam: Family, dt: nat, actions: seq<Action>)
    requires Safe(w, me, fam, w.clock + dt)
    ensures CompleteAfter(w, me, fam, dt, actions)
  {
    var asked := Do(w, me, true, Ask(fam, dt));
    var need := Others(w.updates, me);
    NothingIsEmpty(w.updates, me);
    ContainsIsSubsequence(w.updates, me, UpTo(w.link + w.replay, fam));
    assert Refresh(fam) == asked.toHub[|w.toHub|];
    var got: seq<Raw> := asked.dispatched[|w.dispatched|..];
    assert got == [] && got + UpTo(w.link + w.replay, fam) == UpTo(w.link + w.replay, fam);
    if need == [] { assert Embeds(need, got, []); }
    RunKeepsWay(asked, me, actions, fam, w.clock + dt, need, |w.dispatched|);
    ContainsIsSubsequence(w.updates, me, Run(asked, me, true, actions).dispatched[|w.dispatched|..]);
  }

  lemma SafeIsNeeded(w: World, me: Session, fam: Family, dt: nat)
    requires Complete(w, me, fam, dt)
    ensures Safe(w, me, fam, w.clock + dt)
  {
    var asked := Do(w, me, true, Ask(fam, dt));
    var need := Others(w.updates, me);
    if Answered(w, fam, w.clock + dt) {
      assert CompleteAfter(w, me, fam, dt, []);
      ContainsIsSubsequence(w.updates, me, asked.dispatched[|w.dispatched|..]);
      SubsequenceLength(need, asked.dispatched[|w.dispatched|..]);
      NothingIsEmpty(w.updates, me);
    } else if EoRR(fam) in w.link + w.replay {
      var drain := Drain(asked, me, fam);
      assert CompleteAfter(w, me, fam, dt, drain);
      var end := Run(asked, me, true, drain);
      assert end.dispatched[|w.dispatched|..] == UpTo(w.link + w.replay, fam);
    }
  }

  lemma {:induction false} RunCons(w: World, me: Session, enhanced: bool, a: Action, rest: seq<Action>)
    ensures Run(w, me, enhanced, [a] + rest) == Run(Do(w, me, enhanced, a), me, enhanced, rest)
  {
    if rest == [] {
      assert [a] + rest == [a] && [a][..0] == [];
    } else {
      var n := |rest| - 1;
      assert ([a] + rest)[..n + 1] == [a] + rest[..n];
      RunCons(w, me, enhanced, a, rest[..n]);
    }
  }

  /** The next step of draining the pipe: read if there is something to read, else write on. */
  function DrainAction(w: World): Action { if w.link == [] then HubWrite else ClientRead(0) }

  lemma DrainStep(w: World, me: Session, fam: Family)
    requires EoRR(fam) in w.link + w.replay
    ensures var v := Do(w, me, true, DrainAction(w));
            if w.link != [] && w.link[0] == EoRR(fam)
            then v.dispatched == w.dispatched + UpTo(w.link + w.replay, fam) && Answered(v, fam, w.clock)
            else && EoRR(fam) in v.link + v.replay && v.clock == w.clock
                 && v.dispatched + UpTo(v.link + v.replay, fam) == w.dispatched + UpTo(w.link + w.replay, fam)
                 && 2 * |v.replay| + |v.link| < 2 * |w.replay| + |w.link|
  {
    var v := Do(w, me, true, DrainAction(w));
    if w.link == [] {
      assert v.link + v.replay == w.link + w.replay;
    } else {
      var x, rest := w.link[0], v.link + v.replay;
      assert w.link + w.replay == [x] + rest;
      UpToHead(x, rest, fam);
      if x.Upd? { Runs.Regroup(w.dispatched, [x.raw], UpTo(rest, fam)); }
    }
  }

  lemma UpToHead(x: Item, rest: seq<Item>, fam: Family)
    ensures UpTo([x] + rest, fam)
         == if x == EoRR(fam) then [] else if x.Upd? then [x.raw] + UpTo(rest, fam) else UpTo(rest, fam)
  {
    assert ([x] + rest)[1..] == rest;
  }

  /** The handler finishes its replay and the client reads up to the first EoRR, at once. */
  lemma {:induction false} Drain(w: World, me: Session, fam: Family) returns (actions: seq<Action>)
    requires EoRR(fam) in w.link + w.replay
    ensures var end := Run(w, me, true, actions);
            && end.dispatched == w.dispatched + UpTo(w.link + w.replay, fam)
            && Answered(end, fam, w.clock)
    decreases 2 * |w.replay| + |w.link|
  {
    DrainStep(w, me, fam);
    actions := [];
    if !(w.link != [] && w.link[0] == EoRR(fam)) {
      actions := Drain(Do(w, me, true, DrainAction(w)), me, fam);
    }
    RunCons(w, me, true, DrainAction(w), actions);
    actions := [DrainAction(w)] + actions;
  }

  /** The everyday case: nothing of this family is on its way and the last EoRR was read before the
      request. */
  lemma RefreshIsComplete(w: World, me: Session, fam: Family, dt: nat)
    requires EoRR(fam) !in w.link + w.replay
    ensures Complete(w, me, fam, dt)
       <==> (fam in w.lastEoRR && w.clock + dt <= w.lastEoRR[fam] ==> NothingFromOthers(w.updates, me))
  {
    CompleteExactlyWhenSafe(w, me, fam, dt);
  }

  const EMPTY: World := World([], [], [], [], [], map[], 9)

  /** A first refresh answered within one instant, and then an UPDATE from another session. */
  const FIRST_CYCLE: seq<Action> :=
    [Ask(5, 0)] + [HubRead] + [HubWrite] + [HubWrite] + [ClientRead(0)] + [ClientRead(0)] + [Record(1, 7)]

  /** A second refresh in that same instant is answered by the EoRR of the first, and the UPDATE
      recorded since is missed: the strict order of the two timestamps is needed. */
  lemma EqualTimestampsDefeatTheAnchor()
    ensures var w := Run(EMPTY, 0, true, FIRST_CYCLE);
            && w == EMPTY.(updates := [Cached(1, 7)], lastEoRR := map[5 := 9])
            && !Complete(w, 0, 5, 0)
  {
    FirstCycle();
    MissedUpdate(EMPTY.(updates := [Cached(1, 7)], lastEoRR := map[5 := 9]));
  }

  lemma MissedUpdate(w: World)
    requires w.updates == [Cached(1, 7)] && Answered(w, 5, w.clock)
    ensures !Complete(w, 0, 5, 0)
  {
    assert w.updates[0].from == 1;
    CompleteExactlyWhenSafe(w, 0, 5, 0);
  }

  lemma RunSnoc(w: World, actions: seq<Action>, a: Action)
    ensures Run(w, 0, true, actions + [a]) == Do(Run(w, 0, true, actions), 0, true, a)
  {
    assert (actions + [a])[..|actions|] == actions;
  }

  lemma FirstCycle()
    ensures Run(EMPTY, 0, true, FIRST_CYCLE) == EMPTY.(updates := [Cached(1, 7)], lastEoRR := map[5 := 9])
  {
    var c1 := [Ask(5, 0)];
    RunSnoc(EMPTY, [], Ask(5, 0));
    assert [] + c1 == c1;
    RunSnoc(EMPTY, c1, HubRead);
    RunSnoc(EMPTY, c1 + [HubRead], HubWrite);
    RunSnoc(EMPTY, c1 + [HubRead] + [HubWrite], HubWrite);
    RunSnoc(EMPTY, c1 + [HubRead] + [HubWrite] + [HubWrite], ClientRead(0));
    RunSnoc(EMPTY, c1 + [HubRead] + [HubWrite] + [HubWrite] + [ClientRead(0)], ClientRead(0));
    RunSnoc(EMPTY, c1 + [HubRead] + [HubWrite] + [HubWrite] + [ClientRead(0)] + [ClientRead(0)], Record(1, 7));
    CycleSteps();
  }

  lemma CycleSteps()
    ensures var asked := Do(EMPTY, 0, true, Ask(5, 0));
            var written := Do(Do(Do(asked, 0, true, HubRead), 0, true, HubWrite), 0, true, HubWrite);
            var read := Do(Do(written, 0, true, ClientRead(0)), 0, true, ClientRead(0));
            Do(read, 0, true, Record(1, 7)) == EMPTY.(updates := [Cached(1, 7)], lastEoRR := map[5 := 9])
  {
    HubHalf();
    ClientHalf();
  }

  lemma HubHalf()
    ensures var asked := Do(EMPTY, 0, true, Ask(5, 0));
            Do(Do(Do(asked, 0, true, HubRead), 0, true, HubWrite), 0, true, HubWrite)
            == EMPTY.(link := [BoRR(5), EoRR(5)])
  {
    var w := Do(Do(EMPTY, 0, true, Ask(5, 0)), 0, true, HubRead);
    assert w == EMPTY.(replay := [BoRR(5), EoRR(5)]) by { assert ReplayItems(5, [], true) == [BoRR(5), EoRR(5)]; }
    w := Do(w, 0, true, HubWrite);
    assert w == EMPTY.(link := [BoRR(5)], replay := [EoRR(5)]);
  }

  lemma ClientHalf()
    ensures var written := EMPTY.(link := [BoRR(5), EoRR(5)]);
            Do(Do(written, 0, true, ClientRead(0)), 0, true, ClientRead(0)) == EMPTY.(lastEoRR := map[5 := 9])
  {
    var w := Do(EMPTY.(link := [BoRR(5), EoRR(5)]), 0, true, ClientRead(0));
    assert w == EMPTY.(link := [EoRR(5)]);
  }

  // ----- the waiter at the client end

  /** The refresh demarcations the client reads in a run, as its receiver records them. */
  function ReadLog(w: World, me: Session, enhanced: bool, actions: seq<Action>): seq<Refreshes.Message> {
    if actions == [] then []
    else
      var n := |actions| - 1;
      var v := Run(w, me, enhanced, actions[..n]);
      ReadLog(w, me, enhanced, actions[..n]) + ReadBy(v, actions[n])
  }

  function ReadBy(w: World, a: Action): seq<Refreshes.Message> {
    if !a.ClientRead? || w.link == [] then []
    else
      match w.link[0]
      case BoRR(fam) => [Refreshes.Message(fam, Observed.BORR, w.clock + a.dt)]
      case EoRR(fam) => [Refreshes.Message(fam, Observed.EORR, w.clock + a.dt)]
      case _ => []
  }

  lemma DoReads(w: World, me: Session, enhanced: bool, a: Action)
    ensures var more := ReadBy(w, a);
            && |more| <= 1
            && Do(w, me, enhanced, a).lastEoRR
               == if more != [] && more[0].demarcation == Observed.EORR then w.lastEoRR[more[0].fam := more[0].at]
                  else w.lastEoRR
  {
  }

  lemma LatestSnoc(log: seq<Refreshes.Message>, m: Refreshes.Message, fam: Family)
    ensures Refreshes.LatestEoRR(log + [m], fam)
         == if m.demarcation == Observed.EORR && m.fam == fam then Some(m.at) else Refreshes.LatestEoRR(log, fam)
  {
    assert (log + [m])[..|log|] == log;
  }

  lemma {:induction false} LastEoRRIsLatest(w: World, me: Session, enhanced: bool, actions: seq<Action>, fam: Family)
    requires w.lastEoRR == map[]
    ensures var v := Run(w, me, enhanced, actions);
            Refreshes.LatestEoRR(ReadLog(w, me, enhanced, actions), fam)
            == if fam in v.lastEoRR then Some(v.lastEoRR[fam]) else None
  {
    if actions != [] {
      var n := |actions| - 1;
      var v := Run(w, me, enhanced, actions[..n]);
      LastEoRRIsLatest(w, me, enhanced, actions[..n], fam);
      DoReads(v, me, enhanced, actions[n]);
      var log, more := ReadLog(w, me, enhanced, actions[..n]), ReadBy(v, actions[n]);
      if more == [] {
        assert log + more == log;
      } else {
        assert more == [more[0]];
        LatestSnoc(log, more[0], fam);
      }
    }
  }

  lemma {:induction false} RunConcat(w: World, me: Session, enhanced: bool, a: seq<Action>, b: seq<Action>)
    ensures Run(w, me, enhanced, a + b) == Run(Run(w, me, enhanced, a), me, enhanced, b)
  {
    if b == [] {
      assert a + b == a;
    } else {
      var n := |b| - 1;
      RunConcat(w, me, enhanced, a, b[..n]);
      assert (a + b)[..|a + b| - 1] == a + b[..n];
    }
  }

  /** A linked refresh waiter of a receiver that reads what the client reads, whatever else it does:
      it holds an EoRR exactly when the wait above is answered. */
  lemma WaiterHoldsAnswer<E>(start: World, me: Session, actions: seq<Action>, ops: seq<Runs.Op<E>>, j: nat)
    requires start.lastEoRR == map[]
    requires Refreshes.RefreshLog(ops) == ReadLog(start, me, true, actions)
    requires Runs.Timed(ops) && j < |Runs.Run(true, ops).refreshWaiters|
    ensures var r := Runs.Run(true, ops).refreshWaiters[j];
            r.ts != 0 <==> Answered(Run(start, me, true, actions), r.family, r.after)
  {
    LastEoRRIsLatest(start, me, true, actions, Runs.Run(true, ops).refreshWaiters[j].family);
    Refreshes.RefreshWaiterAgrees(true, ops, j);
  }

  /** A waiter anchored at the write of a safe request that obtains an EoRR missed nothing recorded
      before that request. */
  lemma WaiterSeesCompleteRefresh<E>(start: World, me: Session, fam: Family, dt: nat, before: seq<Action>,
                                     after: seq<Action>, ops: seq<Runs.Op<E>>, j: nat)
    requires start.lastEoRR == map[]
    requires Refreshes.RefreshLog(ops) == ReadLog(start, me, true, before + ([Ask(fam, dt)] + after))
    requires Runs.Timed(ops) && j < |Runs.Run(true, ops).refreshWaiters|
    requires Runs.Run(true, ops).refreshWaiters[j].family == fam
    requires Runs.Run(true, ops).refreshWaiters[j].after == Run(start, me, true, before).clock + dt
    requires Runs.Run(true, ops).refreshWaiters[j].ts != 0
    requires Safe(Run(start, me, true, before), me, fam, Run(start, me, true, before).clock + dt)
    ensures var w := Run(start, me, true, before);
            var end := Run(Do(w, me, true, Ask(fam, dt)), me, true, after);
            && |w.dispatched| <= |end.dispatched|
            && Contains(w.updates, me, end.dispatched[|w.dispatched|..])
  {
    var w := Run(start, me, true, before);
    RunConcat(start, me, true, before, [Ask(fam, dt)] + after);
    RunCons(w, me, true, Ask(fam, dt), after);
    WaiterHoldsAnswer(start, me, before + ([Ask(fam, dt)] + after), ops, j);
    SafeIsEnough(w, me, fam, dt, after);
  }

  /** Without RFC 7313 the hub never marks the end of a replay, so no wait can succeed. */
  lemma {:induction false} NoEoRRUnlessEnhanced(w: World, me: Session, actions: seq<Action>, fam: Family)
    requires EoRR(fam) !in w.replay && EoRR(fam) !in w.link && fam !in w.lastEoRR
    ensures var v := Run(w, me, false, actions);
            EoRR(fam) !in v.replay && EoRR(fam) !in v.link && fam !in v.lastEoRR
  {
    if actions != [] { NoEoRRUnlessEnhanced(w, me, actions[..|actions| - 1], fam); }
  }
}
