/**
 Whole lives of one Peer (internal/peer/fsm.go, internal/peer/peer.go): one caller thread, as the
 API documents, and the two loops it starts, interleaved at every atomic step. Reads, writes,
 ticks and cancellations answer anything at any time.
 */
module SessionRuns {
  import opened Outcomes
  import M = OpenMessage
  import opened F = Fsm

  /** What one read of the handshake brought, judged as handshake judges it. */
  datatype Heard = AcceptableOpen | PeerKeepalive | AnythingElse

  datatype Caller =
    | Unopened
    | Dialing
    | SendingOpen
    | Shaking(n: nat)          // in handshake with n messages accepted
    | Starting                 // Established stored, loops not yet started
    | Ready                    // between API calls
    | Loaded(prev: State)      // in Close, after loading the state
    | Ceasing | Cancelling | ClosingConn | Joining
    | Joined                   // Close returned after joining the loops
    | GaveUp                   // Open failed

  datatype Loop =
    | NotStarted
    | Running
    | Failing(step: nat)       // in fail: 0 cancel, 1 close conn, 2 store Idle, 3 observed.fail
    | Exited(failed: bool)

  datatype World = World(caller: Caller, reader: Loop, keeper: Loop, trace: seq<State>,
                         heard: seq<Heard>, cancelled: bool, connClosed: bool,
                         dispatched: nat, ceases: nat, failed: bool)
  {
    function Current(): State
      requires trace != []
    {
      trace[|trace| - 1]
    }

    function Store(s: State): World { this.(trace := trace + [s]) }
  }

  const CHAIN: seq<State> := [Idle, Active, OpenSent, OpenConfirm, Established]

  datatype Action =
    | Open
    | Dial(ok: bool)
    | WriteOpen(ok: bool)
    | Hear(h: Heard, ok: bool, late: bool) // one handshake turn; !ok: cancelled or KEEPALIVE write failed
    | StartLoops
    | Close                     // the call: load the state
    | Swap                      // CompareAndSwap to Idle
    | Cease | Cancel | CloseConn | Join
    | Dispatch                  // readLoop reads an UPDATE
    | ReadFails                 // read error or hold timer expiry
    | ReadNotification
    | ReaderSeesCancel
    | Tick(ok: bool)            // keepaliveLoop writes a KEEPALIVE
    | KeeperSeesCancel
    | ReaderStep | KeeperStep   // next step of fail
    | ContextDone               // the context given to Open is cancelled

  function FailStep(w: World, step: nat): World {
    if step == 0 then w.(cancelled := true)
    else if step == 1 then w.(connClosed := true)
    else if step == 2 then w.Store(Idle)
    else w.(failed := true)
  }

  function NextFailing(step: nat): Loop { if step >= 3 then Exited(true) else Failing(step + 1) }

  function Do(w: World, a: Action): World
    requires w.trace != []
    ensures Do(w, a).trace != []
  {
    match a
    // Open: single-use, so only the first call gets anywhere
    case Open => if w.caller.Unopened? then w.Store(Active).(caller := Dialing) else w
    case Dial(ok) =>
      if !w.caller.Dialing? then w
      else if ok then w.(caller := SendingOpen) else w.Store(Idle).(caller := GaveUp)
    case WriteOpen(ok) =>
      if !w.caller.SendingOpen? then w
      else if ok then w.Store(OpenSent).(caller := Shaking(0))
      else w.(connClosed := true).Store(Idle).(caller := GaveUp)
    case Hear(h, ok, late) =>
      if !w.caller.Shaking? then w
      else
        var v := w.(heard := w.heard + [h]);
        if w.caller.n == 0 && h == AcceptableOpen && ok then
          var u := v.Store(OpenConfirm);
          if late then u.(connClosed := true).Store(Idle).(caller := GaveUp) else u.(caller := Shaking(1))
        else if w.caller.n == 1 && h == PeerKeepalive && ok then v.Store(Established).(caller := Starting)
        else v.(connClosed := true).Store(Idle).(caller := GaveUp)
    case StartLoops =>
      if w.caller.Starting? then w.(caller := Ready, reader := Running, keeper := Running) else w
    // Close
    case Close =>
      if w.caller.Ready? && w.Current() != Idle then w.(caller := Loaded(w.Current())) else w
    case Swap =>
      if !w.caller.Loaded? then w
      else if w.Current() == w.caller.prev then w.Store(Idle).(caller := Ceasing) else w.(caller := Ready)
    case Cease => if w.caller.Ceasing? then w.(ceases := w.ceases + 1, caller := Cancelling) else w
    case Cancel => if w.caller.Cancelling? then w.(cancelled := true, caller := ClosingConn) else w
    case CloseConn => if w.caller.ClosingConn? then w.(connClosed := true, caller := Joining) else w
    case Join => if w.caller.Joining? && w.reader.Exited? && w.keeper.Exited? then w.(caller := Joined) else w
    // readLoop
    case Dispatch => if w.reader.Running? then w.(dispatched := w.dispatched + 1) else w
    case ReadFails =>
      if w.reader.Running? then w.(reader := if w.cancelled then Exited(false) else Failing(0)) else w
    case ReadNotification => if w.reader.Running? then w.(reader := Failing(0)) else w
    case ReaderSeesCancel => if w.reader.Running? && w.cancelled then w.(reader := Exited(false)) else w
    case ReaderStep =>
      if w.reader.Failing? then FailStep(w, w.reader.step).(reader := NextFailing(w.reader.step)) else w
    // keepaliveLoop
    case Tick(ok) => if w.keeper.Running? && !ok then w.(keeper := Failing(0)) else w
    case KeeperSeesCancel => if w.keeper.Running? && w.cancelled then w.(keeper := Exited(false)) else w
    case KeeperStep =>
      if w.keeper.Failing? then FailStep(w, w.keeper.step).(keeper := NextFailing(w.keeper.step)) else w
    case ContextDone => w.(cancelled := true)
  }

  const INITIAL: World := World(Unopened, NotStarted, NotStarted, [Idle], [], false, false, 0, 0, false)

  function Run(actions: seq<Action>): World
    ensures Run(actions).trace != []
  {
    if actions == [] then INITIAL else Do(Run(actions[..|actions| - 1]), actions[|actions| - 1])
  }

  /** n states up the chain, then nothing but Idle. */
  ghost predicate ClimbThenIdle(trace: seq<State>, n: nat) {
    && 1 <= n <= |CHAIN| && n <= |trace|
    && trace[..n] == CHAIN[..n]
    && forall i :: n <= i < |trace| ==> trace[i] == Idle
  }

  /** How far up the chain the caller has got; 0: it gave up somewhere below the top. */
  function Height(c: Caller): nat {
    match c
    case Unopened => 1
    case Dialing | SendingOpen => 2
    case Shaking(n) => 3 + n
    case GaveUp => 0
    case _ => 5
  }

  predicate PastFail(l: Loop, step: nat) { l == Exited(true) || (l.Failing? && l.step > step) }

  ghost predicate LoopInv(w: World, l: Loop) {
    && (l.NotStarted? <==> !(Height(w.caller) == 5 && !w.caller.Starting?))
    && (l.Failing? ==> l.step <= 3)
    && (PastFail(l, 0) ==> w.cancelled)
    && (PastFail(l, 1) ==> w.connClosed)
    && (PastFail(l, 2) ==> |w.trace| > 5)
    && (l == Exited(false) ==> w.cancelled)
  }

  ghost predicate CallerInv(w: World) {
    match w.caller
    case Unopened | Dialing | SendingOpen => w.heard == []
    case Shaking(n) => n <= 1 && w.heard == [AcceptableOpen][..n]
    case GaveUp => |w.heard| <= 2 && |w.trace| > 1 && w.Current() == Idle && |w.trace| <= 5
    case Loaded(prev) => prev == Established
    case Ceasing | Cancelling => |w.trace| > 5
    case ClosingConn => |w.trace| > 5 && w.cancelled
    case Joining => |w.trace| > 5 && w.cancelled && w.connClosed
    case Joined => |w.trace| > 5 && w.cancelled && w.connClosed && w.reader.Exited? && w.keeper.Exited?
    case _ => true
  }

  ghost predicate Inv(w: World) {
    && w.trace != []
    && (exists n :: ClimbThenIdle(w.trace, n))
    && (Height(w.caller) > 0 ==> ClimbThenIdle(w.trace, Height(w.caller)))
    && (1 <= Height(w.caller) < 5 || w.caller.Starting? ==> |w.trace| == Height(w.caller))
    && (Height(w.caller) == 5 ==> w.heard == [AcceptableOpen, PeerKeepalive])
    && CallerInv(w)
    && LoopInv(w, w.reader) && LoopInv(w, w.keeper)
    && (w.dispatched > 0 ==> Height(w.caller) == 5)
    && (w.failed <==> w.reader == Exited(true) || w.keeper == Exited(true))
    && w.ceases == (if w.caller.Cancelling? || w.caller.ClosingConn? || w.caller.Joining? || w.caller.Joined? then 1 else 0)
  }

  lemma Climb(trace: seq<State>, n: nat)
    requires 1 <= n <= 4 && |trace| == n && ClimbThenIdle(trace, n)
    ensures ClimbThenIdle(trace + [CHAIN[n]], n + 1)
    ensures ClimbThenIdle(trace + [Idle], n)
  {
    assert CHAIN[..n + 1] == CHAIN[..n] + [CHAIN[n]];
  }

  lemma Drop(trace: seq<State>, n: nat)
    requires ClimbThenIdle(trace, n)
    ensures ClimbThenIdle(trace + [Idle], n)
  {
  }

  lemma OpenSteps(w: World, a: Action)
    requires Inv(w)
    requires a.Open? || a.Dial? || a.WriteOpen?
    ensures Inv(Do(w, a))
  {
    var n := Height(w.caller);
    if 1 <= n <= 2 { Climb(w.trace, n); }
  }

  lemma FirstTurn(w: World, a: Action)
    requires Inv(w) && a.Hear? && w.caller == Shaking(0)
    ensures Inv(Do(w, a))
  {
    Climb(w.trace, 3);
    var v := Do(w, a);
    if a.h == AcceptableOpen && a.ok {
      Climb(w.trace + [OpenConfirm], 4);
      assert ClimbThenIdle(v.trace, 4);
    } else {
      assert ClimbThenIdle(v.trace, 3);
    }
  }

  lemma SecondTurn(w: World, a: Action)
    requires Inv(w) && a.Hear? && w.caller == Shaking(1)
    ensures Inv(Do(w, a))
  {
    Climb(w.trace, 4);
  }

  lemma ShakeSteps(w: World, a: Action)
    requires Inv(w)
    requires a.Hear? || a.StartLoops?
    ensures Inv(Do(w, a))
  {
    if a.Hear? && w.caller == Shaking(0) {
      FirstTurn(w, a);
    } else if a.Hear? && w.caller == Shaking(1) {
      SecondTurn(w, a);
    }
  }

  lemma SwapSteps(w: World, a: Action)
    requires Inv(w)
    requires a.Close? || a.Swap?
    ensures Inv(Do(w, a))
  {
    if Height(w.caller) == 5 { Drop(w.trace, 5); }
  }

  lemma TeardownSteps(w: World, a: Action)
    requires Inv(w)
    requires a.Cease? || a.Cancel? || a.CloseConn? || a.Join? || a.ContextDone?
    ensures Inv(Do(w, a))
  {
  }

  lemma ReaderSteps(w: World, a: Action)
    requires Inv(w)
    requires a.Dispatch? || a.ReadFails? || a.ReadNotification? || a.ReaderSeesCancel? || a.ReaderStep?
    ensures Inv(Do(w, a))
  {
    if Height(w.caller) == 5 { Drop(w.trace, 5); }
  }

  lemma KeeperSteps(w: World, a: Action)
    requires Inv(w)
    requires a.Tick? || a.KeeperSeesCancel? || a.KeeperStep?
    ensures Inv(Do(w, a))
  {
    if Height(w.caller) == 5 { Drop(w.trace, 5); }
  }

  lemma {:induction false} RunInv(actions: seq<Action>)
    ensures Inv(Run(actions))
  {
    if actions == [] {
      assert ClimbThenIdle(INITIAL.trace, 1);
    } else {
      var n := |actions| - 1;
      var w, a := Run(actions[..n]), actions[n];
      RunInv(actions[..n]);
      match a
      case Open | Dial(_) | WriteOpen(_) => OpenSteps(w, a);
      case Hear(_, _, _) | StartLoops => ShakeSteps(w, a);
      case Close | Swap => SwapSteps(w, a);
      case Cease | Cancel | CloseConn | Join | ContextDone => TeardownSteps(w, a);
      case Tick(_) | KeeperSeesCancel | KeeperStep => KeeperSteps(w, a);
      case _ => ReaderSteps(w, a);
    }
  }

  /** Every run climbs Idle, Active, OpenSent, OpenConfirm, Established without skipping, may drop to
      Idle anywhere, and never leaves Idle again. */
  lemma StatesClimbThenDrop(actions: seq<Action>)
    ensures exists n :: ClimbThenIdle(Run(actions).trace, n)
  {
    RunInv(actions);
  }

  /** The handshake hears at most two messages; Established is reached only by an acceptable OPEN and
      then a KEEPALIVE; and no UPDATE is dispatched in a life that did not reach it. */
  lemma EstablishedMeansHandshake(actions: seq<Action>)
    ensures var w := Run(actions);
            && |w.heard| <= 2
            && (Established in w.trace ==> w.heard == [AcceptableOpen, PeerKeepalive])
            && (w.dispatched > 0 ==> Established in w.trace)
  {
    RunInv(actions);
    var w := Run(actions);
    if Height(w.caller) == 5 {
      assert w.trace[4] == CHAIN[..5][4];
    } else {
      var n :| ClimbThenIdle(w.trace, n) && (Height(w.caller) > 0 ==> n == Height(w.caller));
      BelowTheTop(w.trace, n);
    }
  }

  lemma BelowTheTop(trace: seq<State>, n: nat)
    requires ClimbThenIdle(trace, n) && (n < 5 || (trace[|trace| - 1] == Idle && |trace| <= 5))
    ensures Established !in trace
  {
    assert trace[n - 1] == CHAIN[..n][n - 1];
    assert forall i :: 0 <= i < n ==> trace[i] == CHAIN[..n][i];
  }

  /** Teardown: the failure that wakes waiters is recorded by a loop that failed and by nothing else,
      Close included, and only after the state is Idle and the connection closed. At most one Cease is
      sent. */
  lemma FailureComesFromLoops(actions: seq<Action>)
    ensures var w := Run(actions);
            && (w.failed <==> w.reader == Exited(true) || w.keeper == Exited(true))
            && (w.failed ==> w.Current() == Idle && w.connClosed && w.cancelled)
            && w.ceases <= 1
  {
    RunInv(actions);
  }

  /** Somebody in the middle of Close or fail cancelled the loops. */
  ghost predicate Cancelled(w: World) {
    || w.caller.ClosingConn? || w.caller.Joining? || w.caller.Joined?
    || PastFail(w.reader, 0) || PastFail(w.keeper, 0)
  }

  lemma {:induction false} CancelHasACause(actions: seq<Action>)
    requires ContextDone !in actions
    ensures Run(actions).cancelled ==> Cancelled(Run(actions))
  {
    if actions != [] {
      var n := |actions| - 1;
      CancelHasACause(actions[..n]);
      RunInv(actions[..n]);
      CancelStep(Run(actions[..n]), actions[n]);
    }
  }

  lemma CancelStep(w: World, a: Action)
    requires w.trace != [] && a != ContextDone
    requires w.caller.Starting? ==> w.reader.NotStarted? && w.keeper.NotStarted?
    requires w.cancelled ==> Cancelled(w)
    ensures Do(w, a).cancelled ==> Cancelled(Do(w, a))
  {
    if ByLoop(a) { LoopCancelStep(w, a); }
  }

  predicate ByLoop(a: Action) {
    || a.Dispatch? || a.ReadFails? || a.ReadNotification? || a.ReaderSeesCancel? || a.ReaderStep?
    || a.Tick? || a.KeeperSeesCancel? || a.KeeperStep?
  }

  lemma LoopCancelStep(w: World, a: Action)
    requires w.trace != [] && ByLoop(a)
    requires w.cancelled ==> Cancelled(w)
    ensures Do(w, a).cancelled ==> Cancelled(Do(w, a))
  {
  }

  /** While the context given to Open lives, the loops only end together with the session: once both
      have exited, the state is Idle, and unless it was Close that dropped it the failure is recorded. */
  lemma LoopsEndWithTheSession(actions: seq<Action>)
    requires ContextDone !in actions
    requires Run(actions).reader.Exited? && Run(actions).keeper.Exited?
    ensures Run(actions).Current() == Idle && (Run(actions).ceases == 0 ==> Run(actions).failed)
  {
    CancelHasACause(actions);
    RunInv(actions);
  }

  ghost predicate Up(w: World) { w.caller.Starting? || w.caller.Ready? || w.caller.Loaded? }

  /** Until a loop stores Idle or Close swaps it in, an established session stays Established; until
      somebody closes the connection, it stays open. */
  ghost predicate Stands(w: World) {
    && (1 <= Height(w.caller) < 5 || w.caller.Starting? ==> !w.connClosed)
    && (Up(w) && !PastFail(w.reader, 1) && !PastFail(w.keeper, 1) ==> !w.connClosed)
    && (Up(w) && !PastFail(w.reader, 2) && !PastFail(w.keeper, 2) ==> |w.trace| == 5)
  }

  lemma StandsStep(w: World, a: Action)
    requires Inv(w) && Stands(w)
    ensures Stands(Do(w, a))
  {
    if Height(w.caller) == 5 { assert w.trace[4] == CHAIN[..5][4]; }
    if ByLoop(a) { LoopStandsStep(w, a); }
  }

  lemma LoopStandsStep(w: World, a: Action)
    requires Inv(w) && Stands(w) && ByLoop(a)
    ensures Stands(Do(w, a))
  {
  }

  lemma {:induction false} RunStands(actions: seq<Action>)
    ensures Stands(Run(actions))
  {
    if actions != [] {
      var n := |actions| - 1;
      RunStands(actions[..n]);
      RunInv(actions[..n]);
      StandsStep(Run(actions[..n]), actions[n]);
    }
  }

  /** Between calls, with both loops at work. */
  lemma ReadyIsIntact(actions: seq<Action>)
    requires Run(actions).caller.Ready? && Run(actions).reader.Running? && Run(actions).keeper.Running?
    ensures var w := Run(actions);
            w.Current() == Established && !w.connClosed && !w.failed
  {
    RunInv(actions);
    RunStands(actions);
    assert Run(actions).trace[4] == CHAIN[..5][4];
  }

  /** When that context is cancelled instead, both loops can exit in silence: nobody is in Close, and yet
      the Peer keeps saying Established on an open connection and no failure wakes the waiters. */
  lemma CancelledContextIsSilent(actions: seq<Action>)
    requires Run(actions).caller.Ready? && Run(actions).reader.Running? && Run(actions).keeper.Running?
    ensures var w := Run(actions + [ContextDone] + [ReaderSeesCancel] + [KeeperSeesCancel]);
            && w == Run(actions).(cancelled := true, reader := Exited(false), keeper := Exited(false))
            && w.Current() == Established && !w.connClosed && !w.failed
  {
    ReadyIsIntact(actions);
    SilentExit(Run(actions));
    RunSnoc(actions, ContextDone);
    RunSnoc(actions + [ContextDone], ReaderSeesCancel);
    RunSnoc(actions + [ContextDone] + [ReaderSeesCancel], KeeperSeesCancel);
  }

  lemma SilentExit(w: World)
    requires w.trace != [] && w.reader.Running? && w.keeper.Running?
    ensures Do(Do(Do(w, ContextDone), ReaderSeesCancel), KeeperSeesCancel)
         == w.(cancelled := true, reader := Exited(false), keeper := Exited(false))
  {
  }

  const ESTABLISHING: seq<Action> :=
    [Open] + [Dial(true)] + [WriteOpen(true)] + [Hear(AcceptableOpen, true, false)]
    + [Hear(PeerKeepalive, true, false)] + [StartLoops]

  /** The shortest life that ends this way. */
  lemma SilentLife()
    ensures var w := Run(ESTABLISHING + [ContextDone] + [ReaderSeesCancel] + [KeeperSeesCancel]);
            w.reader.Exited? && w.keeper.Exited? && w.Current() == Established && !w.connClosed && !w.failed
  {
    RunSnoc([], Open);
    assert [] + [Open] == [Open];
    RunSnoc([Open], Dial(true));
    RunSnoc([Open] + [Dial(true)], WriteOpen(true));
    RunSnoc([Open] + [Dial(true)] + [WriteOpen(true)], Hear(AcceptableOpen, true, false));
    RunSnoc([Open] + [Dial(true)] + [WriteOpen(true)] + [Hear(AcceptableOpen, true, false)],
            Hear(PeerKeepalive, true, false));
    RunSnoc([Open] + [Dial(true)] + [WriteOpen(true)] + [Hear(AcceptableOpen, true, false)]
            + [Hear(PeerKeepalive, true, false)], StartLoops);
    CancelledContextIsSilent(ESTABLISHING);
  }

  lemma RunSnoc(actions: seq<Action>, a: Action)
    ensures Run(actions + [a]) == Do(Run(actions), a)
  {
    assert (actions + [a])[..|actions|] == actions;
  }

  // ----- how a session ends

  /** The reader is past the failure that ended it. */
  ghost predicate ReaderDown(w: World) { w.reader.Failing? || w.reader == Exited(true) }

  lemma DownStep(w: World, a: Action)
    requires w.trace != [] && ReaderDown(w) && AtTop(w) && !w.caller.Starting?
    ensures ReaderDown(Do(w, a)) && Do(w, a).dispatched == w.dispatched
    ensures AtTop(Do(w, a)) && !Do(w, a).caller.Starting?
  {
  }

  /** A NOTIFICATION ends the session, and so does a read that fails or the hold timer while the loops are
      not cancelled: no UPDATE is dispatched any more, whatever follows, and the reader only ever leaves
      with the failure recorded, the connection closed and the state Idle. */
  lemma {:induction false} NotificationIsFatal(actions: seq<Action>, a: Action, more: seq<Action>)
    requires Run(actions).reader.Running?
    requires a.ReadNotification? || (a.ReadFails? && !Run(actions).cancelled)
    ensures var w := Run(actions + [a] + more);
            && ReaderDown(w) && w.dispatched == Run(actions).dispatched && AtTop(w) && !w.caller.Starting?
            && (w.reader.Exited? ==> w.failed && w.connClosed && w.cancelled && w.Current() == Idle)
  {
    if more == [] {
      assert actions + [a] + more == actions + [a];
      RunSnoc(actions, a);
      RunInv(actions);
    } else {
      var init, last := more[..|more| - 1], more[|more| - 1];
      assert more == init + [last];
      NotificationIsFatal(actions, a, init);
      assert actions + [a] + more == (actions + [a] + init) + [last];
      RunSnoc(actions + [a] + init, last);
      DownStep(Run(actions + [a] + init), last);
    }
    FailureComesFromLoops(actions + [a] + more);
  }

  /** It does end: the reader's own next steps are enough, and so are the keeper's after a KEEPALIVE that
      could not be written. */
  lemma FailureRunsThrough(w: World)
    requires w.trace != []
    ensures w.reader == Failing(0) ==>
              Do(Do(Do(Do(w, ReaderStep), ReaderStep), ReaderStep), ReaderStep)
              == w.(cancelled := true, connClosed := true, trace := w.trace + [Idle], failed := true,
                    reader := Exited(true))
    ensures w.keeper.Running? ==>
              Do(Do(Do(Do(Do(w, Tick(false)), KeeperStep), KeeperStep), KeeperStep), KeeperStep)
              == w.(cancelled := true, connClosed := true, trace := w.trace + [Idle], failed := true,
                    keeper := Exited(true))
  {
  }

  /** A Close between calls, with both loops at work, can run through: one Cease, Idle, and it returns once
      the loops have seen the cancellation. */
  lemma CloseRunsThrough(actions: seq<Action>)
    requires Run(actions).caller.Ready? && Run(actions).reader.Running? && Run(actions).keeper.Running?
    ensures var w := Run(actions);
            var closed := Do(Do(Do(Do(Do(w, Close), Swap), Cease), Cancel), CloseConn);
            Do(Do(Do(closed, ReaderSeesCancel), KeeperSeesCancel), Join)
            == w.(caller := Joined, reader := Exited(false), keeper := Exited(false), trace := w.trace + [Idle],
                  ceases := w.ceases + 1, cancelled := true, connClosed := true)
  {
    ReadyIsIntact(actions);
    CloseDrops(Run(actions));
    LoopsLeave(Run(actions).(caller := Joining, trace := Run(actions).trace + [Idle],
                             ceases := Run(actions).ceases + 1, cancelled := true, connClosed := true));
  }

  lemma CloseDrops(w: World)
    requires w.trace != [] && w.caller.Ready? && w.Current() == Established
    ensures Do(Do(Do(Do(Do(w, Close), Swap), Cease), Cancel), CloseConn)
         == w.(caller := Joining, trace := w.trace + [Idle], ceases := w.ceases + 1, cancelled := true,
               connClosed := true)
  {
    var w1 := w.(caller := Loaded(Established));
    var w2 := w.(caller := Ceasing, trace := w.trace + [Idle]);
    assert Do(w, Close) == w1;
    assert Do(w1, Swap) == w2;
    assert Do(w2, Cease) == w2.(caller := Cancelling, ceases := w.ceases + 1);
  }

  lemma LoopsLeave(w: World)
    requires w.trace != [] && w.caller.Joining? && w.cancelled && w.reader.Running? && w.keeper.Running?
    ensures Do(Do(Do(w, ReaderSeesCancel), KeeperSeesCancel), Join)
         == w.(caller := Joined, reader := Exited(false), keeper := Exited(false))
  {
  }

  /** A Close that dropped the session has sent one Cease, cancelled the loops, closed the connection and
      waited for both loops. */
  lemma CloseTearsDown(actions: seq<Action>)
    requires Run(actions).caller.Joined?
    ensures var w := Run(actions);
            && w.ceases == 1 && w.Current() == Idle && w.cancelled && w.connClosed
            && w.reader.Exited? && w.keeper.Exited?
  {
    RunInv(actions);
  }

  // ----- the calls of Fsm.dfy as runs

  /** How handshake judges what it reads. */
  ghost function Judged(cfg: M.Config, read: F.Incoming): Heard {
    match read
    case GotOpen(m) => if F.Verdict(cfg, m) == None then AcceptableOpen else AnythingElse
    case GotKeepalive => PeerKeepalive
    case _ => AnythingElse
  }

  ghost function TurnAction(cfg: M.Config, turn: F.Turn): Action {
    Hear(Judged(cfg, turn.read), !turn.cancelled && (turn.read.GotOpen? ==> turn.writeOk), turn.late)
  }

  /** One call of Open. Steps that a failed call never gets to change nothing. */
  ghost function OpenActions(cfg: M.Config, dialOk: bool, writeOk: bool, env: nat -> F.Turn): seq<Action> {
    [Open] + [Dial(dialOk)] + [WriteOpen(M.OpenOf(cfg).Ok? && writeOk)]
    + [TurnAction(cfg, env(0))] + [TurnAction(cfg, env(1))]
  }

  /** The first steps of Open, up to our OPEN on the wire. */
  lemma ConnectIsARun(dialOk: bool, writeOk: bool)
    ensures var w := Run([Open] + [Dial(dialOk)] + [WriteOpen(writeOk)]);
            if dialOk && writeOk then w == INITIAL.(caller := Shaking(0), trace := [Idle, Active, OpenSent])
            else w.caller == GaveUp && w.trace == [Idle, Active, Idle] && w.dispatched == 0
  {
    RunSnoc([], Open);
    assert [] + [Open] == [Open];
    RunSnoc([Open], Dial(dialOk));
    RunSnoc([Open] + [Dial(dialOk)], WriteOpen(writeOk));
  }

  lemma TurnsAreARun(cfg: M.Config, env: nat -> F.Turn)
    requires M.OpenOf(cfg).Ok?
    ensures var w0 := INITIAL.(caller := Shaking(0), trace := [Idle, Active, OpenSent]);
            var w := Do(Do(w0, TurnAction(cfg, env(0))), TurnAction(cfg, env(1)));
            && w.trace == [Idle] + F.OpenTrace(cfg, true, true, env)
            && w.caller == (if F.Refusal(cfg, env) == None then Starting else GaveUp)
            && w.dispatched == 0
  {
    var w0 := INITIAL.(caller := Shaking(0), trace := [Idle, Active, OpenSent]);
    var w1 := Do(w0, TurnAction(cfg, env(0)));
    if F.Confirms(cfg, env(0)) {
      assert w1.trace == [Idle, Active, OpenSent, OpenConfirm] + (if env(0).late then [Idle] else []);
    } else {
      assert w1.caller == GaveUp && w1.trace == [Idle, Active, OpenSent, Idle];
    }
  }

  /** The run a call of Open stands for stores exactly the states that Fsm.Open is proved to store, and
      reaches the top exactly when that call succeeds. */
  lemma OpenIsARun(cfg: M.Config, dialOk: bool, writeOk: bool, env: nat -> F.Turn)
    ensures var w := Run(OpenActions(cfg, dialOk, writeOk, env));
            && w.trace == [Idle] + F.OpenTrace(cfg, dialOk, writeOk, env)
            && w.caller == (if F.OpenRefusal(cfg, dialOk, writeOk, env) == None then Starting else GaveUp)
            && w.dispatched == 0
  {
    var sent := M.OpenOf(cfg).Ok? && writeOk;
    var start := [Open] + [Dial(dialOk)] + [WriteOpen(sent)];
    ConnectIsARun(dialOk, sent);
    var w := Run(start);
    var h0, h1 := TurnAction(cfg, env(0)), TurnAction(cfg, env(1));
    RunSnoc(start, h0);
    RunSnoc(start + [h0], h1);
    if dialOk && sent {
      TurnsAreARun(cfg, env);
    } else {
      assert Do(w, h0) == w && Do(w, h1) == w;
    }
  }

  /** A life in which Open failed stays as it is, whatever follows. */
  lemma {:induction false} GaveUpStays(actions: seq<Action>, more: seq<Action>)
    requires Run(actions).caller.GaveUp?
    ensures Run(actions + more).(cancelled := Run(actions).cancelled) == Run(actions)
  {
    if more == [] {
      assert actions + more == actions;
    } else {
      var n := |more| - 1;
      GaveUpStays(actions, more[..n]);
      GaveUpHasNoLoops(actions);
      GaveUpStep(Run(actions + more[..n]), more[n]);
      assert (actions + more)[..|actions + more| - 1] == actions + more[..n];
    }
  }

  lemma GaveUpHasNoLoops(actions: seq<Action>)
    requires Run(actions).caller.GaveUp?
    ensures Run(actions).reader.NotStarted? && Run(actions).keeper.NotStarted?
  {
    RunInv(actions);
  }

  lemma GaveUpStep(w: World, a: Action)
    requires w.trace != [] && w.caller.GaveUp? && w.reader.NotStarted? && w.keeper.NotStarted?
    ensures Do(w, a) == if a.ContextDone? then w.(cancelled := true) else w
  {
  }

  predicate AtTop(w: World) { Height(w.caller) == 5 && !w.caller.Shaking? }

  lemma TopStep(w: World, a: Action)
    requires w.trace != [] && AtTop(w)
    ensures AtTop(Do(w, a))
  {
  }

  lemma {:induction false} TopStays(actions: seq<Action>, more: seq<Action>)
    requires AtTop(Run(actions))
    ensures Established in Run(actions + more).trace && AtTop(Run(actions + more))
  {
    if more == [] {
      assert actions + more == actions;
    } else {
      var n := |more| - 1;
      TopStays(actions, more[..n]);
      TopStep(Run(actions + more[..n]), more[n]);
      assert (actions + more)[..|actions + more| - 1] == actions + more[..n];
    }
    TopIsEstablished(actions + more);
  }

  lemma TopIsEstablished(actions: seq<Action>)
    requires AtTop(Run(actions))
    ensures Established in Run(actions).trace
  {
    RunInv(actions);
    assert Run(actions).trace[4] == CHAIN[..5][4];
  }

  /** Over the whole life that begins with a call of Open, whatever the caller, the loops and the peer do
      afterwards: Established is ever stored exactly when the peer sent an OPEN that passes
      acceptPeerOpen and then a KEEPALIVE, in time; and UPDATEs are dispatched in no other life. */
  lemma OnlyAcceptedPeersEstablish(cfg: M.Config, dialOk: bool, writeOk: bool, env: nat -> F.Turn, more: seq<Action>)
    ensures var w := Run(OpenActions(cfg, dialOk, writeOk, env) + more);
            && (Established in w.trace <==> dialOk && M.OpenOf(cfg).Ok? && writeOk && F.Establishes(cfg, env))
            && (w.dispatched > 0 ==> F.Establishes(cfg, env))
  {
    var opening := OpenActions(cfg, dialOk, writeOk, env);
    OpenIsARun(cfg, dialOk, writeOk, env);
    if F.OpenRefusal(cfg, dialOk, writeOk, env).Some? {
      GaveUpStays(opening, more);
    } else {
      TopStays(opening, more);
    }
  }

  /** A Close that joined the loops is final: whatever is tried afterwards changes nothing. */
  lemma {:induction false} JoinedIsFinal(actions: seq<Action>, more: seq<Action>)
    requires Run(actions).caller.Joined?
    ensures Run(actions + more) == Run(actions)
  {
    if more == [] {
      assert actions + more == actions;
    } else {
      var n := |more| - 1;
      JoinedIsFinal(actions, more[..n]);
      RunInv(actions);
      assert (actions + more)[..|actions + more| - 1] == actions + more[..n];
    }
  }
}
