/**
 internal/peer/recv.go in its own form: the observed set and its waiters as objects that the
 locked sections update in place. Each method is one critical section; its postcondition is the
 transition of ObservedState.dfy, whose meaning over whole runs is proved in ObservedRuns.dfy
 and RefreshRuns.dfy.
 */
module ObservedSet {
  import opened Outcomes
  import opened History
  import opened Nlri
  import State = ObservedState

  type Family = State.Family

  class Waiter {
    var want: set<Key>
    var pending: set<Key>
    var onlyAfter: Time
    var first: Time
    var last: Time
    var onceFired: bool // doneOnce
    var closed: bool    // the done channel
    ghost var born: nat // events recorded before registration

    /** Closing a closed channel panics: the latch closes exactly when the once has fired. */
    ghost predicate Valid() reads this { closed == onceFired }

    ghost function View(): State.WaiterState reads this {
      State.WaiterState(want, pending, onlyAfter, first, last, closed, born)
    }

    constructor (onlyAfter: Time, ghost born: nat)
      ensures Valid() && View() == State.WaiterState({}, {}, onlyAfter, 0, 0, false, born)
    {
      want, pending, first, last := {}, {}, 0, 0;
      this.onlyAfter, this.born := onlyAfter, born;
      onceFired, closed := false, false;
    }

    method MarkDone()
      requires Valid()
      modifies this`onceFired, this`closed
      ensures Valid() && View() == old(View()).(done := true)
    {
      if !onceFired {
        assert !closed;
        closed := true;
        onceFired := true;
      }
    }
  
    /** Body of notifyReach's loop. */
    method NoteReach(key: Key, fs: Time, ts: Time)
      requires Valid()
      modifies this`pending, this`first, this`last, this`onceFired, this`closed
      ensures Valid() && View() == old(View()).OnReach(key, fs, ts)
    {
      if key !in want { return; }
      if onlyAfter != 0 && fs < onlyAfter { return; }
      if key in pending {
        pending := pending - {key};
        if first == 0 || fs < first { first := fs; }
      }
      if last == 0 || last < ts { last := ts; }
      if pending == {} { MarkDone(); }
    }

    /** Body of notifyWithdraw's loop. */
    method NoteWithdraw(key: Key)
      requires Valid()
      modifies this`pending
      ensures Valid() && View() == old(View()).OnWithdraw(key)
    {
      if key !in want { return; }
      pending := pending + {key};
    }
  }

  class RefreshWaiter {
    const family: Family
    const after: Time
    var ts: Time
    var onceFired: bool
    var closed: bool

    ghost predicate Valid() reads this { closed == onceFired }

    ghost function View(): State.RefreshWaiterState reads this {
      State.RefreshWaiterState(family, after, ts, closed)
    }

    constructor (family: Family, after: Time)
      ensures Valid() && View() == State.RefreshWaiterState(family, after, 0, false)
    {
      this.family, this.after, ts := family, after, 0;
      onceFired, closed := false, false;
    }

    method MarkDone()
      requires Valid()
      modifies this`onceFired, this`closed
      ensures Valid() && View() == old(View()).(done := true)
    {
      if !onceFired {
        assert !closed;
        closed := true;
        onceFired := true;
      }
    }
  
    /** Body of applyRouteRefresh's loop. */
    method NoteEoRR(fam: Family, t: Time)
      requires Valid()
      modifies this`ts, this`onceFired, this`closed
      ensures Valid() && View() == old(View()).OnEoRR(fam, t)
    {
      if family != fam { return; }
      if after != 0 && t < after { return; }
      ts := t;
      MarkDone();
    }
  }

  datatype WaitResult = WaitResult(matched: int, missing: seq<Key>, firstSeen: Time, lastSeen: Time)

  ghost predicate Distinct<T>(ws: seq<T>) { forall i, j :: 0 <= i < j < |ws| ==> ws[i] != ws[j] }

  /** The linked waiters, in order, are in the states vs. */
  ghost predicate Linked(ws: seq<Waiter>, vs: seq<State.WaiterState>)
    reads ws
  {
    && |ws| == |vs| && Distinct(ws)
    && forall i :: 0 <= i < |ws| ==> ws[i].Valid() && ws[i].View() == vs[i]
  }

  ghost predicate RefreshLinked(ws: seq<RefreshWaiter>, vs: seq<State.RefreshWaiterState>)
    reads ws
  {
    && |ws| == |vs| && Distinct(ws)
    && forall i :: 0 <= i < |ws| ==> ws[i].Valid() && ws[i].View() == vs[i]
  }

  /** Position of the waiter a deregistration removes; past the end for one never linked. */
  ghost function Position<T>(ws: seq<T>, w: T): (r: nat)
    ensures r <= |ws| && (r < |ws| ==> ws[r] == w) && (w in ws ==> r < |ws|)
  {
    if ws == [] then 0 else if ws[0] == w then 0 else 1 + Position(ws[1..], w)
  }

  lemma {:induction false} PositionUnique<T>(ws: seq<T>, w: T, i: nat)
    requires i < |ws| && ws[i] == w && w !in ws[..i]
    ensures Position(ws, w) == i
  {
    if i > 0 {
      assert ws[0] in ws[..i];
      assert ws[1..][..i - 1] == ws[..i][1..];
      PositionUnique(ws[1..], w, i - 1);
    }
  }

  /** A map's keys in some iteration order. */
  method Listed(keys: set<Key>) returns (out: seq<Key>)
    ensures |out| == |keys| && Distinct(out) && forall k :: k in out <==> k in keys
  {
    out := [];
    var rest := keys;
    while rest != {}
      invariant rest <= keys && |out| + |rest| == |keys|
      invariant forall k :: k in out <==> k in keys - rest
      invariant Distinct(out)
      decreases rest
    {
      var k :| k in rest;
      assert k !in out;
      rest := rest - {k};
      out := out + [k];
    }
  }

  class ObservedSet<E> {
    var failedErr: Option<E>
    var firstSeen: map<Key, Time>
    var withdrawn: set<Key>
    var updateSeq: nat
    var advertiseN: nat
    var withdrawN: nat
    var lastUpdateAt: Time
    var firstUpdate: Time
    var waiters: seq<Waiter>
    var routeRefreshN: nat
    var borrN: nat
    var eorrN: nat
    var lastEoRR: map<Family, Time>
    var refreshWaiters: seq<RefreshWaiter>

    /** The abstract state; Valid ties every field to it. */
    ghost var state: State.State<E>

    ghost predicate FieldsMatch()
      reads this
    {
      state == State.State(failedErr, firstSeen, withdrawn, updateSeq, advertiseN, withdrawN, lastUpdateAt,
                           firstUpdate, state.waiters, routeRefreshN, borrN, eorrN, lastEoRR,
                           state.refreshWaiters)
    }

    ghost predicate Valid()
      reads this, waiters, refreshWaiters
    {
      && FieldsMatch()
      && Linked(waiters, state.waiters)
      && RefreshLinked(refreshWaiters, state.refreshWaiters)
    }

    constructor ()
      ensures Valid() && state == State.Initial()
    {
      failedErr, firstSeen, withdrawn := None, map[], {};
      updateSeq, advertiseN, withdrawN, lastUpdateAt, firstUpdate := 0, 0, 0, 0, 0;
      waiters, refreshWaiters := [], [];
      routeRefreshN, borrN, eorrN, lastEoRR := 0, 0, 0, map[];
      state := State.Initial();
    }

    method NotifyReach(key: Key, fs: Time, ts: Time, ghost vs: seq<State.WaiterState>)
      requires Linked(waiters, vs)
      modifies waiters
      ensures Linked(waiters, State.NotifyReach(vs, key, fs, ts))
    {
      for n := 0 to |waiters|
        invariant forall i :: 0 <= i < |waiters| ==> waiters[i].Valid()
        invariant forall i :: 0 <= i < |waiters| ==>
                    waiters[i].View() == if i < n then vs[i].OnReach(key, fs, ts) else vs[i]
      {
        waiters[n].NoteReach(key, fs, ts);
      }
    }

    method NotifyWithdraw(key: Key, ghost vs: seq<State.WaiterState>)
      requires Linked(waiters, vs)
      modifies waiters
      ensures Linked(waiters, State.NotifyWithdraw(vs, key))
    {
      for n := 0 to |waiters|
        invariant forall i :: 0 <= i < |waiters| ==> waiters[i].Valid()
        invariant forall i :: 0 <= i < |waiters| ==>
                    waiters[i].View() == if i < n then vs[i].OnWithdraw(key) else vs[i]
      {
        waiters[n].NoteWithdraw(key);
      }
    }

    /** Body of the reach loop. */
    method ReachKey(key: Key, ts: Time)
      requires Valid()
      modifies this`firstSeen, this`withdrawn, this`advertiseN, this`state, waiters
      ensures Valid() && state == old(state).ReachOne(ts, key)
    {
      var fs := ts;
      if key in firstSeen {
        fs := firstSeen[key];
      } else {
        firstSeen := firstSeen[key := ts];
      }
      withdrawn := withdrawn - {key};
      advertiseN := advertiseN + 1;
      NotifyReach(key, fs, ts, state.waiters);
      assert firstSeen == state.firstSeen[key := fs];
      state := state.ReachOne(ts, key);
    }

    /** Body of the unreach loop. */
    method WithdrawKey(key: Key)
      requires Valid()
      modifies this`withdrawn, this`withdrawN, this`state, waiters
      ensures Valid() && state == old(state).WithdrawOne(key)
    {
      withdrawn := withdrawn + {key};
      withdrawN := withdrawN + 1;
      NotifyWithdraw(key, state.waiters);
      state := state.WithdrawOne(key);
    }

    /** The reach loop. */
    method ReachLoop(addPath: bool, ts: Time, reach: seq<PathNlri>)
      requires Valid()
      modifies this`firstSeen, this`withdrawn, this`advertiseN, this`state, waiters
      ensures Valid() && state == old(state).ReachAll(ts, KeysOf(addPath, reach))
    {
      ghost var s0, ks := state, KeysOf(addPath, reach);
      for i := 0 to |reach|
        invariant Valid() && state == s0.ReachAll(ts, ks[..i])
      {
        assert ks[..i + 1][..i] == ks[..i];
        ReachKey(KeyOf(addPath, reach[i]), ts);
      }
      assert ks[..|reach|] == ks;
    }

    /** The unreach loop. */
    method WithdrawLoop(addPath: bool, unreach: seq<PathNlri>)
      requires Valid()
      modifies this`withdrawn, this`withdrawN, this`state, waiters
      ensures Valid() && state == old(state).WithdrawAll(KeysOf(addPath, unreach))
    {
      ghost var s0, ks := state, KeysOf(addPath, unreach);
      for i := 0 to |unreach|
        invariant Valid() && state == s0.WithdrawAll(ks[..i])
      {
        assert ks[..i + 1][..i] == ks[..i];
        WithdrawKey(KeyOf(addPath, unreach[i]));
      }
      assert ks[..|unreach|] == ks;
    }

    method ApplyUpdate(addPath: bool, ts: Time, reach: seq<PathNlri>, unreach: seq<PathNlri>)
      requires Valid()
      modifies this, waiters
      ensures Valid() && waiters == old(waiters) && refreshWaiters == old(refreshWaiters)
      ensures state == old(state).Update(ts, KeysOf(addPath, reach), KeysOf(addPath, unreach))
    {
      updateSeq := updateSeq + 1;
      if firstUpdate == 0 { firstUpdate := ts; }
      lastUpdateAt := ts;
      state := state.Touch(ts);
      ReachLoop(addPath, ts, reach);
      WithdrawLoop(addPath, unreach);
    }

    /** Body of the registration loop. */
    method Admit(w: Waiter, key: Key)
      requires FieldsMatch() && w.Valid()
      modifies w
      ensures w.Valid() && w.View() == state.Admit(old(w.View()), key) && w.closed == old(w.closed)
    {
      w.want := w.want + {key};
      if key in firstSeen && key !in withdrawn && (w.onlyAfter == 0 || w.onlyAfter <= firstSeen[key]) {
        var fs := firstSeen[key];
        if w.first == 0 || fs < w.first { w.first := fs; }
        if w.last == 0 || w.last < fs { w.last := fs; }
      } else {
        w.pending := w.pending + {key};
      }
    }

    /** The registration loop, on a waiter nobody else can see yet. */
    method NewWaiter(want: seq<Key>, onlyAfter: Time) returns (w: Waiter)
      requires FieldsMatch()
      ensures fresh(w) && w.Valid() && w.View() == state.AdmitAll(want, onlyAfter) && !w.closed
    {
      w := new Waiter(onlyAfter, advertiseN + withdrawN);
      for n := 0 to |want|
        invariant w.Valid() && w.View() == state.AdmitAll(want[..n], onlyAfter) && !w.closed
      {
        assert want[..n + 1][..n] == want[..n];
        Admit(w, want[n]);
      }
      assert want[..|want|] == want;
    }

    method RegisterWaiter(want: seq<Key>, onlyAfter: Time) returns (w: Waiter)
      requires Valid()
      modifies this`waiters, this`state
      ensures Valid() && fresh(w)
      ensures state == old(state).Register(want, onlyAfter)
      ensures w.View() == old(state).Registered(want, onlyAfter)
      ensures waiters == if old(state).Links(want, onlyAfter) then old(waiters) + [w] else old(waiters)
    {
      w := NewWaiter(want, onlyAfter);
      ghost var v := state.AdmitAll(want, onlyAfter);
      assert w.pending == v.pending && !v.done;
      if w.pending == {} || failedErr.Some? {
        w.MarkDone();
      } else {
        waiters := waiters + [w];
        assert w.View() == state.Registered(want, onlyAfter);
      }
      state := state.Register(want, onlyAfter);
    }

    method DeregisterWaiter(w: Waiter)
      requires Valid()
      modifies this`waiters, this`state
      ensures Valid() && w !in waiters
      ensures state == old(state).Deregister(Position(old(waiters), w))
    {
      var i := 0;
      while i < |waiters| && waiters[i] != w
        modifies {}
        invariant i <= |waiters| && w !in waiters[..i]
      {
        i := i + 1;
      }
      if i < |waiters| {
        PositionUnique(waiters, w, i);
        waiters := waiters[..i] + waiters[i + 1..];
      }
      state := state.Deregister(i);
    }

    method Fail(err: E)
      requires Valid()
      modifies this`failedErr, this`state, waiters, refreshWaiters
      ensures Valid() && state == old(state).Fail(err)
    {
      if failedErr.None? { failedErr := Some(err); }
      ReleaseWaiters(state.waiters);
      ReleaseRefreshWaiters(state.refreshWaiters);
      state := state.Fail(err);
    }

    /** First loop of fail. */
    method ReleaseWaiters(ghost vs: seq<State.WaiterState>)
      requires Linked(waiters, vs)
      modifies waiters
      ensures Linked(waiters, seq(|vs|, i requires 0 <= i < |vs| => vs[i].(done := true)))
    {
      for n := 0 to |waiters|
        invariant forall i :: 0 <= i < |waiters| ==> waiters[i].Valid()
        invariant forall i :: 0 <= i < |waiters| ==>
                    waiters[i].View() == if i < n then vs[i].(done := true) else vs[i]
      {
        waiters[n].MarkDone();
      }
    }

    /** Second loop of fail. */
    method ReleaseRefreshWaiters(ghost vs: seq<State.RefreshWaiterState>)
      requires RefreshLinked(refreshWaiters, vs)
      modifies refreshWaiters
      ensures RefreshLinked(refreshWaiters, seq(|vs|, i requires 0 <= i < |vs| => vs[i].(done := true)))
    {
      for n := 0 to |refreshWaiters|
        invariant forall i :: 0 <= i < |refreshWaiters| ==> refreshWaiters[i].Valid()
        invariant forall i :: 0 <= i < |refreshWaiters| ==>
                    refreshWaiters[i].View() == if i < n then vs[i].(done := true) else vs[i]
      {
        refreshWaiters[n].MarkDone();
      }
    }

    /** The locked read that ends WaitForPrefixes, for a linked or an unlinked waiter alike. */
    method FinalRead(w: Waiter) returns (res: WaitResult, err: Option<State.WaitError<E>>)
      ensures err == State.WaitOutcome(w.View(), failedErr)
      ensures res.matched + |res.missing| == |w.want| && Distinct(res.missing)
      ensures forall k :: k in res.missing <==> k in w.pending
      ensures res.firstSeen == w.first && res.lastSeen == w.last
    {
      var missing := Listed(w.pending);
      res := WaitResult(|w.want| - |missing|, missing, w.first, w.last);
      err := None;
      if |missing| > 0 {
        err := Some(if failedErr.Some? then State.SessionDown(failedErr.value) else State.TimedOut);
      }
    }

    /** The loop of an EoRR. */
    method NotifyEoRR(fam: Family, ts: Time, ghost vs: seq<State.RefreshWaiterState>)
      requires RefreshLinked(refreshWaiters, vs)
      modifies refreshWaiters
      ensures RefreshLinked(refreshWaiters, State.NotifyEoRR(vs, fam, ts))
    {
      for n := 0 to |refreshWaiters|
        invariant forall i :: 0 <= i < |refreshWaiters| ==> refreshWaiters[i].Valid()
        invariant forall i :: 0 <= i < |refreshWaiters| ==>
                    refreshWaiters[i].View() == if i < n then vs[i].OnEoRR(fam, ts) else vs[i]
      {
        refreshWaiters[n].NoteEoRR(fam, ts);
      }
    }

    method ApplyRouteRefresh(fam: Family, demarcation: nat, enhanced: bool, ts: Time)
      requires Valid()
      modifies this`routeRefreshN, this`borrN, this`eorrN, this`lastEoRR, this`state, refreshWaiters
      ensures Valid() && state == old(state).RouteRefresh(fam, demarcation, enhanced, ts)
    {
      if !enhanced {
        routeRefreshN := routeRefreshN + 1;
      } else if demarcation == State.BORR {
        borrN := borrN + 1;
      } else if demarcation == State.EORR {
        eorrN := eorrN + 1;
        lastEoRR := lastEoRR[fam := ts];
        NotifyEoRR(fam, ts, state.refreshWaiters);
      } else {
        routeRefreshN := routeRefreshN + 1;
      }
      state := state.RouteRefresh(fam, demarcation, enhanced, ts);
    }

    method RegisterRefreshWaiter(fam: Family, after: Time) returns (w: RefreshWaiter)
      requires Valid()
      modifies this`refreshWaiters, this`state
      ensures Valid() && fresh(w)
      ensures state == old(state).RegisterRefresh(fam, after)
      ensures w.View() == old(state).RefreshRegistered(fam, after)
    {
      w := new RefreshWaiter(fam, after);
      if fam in lastEoRR && (w.after == 0 || w.after <= lastEoRR[fam]) {
        w.ts := lastEoRR[fam];
        w.MarkDone();
      } else if failedErr.Some? {
        w.MarkDone();
      } else {
        refreshWaiters := refreshWaiters + [w];
      }
      state := state.RegisterRefresh(fam, after);
    }

    method DeregisterRefreshWaiter(w: RefreshWaiter)
      requires Valid()
      modifies this`refreshWaiters, this`state
      ensures Valid() && w !in refreshWaiters
      ensures state == old(state).DeregisterRefresh(Position(old(refreshWaiters), w))
    {
      var i := 0;
      while i < |refreshWaiters| && refreshWaiters[i] != w
        modifies {}
        invariant i <= |refreshWaiters| && w !in refreshWaiters[..i]
      {
        i := i + 1;
      }
      if i < |refreshWaiters| {
        PositionUnique(refreshWaiters, w, i);
        refreshWaiters := refreshWaiters[..i] + refreshWaiters[i + 1..];
      }
      state := state.DeregisterRefresh(i);
    }
  }
}
