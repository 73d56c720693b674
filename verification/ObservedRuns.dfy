/**
 Whole runs of the observed set: any mix of UPDATEs, refreshes, registrations, removals
 and failures, over any number of waiters. Every theorem compares the incremental state
 with a question about the events the run has delivered.
 */
module ObservedRuns {
  import opened Outcomes
  import opened History
  import opened ObservedState

  datatype Op<E> =
    | Update(ts: Time, reach: seq<Key>, unreach: seq<Key>)
    | Register(want: seq<Key>, onlyAfter: Time)
    | Deregister(i: nat)
    | Fail(err: E)
    | Refresh(fam: Family, demarcation: nat, at: Time)
    | RegisterRefresh(family: Family, after: Time)
    | DeregisterRefresh(j: nat)

  function Step<E>(s: State<E>, enhanced: bool, op: Op<E>): State<E> {
    match op
    case Update(ts, reach, unreach) => s.Update(ts, reach, unreach)
    case Register(want, onlyAfter) => s.Register(want, onlyAfter)
    case Deregister(i) => s.Deregister(i)
    case Fail(err) => s.Fail(err)
    case Refresh(fam, demarcation, at) => s.RouteRefresh(fam, demarcation, enhanced, at)
    case RegisterRefresh(fam, after) => s.RegisterRefresh(fam, after)
    case DeregisterRefresh(j) => s.DeregisterRefresh(j)
  }

  function Run<E>(enhanced: bool, ops: seq<Op<E>>): State<E> {
    if ops == [] then Initial()
    else Step(Run(enhanced, ops[..|ops| - 1]), enhanced, ops[|ops| - 1])
  }

  // ----- what a run delivered

  function Reaches(ts: Time, keys: seq<Key>): seq<Event> {
    seq(|keys|, i requires 0 <= i < |keys| => Reach(keys[i], ts))
  }

  function Unreaches(keys: seq<Key>): seq<Event> {
    seq(|keys|, i requires 0 <= i < |keys| => Unreach(keys[i]))
  }

  function Events<E>(op: Op<E>): seq<Event> {
    if op.Update? then Reaches(op.ts, op.reach) + Unreaches(op.unreach) else []
  }

  function Delivered<E>(ops: seq<Op<E>>): seq<Event> {
    if ops == [] then [] else Delivered(ops[..|ops| - 1]) + Events(ops[|ops| - 1])
  }

  // ----- the invariant

  /** first is the least, last the greatest of the observations the waiter has to report. */
  ghost predicate Window(w: WaiterState, h: seq<Event>)
    requires w.born <= |h|
  {
    && (forall k :: Counted(h, w.born, w.want, w.onlyAfter, k) ==>
                      w.first != 0 && w.first <= Earliest(h, k).value)
    && (w.first != 0 ==> exists k :: Counted(h, w.born, w.want, w.onlyAfter, k)
                                     && Earliest(h, k) == Some(w.first))
    && (forall t: Time :: Sample(h, w.born, w.want, w.onlyAfter, t) ==> t != 0 && t <= w.last)
    && (w.last != 0 ==> Sample(h, w.born, w.want, w.onlyAfter, w.last))
    && (forall k :: k in w.want - w.pending ==> Counted(h, w.born, w.want, w.onlyAfter, k))
  }

  ghost predicate ViewInv(w: WaiterState, h: seq<Event>) {
    && w.born <= |h|
    && w.pending == Unmet(h, w.want, w.onlyAfter)
    && (Positive(h) ==> Window(w, h))
  }

  ghost predicate LatchInv(w: WaiterState, h: seq<Event>, failed: bool) {
    w.done <==> failed || MetSince(h, w.born, w.want, w.onlyAfter)
  }

  ghost predicate WaiterInv(w: WaiterState, h: seq<Event>, failed: bool) {
    ViewInv(w, h) && LatchInv(w, h, failed)
  }

  ghost predicate MapsInv<E>(s: State<E>, h: seq<Event>) {
    && (forall k :: k in s.firstSeen <==> Earliest(h, k).Some?)
    && (forall k :: k in s.firstSeen ==> Earliest(h, k) == Some(s.firstSeen[k]))
    && (forall k :: k in s.withdrawn <==> Latest(h, k) == Some(Unreach(k)))
    && s.advertiseN + s.withdrawN == |h|
  }

  ghost predicate Inv<E>(s: State<E>, h: seq<Event>) {
    && MapsInv(s, h)
    && forall i :: 0 <= i < |s.waiters| ==> WaiterInv(s.waiters[i], h, s.failed.Some?)
  }

  /** A reached key has a latest event, which is its last reach or its last unreach. */
  lemma {:induction false} LatestOfReached(h: seq<Event>, k: Key)
    ensures Latest(h, k).Some? ==> Latest(h, k).value.key == k
    ensures Earliest(h, k).Some? ==> Latest(h, k).Some?
  {
    if h != [] && h[|h| - 1].key != k {
      LatestOfReached(h[..|h| - 1], k);
      EarliestSnoc(h[..|h| - 1], h[|h| - 1], k);
      assert h == h[..|h| - 1] + [h[|h| - 1]];
    }
  }

  lemma WaiterReach(w: WaiterState, h: seq<Event>, failed: bool, key: Key, fs: Time, ts: Time)
    requires WaiterInv(w, h, failed)
    requires Earliest(h + [Reach(key, ts)], key) == Some(fs)
    ensures WaiterInv(w.OnReach(key, fs, ts), h + [Reach(key, ts)], failed)
  {
    var e := Reach(key, ts);
    var g := h + [e];
    var v := w.OnReach(key, fs, ts);
    Snoc(h, e);
    assert v.pending == Unmet(g, w.want, w.onlyAfter);
    MetSinceSnoc(h, e, w.born, w.want, w.onlyAfter);
    assert LatchInv(v, g, failed) by {
      if !(key in w.want && Fresh(g, key, w.onlyAfter)) {
        assert Unmet(g, w.want, w.onlyAfter) == w.pending;
        if w.pending == {} {
          assert h[..|h|] == h;
          assert AllMetAt(h, |h|, w.want, w.onlyAfter);
        }
      }
    }
    if Positive(g) { WindowReach(w, h, key, fs, ts); }
  }

  lemma WindowReach(w: WaiterState, h: seq<Event>, key: Key, fs: Time, ts: Time)
    requires ViewInv(w, h)
    requires Positive(h + [Reach(key, ts)])
    requires Earliest(h + [Reach(key, ts)], key) == Some(fs)
    ensures Window(w.OnReach(key, fs, ts), h + [Reach(key, ts)])
  {
    var e := Reach(key, ts);
    var g := h + [e];
    assert g[|h|] == e;
    assert Positive(h) by { assert forall i :: 0 <= i < |h| ==> g[i] == h[i]; }
    Snoc(h, e);
    assert 0 < fs by { EarliestIsFirst(g, key); }
    forall k ensures Counted(g, w.born, w.want, w.onlyAfter, k)
                <==> Counted(h, w.born, w.want, w.onlyAfter, k)
                     || (key == k && k in w.want && Fresh(g, k, w.onlyAfter))
    {
      CountedSnoc(h, e, w.born, w.want, w.onlyAfter, k);
    }
    forall t ensures Sample(g, w.born, w.want, w.onlyAfter, t)
                <==> Sample(h, w.born, w.want, w.onlyAfter, t)
                     || (ts == t && key in w.want && Fresh(g, key, w.onlyAfter))
    {
      SampleSnoc(h, e, w.born, w.want, w.onlyAfter, t);
    }
  }

  lemma WaiterWithdraw(w: WaiterState, h: seq<Event>, failed: bool, key: Key)
    requires WaiterInv(w, h, failed)
    ensures WaiterInv(w.OnWithdraw(key), h + [Unreach(key)], failed)
  {
    var e := Unreach(key);
    var g := h + [e];
    var v := w.OnWithdraw(key);
    Snoc(h, e);
    assert v.pending == Unmet(g, w.want, w.onlyAfter);
    MetSinceSnoc(h, e, w.born, w.want, w.onlyAfter);
    assert LatchInv(v, g, failed) by {
      if v.pending == {} {
        assert w.pending == {} && h[..|h|] == h;
        assert AllMetAt(h, |h|, w.want, w.onlyAfter);
      }
    }
    if Positive(g) {
      assert Positive(h) by { assert forall i :: 0 <= i < |h| ==> g[i] == h[i]; }
      forall k ensures Counted(g, w.born, w.want, w.onlyAfter, k)
                  <==> Counted(h, w.born, w.want, w.onlyAfter, k)
      {
        CountedSnoc(h, e, w.born, w.want, w.onlyAfter, k);
      }
      forall t: Time ensures Sample(g, w.born, w.want, w.onlyAfter, t)
                        <==> Sample(h, w.born, w.want, w.onlyAfter, t)
      {
        SampleSnoc(h, e, w.born, w.want, w.onlyAfter, t);
      }
    }
  }

  lemma ReachStep<E>(s: State<E>, h: seq<Event>, ts: Time, key: Key)
    requires Inv(s, h)
    ensures Inv(s.ReachOne(ts, key), h + [Reach(key, ts)])
  {
    var e := Reach(key, ts);
    Snoc(h, e);
    var fs := if key in s.firstSeen then s.firstSeen[key] else ts;
    assert Earliest(h + [e], key) == Some(fs);
    forall i | 0 <= i < |s.waiters|
      ensures WaiterInv(s.waiters[i].OnReach(key, fs, ts), h + [e], s.failed.Some?)
    {
      WaiterReach(s.waiters[i], h, s.failed.Some?, key, fs, ts);
    }
  }

  lemma WithdrawStep<E>(s: State<E>, h: seq<Event>, key: Key)
    requires Inv(s, h)
    ensures Inv(s.WithdrawOne(key), h + [Unreach(key)])
  {
    Snoc(h, Unreach(key));
    forall i | 0 <= i < |s.waiters|
      ensures WaiterInv(s.waiters[i].OnWithdraw(key), h + [Unreach(key)], s.failed.Some?)
    {
      WaiterWithdraw(s.waiters[i], h, s.failed.Some?, key);
    }
  }

  lemma {:induction false} ReachAllInv<E>(s: State<E>, h: seq<Event>, ts: Time, keys: seq<Key>)
    requires Inv(s, h)
    ensures Inv(s.ReachAll(ts, keys), h + Reaches(ts, keys))
  {
    if keys == [] {
      assert h + Reaches(ts, keys) == h;
    } else {
      var n := |keys| - 1;
      ReachAllInv(s, h, ts, keys[..n]);
      ReachStep(s.ReachAll(ts, keys[..n]), h + Reaches(ts, keys[..n]), ts, keys[n]);
      assert h + Reaches(ts, keys) == (h + Reaches(ts, keys[..n])) + [Reach(keys[n], ts)];
    }
  }

  lemma {:induction false} WithdrawAllInv<E>(s: State<E>, h: seq<Event>, keys: seq<Key>)
    requires Inv(s, h)
    ensures Inv(s.WithdrawAll(keys), h + Unreaches(keys))
  {
    if keys == [] {
      assert h + Unreaches(keys) == h;
    } else {
      var n := |keys| - 1;
      WithdrawAllInv(s, h, keys[..n]);
      WithdrawStep(s.WithdrawAll(keys[..n]), h + Unreaches(keys[..n]), keys[n]);
      assert h + Unreaches(keys) == (h + Unreaches(keys[..n])) + [Unreach(keys[n])];
    }
  }

  lemma UpdateInv<E>(s: State<E>, h: seq<Event>, ts: Time, reach: seq<Key>, unreach: seq<Key>)
    requires Inv(s, h)
    ensures Inv(s.Update(ts, reach, unreach), h + (Reaches(ts, reach) + Unreaches(unreach)))
  {
    ReachAllInv(s.Touch(ts), h, ts, reach);
    WithdrawAllInv(s.Touch(ts).ReachAll(ts, reach), h + Reaches(ts, reach), unreach);
    assert h + (Reaches(ts, reach) + Unreaches(unreach)) == (h + Reaches(ts, reach)) + Unreaches(unreach);
  }

  // ----- registration

  lemma {:induction false} AdmitInv<E>(s: State<E>, h: seq<Event>, want: seq<Key>, onlyAfter: Time)
    requires MapsInv(s, h)
    ensures var w := s.AdmitAll(want, onlyAfter);
            ViewInv(w, h) && w.want == (set k | k in want) && w.born == |h| && w.onlyAfter == onlyAfter
  {
    assert h[..|h|] == h;
    if want != [] {
      var n := |want| - 1;
      var w0 := s.AdmitAll(want[..n], onlyAfter);
      var w := s.AdmitAll(want, onlyAfter);
      AdmitInv(s, h, want[..n], onlyAfter);
      LatestOfReached(h, want[n]);
      assert want == want[..n] + [want[n]];
      assert s.Matches(want[n], onlyAfter) <==> Satisfied(h, want[n], onlyAfter);
      assert w.pending == Unmet(h, w.want, onlyAfter);
      if Positive(h) { WindowAdmit(s, h, w0, want[n]); }
    }
  }

  lemma WindowAdmit<E>(s: State<E>, h: seq<Event>, w: WaiterState, key: Key)
    requires MapsInv(s, h) && Positive(h)
    requires w.born == |h| && ViewInv(w, h)
    requires s.Matches(key, w.onlyAfter) <==> Satisfied(h, key, w.onlyAfter)
    ensures Window(s.Admit(w, key), h)
  {
    assert h[..|h|] == h;
    var v := s.Admit(w, key);
    if s.Matches(key, w.onlyAfter) {
      EarliestIsFirst(h, key);
      assert 0 < s.firstSeen[key];
    }
    forall k ensures Counted(h, |h|, v.want, w.onlyAfter, k)
                <==> Counted(h, |h|, w.want, w.onlyAfter, k) || (k == key && Satisfied(h, k, w.onlyAfter))
    {
    }
    forall t: Time ensures Sample(h, |h|, v.want, w.onlyAfter, t)
                      <==> Sample(h, |h|, w.want, w.onlyAfter, t)
                           || (Satisfied(h, key, w.onlyAfter) && Earliest(h, key) == Some(t))
    {
    }
  }

  lemma RegisterInv<E>(s: State<E>, h: seq<Event>, want: seq<Key>, onlyAfter: Time)
    requires Inv(s, h)
    ensures Inv(s.Register(want, onlyAfter), h)
  {
    AdmitInv(s, h, want, onlyAfter);
    assert h[..|h|] == h;
  }

  lemma StepInv<E>(s: State<E>, h: seq<Event>, enhanced: bool, op: Op<E>)
    requires Inv(s, h)
    ensures Inv(Step(s, enhanced, op), h + Events(op))
  {
    assert !op.Update? ==> h + Events(op) == h;
    match op
    case Update(ts, reach, unreach) => UpdateInv(s, h, ts, reach, unreach);
    case Register(want, onlyAfter) => RegisterInv(s, h, want, onlyAfter);
    case Fail(err) =>
      forall i | 0 <= i < |s.waiters| ensures WaiterInv(s.waiters[i].(done := true), h, true) {
        assert ViewInv(s.waiters[i], h);
      }
    case _ =>
  }

  lemma {:induction false} RunInv<E>(enhanced: bool, ops: seq<Op<E>>)
    ensures Inv(Run(enhanced, ops), Delivered(ops))
  {
    if ops != [] {
      var n := |ops| - 1;
      RunInv(enhanced, ops[..n]);
      StepInv(Run(enhanced, ops[..n]), Delivered(ops[..n]), enhanced, ops[n]);
    }
  }

  // ----- the theorems

  /** The incrementally maintained pending set is the answer of a query over everything the
      session ever delivered. */
  lemma PendingIsHistoryQuery<E>(enhanced: bool, ops: seq<Op<E>>, i: nat)
    requires i < |Run(enhanced, ops).waiters|
    ensures var w := Run(enhanced, ops).waiters[i];
            forall k :: k in w.pending <==>
                          k in w.want && !Satisfied(Delivered(ops), k, w.onlyAfter)
  {
    RunInv(enhanced, ops);
    assert WaiterInv(Run(enhanced, ops).waiters[i], Delivered(ops), Run(enhanced, ops).failed.Some?);
  }

  /** No wake-up is lost and none is invented: the latch of a linked waiter is closed exactly when
      the session failed or all its keys were satisfied together at some moment since it
      registered, even if a later withdraw re-armed it. */
  lemma WakeUpIsExact<E>(enhanced: bool, ops: seq<Op<E>>, i: nat)
    requires i < |Run(enhanced, ops).waiters|
    ensures var s := Run(enhanced, ops);
            var w := s.waiters[i];
            w.done <==> s.failed.Some? || MetSince(Delivered(ops), w.born, w.want, w.onlyAfter)
    ensures Run(enhanced, ops).waiters[i].pending == {} ==> Run(enhanced, ops).waiters[i].done
  {
    RunInv(enhanced, ops);
    var h := Delivered(ops);
    var w := Run(enhanced, ops).waiters[i];
    assert WaiterInv(w, h, Run(enhanced, ops).failed.Some?);
    if w.pending == {} {
      assert h[..|h|] == h;
      assert AllMetAt(h, |h|, w.want, w.onlyAfter);
    }
  }

  /** Where one operation leaves the waiter at position p; None if it deregisters it. */
  function Follow<E>(p: nat, op: Op<E>): Option<nat> {
    if !op.Deregister? || p < op.i then Some(p) else if op.i == p then None else Some(p - 1)
  }

  function Track<E>(i: nat, more: seq<Op<E>>): Option<nat> {
    if more == [] then Some(i)
    else
      match Track(i, more[..|more| - 1])
      case None => None
      case Some(p) => Follow(p, more[|more| - 1])
  }

  ghost predicate SameCall(w: WaiterState, v: WaiterState) {
    v.want == w.want && v.onlyAfter == w.onlyAfter && v.born == w.born
  }

  ghost predicate SameCalls<E>(s: State<E>, r: State<E>) {
    |r.waiters| >= |s.waiters| && forall i :: 0 <= i < |s.waiters| ==> SameCall(s.waiters[i], r.waiters[i])
  }

  lemma {:induction false} ReachAllCalls<E>(s: State<E>, ts: Time, keys: seq<Key>)
    ensures SameCalls(s, s.ReachAll(ts, keys))
  {
    if keys != [] { ReachAllCalls(s, ts, keys[..|keys| - 1]); }
  }

  lemma {:induction false} WithdrawAllCalls<E>(s: State<E>, keys: seq<Key>)
    ensures SameCalls(s, s.WithdrawAll(keys))
  {
    if keys != [] { WithdrawAllCalls(s, keys[..|keys| - 1]); }
  }

  lemma StepCalls<E>(s: State<E>, enhanced: bool, op: Op<E>, p: nat)
    requires p < |s.waiters| && Follow(p, op).Some?
    ensures Follow(p, op).value < |Step(s, enhanced, op).waiters|
    ensures SameCall(s.waiters[p], Step(s, enhanced, op).waiters[Follow(p, op).value])
  {
    if op.Update? {
      ReachAllCalls(s.Touch(op.ts), op.ts, op.reach);
      WithdrawAllCalls(s.Touch(op.ts).ReachAll(op.ts, op.reach), op.unreach);
    }
  }

  lemma {:induction false} WaiterIsTracked<E>(enhanced: bool, ops: seq<Op<E>>, more: seq<Op<E>>, i: nat)
    requires i < |Run(enhanced, ops).waiters| && Track(i, more).Some?
    ensures Track(i, more).value < |Run(enhanced, ops + more).waiters|
    ensures SameCall(Run(enhanced, ops).waiters[i], Run(enhanced, ops + more).waiters[Track(i, more).value])
  {
    if more == [] {
      assert ops + more == ops;
    } else {
      var n := |more| - 1;
      WaiterIsTracked(enhanced, ops, more[..n], i);
      assert (ops + more)[..|ops + more| - 1] == ops + more[..n];
      StepCalls(Run(enhanced, ops + more[..n]), enhanced, more[n], Track(i, more[..n]).value);
    }
  }

  /** A call that has to wait is one waiter, which keeps its list, its cutoff and its moment of
      registration through any run until it is deregistered; and it is released exactly when the session
      failed or all it listed was satisfied together at some moment from its registration on. */
  lemma WakeUpSinceRegistration<E>(enhanced: bool, ops: seq<Op<E>>, want: seq<Key>, onlyAfter: Time, more: seq<Op<E>>)
    requires Run(enhanced, ops).Links(want, onlyAfter)
    requires Track(|Run(enhanced, ops).waiters|, more).Some?
    ensures var all := ops + [Register(want, onlyAfter)] + more;
            var s, p := Run(enhanced, all), Track(|Run(enhanced, ops).waiters|, more).value;
            && p < |s.waiters|
            && s.waiters[p].want == (set k | k in want) && s.waiters[p].onlyAfter == onlyAfter
            && s.waiters[p].born == |Delivered(ops)|
            && (s.waiters[p].done
                <==> s.failed.Some? || MetSince(Delivered(all), |Delivered(ops)|, s.waiters[p].want, onlyAfter))
  {
    var s0 := Run(enhanced, ops);
    var waiting := ops + [Register(want, onlyAfter)];
    assert waiting[..|ops|] == ops;
    RunInv(enhanced, ops);
    AdmitInv(s0, Delivered(ops), want, onlyAfter);
    WaiterIsTracked(enhanced, waiting, more, |s0.waiters|);
    WakeUpIsExact(enhanced, waiting + more, Track(|s0.waiters|, more).value);
  }

  /** Matched and Missing of the final locked read partition the wanted keys by the history query,
      and the call succeeds exactly when the query accepts every wanted key at that moment. */
  lemma WaitResultIsExact<E>(enhanced: bool, ops: seq<Op<E>>, i: nat)
    requires i < |Run(enhanced, ops).waiters|
    ensures var s := Run(enhanced, ops);
            var w := s.waiters[i];
            var h := Delivered(ops);
            && |w.want| - |w.pending| == |set k | k in w.want && Satisfied(h, k, w.onlyAfter)|
            && (WaitOutcome(w, s.failed) == None <==> forall k :: k in w.want ==> Satisfied(h, k, w.onlyAfter))
            && (WaitOutcome(w, s.failed) != None ==>
                  WaitOutcome(w, s.failed) == match s.failed case Some(e) => Some(SessionDown(e)) case None => Some(TimedOut))
  {
    RunInv(enhanced, ops);
    var h := Delivered(ops);
    var w := Run(enhanced, ops).waiters[i];
    assert WaiterInv(w, h, Run(enhanced, ops).failed.Some?);
    var met := set k | k in w.want && Satisfied(h, k, w.onlyAfter);
    assert met == w.want - w.pending;
    assert w.pending <= w.want;
    if forall k :: k in w.want ==> Satisfied(h, k, w.onlyAfter) {
      assert w.pending == {};
    }
    if w.pending == {} {
      forall k | k in w.want ensures Satisfied(h, k, w.onlyAfter) {
        assert k !in Unmet(h, w.want, w.onlyAfter);
      }
    }
  }

  /** A waiter that is never linked is a frozen snapshot: its result speaks of the moment it
      registered, whatever arrives before it is read. */
  lemma UnlinkedIsSnapshot<E>(enhanced: bool, ops: seq<Op<E>>, more: seq<Op<E>>,
                              want: seq<Key>, onlyAfter: Time)
    requires !Run(enhanced, ops).Links(want, onlyAfter)
    ensures var w := Run(enhanced, ops).Registered(want, onlyAfter);
            var later := Run(enhanced, ops + more);
            && w.done
            && Run(enhanced, ops + [Register(want, onlyAfter)]) == Run(enhanced, ops)
            && (WaitOutcome(w, later.failed) == None
                <==> forall k :: k in want ==> Satisfied(Delivered(ops), k, onlyAfter))
            && (WaitOutcome(w, later.failed) != None ==> Run(enhanced, ops).failed.Some?)
            && WaitOutcome(w, later.failed) == WaitOutcome(w, Run(enhanced, ops).failed)
  {
    RunInv(enhanced, ops);
    FailureIsSticky(enhanced, ops, more);
    AdmitInv(Run(enhanced, ops), Delivered(ops), want, onlyAfter);
    assert (ops + [Register(want, onlyAfter)])[..|ops|] == ops;
    var w := Run(enhanced, ops).Registered(want, onlyAfter);
    if w.pending == {} {
      forall k | k in want ensures Satisfied(Delivered(ops), k, onlyAfter) {
        assert k in w.want && k !in Unmet(Delivered(ops), w.want, onlyAfter);
      }
    } else {
      var k :| k in w.pending;
      assert k in want && !Satisfied(Delivered(ops), k, onlyAfter);
    }
  }

  /** The recorded failure never changes once set. */
  lemma {:induction false} FailureIsSticky<E>(enhanced: bool, ops: seq<Op<E>>, more: seq<Op<E>>)
    ensures Run(enhanced, ops).failed.Some? ==> Run(enhanced, ops + more).failed == Run(enhanced, ops).failed
    ensures Run(enhanced, ops + more).failed.Some? ==>
              Run(enhanced, ops).failed.Some? || exists i :: 0 <= i < |more| && more[i].Fail?
  {
    if more == [] {
      assert ops + more == ops;
    } else {
      var n := |more| - 1;
      FailureIsSticky(enhanced, ops, more[..n]);
      assert (ops + more)[..|ops + more| - 1] == ops + more[..n];
      StepFrame(Run(enhanced, ops + more[..n]), enhanced, more[n]);
      if Run(enhanced, ops + more).failed.Some? && Run(enhanced, ops).failed.None? && !more[n].Fail? {
        var i :| 0 <= i < |more[..n]| && more[..n][i].Fail?;
        assert more[i].Fail?;
      }
    }
  }

  ghost predicate FirstFail<E>(ops: seq<Op<E>>, i: int) {
    0 <= i < |ops| && ops[i].Fail? && forall j :: 0 <= j < i ==> !ops[j].Fail?
  }

  /** The session is down exactly when its loops reported a failure, and the first report is the cause
      that everybody is told. */
  lemma {:induction false} FailureIsFirstFail<E>(enhanced: bool, ops: seq<Op<E>>)
    ensures Run(enhanced, ops).failed.Some? <==> exists i :: 0 <= i < |ops| && ops[i].Fail?
    ensures forall i :: FirstFail(ops, i) ==> Run(enhanced, ops).failed == Some(ops[i].err)
  {
    if ops != [] {
      var init, op := ops[..|ops| - 1], ops[|ops| - 1];
      assert ops == init + [op];
      FailureIsFirstFail(enhanced, init);
      StepFrame(Run(enhanced, init), enhanced, op);
      assert forall i :: 0 <= i < |init| ==> ops[i] == init[i];
      assert ops[|init|] == op;
      forall i | FirstFail(ops, i) ensures Run(enhanced, ops).failed == Some(ops[i].err) {
        if i < |init| { assert FirstFail(init, i); }
      }
    }
  }

  /** Once a failure was reported nobody linked is left blocked, not even on a refresh, whatever
      happened before or after. */
  lemma FailureReleasesEverybody<E>(enhanced: bool, ops: seq<Op<E>>, i: nat)
    requires i < |ops| && ops[i].Fail?
    ensures forall w :: w in Run(enhanced, ops).waiters ==> w.done
    ensures forall r :: r in Run(enhanced, ops).refreshWaiters ==> r.done
  {
    FailureIsFirstFail(enhanced, ops);
    RefreshReleased(enhanced, ops);
    var s := Run(enhanced, ops);
    forall w | w in s.waiters ensures w.done {
      var p :| 0 <= p < |s.waiters| && s.waiters[p] == w;
      WakeUpIsExact(enhanced, ops, p);
    }
  }

  ghost predicate AllReleased<E>(s: State<E>) {
    s.failed.Some? ==> forall j :: 0 <= j < |s.refreshWaiters| ==> s.refreshWaiters[j].done
  }

  lemma ReleasedStep<E>(s: State<E>, enhanced: bool, op: Op<E>)
    requires AllReleased(s)
    ensures AllReleased(Step(s, enhanced, op))
  {
    if op.Update? {
      ReachAllFrame(s.Touch(op.ts), op.ts, op.reach);
      WithdrawAllFrame(s.Touch(op.ts).ReachAll(op.ts, op.reach), op.unreach);
    }
  }

  lemma {:induction false} RefreshReleased<E>(enhanced: bool, ops: seq<Op<E>>)
    ensures AllReleased(Run(enhanced, ops))
  {
    if ops != [] {
      RefreshReleased(enhanced, ops[..|ops| - 1]);
      ReleasedStep(Run(enhanced, ops[..|ops| - 1]), enhanced, ops[|ops| - 1]);
    }
  }

  /** One UPDATE, whatever came before: what it withdraws is withdrawn even if it also advertises it, what
      it only advertises is not, new keys are first seen at its read time, and all others stay as they
      were. */
  lemma UpdateSettlesKeys<E>(enhanced: bool, ops: seq<Op<E>>, ts: Time, reach: seq<Key>, unreach: seq<Key>, k: Key)
    ensures var s, r := Run(enhanced, ops), Run(enhanced, ops + [Update(ts, reach, unreach)]);
            && (k in r.withdrawn <==> k in unreach || (k in s.withdrawn && k !in reach))
            && (k in r.firstSeen <==> k in s.firstSeen || k in reach)
            && (k in r.firstSeen ==> r.firstSeen[k] == if k in s.firstSeen then s.firstSeen[k] else ts)
  {
    var s := Run(enhanced, ops);
    assert (ops + [Update(ts, reach, unreach)])[..|ops|] == ops;
    ReachAllKeys(s.Touch(ts), ts, reach, k);
    WithdrawAllKeys(s.Touch(ts).ReachAll(ts, reach), unreach, k);
  }

  lemma {:induction false} ReachAllKeys<E>(s: State<E>, ts: Time, keys: seq<Key>, k: Key)
    ensures var r := s.ReachAll(ts, keys);
            && (k in r.withdrawn <==> k in s.withdrawn && k !in keys)
            && (k in r.firstSeen <==> k in s.firstSeen || k in keys)
            && (k in r.firstSeen ==> r.firstSeen[k] == if k in s.firstSeen then s.firstSeen[k] else ts)
  {
    if keys != [] {
      var init, last := keys[..|keys| - 1], keys[|keys| - 1];
      assert keys == init + [last];
      ReachAllKeys(s, ts, init, k);
    }
  }

  lemma {:induction false} WithdrawAllKeys<E>(s: State<E>, keys: seq<Key>, k: Key)
    ensures var r := s.WithdrawAll(keys);
            && (k in r.withdrawn <==> k in s.withdrawn || k in keys)
            && r.firstSeen == s.firstSeen
  {
    if keys != [] {
      var init, last := keys[..|keys| - 1], keys[|keys| - 1];
      assert keys == init + [last];
      WithdrawAllKeys(s, init, k);
    }
  }

  /** What one step does to the failure and to the counters of the statistics. */
  lemma StepFrame<E>(s: State<E>, enhanced: bool, op: Op<E>)
    ensures var r := Step(s, enhanced, op);
            && (op.Fail? || r.failed == s.failed)
            && (s.failed.Some? ==> r.failed == s.failed)
            && (if op.Update?
                then r.updateSeq == s.updateSeq + 1 && r.advertiseN == s.advertiseN + |op.reach|
                     && r.withdrawN == s.withdrawN + |op.unreach| && r.lastUpdateAt == op.ts
                     && r.firstUpdate == (if s.firstUpdate == 0 then op.ts else s.firstUpdate)
                else r.firstUpdate == s.firstUpdate && r.updateSeq == s.updateSeq && r.advertiseN == s.advertiseN
                     && r.withdrawN == s.withdrawN && r.lastUpdateAt == s.lastUpdateAt)
  {
    if op.Update? {
      ReachAllFrame(s.Touch(op.ts), op.ts, op.reach);
      WithdrawAllFrame(s.Touch(op.ts).ReachAll(op.ts, op.reach), op.unreach);
    }
  }

  lemma {:induction false} ReachAllFrame<E>(s: State<E>, ts: Time, keys: seq<Key>)
    ensures var r := s.ReachAll(ts, keys);
            && r == s.(firstSeen := r.firstSeen, withdrawn := r.withdrawn,
                       advertiseN := s.advertiseN + |keys|, waiters := r.waiters)
            && |r.waiters| == |s.waiters|
  {
    if keys != [] { ReachAllFrame(s, ts, keys[..|keys| - 1]); }
  }

  lemma {:induction false} WithdrawAllFrame<E>(s: State<E>, keys: seq<Key>)
    ensures var r := s.WithdrawAll(keys);
            && r == s.(withdrawn := r.withdrawn, withdrawN := s.withdrawN + |keys|, waiters := r.waiters)
            && |r.waiters| == |s.waiters|
  {
    if keys != [] { WithdrawAllFrame(s, keys[..|keys| - 1]); }
  }

  /** A key first seen before a waiter's cutoff stays pending in every continuation: nothing that
      happens later can satisfy that waiter. */
  lemma CutoffIsFinal<E>(enhanced: bool, ops: seq<Op<E>>, more: seq<Op<E>>, i: nat, k: Key)
    requires k in Run(enhanced, ops).firstSeen
    requires i < |Run(enhanced, ops + more).waiters|
    requires k in Run(enhanced, ops + more).waiters[i].want
    requires Run(enhanced, ops).firstSeen[k] < Run(enhanced, ops + more).waiters[i].onlyAfter
    ensures k in Run(enhanced, ops + more).waiters[i].pending
  {
    RunInv(enhanced, ops);
    RunInv(enhanced, ops + more);
    DeliveredConcat(ops, more);
    var h, g := Delivered(ops), Delivered(ops + more);
    EarliestSticky(h, g[|h|..], k);
    assert h + g[|h|..] == g;
    assert WaiterInv(Run(enhanced, ops + more).waiters[i], g, Run(enhanced, ops + more).failed.Some?);
  }

  lemma DeliveredSnoc<E>(ops: seq<Op<E>>, op: Op<E>)
    ensures Delivered(ops + [op]) == Delivered(ops) + Events(op)
  {
    assert (ops + [op])[..|ops|] == ops;
  }

  lemma Regroup<T>(a: seq<T>, b: seq<T>, c: seq<T>)
    ensures (a + b) + c == a + (b + c)
  {
  }

  lemma DeliveredConcatOne<E>(ops: seq<Op<E>>, init: seq<Op<E>>, op: Op<E>)
    requires Delivered(ops + init) == Delivered(ops) + Delivered(init)
    ensures Delivered(ops + (init + [op])) == Delivered(ops) + Delivered(init + [op])
  {
    Regroup(ops, init, [op]);
    DeliveredSnoc(ops + init, op);
    DeliveredSnoc(init, op);
    Regroup(Delivered(ops), Delivered(init), Events(op));
  }

  lemma {:induction false} DeliveredConcat<E>(ops: seq<Op<E>>, more: seq<Op<E>>)
    ensures Delivered(ops + more) == Delivered(ops) + Delivered(more)
  {
    if more == [] {
      assert ops + more == ops;
    } else {
      var init, last := more[..|more| - 1], more[|more| - 1];
      assert more == init + [last];
      DeliveredConcat(ops, init);
      DeliveredConcatOne(ops, init, last);
    }
  }

  // ----- timestamps

  predicate IsTimed<E>(op: Op<E>) { op.Update? || op.Refresh? }

  function At<E>(op: Op<E>): Time {
    if op.Update? then op.ts else if op.Refresh? then op.at else 0
  }

  /** Read timestamps are real times and never go back. */
  ghost predicate Timed<E>(ops: seq<Op<E>>) {
    forall i, j :: 0 <= i <= j < |ops| && IsTimed(ops[i]) && IsTimed(ops[j]) ==> 0 < At(ops[i]) <= At(ops[j])
  }

  lemma {:induction false} TimedRun<E>(enhanced: bool, ops: seq<Op<E>>)
    requires Timed(ops)
    ensures var h := Delivered(ops);
            var s := Run(enhanced, ops);
            && Positive(h) && Ordered(h)
            && (forall i :: 0 <= i < |h| && h[i].Reach? ==> h[i].ts <= s.lastUpdateAt)
            && (s.lastUpdateAt == 0 || exists i :: 0 <= i < |ops| && ops[i].Update? && At(ops[i]) == s.lastUpdateAt)
  {
    if ops != [] {
      var n := |ops| - 1;
      var op := ops[n];
      TimedRun(enhanced, ops[..n]);
      StepFrame(Run(enhanced, ops[..n]), enhanced, op);
      var s0, h0 := Run(enhanced, ops[..n]), Delivered(ops[..n]);
      if s0.lastUpdateAt != 0 {
        var i :| 0 <= i < |ops[..n]| && ops[..n][i].Update? && At(ops[..n][i]) == s0.lastUpdateAt;
        assert ops[i].Update? && At(ops[i]) == s0.lastUpdateAt;
      }
      if op.Update? {
        assert ops[n].Update? && At(ops[n]) == Run(enhanced, ops).lastUpdateAt;
        OrderedExtend(h0, Events(op), s0.lastUpdateAt, op.ts);
      } else {
        assert Delivered(ops) == h0 && Run(enhanced, ops).lastUpdateAt == s0.lastUpdateAt;
      }
    }
  }

  lemma OrderedExtend(h: seq<Event>, more: seq<Event>, bound: Time, ts: Time)
    requires Positive(h) && Ordered(h) && 0 < ts && bound <= ts
    requires forall i :: 0 <= i < |h| && h[i].Reach? ==> h[i].ts <= bound
    requires forall i :: 0 <= i < |more| && more[i].Reach? ==> more[i].ts == ts
    ensures Positive(h + more) && Ordered(h + more)
    ensures forall i :: 0 <= i < |h + more| && (h + more)[i].Reach? ==> (h + more)[i].ts <= ts
  {
  }

  /** first is the least and last the greatest observation the waiter counted, over any run. */
  lemma ReportedWindowIsExact<E>(enhanced: bool, ops: seq<Op<E>>, i: nat)
    requires Timed(ops) && i < |Run(enhanced, ops).waiters|
    ensures var w := Run(enhanced, ops).waiters[i];
            w.born <= |Delivered(ops)| && Window(w, Delivered(ops))
  {
    RunInv(enhanced, ops);
    TimedRun(enhanced, ops);
    assert WaiterInv(Run(enhanced, ops).waiters[i], Delivered(ops), Run(enhanced, ops).failed.Some?);
  }

  /** The envelope a delivery measurement rests on: cutoff, first, first-seen, last and the last
      UPDATE are in order for every key a linked waiter is not missing. */
  lemma TimestampEnvelope<E>(enhanced: bool, ops: seq<Op<E>>, i: nat, k: Key)
    requires Timed(ops) && i < |Run(enhanced, ops).waiters|
    requires k in Run(enhanced, ops).waiters[i].want - Run(enhanced, ops).waiters[i].pending
    ensures var s := Run(enhanced, ops);
            var w := s.waiters[i];
            && k in s.firstSeen
            && w.onlyAfter <= w.first <= s.firstSeen[k] <= w.last <= s.lastUpdateAt
  {
    ReportedWindowIsExact(enhanced, ops, i);
    TimedRun(enhanced, ops);
    RunInv(enhanced, ops);
    var s, h := Run(enhanced, ops), Delivered(ops);
    var w := s.waiters[i];
    var t := FirstSeenIsSampled(h, w.born, w.want, w.onlyAfter, k);
    SampleBound(h, w, s.lastUpdateAt);
  }

  lemma FirstSeenIsSampled(h: seq<Event>, born: nat, want: set<Key>, after: Time, k: Key) returns (t: Time)
    requires born <= |h| && Ordered(h)
    requires Counted(h, born, want, after, k)
    ensures Sample(h, born, want, after, t) && Earliest(h, k).value <= t
  {
    if Satisfied(h[..born], k, after) {
      EarliestSticky(h[..born], h[born..], k);
      assert h[..born] + h[born..] == h;
      t := Earliest(h, k).value;
    } else {
      var j :| born <= j < |h| && h[j].Reaches(k);
      t := h[j].ts;
      assert SampleAt(h, j, want, after, t);
      EarliestIsFirst(h, k);
    }
  }

  lemma SampleBound(h: seq<Event>, w: WaiterState, bound: Time)
    requires w.born <= |h| && Window(w, h)
    requires forall i :: 0 <= i < |h| && h[i].Reach? ==> h[i].ts <= bound
    ensures w.last <= bound
  {
    if w.last != 0 && !(exists j :: w.born <= j < |h| && SampleAt(h, j, w.want, w.onlyAfter, w.last)) {
      var k :| k in w.want && Satisfied(h[..w.born], k, w.onlyAfter) && Earliest(h[..w.born], k) == Some(w.last);
      EarliestIsFirst(h[..w.born], k);
      var i :| 0 <= i < |h[..w.born]| && h[..w.born][i] == Reach(k, w.last);
      assert h[i] == Reach(k, w.last);
    }
  }

  // ----- counters

  function Count(h: seq<Event>, reach: bool): nat {
    if h == [] then 0
    else Count(h[..|h| - 1], reach) + if h[|h| - 1].Reach? == reach then 1 else 0
  }

  function UpdateCount<E>(ops: seq<Op<E>>): nat {
    if ops == [] then 0 else UpdateCount(ops[..|ops| - 1]) + if ops[|ops| - 1].Update? then 1 else 0
  }

  lemma {:induction false} CountConcat(a: seq<Event>, b: seq<Event>, reach: bool)
    ensures Count(a + b, reach) == Count(a, reach) + Count(b, reach)
  {
    if b == [] {
      assert a + b == a;
    } else {
      var n := |b| - 1;
      CountConcat(a, b[..n], reach);
      assert (a + b)[..|a + b| - 1] == a + b[..n];
    }
  }

  lemma {:induction false} CountUniform(h: seq<Event>, reach: bool)
    requires forall i :: 0 <= i < |h| ==> h[i].Reach? == reach
    ensures Count(h, reach) == |h| && Count(h, !reach) == 0
  {
    if h != [] { CountUniform(h[..|h| - 1], reach); }
  }

  /** The key maps are the keys ever reached and the keys whose last event is a withdraw: a
      withdraw never clears a first-seen entry. */
  lemma KeyMapsAreHistory<E>(enhanced: bool, ops: seq<Op<E>>, k: Key)
    ensures var s := Run(enhanced, ops);
            var h := Delivered(ops);
            && (k in s.firstSeen <==> exists i :: 0 <= i < |h| && h[i].Reaches(k))
            && (k in s.withdrawn <==> Latest(h, k) == Some(Unreach(k)))
  {
    RunInv(enhanced, ops);
    var s, h := Run(enhanced, ops), Delivered(ops);
    assert MapsInv(s, h);
    EarliestIsFirst(h, k);
    assert k in s.firstSeen <==> Earliest(h, k).Some?;
  }

  /** The cumulative statistics are the counts of what was delivered. */
  lemma {:induction false} StatsAreCounts<E>(enhanced: bool, ops: seq<Op<E>>)
    ensures Run(enhanced, ops).updateSeq == UpdateCount(ops)
    ensures Run(enhanced, ops).advertiseN == Count(Delivered(ops), true)
    ensures Run(enhanced, ops).withdrawN == Count(Delivered(ops), false)
  {
    if ops != [] {
      var n := |ops| - 1;
      StatsAreCounts(enhanced, ops[..n]);
      StepFrame(Run(enhanced, ops[..n]), enhanced, ops[n]);
      if ops[n].Update? {
        CountUpdate(Delivered(ops[..n]), ops[n].ts, ops[n].reach, ops[n].unreach);
      } else {
        assert Delivered(ops) == Delivered(ops[..n]);
      }
    }
  }

  /** op i is the first, op j the last UPDATE of the run. */
  ghost predicate UpdateEnds<E>(ops: seq<Op<E>>, i: nat, j: nat) {
    && i <= j < |ops| && ops[i].Update? && ops[j].Update?
    && (forall n :: 0 <= n < |ops| && ops[n].Update? ==> i <= n <= j)
  }

  lemma {:induction false} NoUpdateYet<E>(enhanced: bool, ops: seq<Op<E>>)
    requires forall n :: 0 <= n < |ops| ==> !ops[n].Update?
    ensures Run(enhanced, ops).firstUpdate == 0 && Run(enhanced, ops).lastUpdateAt == 0
  {
    if ops != [] {
      NoUpdateYet(enhanced, ops[..|ops| - 1]);
      StepFrame(Run(enhanced, ops[..|ops| - 1]), enhanced, ops[|ops| - 1]);
    }
  }

  lemma ClockStep<E>(enhanced: bool, init: seq<Op<E>>, op: Op<E>)
    ensures var s, r := Run(enhanced, init), Run(enhanced, init + [op]);
            if op.Update? then r.lastUpdateAt == op.ts
                               && r.firstUpdate == (if s.firstUpdate == 0 then op.ts else s.firstUpdate)
            else r.lastUpdateAt == s.lastUpdateAt && r.firstUpdate == s.firstUpdate
  {
    assert (init + [op])[..|init|] == init;
    StepFrame(Run(enhanced, init), enhanced, op);
  }

  lemma TimedInit<E>(init: seq<Op<E>>, op: Op<E>)
    requires Timed(init + [op])
    ensures Timed(init) && (IsTimed(op) ==> 0 < At(op))
  {
    var ops := init + [op];
    assert ops[|init|] == op;
    assert forall i :: 0 <= i < |init| ==> ops[i] == init[i];
  }

  /** FirstUpdateAt and LastUpdateAt are the read times of the first and the last UPDATE. */
  lemma {:induction false} UpdateClocks<E>(enhanced: bool, ops: seq<Op<E>>, i: nat, j: nat)
    requires Timed(ops) && UpdateEnds(ops, i, j)
    ensures 0 < Run(enhanced, ops).firstUpdate == ops[i].ts
    ensures Run(enhanced, ops).lastUpdateAt == ops[j].ts
    decreases |ops|
  {
    var n := |ops| - 1;
    var init, op := ops[..n], ops[n];
    assert ops == init + [op];
    ClockStep(enhanced, init, op);
    TimedInit(init, op);
    if !op.Update? {
      UpdateClocks(enhanced, init, i, j);
    } else if i < n {
      var q := LastUpdateOf(init, i);
      UpdateClocks(enhanced, init, i, q);
    } else {
      NoUpdateYet(enhanced, init);
    }
  }

  lemma {:induction false} LastUpdateOf<E>(ops: seq<Op<E>>, i: nat) returns (q: nat)
    requires i < |ops| && ops[i].Update?
    ensures i <= q < |ops| && ops[q].Update? && forall n :: q < n < |ops| ==> !ops[n].Update?
  {
    if ops[|ops| - 1].Update? {
      q := |ops| - 1;
    } else {
      q := LastUpdateOf(ops[..|ops| - 1], i);
    }
  }

  lemma CountUpdate(h: seq<Event>, ts: Time, reach: seq<Key>, unreach: seq<Key>)
    ensures var g := h + (Reaches(ts, reach) + Unreaches(unreach));
            && Count(g, true) == Count(h, true) + |reach|
            && Count(g, false) == Count(h, false) + |unreach|
  {
    var r, u := Reaches(ts, reach), Unreaches(unreach);
    CountConcat(h, r + u, true);
    CountConcat(h, r + u, false);
    CountConcat(r, u, true);
    CountConcat(r, u, false);
    CountUniform(r, true);
    CountUniform(u, false);
  }
}
