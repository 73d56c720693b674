/**
 Refresh accounting over whole runs: the demarcation counters, the last EoRR of every family,
 and the waiters blocked on one (section 4 of RFC 7313).
 */
module RefreshRuns {
  import opened Outcomes
  import opened History
  import opened ObservedState
  import opened ObservedRuns

  datatype Message = Message(fam: Family, demarcation: nat, at: Time)

  /** The ROUTE-REFRESH messages a run read, in order. */
  function RefreshLog<E>(ops: seq<Op<E>>): seq<Message> {
    if ops == [] then []
    else
      var op := ops[|ops| - 1];
      RefreshLog(ops[..|ops| - 1])
      + if op.Refresh? then [Message(op.fam, op.demarcation, op.at)] else []
  }

  /** Read time of the newest EoRR for fam. */
  function LatestEoRR(log: seq<Message>, fam: Family): Option<Time> {
    if log == [] then None
    else
      var m := log[|log| - 1];
      if m.demarcation == EORR && m.fam == fam then Some(m.at) else LatestEoRR(log[..|log| - 1], fam)
  }

  function CountOf(log: seq<Message>, demarcation: nat): nat {
    if log == [] then 0
    else CountOf(log[..|log| - 1], demarcation) + if log[|log| - 1].demarcation == demarcation then 1 else 0
  }

  /** An UPDATE touches nothing that refreshes are about. */
  lemma UpdateFrame<E>(s: State<E>, ts: Time, reach: seq<Key>, unreach: seq<Key>)
    ensures var r := s.Update(ts, reach, unreach);
            && r.failed == s.failed && r.lastEoRR == s.lastEoRR && r.refreshWaiters == s.refreshWaiters
            && r.routeRefreshN == s.routeRefreshN && r.borrN == s.borrN && r.eorrN == s.eorrN
  {
    ReachAllFrame(s.Touch(ts), ts, reach);
    WithdrawAllFrame(s.Touch(ts).ReachAll(ts, reach), unreach);
  }

  ghost predicate CountersInv<E>(s: State<E>, log: seq<Message>, enhanced: bool) {
    if enhanced then
      && s.borrN == CountOf(log, BORR)
      && s.eorrN == CountOf(log, EORR)
      && s.routeRefreshN + s.borrN + s.eorrN == |log|
      && (forall f :: f in s.lastEoRR <==> LatestEoRR(log, f).Some?)
      && (forall f :: f in s.lastEoRR ==> LatestEoRR(log, f) == Some(s.lastEoRR[f]))
    else
      s.borrN == 0 && s.eorrN == 0 && s.routeRefreshN == |log| && s.lastEoRR == map[]
  }

  ghost predicate RefreshWaiterInv<E>(s: State<E>, r: RefreshWaiterState) {
    && r.ts == (if s.Answered(r.family, r.after) then s.lastEoRR[r.family] else 0)
    && (r.done <==> s.failed.Some? || s.Answered(r.family, r.after))
  }

  lemma StepCounters<E>(s: State<E>, log: seq<Message>, enhanced: bool, op: Op<E>)
    requires CountersInv(s, log, enhanced)
    ensures CountersInv(Step(s, enhanced, op),
                        if op.Refresh? then log + [Message(op.fam, op.demarcation, op.at)] else log, enhanced)
  {
    if op.Refresh? {
      assert (log + [Message(op.fam, op.demarcation, op.at)])[..|log|] == log;
    } else if op.Update? {
      UpdateFrame(s, op.ts, op.reach, op.unreach);
    }
  }

  /** The three refresh counters partition the messages read; an EoRR is recorded only when
      RFC 7313 was negotiated, and then the newest one of each family is the one kept. */
  lemma {:induction false} RefreshAccounting<E>(enhanced: bool, ops: seq<Op<E>>)
    ensures CountersInv(Run(enhanced, ops), RefreshLog(ops), enhanced)
    ensures Run(enhanced, ops).routeRefreshN + Run(enhanced, ops).borrN + Run(enhanced, ops).eorrN
            == |RefreshLog(ops)|
    ensures !enhanced ==> Run(enhanced, ops).lastEoRR == map[]
  {
    if ops != [] {
      var n := |ops| - 1;
      RefreshAccounting(enhanced, ops[..n]);
      StepCounters(Run(enhanced, ops[..n]), RefreshLog(ops[..n]), enhanced, ops[n]);
      assert RefreshLog(ops[..n]) + [] == RefreshLog(ops[..n]);
    }
  }

  ghost predicate RefreshInv<E>(s: State<E>) {
    forall j :: 0 <= j < |s.refreshWaiters| ==> RefreshWaiterInv(s, s.refreshWaiters[j])
  }

  lemma RefreshKeepsWaiter<E>(s: State<E>, enhanced: bool, op: Op<E>, w: RefreshWaiterState, r: State<E>)
    requires op.Refresh? && RefreshWaiterInv(s, w)
    requires forall f :: f in s.lastEoRR ==> s.lastEoRR[f] <= op.at
    requires r == Step(s, enhanced, op)
    ensures RefreshWaiterInv(r, if enhanced && op.demarcation == EORR then w.OnEoRR(op.fam, op.at) else w)
  {
  }

  lemma StepRefresh<E>(s: State<E>, enhanced: bool, op: Op<E>)
    requires RefreshInv(s)
    requires op.Refresh? ==> forall f :: f in s.lastEoRR ==> s.lastEoRR[f] <= op.at
    ensures RefreshInv(Step(s, enhanced, op))
  {
    var r := Step(s, enhanced, op);
    if op.Update? { UpdateFrame(s, op.ts, op.reach, op.unreach); }
    forall j | 0 <= j < |r.refreshWaiters| ensures RefreshWaiterInv(r, r.refreshWaiters[j]) {
      if op.DeregisterRefresh? && op.j < |s.refreshWaiters| {
        assert r.refreshWaiters[j] == s.refreshWaiters[if j < op.j then j else j + 1];
      } else if j < |s.refreshWaiters| {
        assert RefreshWaiterInv(s, s.refreshWaiters[j]);
        if op.Refresh? { RefreshKeepsWaiter(s, enhanced, op, s.refreshWaiters[j], r); }
      }
    }
  }

  lemma {:induction false} EoRRsAreRead<E>(enhanced: bool, ops: seq<Op<E>>, f: Family)
    requires f in Run(enhanced, ops).lastEoRR
    ensures exists i :: 0 <= i < |ops| && ops[i].Refresh? && ops[i].at == Run(enhanced, ops).lastEoRR[f]
  {
    if ops != [] {
      var n := |ops| - 1;
      var s0, op := Run(enhanced, ops[..n]), ops[n];
      if op.Update? { UpdateFrame(s0, op.ts, op.reach, op.unreach); }
      if f in s0.lastEoRR && s0.lastEoRR[f] == Run(enhanced, ops).lastEoRR[f] {
        EoRRsAreRead(enhanced, ops[..n], f);
        var i :| 0 <= i < |ops[..n]| && ops[..n][i].Refresh? && ops[..n][i].at == s0.lastEoRR[f];
        assert ops[i].Refresh?;
      } else {
        assert ops[n].Refresh?;
      }
    }
  }

  lemma {:induction false} RefreshRunInv<E>(enhanced: bool, ops: seq<Op<E>>)
    requires Timed(ops)
    ensures RefreshInv(Run(enhanced, ops))
  {
    if ops != [] {
      var n := |ops| - 1;
      var s0 := Run(enhanced, ops[..n]);
      RefreshRunInv(enhanced, ops[..n]);
      if ops[n].Refresh? {
        forall f | f in s0.lastEoRR ensures s0.lastEoRR[f] <= ops[n].at {
          EoRRsAreRead(enhanced, ops[..n], f);
          var i :| 0 <= i < |ops[..n]| && ops[..n][i].Refresh? && ops[..n][i].at == s0.lastEoRR[f];
          assert IsTimed(ops[i]) && IsTimed(ops[n]);
        }
      }
      StepRefresh(s0, enhanced, ops[n]);
    }
  }

  /** With read times that never go back, a linked refresh waiter holds exactly the newest EoRR of
      its family if that one is not before its cutoff, and it is released exactly when it holds one
      or the session failed. Without RFC 7313 it can only be released by the failure. */
  lemma RefreshWaiterAgrees<E>(enhanced: bool, ops: seq<Op<E>>, j: nat)
    requires Timed(ops) && j < |Run(enhanced, ops).refreshWaiters|
    ensures var s := Run(enhanced, ops);
            var r := s.refreshWaiters[j];
            var newest := if enhanced then LatestEoRR(RefreshLog(ops), r.family) else None;
            var answered := newest.Some? && (r.after == 0 || r.after <= newest.value);
            && r.ts == (if answered then newest.value else 0)
            && (r.ts != 0 <==> answered)
            && (r.done <==> s.failed.Some? || answered)
  {
    RefreshRunInv(enhanced, ops);
    RefreshAccounting(enhanced, ops);
    var s := Run(enhanced, ops);
    assert RefreshWaiterInv(s, s.refreshWaiters[j]);
    assert enhanced ==> (s.refreshWaiters[j].family in s.lastEoRR
                         <==> LatestEoRR(RefreshLog(ops), s.refreshWaiters[j].family).Some?);
    if s.refreshWaiters[j].family in s.lastEoRR { EoRRIsATime(enhanced, ops, s.refreshWaiters[j].family); }
  }

  lemma EoRRIsATime<E>(enhanced: bool, ops: seq<Op<E>>, f: Family)
    requires Timed(ops) && f in Run(enhanced, ops).lastEoRR
    ensures 0 < Run(enhanced, ops).lastEoRR[f]
  {
    EoRRsAreRead(enhanced, ops, f);
    var i :| 0 <= i < |ops| && ops[i].Refresh? && ops[i].at == Run(enhanced, ops).lastEoRR[f];
    assert IsTimed(ops[i]);
  }

  /** A refresh waiter that is answered or failed when it registers is never linked; what it holds is
      the newest EoRR of that moment, or nothing. */
  lemma UnlinkedRefreshWaiter<E>(enhanced: bool, ops: seq<Op<E>>, fam: Family, after: Time)
    requires Timed(ops)
    ensures var s := Run(enhanced, ops);
            var r := s.RefreshRegistered(fam, after);
            && (s.RegisterRefresh(fam, after) == s <==> r.done)
            && (r.done <==> s.Answered(fam, after) || s.failed.Some?)
            && (r.ts != 0 <==> s.Answered(fam, after))
            && (r.ts != 0 ==> enhanced && LatestEoRR(RefreshLog(ops), fam) == Some(r.ts))
  {
    var s := Run(enhanced, ops);
    RefreshAccounting(enhanced, ops);
    if fam in s.lastEoRR { EoRRIsATime(enhanced, ops, fam); }
    if !s.Answered(fam, after) && s.failed.None? {
      assert |s.RegisterRefresh(fam, after).refreshWaiters| == |s.refreshWaiters| + 1;
    }
  }

  // ----- the same, read off the operations themselves

  predicate IsEoRR<E>(op: Op<E>, f: Family) { op.Refresh? && op.demarcation == EORR && op.fam == f }

  /** The receiver holds an EoRR of a family exactly if RFC 7313 was negotiated and one was read, and it
      is the last one read. */
  lemma {:induction false} NewestEoRR<E>(enhanced: bool, ops: seq<Op<E>>, f: Family)
    ensures f in Run(enhanced, ops).lastEoRR <==> enhanced && exists i :: 0 <= i < |ops| && IsEoRR(ops[i], f)
    ensures enhanced ==>
              forall i :: 0 <= i < |ops| && IsEoRR(ops[i], f) && (forall j :: i < j < |ops| ==> !IsEoRR(ops[j], f))
                          ==> f in Run(enhanced, ops).lastEoRR && Run(enhanced, ops).lastEoRR[f] == ops[i].at
  {
    if ops != [] {
      var init, op := ops[..|ops| - 1], ops[|ops| - 1];
      assert ops == init + [op];
      NewestEoRR(enhanced, init, f);
      EoRRStep(Run(enhanced, init), enhanced, op, f);
      assert forall i :: 0 <= i < |init| ==> ops[i] == init[i];
      assert ops[|init|] == op;
    }
  }

  lemma EoRRStep<E>(s: State<E>, enhanced: bool, op: Op<E>, f: Family)
    ensures var r := Step(s, enhanced, op);
            if enhanced && IsEoRR(op, f) then f in r.lastEoRR && r.lastEoRR[f] == op.at
            else (f in r.lastEoRR <==> f in s.lastEoRR) && (f in s.lastEoRR ==> r.lastEoRR[f] == s.lastEoRR[f])
  {
    if op.Update? { UpdateFrame(s, op.ts, op.reach, op.unreach); }
  }

  /** Positions of the ROUTE-REFRESH messages with one of the given subtypes. */
  function Positions<E>(ops: seq<Op<E>>, subtypes: set<nat>): set<nat> {
    set i: nat | i < |ops| && ops[i].Refresh? && ops[i].demarcation in subtypes
  }

  lemma PositionsSnoc<E>(init: seq<Op<E>>, op: Op<E>, subtypes: set<nat>)
    ensures |Positions(init + [op], subtypes)|
         == |Positions(init, subtypes)| + if op.Refresh? && op.demarcation in subtypes then 1 else 0
  {
    var more := if op.Refresh? && op.demarcation in subtypes then {|init|} else {};
    assert Positions(init + [op], subtypes) == Positions(init, subtypes) + more;
  }

  function Messages<E>(ops: seq<Op<E>>): set<nat> { set i: nat | i < |ops| && ops[i].Refresh? }

  lemma MessagesSnoc<E>(init: seq<Op<E>>, op: Op<E>)
    ensures |Messages(init + [op])| == |Messages(init)| + if op.Refresh? then 1 else 0
  {
    var more := if op.Refresh? then {|init|} else {};
    assert Messages(init + [op]) == Messages(init) + more;
  }

  /** The three counters: with RFC 7313 the BoRRs and the EoRRs read are counted apart from the rest;
      without it everything counts as a plain request. */
  lemma {:induction false} RefreshCounters<E>(enhanced: bool, ops: seq<Op<E>>)
    ensures Run(enhanced, ops).borrN == if enhanced then |Positions(ops, {BORR})| else 0
    ensures Run(enhanced, ops).eorrN == if enhanced then |Positions(ops, {EORR})| else 0
    ensures Run(enhanced, ops).routeRefreshN + Run(enhanced, ops).borrN + Run(enhanced, ops).eorrN
         == |Messages(ops)|
  {
    if ops == [] {
      assert Messages<E>([]) == {};
    } else {
      var init, op := ops[..|ops| - 1], ops[|ops| - 1];
      assert ops == init + [op];
      RefreshCounters(enhanced, init);
      PositionsSnoc(init, op, {BORR});
      PositionsSnoc(init, op, {EORR});
      MessagesSnoc(init, op);
      CounterStep(Run(enhanced, init), enhanced, op);
    }
  }

  lemma CounterStep<E>(s: State<E>, enhanced: bool, op: Op<E>)
    ensures var r := Step(s, enhanced, op);
            && r.borrN == s.borrN + (if enhanced && op.Refresh? && op.demarcation == BORR then 1 else 0)
            && r.eorrN == s.eorrN + (if enhanced && op.Refresh? && op.demarcation == EORR then 1 else 0)
            && r.routeRefreshN + r.borrN + r.eorrN
               == s.routeRefreshN + s.borrN + s.eorrN + (if op.Refresh? then 1 else 0)
  {
    if op.Update? { UpdateFrame(s, op.ts, op.reach, op.unreach); }
  }

  // ----- from the call on

  /** Where one operation leaves the refresh waiter at position p; None if it deregisters it. */
  function FollowRefresh<E>(p: nat, op: Op<E>): Option<nat> {
    if !op.DeregisterRefresh? || p < op.j then Some(p) else if op.j == p then None else Some(p - 1)
  }

  function TrackRefresh<E>(i: nat, more: seq<Op<E>>): Option<nat> {
    if more == [] then Some(i)
    else
      match TrackRefresh(i, more[..|more| - 1])
      case None => None
      case Some(p) => FollowRefresh(p, more[|more| - 1])
  }

  ghost predicate SameRefresh(r: RefreshWaiterState, v: RefreshWaiterState) {
    v.family == r.family && v.after == r.after
  }

  lemma StepFollowsRefresh<E>(s: State<E>, enhanced: bool, op: Op<E>, p: nat)
    requires p < |s.refreshWaiters| && FollowRefresh(p, op).Some?
    ensures FollowRefresh(p, op).value < |Step(s, enhanced, op).refreshWaiters|
    ensures SameRefresh(s.refreshWaiters[p], Step(s, enhanced, op).refreshWaiters[FollowRefresh(p, op).value])
  {
    if op.Update? { UpdateFrame(s, op.ts, op.reach, op.unreach); }
  }

  lemma {:induction false} RefreshIsTracked<E>(enhanced: bool, ops: seq<Op<E>>, more: seq<Op<E>>, i: nat)
    requires i < |Run(enhanced, ops).refreshWaiters| && TrackRefresh(i, more).Some?
    ensures TrackRefresh(i, more).value < |Run(enhanced, ops + more).refreshWaiters|
    ensures SameRefresh(Run(enhanced, ops).refreshWaiters[i],
                        Run(enhanced, ops + more).refreshWaiters[TrackRefresh(i, more).value])
  {
    if more == [] {
      assert ops + more == ops;
    } else {
      var n := |more| - 1;
      RefreshIsTracked(enhanced, ops, more[..n], i);
      assert (ops + more)[..|ops + more| - 1] == ops + more[..n];
      StepFollowsRefresh(Run(enhanced, ops + more[..n]), enhanced, more[n], TrackRefresh(i, more[..n]).value);
    }
  }

  /** A wait for a refresh that is neither answered nor failed at the call is one linked waiter for that
      family and cutoff until it is deregistered; it is released exactly when the session fails or RFC 7313
      was negotiated and an EoRR of the family, not before the cutoff, is the last one read. */
  lemma RefreshWaitSinceCall<E>(enhanced: bool, ops: seq<Op<E>>, fam: Family, after: Time, more: seq<Op<E>>)
    requires Timed(ops + [RegisterRefresh(fam, after)] + more)
    requires !Run(enhanced, ops).Answered(fam, after) && Run(enhanced, ops).failed.None?
    requires TrackRefresh(|Run(enhanced, ops).refreshWaiters|, more).Some?
    ensures var all := ops + [RegisterRefresh(fam, after)] + more;
            var s, p := Run(enhanced, all), TrackRefresh(|Run(enhanced, ops).refreshWaiters|, more).value;
            && p < |s.refreshWaiters|
            && s.refreshWaiters[p].family == fam && s.refreshWaiters[p].after == after
            && s.refreshWaiters[p].ts == (if s.Answered(fam, after) then s.lastEoRR[fam] else 0)
            && (s.refreshWaiters[p].done <==> s.failed.Some? || s.Answered(fam, after))
  {
    var s0 := Run(enhanced, ops);
    var waiting := ops + [RegisterRefresh(fam, after)];
    assert waiting[..|ops|] == ops;
    RefreshIsTracked(enhanced, waiting, more, |s0.refreshWaiters|);
    RefreshRunInv(enhanced, waiting + more);
  }
}
