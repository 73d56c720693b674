/**
 The receiver's bookkeeping as a value: what one locked section of internal/peer/recv.go
 does to the observed set and to every linked waiter.

 The class in ObservedSet.dfy is proved to perform exactly these transitions; the
 lemmas of ObservedRuns.dfy say what the transitions amount to over whole runs.
 */
module ObservedState {
  import opened Outcomes
  import opened History

  type Family = nat

  /** One blocked WaitForPrefixes call. `born` counts the events recorded before it registered. */
  datatype WaiterState = WaiterState(want: set<Key>, pending: set<Key>, onlyAfter: Time,
                                     first: Time, last: Time, done: bool, born: nat)
  {
    function OnReach(key: Key, firstSeen: Time, ts: Time): WaiterState {
      if key !in want || (onlyAfter != 0 && firstSeen < onlyAfter) then this
      else
        var p := pending - {key};
        this.(pending := p,
              first := if key in pending && (first == 0 || firstSeen < first) then firstSeen else first,
              last := if last == 0 || last < ts then ts else last,
              done := done || p == {})
    }

    function OnWithdraw(key: Key): WaiterState {
      if key in want then this.(pending := pending + {key}) else this
    }
  }

  /** One blocked WaitForRouteRefreshEnd call. */
  datatype RefreshWaiterState = RefreshWaiterState(family: Family, after: Time, ts: Time, done: bool)
  {
    predicate Accepts(fam: Family, t: Time) {
      family == fam && (after == 0 || after <= t)
    }

    function OnEoRR(fam: Family, t: Time): RefreshWaiterState {
      if Accepts(fam, t) then this.(ts := t, done := true) else this
    }
  }

  // ROUTE-REFRESH message subtypes (section 3 of RFC 7313).
  const BORR: nat := 1
  const EORR: nat := 2

  datatype State<E> = State(failed: Option<E>,
                            firstSeen: map<Key, Time>, withdrawn: set<Key>,
                            updateSeq: nat, advertiseN: nat, withdrawN: nat,
                            lastUpdateAt: Time, firstUpdate: Time,
                            waiters: seq<WaiterState>,
                            routeRefreshN: nat, borrN: nat, eorrN: nat,
                            lastEoRR: map<Family, Time>,
                            refreshWaiters: seq<RefreshWaiterState>)
  {
    /** Start of applyUpdate: the counters and clocks of one UPDATE. */
    function Touch(ts: Time): State<E> {
      this.(updateSeq := updateSeq + 1,
            firstUpdate := if firstUpdate == 0 then ts else firstUpdate,
            lastUpdateAt := ts)
    }

    function ReachOne(ts: Time, key: Key): State<E> {
      var fs := if key in firstSeen then firstSeen[key] else ts;
      this.(firstSeen := firstSeen[key := fs],
            withdrawn := withdrawn - {key},
            advertiseN := advertiseN + 1,
            waiters := NotifyReach(waiters, key, fs, ts))
    }

    function WithdrawOne(key: Key): State<E> {
      this.(withdrawn := withdrawn + {key},
            withdrawN := withdrawN + 1,
            waiters := NotifyWithdraw(waiters, key))
    }

    function ReachAll(ts: Time, keys: seq<Key>): State<E> {
      if keys == [] then this
      else ReachAll(ts, keys[..|keys| - 1]).ReachOne(ts, keys[|keys| - 1])
    }

    function WithdrawAll(keys: seq<Key>): State<E> {
      if keys == [] then this
      else WithdrawAll(keys[..|keys| - 1]).WithdrawOne(keys[|keys| - 1])
    }

    /** One applyUpdate: every reach first, then every unreach. */
    function Update(ts: Time, reach: seq<Key>, unreach: seq<Key>): State<E> {
      Touch(ts).ReachAll(ts, reach).WithdrawAll(unreach)
    }

    predicate Matches(key: Key, onlyAfter: Time) {
      key in firstSeen && key !in withdrawn && (onlyAfter == 0 || onlyAfter <= firstSeen[key])
    }

    /** registerWaiter's treatment of one entry of the want list. */
    function Admit(w: WaiterState, key: Key): WaiterState {
      if Matches(key, w.onlyAfter) then
        var fs := firstSeen[key];
        w.(want := w.want + {key},
           first := if w.first == 0 || fs < w.first then fs else w.first,
           last := if w.last == 0 || w.last < fs then fs else w.last)
      else
        w.(want := w.want + {key}, pending := w.pending + {key})
    }

    function AdmitAll(want: seq<Key>, onlyAfter: Time): WaiterState {
      if want == [] then WaiterState({}, {}, onlyAfter, 0, 0, false, advertiseN + withdrawN)
      else Admit(AdmitAll(want[..|want| - 1], onlyAfter), want[|want| - 1])
    }

    /** A waiter with nothing left to wait for, or on a dead session, is released at once and
        never linked. */
    predicate Links(want: seq<Key>, onlyAfter: Time) {
      AdmitAll(want, onlyAfter).pending != {} && failed.None?
    }

    function Registered(want: seq<Key>, onlyAfter: Time): WaiterState {
      AdmitAll(want, onlyAfter).(done := !Links(want, onlyAfter))
    }

    function Register(want: seq<Key>, onlyAfter: Time): State<E> {
      if Links(want, onlyAfter) then this.(waiters := waiters + [Registered(want, onlyAfter)]) else this
    }

    function Deregister(i: nat): State<E> {
      if i < |waiters| then this.(waiters := waiters[..i] + waiters[i + 1..]) else this
    }

    function Fail(err: E): State<E> {
      this.(failed := if failed.None? then Some(err) else failed,
            waiters := seq(|waiters|, i requires 0 <= i < |waiters| => waiters[i].(done := true)),
            refreshWaiters := seq(|refreshWaiters|, i requires 0 <= i < |refreshWaiters| =>
              refreshWaiters[i].(done := true)))
    }

    function RouteRefresh(fam: Family, demarcation: nat, enhanced: bool, ts: Time): State<E> {
      if !enhanced then this.(routeRefreshN := routeRefreshN + 1)
      else if demarcation == BORR then this.(borrN := borrN + 1)
      else if demarcation == EORR then
        this.(eorrN := eorrN + 1, lastEoRR := lastEoRR[fam := ts],
              refreshWaiters := NotifyEoRR(refreshWaiters, fam, ts))
      else this.(routeRefreshN := routeRefreshN + 1)
    }

    predicate Answered(fam: Family, after: Time) {
      fam in lastEoRR && (after == 0 || after <= lastEoRR[fam])
    }

    function RefreshRegistered(fam: Family, after: Time): RefreshWaiterState {
      if Answered(fam, after) then RefreshWaiterState(fam, after, lastEoRR[fam], true)
      else RefreshWaiterState(fam, after, 0, failed.Some?)
    }

    function RegisterRefresh(fam: Family, after: Time): State<E> {
      if Answered(fam, after) || failed.Some? then this
      else this.(refreshWaiters := refreshWaiters + [RefreshRegistered(fam, after)])
    }

    function DeregisterRefresh(i: nat): State<E> {
      if i < |refreshWaiters|
      then this.(refreshWaiters := refreshWaiters[..i] + refreshWaiters[i + 1..])
      else this
    }
  }

  function Initial<E>(): State<E> {
    State(None, map[], {}, 0, 0, 0, 0, 0, [], 0, 0, 0, map[], [])
  }

  function NotifyReach(ws: seq<WaiterState>, key: Key, fs: Time, ts: Time): seq<WaiterState> {
    seq(|ws|, i requires 0 <= i < |ws| => ws[i].OnReach(key, fs, ts))
  }

  function NotifyWithdraw(ws: seq<WaiterState>, key: Key): seq<WaiterState> {
    seq(|ws|, i requires 0 <= i < |ws| => ws[i].OnWithdraw(key))
  }

  function NotifyEoRR(ws: seq<RefreshWaiterState>, fam: Family, ts: Time): seq<RefreshWaiterState> {
    seq(|ws|, i requires 0 <= i < |ws| => ws[i].OnEoRR(fam, ts))
  }

  /** What the final locked read of WaitForPrefixes reports. */
  datatype WaitError<E> = SessionDown(cause: E) | TimedOut

  function WaitOutcome<E>(w: WaiterState, failed: Option<E>): Option<WaitError<E>> {
    if w.pending == {} then None
    else if failed.Some? then Some(SessionDown(failed.value)) else Some(TimedOut)
  }
}
