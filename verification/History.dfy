/**
 The history an observed set has been fed, and the questions a waiter asks of it.

 Nothing here mentions the maps, pending sets or latches of the receiver: these
 definitions are the reference the incremental bookkeeping is proved against.
 Timestamps are naturals; 0 stands for the zero time.Time.
 */
module History {
  import opened Outcomes

  type Key = string
  type Time = nat

  datatype Event = Reach(key: Key, ts: Time) | Unreach(key: Key)
  {
    predicate Reaches(k: Key) { Reach? && key == k }
  }

  /** Timestamp of the first reach of k, scanning from the oldest event. */
  function Earliest(h: seq<Event>, k: Key): Option<Time> {
    if h == [] then None
    else if h[0].Reaches(k) then Some(h[0].ts)
    else Earliest(h[1..], k)
  }

  /** Most recent event about k. */
  function Latest(h: seq<Event>, k: Key): Option<Event> {
    if h == [] then None
    else if h[|h| - 1].key == k then Some(h[|h| - 1])
    else Latest(h[..|h| - 1], k)
  }

  /** k was reached, and its first reach is not before the cutoff (0: no cutoff). */
  predicate Fresh(h: seq<Event>, k: Key, after: Time) {
    Earliest(h, k).Some? && (after == 0 || after <= Earliest(h, k).value)
  }

  /** What a waiter with this cutoff accepts as "k is observed, non-withdrawn". */
  predicate Satisfied(h: seq<Event>, k: Key, after: Time) {
    Fresh(h, k, after) && Latest(h, k).Some? && Latest(h, k).value.Reach?
  }

  function Unmet(h: seq<Event>, want: set<Key>, after: Time): set<Key> {
    set k | k in want && !Satisfied(h, k, after)
  }

  /** Every wanted key is satisfied at the moment the first j events have been applied. */
  ghost predicate AllMetAt(h: seq<Event>, j: nat, want: set<Key>, after: Time)
    requires j <= |h|
  {
    Unmet(h[..j], want, after) == {}
  }

  ghost predicate MetSince(h: seq<Event>, born: nat, want: set<Key>, after: Time) {
    exists j :: born <= j <= |h| && AllMetAt(h, j, want, after)
  }

  ghost predicate ReachedSince(h: seq<Event>, born: nat, k: Key) {
    exists j :: born <= j < |h| && h[j].Reaches(k)
  }

  /** k has contributed an observation to a waiter born after the first `born` events. */
  ghost predicate Counted(h: seq<Event>, born: nat, want: set<Key>, after: Time, k: Key)
    requires born <= |h|
  {
    && k in want
    && Fresh(h, k, after)
    && (Satisfied(h[..born], k, after) || ReachedSince(h, born, k))
  }

  /** t is the timestamp of an observation such a waiter has to report: the first-seen time of a
      key satisfied at birth, or the read time of a later reach that counts. */
  ghost predicate Sample(h: seq<Event>, born: nat, want: set<Key>, after: Time, t: Time)
    requires born <= |h|
  {
    || (exists k :: k in want && Satisfied(h[..born], k, after) && Earliest(h[..born], k) == Some(t))
    || (exists j :: born <= j < |h| && SampleAt(h, j, want, after, t))
  }

  ghost predicate SampleAt(h: seq<Event>, j: nat, want: set<Key>, after: Time, t: Time)
    requires j < |h|
  {
    h[j].Reach? && h[j].ts == t && h[j].key in want && Fresh(h, h[j].key, after)
  }

  ghost predicate Positive(h: seq<Event>) {
    forall i :: 0 <= i < |h| && h[i].Reach? ==> 0 < h[i].ts
  }

  /** Read timestamps never go back. */
  ghost predicate Ordered(h: seq<Event>) {
    forall i, j :: 0 <= i <= j < |h| && h[i].Reach? && h[j].Reach? ==> h[i].ts <= h[j].ts
  }

  lemma {:induction false} EarliestSnoc(h: seq<Event>, e: Event, k: Key)
    ensures Earliest(h + [e], k) ==
            if Earliest(h, k).Some? then Earliest(h, k)
            else if e.Reach? && e.key == k then Some(e.ts) else None
  {
    if h != [] {
      assert (h + [e])[1..] == h[1..] + [e];
      EarliestSnoc(h[1..], e, k);
    }
  }

  lemma LatestSnoc(h: seq<Event>, e: Event, k: Key)
    ensures Latest(h + [e], k) == if e.key == k then Some(e) else Latest(h, k)
  {
    assert (h + [e])[..|h|] == h;
  }

  lemma Snoc(h: seq<Event>, e: Event)
    ensures forall k :: Earliest(h + [e], k) ==
                        if Earliest(h, k).Some? then Earliest(h, k)
                        else if e.Reach? && e.key == k then Some(e.ts) else None
    ensures forall k :: Latest(h + [e], k) == if e.key == k then Some(e) else Latest(h, k)
  {
    forall k ensures Earliest(h + [e], k) ==
                     if Earliest(h, k).Some? then Earliest(h, k)
                     else if e.Reach? && e.key == k then Some(e.ts) else None
    {
      EarliestSnoc(h, e, k);
    }
    forall k ensures Latest(h + [e], k) == if e.key == k then Some(e) else Latest(h, k) {
      LatestSnoc(h, e, k);
    }
  }

  /** The first reach of k is some event of the history, and no reach of k precedes it. */
  lemma {:induction false} EarliestIsFirst(h: seq<Event>, k: Key)
    ensures Earliest(h, k).Some? <==> exists i :: 0 <= i < |h| && h[i].Reaches(k)
    ensures Earliest(h, k).Some? ==>
              exists i :: 0 <= i < |h| && h[i] == Reach(k, Earliest(h, k).value)
                          && forall j :: 0 <= j < i ==> !h[j].Reaches(k)
  {
    if h == [] {
    } else if h[0].Reaches(k) {
      assert h[0].Reaches(k);
    } else {
      EarliestIsFirst(h[1..], k);
      if Earliest(h, k).Some? {
        var i :| 0 <= i < |h[1..]| && h[1..][i] == Reach(k, Earliest(h[1..], k).value)
                 && forall j :: 0 <= j < i ==> !h[1..][j].Reaches(k);
        assert h[i + 1] == Reach(k, Earliest(h, k).value);
        forall j | 0 <= j < i + 1 ensures !h[j].Reaches(k) {
          if j > 0 { assert h[j] == h[1..][j - 1]; }
        }
      }
      forall i | 0 <= i < |h| && h[i].Reaches(k) ensures Earliest(h, k).Some? {
        assert h[1..][i - 1] == h[i];
      }
    }
  }

  /** First-seen is sticky: a continuation never changes it, whatever it contains. */
  lemma {:induction false} EarliestSticky(h: seq<Event>, more: seq<Event>, k: Key)
    requires Earliest(h, k).Some?
    ensures Earliest(h + more, k) == Earliest(h, k)
  {
    if more == [] {
      assert h + more == h;
    } else {
      var n := |more| - 1;
      EarliestSticky(h, more[..n], k);
      EarliestSnoc(h + more[..n], more[n], k);
      assert h + more == (h + more[..n]) + [more[n]];
    }
  }

  lemma {:induction false} EarliestConcat(h: seq<Event>, more: seq<Event>, k: Key)
    ensures Earliest(h + more, k) == if Earliest(h, k).Some? then Earliest(h, k) else Earliest(more, k)
  {
    if h == [] {
      assert h + more == more;
    } else {
      assert (h + more)[1..] == h[1..] + more;
      EarliestConcat(h[1..], more, k);
    }
  }

  lemma {:induction false} LatestConcat(h: seq<Event>, more: seq<Event>, k: Key)
    ensures Latest(h + more, k) == if Latest(more, k).Some? then Latest(more, k) else Latest(h, k)
  {
    if more == [] {
      assert h + more == h;
    } else {
      assert (h + more)[..|h + more| - 1] == h + more[..|more| - 1];
      LatestConcat(h, more[..|more| - 1], k);
    }
  }

  /** The most recent event about k is some event about k that no later one follows. */
  lemma {:induction false} LatestIsLast(h: seq<Event>, k: Key)
    ensures Latest(h, k).Some? <==> exists i :: 0 <= i < |h| && h[i].key == k
    ensures forall i :: 0 <= i < |h| && h[i].key == k && (forall j :: i < j < |h| ==> h[j].key != k)
                        ==> Latest(h, k) == Some(h[i])
  {
    if h != [] {
      var init, last := h[..|h| - 1], h[|h| - 1];
      assert h == init + [last];
      LatestIsLast(init, k);
      assert forall i :: 0 <= i < |init| ==> h[i] == init[i];
      assert h[|init|] == last;
    }
  }

  lemma MetSinceSnoc(h: seq<Event>, e: Event, born: nat, want: set<Key>, after: Time)
    requires born <= |h|
    ensures MetSince(h + [e], born, want, after)
       <==> MetSince(h, born, want, after) || Unmet(h + [e], want, after) == {}
  {
    var g := h + [e];
    assert g[..|g|] == g;
    forall j | 0 <= j <= |h| ensures AllMetAt(g, j, want, after) == AllMetAt(h, j, want, after) {
      assert g[..j] == h[..j];
    }
    if Unmet(g, want, after) == {} { assert AllMetAt(g, |g|, want, after); }
    if MetSince(h, born, want, after) {
      var j :| born <= j <= |h| && AllMetAt(h, j, want, after);
      assert AllMetAt(g, j, want, after);
    }
    if MetSince(g, born, want, after) {
      var j :| born <= j <= |g| && AllMetAt(g, j, want, after);
      if j <= |h| { assert AllMetAt(h, j, want, after); }
    }
  }

  lemma ReachedSinceSnoc(h: seq<Event>, e: Event, born: nat, k: Key)
    requires born <= |h|
    ensures ReachedSince(h + [e], born, k) <==> ReachedSince(h, born, k) || e.Reaches(k)
    ensures ReachedSince(h, born, k) ==> Earliest(h, k).Some?
  {
    var g := h + [e];
    if e.Reaches(k) { assert g[|h|].Reaches(k); }
    if ReachedSince(h, born, k) {
      var j :| born <= j < |h| && h[j].Reaches(k);
      assert g[j].Reaches(k);
      EarliestIsFirst(h, k);
    }
  }

  lemma CountedSnoc(h: seq<Event>, e: Event, born: nat, want: set<Key>, after: Time, k: Key)
    requires born <= |h|
    ensures Counted(h + [e], born, want, after, k)
       <==> Counted(h, born, want, after, k)
            || (e.Reaches(k) && k in want && Fresh(h + [e], k, after))
  {
    EarliestSnoc(h, e, k);
    ReachedSinceSnoc(h, e, born, k);
    assert (h + [e])[..born] == h[..born];
    if Satisfied(h[..born], k, after) {
      EarliestSticky(h[..born], h[born..], k);
      assert h[..born] + h[born..] == h;
    }
  }

  lemma SampleSnoc(h: seq<Event>, e: Event, born: nat, want: set<Key>, after: Time, t: Time)
    requires born <= |h|
    ensures Sample(h + [e], born, want, after, t)
       <==> Sample(h, born, want, after, t)
            || (e.Reach? && e.ts == t && e.key in want && Fresh(h + [e], e.key, after))
  {
    var g := h + [e];
    Snoc(h, e);
    assert g[..born] == h[..born];
    forall j | 0 <= j < |h| ensures SampleAt(g, j, want, after, t) <==> SampleAt(h, j, want, after, t) {
      assert g[j] == h[j];
      if h[j].Reach? {
        assert h[j].Reaches(h[j].key);
        EarliestIsFirst(h, h[j].key);
      }
    }
    assert SampleAt(g, |h|, want, after, t)
      <==> e.Reach? && e.ts == t && e.key in want && Fresh(g, e.key, after);
    if Sample(h, born, want, after, t) && exists j :: born <= j < |h| && SampleAt(h, j, want, after, t) {
      var j :| born <= j < |h| && SampleAt(h, j, want, after, t);
      assert SampleAt(g, j, want, after, t);
    }
    if exists j :: born <= j < |g| && SampleAt(g, j, want, after, t) {
      var j :| born <= j < |g| && SampleAt(g, j, want, after, t);
      if j < |h| { assert SampleAt(h, j, want, after, t); }
    }
  }
}
