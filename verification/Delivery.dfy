/**
 From Advertise and Withdraw at one end to the observed set at the other, over any run: what the
 request's messages add to everything else that is written, read, registered and removed meanwhile,
 whatever the encoding and chunking.
 */
module Delivery {
  import opened Outcomes
  import opened PathKey
  import opened Nlri
  import opened Packet
  import opened ObservedState
  import opened Dispatch
  import H = History
  import Runs = ObservedRuns
  import Chunking
  import S = Send
  import W = WaitList
  import OpenMessage
  import F = Fsm
  import Negotiation

  // ----- interleavings

  /** all is an interleaving of a and b, each in its own order. */
  ghost predicate Merge<T>(all: seq<T>, a: seq<T>, b: seq<T>) {
    if all == [] then a == [] && b == []
    else
      var n := |all| - 1;
      || (a != [] && a[|a| - 1] == all[n] && Merge(all[..n], a[..|a| - 1], b))
      || (b != [] && b[|b| - 1] == all[n] && Merge(all[..n], a, b[..|b| - 1]))
  }

  lemma MergeSnoc<T>(all: seq<T>, a: seq<T>, b: seq<T>, x: T)
    requires Merge(all, a, b)
    ensures Merge(all + [x], a + [x], b) && Merge(all + [x], a, b + [x])
  {
    assert (all + [x])[..|all|] == all && (a + [x])[..|a|] == a && (b + [x])[..|b|] == b;
  }

  lemma {:induction false} MergeMore<T>(all: seq<T>, a: seq<T>, b: seq<T>, more: seq<T>)
    requires Merge(all, a, b)
    ensures Merge(all + more, a, b + more)
  {
    if more == [] {
      assert all + more == all && b + more == b;
    } else {
      var init, last := more[..|more| - 1], more[|more| - 1];
      assert more == init + [last];
      MergeMore(all, a, b, init);
      MergeSnoc(all + init, a, b + init, last);
      Runs.Regroup(all, init, [last]);
      Runs.Regroup(b, init, [last]);
    }
  }

  /** What is interleaved with a part is interleaved with the parts of that part. */
  lemma {:induction false} MergeWithin<T>(all: seq<T>, x: seq<T>, c: seq<T>, a: seq<T>, b: seq<T>) returns (others: seq<T>)
    requires Merge(all, x, c) && Merge(x, a, b)
    ensures Merge(all, a, others)
  {
    if all == [] {
      others := [];
    } else {
      var init, last := all[..|all| - 1], all[|all| - 1];
      assert all == init + [last];
      if x != [] && x[|x| - 1] == last && Merge(init, x[..|x| - 1], c) {
        var x0 := x[..|x| - 1];
        if a != [] && a[|a| - 1] == last && Merge(x0, a[..|a| - 1], b) {
          others := MergeWithin(init, x0, c, a[..|a| - 1], b);
          assert a == a[..|a| - 1] + [last];
          MergeSnoc(init, a[..|a| - 1], others, last);
        } else {
          others := MergeWithin(init, x0, c, a, b[..|b| - 1]);
          MergeSnoc(init, a, others, last);
          others := others + [last];
        }
      } else {
        others := MergeWithin(init, x, c[..|c| - 1], a, b);
        MergeSnoc(init, a, others, last);
        others := others + [last];
      }
    }
  }

  /** How an interleaving ends: with the request's last message, or with somebody else's operation. */
  datatype Ending<E> =
    | Ours(init: seq<Runs.Op<E>>, chunks: seq<seq<Route>>, chunk: seq<Route>, tss: seq<Time>, ts: Time)
    | Theirs(init: seq<Runs.Op<E>>, rest: seq<Runs.Op<E>>, last: Runs.Op<E>)

  lemma LastOp<E>(during: seq<Runs.Op<E>>, withdraw: bool, on: bool, chunks: seq<seq<Route>>, tss: seq<Time>,
                  others: seq<Runs.Op<E>>) returns (e: Ending<E>)
    requires |tss| == |chunks| && during != []
    requires Merge(during, UpdateOps(withdraw, on, chunks, tss), others)
    ensures match e
            case Ours(init, cs, c, ts, t) =>
              && during == init + [UpdateOp(withdraw, on, c, t)] && chunks == cs + [c] && tss == ts + [t]
              && |ts| == |cs| && Merge(init, UpdateOps(withdraw, on, cs, ts), others)
            case Theirs(init, rest, last) =>
              && during == init + [last] && others == rest + [last]
              && Merge(init, UpdateOps(withdraw, on, chunks, tss), rest)
  {
    var mine, n := UpdateOps<E>(withdraw, on, chunks, tss), |chunks| - 1;
    var init, last := during[..|during| - 1], during[|during| - 1];
    if mine != [] && mine[n] == last && Merge(init, mine[..n], others) {
      assert mine == UpdateOps(withdraw, on, chunks[..n], tss[..n]) + [UpdateOp(withdraw, on, chunks[n], tss[n])];
      assert mine[..n] == UpdateOps(withdraw, on, chunks[..n], tss[..n]);
      e := Ours(init, chunks[..n], chunks[n], tss[..n], tss[n]);
    } else {
      e := Theirs(init, others[..|others| - 1], last);
    }
  }

  // ----- histories

  /** Nothing in the history speaks against what the request says of k. */
  ghost predicate Undisturbed(h: seq<H.Event>, k: H.Key, withdraw: bool) {
    forall i :: 0 <= i < |h| && h[i].key == k ==> h[i].Reach? == !withdraw
  }

  lemma UndisturbedConcat(a: seq<H.Event>, b: seq<H.Event>, k: H.Key, withdraw: bool)
    ensures Undisturbed(a + b, k, withdraw) <==> Undisturbed(a, k, withdraw) && Undisturbed(b, k, withdraw)
  {
    assert forall i :: 0 <= i < |a| ==> (a + b)[i] == a[i];
    assert forall i :: 0 <= i < |b| ==> (a + b)[|a| + i] == b[i];
  }

  lemma {:induction false} LatestSided(h: seq<H.Event>, k: H.Key, withdraw: bool)
    requires Undisturbed(h, k, withdraw) && H.Latest(h, k).Some?
    ensures H.Latest(h, k).value.Reach? == !withdraw
  {
    if h[|h| - 1].key != k { LatestSided(h[..|h| - 1], k, withdraw); }
  }

  lemma {:induction false} ReachesFacts(ts: Time, keys: seq<H.Key>, k: H.Key)
    ensures var h := Runs.Reaches(ts, keys);
            && H.Earliest(h, k) == (if k in keys then Some(ts) else None)
            && H.Latest(h, k) == (if k in keys then Some(H.Reach(k, ts)) else None)
  {
    if keys != [] {
      var init, last := keys[..|keys| - 1], keys[|keys| - 1];
      assert keys == init + [last];
      ReachesFacts(ts, init, k);
      assert Runs.Reaches(ts, keys) == Runs.Reaches(ts, init) + [H.Reach(last, ts)];
      H.EarliestSnoc(Runs.Reaches(ts, init), H.Reach(last, ts), k);
      H.LatestSnoc(Runs.Reaches(ts, init), H.Reach(last, ts), k);
    }
  }

  lemma {:induction false} UnreachesFacts(keys: seq<H.Key>, k: H.Key)
    ensures var h := Runs.Unreaches(keys);
            && H.Earliest(h, k) == None
            && H.Latest(h, k) == (if k in keys then Some(H.Unreach(k)) else None)
  {
    if keys != [] {
      var init, last := keys[..|keys| - 1], keys[|keys| - 1];
      assert keys == init + [last];
      UnreachesFacts(init, k);
      assert Runs.Unreaches(keys) == Runs.Unreaches(init) + [H.Unreach(last)];
      H.EarliestSnoc(Runs.Unreaches(init), H.Unreach(last), k);
      H.LatestSnoc(Runs.Unreaches(init), H.Unreach(last), k);
    }
  }

  /** The events of one message of a request. */
  lemma SidedEvents<E>(withdraw: bool, ts: Time, keys: seq<H.Key>, k: H.Key)
    ensures var h := Runs.Events<E>(SidedOp(withdraw, ts, keys));
            && (H.Earliest(h, k).Some? <==> !withdraw && k in keys)
            && (H.Latest(h, k).Some? <==> k in keys)
            && (k in keys ==> H.Latest(h, k).value.Reach? == !withdraw)
            && Undisturbed(h, k, withdraw)
            && Runs.Count(h, !withdraw) == |keys| && Runs.Count(h, withdraw) == 0
  {
    var h := Runs.Events<E>(SidedOp(withdraw, ts, keys));
    if withdraw {
      assert h == Runs.Unreaches(keys);
      UnreachesFacts(keys, k);
    } else {
      assert h == Runs.Reaches(ts, keys);
      ReachesFacts(ts, keys, k);
    }
    Runs.CountUniform(h, !withdraw);
  }

  lemma RouteKeysConcat(on: bool, a: seq<Route>, b: seq<Route>)
    ensures RouteKeys(on, a + b) == RouteKeys(on, a) + RouteKeys(on, b)
  {
  }

  lemma FlattenSnoc<T>(parts: seq<seq<T>>, part: seq<T>)
    ensures Flatten(parts + [part]) == Flatten(parts) + part
  {
    assert (parts + [part])[..|parts|] == parts;
  }

  /** What a request interleaved with anything else makes of the history of one key, compared with the
      history without it. */
  ghost predicate Adds(h: seq<H.Event>, g: seq<H.Event>, withdraw: bool, sent: bool, undisturbed: bool, k: H.Key) {
    && (H.Earliest(h, k).Some? <==> H.Earliest(g, k).Some? || (!withdraw && sent))
    && (!sent ==> H.Earliest(h, k) == H.Earliest(g, k) && H.Latest(h, k) == H.Latest(g, k))
    && (sent && undisturbed ==> H.Latest(h, k).Some? && H.Latest(h, k).value.Reach? == !withdraw)
  }

  lemma AddsOurs(h: seq<H.Event>, g: seq<H.Event>, withdraw: bool, sent: bool, undisturbed: bool, k: H.Key,
                 b: seq<H.Event>, more: bool)
    requires Adds(h, g, withdraw, sent, undisturbed, k)
    requires (H.Earliest(b, k).Some? <==> !withdraw && more) && (H.Latest(b, k).Some? <==> more)
    requires more ==> H.Latest(b, k).value.Reach? == !withdraw
    ensures Adds(h + b, g, withdraw, sent || more, undisturbed, k)
  {
    H.EarliestConcat(h, b, k);
    H.LatestConcat(h, b, k);
  }

  lemma AddsTheirs(h: seq<H.Event>, g: seq<H.Event>, withdraw: bool, sent: bool, undisturbed: bool, k: H.Key,
                   b: seq<H.Event>)
    requires Adds(h, g, withdraw, sent, undisturbed, k)
    ensures Adds(h + b, g + b, withdraw, sent, undisturbed && Undisturbed(b, k, withdraw), k)
  {
    H.EarliestConcat(h, b, k);
    H.LatestConcat(h, b, k);
    H.EarliestConcat(g, b, k);
    H.LatestConcat(g, b, k);
    if Undisturbed(b, k, withdraw) && H.Latest(b, k).Some? { LatestSided(b, k, withdraw); }
  }

  lemma {:induction false} KeyHistory<E>(h0: seq<H.Event>, during: seq<Runs.Op<E>>, withdraw: bool, on: bool,
      chunks: seq<seq<Route>>, tss: seq<Time>, others: seq<Runs.Op<E>>, k: H.Key)
    requires |tss| == |chunks| && Merge(during, UpdateOps(withdraw, on, chunks, tss), others)
    ensures Adds(h0 + Runs.Delivered(during), h0 + Runs.Delivered(others), withdraw,
                 k in RouteKeys(on, Flatten(chunks)), Undisturbed(Runs.Delivered(others), k, withdraw), k)
    decreases |during|
  {
    if during == [] {
      assert RouteKeys(on, []) == [];
    } else {
      var e := LastOp(during, withdraw, on, chunks, tss, others);
      match e {
        case Ours(init, cs, c, ts, t) =>
          KeyHistory(h0, init, withdraw, on, cs, ts, others, k);
          KeyHistoryOurs(h0, init, withdraw, on, cs, c, t, others, k);
        case Theirs(init, rest, last) =>
          KeyHistory(h0, init, withdraw, on, chunks, tss, rest, k);
          KeyHistoryTheirs(h0, init, withdraw, k in RouteKeys(on, Flatten(chunks)), rest, last, k);
      }
    }
  }

  lemma KeyHistoryOurs<E>(h0: seq<H.Event>, init: seq<Runs.Op<E>>, withdraw: bool, on: bool,
      cs: seq<seq<Route>>, c: seq<Route>, t: Time, others: seq<Runs.Op<E>>, k: H.Key)
    requires Adds(h0 + Runs.Delivered(init), h0 + Runs.Delivered(others), withdraw,
                  k in RouteKeys(on, Flatten(cs)), Undisturbed(Runs.Delivered(others), k, withdraw), k)
    ensures Adds(h0 + Runs.Delivered(init + [UpdateOp(withdraw, on, c, t)]), h0 + Runs.Delivered(others), withdraw,
                 k in RouteKeys(on, Flatten(cs + [c])), Undisturbed(Runs.Delivered(others), k, withdraw), k)
  {
    var op := UpdateOp<E>(withdraw, on, c, t);
    DeliveredAfter(h0, init, op);
    SidedEvents<E>(withdraw, t, RouteKeys(on, c), k);
    FlattenSnoc(cs, c);
    RouteKeysConcat(on, Flatten(cs), c);
    AddsOurs(h0 + Runs.Delivered(init), h0 + Runs.Delivered(others), withdraw, k in RouteKeys(on, Flatten(cs)),
             Undisturbed(Runs.Delivered(others), k, withdraw), k, Runs.Events(op), k in RouteKeys(on, c));
  }

  lemma KeyHistoryTheirs<E>(h0: seq<H.Event>, init: seq<Runs.Op<E>>, withdraw: bool, sent: bool,
                            rest: seq<Runs.Op<E>>, last: Runs.Op<E>, k: H.Key)
    requires Adds(h0 + Runs.Delivered(init), h0 + Runs.Delivered(rest), withdraw, sent,
                  Undisturbed(Runs.Delivered(rest), k, withdraw), k)
    ensures Adds(h0 + Runs.Delivered(init + [last]), h0 + Runs.Delivered(rest + [last]), withdraw, sent,
                 Undisturbed(Runs.Delivered(rest + [last]), k, withdraw), k)
  {
    DeliveredAfter(h0, init, last);
    DeliveredAfter(h0, rest, last);
    UndisturbedSnoc(rest, last, k, withdraw);
    AddsTheirs(h0 + Runs.Delivered(init), h0 + Runs.Delivered(rest), withdraw, sent,
               Undisturbed(Runs.Delivered(rest), k, withdraw), k, Runs.Events(last));
  }

  lemma DeliveredAfter<E>(h0: seq<H.Event>, ops: seq<Runs.Op<E>>, op: Runs.Op<E>)
    ensures h0 + Runs.Delivered(ops + [op]) == (h0 + Runs.Delivered(ops)) + Runs.Events(op)
  {
    Runs.DeliveredSnoc(ops, op);
    Runs.Regroup(h0, Runs.Delivered(ops), Runs.Events(op));
  }

  lemma UndisturbedSnoc<E>(ops: seq<Runs.Op<E>>, op: Runs.Op<E>, k: H.Key, withdraw: bool)
    ensures Undisturbed(Runs.Delivered(ops + [op]), k, withdraw)
       <==> Undisturbed(Runs.Delivered(ops), k, withdraw) && Undisturbed(Runs.Events(op), k, withdraw)
  {
    Runs.DeliveredSnoc(ops, op);
    UndisturbedConcat(Runs.Delivered(ops), Runs.Events(op), k, withdraw);
  }

  /** The request never speaks against itself. */
  lemma {:induction false} SameDisturbance<E>(during: seq<Runs.Op<E>>, withdraw: bool, on: bool,
      chunks: seq<seq<Route>>, tss: seq<Time>, others: seq<Runs.Op<E>>, k: H.Key)
    requires |tss| == |chunks| && Merge(during, UpdateOps(withdraw, on, chunks, tss), others)
    ensures Undisturbed(Runs.Delivered(during), k, withdraw) <==> Undisturbed(Runs.Delivered(others), k, withdraw)
    decreases |during|
  {
    if during != [] {
      var e := LastOp(during, withdraw, on, chunks, tss, others);
      match e {
        case Ours(init, cs, c, ts, t) =>
          SameDisturbance(init, withdraw, on, cs, ts, others, k);
          UndisturbedSnoc(init, UpdateOp(withdraw, on, c, t), k, withdraw);
          SidedEvents<E>(withdraw, t, RouteKeys(on, c), k);
        case Theirs(init, rest, last) =>
          SameDisturbance(init, withdraw, on, chunks, tss, rest, k);
          UndisturbedSnoc(init, last, k, withdraw);
          UndisturbedSnoc(rest, last, k, withdraw);
      }
    }
  }

  lemma CountSnoc<E>(ops: seq<Runs.Op<E>>, op: Runs.Op<E>, reach: bool)
    ensures Runs.Count(Runs.Delivered(ops + [op]), reach)
         == Runs.Count(Runs.Delivered(ops), reach) + Runs.Count(Runs.Events(op), reach)
  {
    Runs.DeliveredSnoc(ops, op);
    Runs.CountConcat(Runs.Delivered(ops), Runs.Events(op), reach);
  }

  lemma {:induction false} MergedCounts<E>(during: seq<Runs.Op<E>>, withdraw: bool, on: bool,
      chunks: seq<seq<Route>>, tss: seq<Time>, others: seq<Runs.Op<E>>, reach: bool)
    requires |tss| == |chunks| && Merge(during, UpdateOps(withdraw, on, chunks, tss), others)
    ensures Runs.Count(Runs.Delivered(during), reach)
         == Runs.Count(Runs.Delivered(others), reach) + if reach == withdraw then 0 else |Flatten(chunks)|
    decreases |during|
  {
    if during != [] {
      var e := LastOp(during, withdraw, on, chunks, tss, others);
      match e {
        case Ours(init, cs, c, ts, t) =>
          MergedCounts(init, withdraw, on, cs, ts, others, reach);
          CountSnoc(init, UpdateOp(withdraw, on, c, t), reach);
          SidedEvents<E>(withdraw, t, RouteKeys(on, c), "");
          FlattenSnoc(cs, c);
        case Theirs(init, rest, last) =>
          MergedCounts(init, withdraw, on, chunks, tss, rest, reach);
          CountSnoc(init, last, reach);
          CountSnoc(rest, last, reach);
      }
    }
  }

  // ----- whole requests

  /** One key at the receiver after a request interleaved with anything else, compared with the run
      without the request. */
  lemma KeyState<E>(enhanced: bool, before: seq<Runs.Op<E>>, during: seq<Runs.Op<E>>, withdraw: bool, on: bool,
      chunks: seq<seq<Route>>, tss: seq<Time>, others: seq<Runs.Op<E>>, k: H.Key)
    requires |tss| == |chunks| && Merge(during, UpdateOps(withdraw, on, chunks, tss), others)
    ensures var s, r := Runs.Run(enhanced, before + others), Runs.Run(enhanced, before + during);
            var sent := k in RouteKeys(on, Flatten(chunks));
            && (k in r.firstSeen <==> k in s.firstSeen || (!withdraw && sent))
            && (!sent ==> (k in r.withdrawn <==> k in s.withdrawn))
            && (sent && Undisturbed(Runs.Delivered(others), k, withdraw) ==> (k in r.withdrawn <==> withdraw))
  {
    var h0 := Runs.Delivered(before);
    Runs.DeliveredConcat(before, during);
    Runs.DeliveredConcat(before, others);
    KeyHistory(h0, during, withdraw, on, chunks, tss, others, k);
    Runs.LatestOfReached(h0 + Runs.Delivered(during), k);
    KeyMaps(enhanced, before + during, k);
    KeyMaps(enhanced, before + others, k);
  }

  lemma KeyMaps<E>(enhanced: bool, ops: seq<Runs.Op<E>>, k: H.Key)
    ensures var s, h := Runs.Run(enhanced, ops), Runs.Delivered(ops);
            && (k in s.firstSeen <==> H.Earliest(h, k).Some?)
            && (k in s.firstSeen ==> H.Earliest(h, k) == Some(s.firstSeen[k]))
            && (k in s.withdrawn <==> H.Latest(h, k) == Some(H.Unreach(k)))
  {
    Runs.RunInv(enhanced, ops);
    assert Runs.MapsInv(Runs.Run(enhanced, ops), Runs.Delivered(ops));
  }

  /** Exactly the routes of a successful request reach the receiver, whatever is received, registered,
      removed or written in between: an Advertise adds exactly their keys to those ever seen, every other
      key is as it would be without the request, the sent keys are withdrawn exactly if this was a
      Withdraw, unless somebody else says the opposite of one meanwhile, and the counter of its side grows
      by the number of routes. Keys carry the Path Identifier (0 by default) exactly when ADD-PATH is on in
      this direction. */
  lemma RequestIsDelivered<E>(enhanced: bool, before: seq<Runs.Op<E>>, during: seq<Runs.Op<E>>, withdraw: bool,
      on: bool, chunks: seq<seq<Route>>, tss: seq<Time>, others: seq<Runs.Op<E>>)
    requires |tss| == |chunks| && Merge(during, UpdateOps(withdraw, on, chunks, tss), others)
    ensures var s, r := Runs.Run(enhanced, before + others), Runs.Run(enhanced, before + during);
            var keys := RouteKeys(on, Flatten(chunks));
            && (forall k :: k in r.firstSeen <==> k in s.firstSeen || (!withdraw && k in keys))
            && (forall k :: k !in keys ==> (k in r.withdrawn <==> k in s.withdrawn))
            && (forall k :: k in keys && Undisturbed(Runs.Delivered(others), k, withdraw)
                            ==> (k in r.withdrawn <==> withdraw))
            && r.advertiseN == s.advertiseN + (if withdraw then 0 else |Flatten(chunks)|)
            && r.withdrawN == s.withdrawN + (if withdraw then |Flatten(chunks)| else 0)
  {
    var s, r := Runs.Run(enhanced, before + others), Runs.Run(enhanced, before + during);
    var keys := RouteKeys(on, Flatten(chunks));
    forall k
      ensures k in r.firstSeen <==> k in s.firstSeen || (!withdraw && k in keys)
      ensures k !in keys ==> (k in r.withdrawn <==> k in s.withdrawn)
      ensures k in keys && Undisturbed(Runs.Delivered(others), k, withdraw) ==> (k in r.withdrawn <==> withdraw)
    {
      KeyState(enhanced, before, during, withdraw, on, chunks, tss, others, k);
    }
    CountersGrow(enhanced, before, during, withdraw, on, chunks, tss, others);
  }

  lemma CountersGrow<E>(enhanced: bool, before: seq<Runs.Op<E>>, during: seq<Runs.Op<E>>, withdraw: bool,
      on: bool, chunks: seq<seq<Route>>, tss: seq<Time>, others: seq<Runs.Op<E>>)
    requires |tss| == |chunks| && Merge(during, UpdateOps(withdraw, on, chunks, tss), others)
    ensures var s, r := Runs.Run(enhanced, before + others), Runs.Run(enhanced, before + during);
            && r.advertiseN == s.advertiseN + (if withdraw then 0 else |Flatten(chunks)|)
            && r.withdrawN == s.withdrawN + (if withdraw then |Flatten(chunks)| else 0)
  {
    Runs.StatsAreCounts(enhanced, before + during);
    Runs.StatsAreCounts(enhanced, before + others);
    CountAfter(before, during, true);
    CountAfter(before, during, false);
    CountAfter(before, others, true);
    CountAfter(before, others, false);
    MergedCounts(during, withdraw, on, chunks, tss, others, true);
    MergedCounts(during, withdraw, on, chunks, tss, others, false);
  }

  lemma CountAfter<E>(before: seq<Runs.Op<E>>, more: seq<Runs.Op<E>>, reach: bool)
    ensures Runs.Count(Runs.Delivered(before + more), reach)
         == Runs.Count(Runs.Delivered(before), reach) + Runs.Count(Runs.Delivered(more), reach)
  {
    Runs.DeliveredConcat(before, more);
    Runs.CountConcat(Runs.Delivered(before), Runs.Delivered(more), reach);
  }

  /** What any linked waiter makes of it, whenever it registered: after a Withdraw it waits for every sent
      key it wants, after an Advertise only for those first seen before its cutoff; and for keys that were
      not sent nothing changes. */
  lemma WaiterSeesRequest<E>(enhanced: bool, before: seq<Runs.Op<E>>, during: seq<Runs.Op<E>>, withdraw: bool,
      on: bool, chunks: seq<seq<Route>>, tss: seq<Time>, others: seq<Runs.Op<E>>, i: nat, k: H.Key)
    requires |tss| == |chunks| && Merge(during, UpdateOps(withdraw, on, chunks, tss), others)
    requires i < |Runs.Run(enhanced, before + during).waiters|
    requires k in Runs.Run(enhanced, before + during).waiters[i].want
    ensures var r := Runs.Run(enhanced, before + during);
            var w, sent := r.waiters[i], k in RouteKeys(on, Flatten(chunks));
            && (!sent ==> (k in w.pending <==> !H.Satisfied(Runs.Delivered(before + others), k, w.onlyAfter)))
            && (sent && Undisturbed(Runs.Delivered(others), k, withdraw) ==>
                  (k in w.pending <==> withdraw || (k in r.firstSeen && r.firstSeen[k] < w.onlyAfter)))
  {
    var h0 := Runs.Delivered(before);
    Runs.DeliveredConcat(before, during);
    Runs.DeliveredConcat(before, others);
    KeyHistory(h0, during, withdraw, on, chunks, tss, others, k);
    KeyMaps(enhanced, before + during, k);
    Runs.PendingIsHistoryQuery(enhanced, before + during, i);
  }

  /** No UPDATE of the run was read before c. */
  ghost predicate ReadSince<E>(ops: seq<Runs.Op<E>>, c: Time) {
    forall j :: 0 <= j < |ops| && ops[j].Update? ==> c <= ops[j].ts
  }

  lemma {:induction false} ReadAfter<E>(ops: seq<Runs.Op<E>>, c: Time, k: H.Key)
    requires ReadSince(ops, c)
    requires H.Earliest(Runs.Delivered(ops), k).Some?
    ensures c <= H.Earliest(Runs.Delivered(ops), k).value
  {
    var init, last := ops[..|ops| - 1], ops[|ops| - 1];
    H.EarliestConcat(Runs.Delivered(init), Runs.Events(last), k);
    if H.Earliest(Runs.Delivered(init), k).Some? {
      ReadAfter(init, c, k);
    } else {
      H.EarliestConcat(Runs.Reaches(last.ts, last.reach), Runs.Unreaches(last.unreach), k);
      ReachesFacts(last.ts, last.reach, k);
      UnreachesFacts(last.unreach, k);
    }
  }

  /** First-seen times across a request: what was known keeps its time, the rest gets a time from the
      UPDATEs read meanwhile. */
  lemma FirstSeenAcross<E>(enhanced: bool, before: seq<Runs.Op<E>>, during: seq<Runs.Op<E>>, c: Time, k: H.Key)
    requires ReadSince(during, c)
    requires k in Runs.Run(enhanced, before + during).firstSeen
    ensures var s0, r := Runs.Run(enhanced, before), Runs.Run(enhanced, before + during);
            if k in s0.firstSeen then r.firstSeen[k] == s0.firstSeen[k] else c <= r.firstSeen[k]
  {
    Runs.DeliveredConcat(before, during);
    H.EarliestConcat(Runs.Delivered(before), Runs.Delivered(during), k);
    KeyMaps(enhanced, before, k);
    KeyMaps(enhanced, before + during, k);
    if k !in Runs.Run(enhanced, before).firstSeen { ReadAfter(during, c, k); }
  }

  /** k is not withdrawn in r, and was not already known before c in s0. */
  ghost predicate Current<E>(s0: State<E>, r: State<E>, c: Time, k: H.Key) {
    k !in r.withdrawn && (k in s0.firstSeen ==> c <= s0.firstSeen[k])
  }

  /** A waiter that wants nothing but advertised keys, with the write time of the Advertise as its cutoff
      or any other cutoff c that no UPDATE read since precedes (0: none): once everything is dispatched it
      is satisfied, and released, exactly when nobody has withdrawn one of its keys since and none of them
      was already known before the cutoff. */
  lemma AdvertiseWakes<E>(enhanced: bool, before: seq<Runs.Op<E>>, during: seq<Runs.Op<E>>, on: bool,
      chunks: seq<seq<Route>>, tss: seq<Time>, others: seq<Runs.Op<E>>, i: nat, c: Time)
    requires |tss| == |chunks| && Merge(during, UpdateOps(false, on, chunks, tss), others)
    requires i < |Runs.Run(enhanced, before + during).waiters|
    requires Runs.Run(enhanced, before + during).waiters[i].onlyAfter == c
    requires forall k :: k in Runs.Run(enhanced, before + during).waiters[i].want ==> k in RouteKeys(on, Flatten(chunks))
    requires ReadSince(during, c)
    ensures var s0, r := Runs.Run(enhanced, before), Runs.Run(enhanced, before + during);
            && (r.waiters[i].pending == {} <==> forall k :: k in r.waiters[i].want ==> Current(s0, r, c, k))
            && (r.waiters[i].pending == {} ==> r.waiters[i].done)
  {
    var s0, r := Runs.Run(enhanced, before), Runs.Run(enhanced, before + during);
    var w := r.waiters[i];
    forall k | k in w.want
      ensures k !in w.pending <==> Current(s0, r, c, k)
    {
      KeyState(enhanced, before, during, false, on, chunks, tss, others, k);
      KnownKeyPending(enhanced, before, during, i, k);
    }
    EmptyMeansReleased(enhanced, before + during, i);
  }

  lemma EmptyMeansReleased<E>(enhanced: bool, ops: seq<Runs.Op<E>>, i: nat)
    requires i < |Runs.Run(enhanced, ops).waiters|
    ensures Runs.Run(enhanced, ops).waiters[i].pending <= Runs.Run(enhanced, ops).waiters[i].want
    ensures Runs.Run(enhanced, ops).waiters[i].pending == {} ==> Runs.Run(enhanced, ops).waiters[i].done
  {
    Runs.PendingIsHistoryQuery(enhanced, ops, i);
    Runs.WakeUpIsExact(enhanced, ops, i);
  }

  /** A wanted key that has been seen, at a waiter whose cutoff no UPDATE read since `before` precedes. */
  lemma KnownKeyPending<E>(enhanced: bool, before: seq<Runs.Op<E>>, during: seq<Runs.Op<E>>, i: nat, k: H.Key)
    requires i < |Runs.Run(enhanced, before + during).waiters|
    requires k in Runs.Run(enhanced, before + during).waiters[i].want
    requires k in Runs.Run(enhanced, before + during).firstSeen
    requires ReadSince(during, Runs.Run(enhanced, before + during).waiters[i].onlyAfter)
    ensures var s0, r := Runs.Run(enhanced, before), Runs.Run(enhanced, before + during);
            k !in r.waiters[i].pending <==> Current(s0, r, r.waiters[i].onlyAfter, k)
  {
    var c := Runs.Run(enhanced, before + during).waiters[i].onlyAfter;
    FirstSeenAcross(enhanced, before, during, c, k);
    Runs.PendingIsHistoryQuery(enhanced, before + during, i);
    KeyMaps(enhanced, before + during, k);
    Runs.LatestOfReached(Runs.Delivered(before + during), k);
  }

  // ----- what a script waits for

  /** The text asks for this route: its prefix, and exactly if keys show one the Path Identifier the route
      is sent with, in any 32-bit decimal notation. */
  ghost predicate AsksForRoute(canon: W.Canon, s: string, on: bool, r: Route) {
    var base := if Cut(s).Some? then Cut(s).value.0 else s;
    && canon(base) == Some(r.name)
    && (on <==> Cut(s).Some?)
    && (on ==> ParseUint32(Cut(s).value.1) == Some(match r.pathId case Some(id) => id case None => 0))
  }

  /** IP routes, with 4-octet Path Identifiers. */
  ghost predicate IpRoutes(routes: seq<Route>) {
    forall i :: 0 <= i < |routes| ==>
                  PrefixShaped(routes[i].name) && (routes[i].pathId.Some? ==> routes[i].pathId.value <= MAX_ID)
  }

  /** The parser turns a text into a key of the request exactly when it asks for one of its routes. */
  lemma TextIsSentKey(canon: W.Canon, s: string, on: bool, routes: seq<Route>)
    requires W.PrintsPrefixes(canon) && IpRoutes(routes)
    ensures (exists r :: r in routes && AsksForRoute(canon, s, on, r))
       <==> W.EntryKey(canon, W.Text(s)).Ok? && W.EntryKey(canon, W.Text(s)).value in RouteKeys(on, routes)
  {
    var keys := RouteKeys(on, routes);
    forall i | 0 <= i < |routes|
      ensures W.EntryKey(canon, W.Text(s)) == Ok(keys[i]) <==> AsksForRoute(canon, s, on, routes[i])
    {
      W.TextBecomesKey(canon, s, on, routes[i].Nlri());
    }
  }

  /** From script to script: one waits for a list of texts, each asking for a route that the other
      advertises, with any cutoff that no UPDATE read since precedes. Once the advertisement is
      dispatched, in the middle of whatever else, the wait is satisfied and released exactly when none of
      those keys is withdrawn or was known before the cutoff. */
  lemma ScriptIsAnswered<E>(canon: W.Canon, texts: seq<string>, want: seq<H.Key>, enhanced: bool,
      before: seq<Runs.Op<E>>, during: seq<Runs.Op<E>>, on: bool, chunks: seq<seq<Route>>, tss: seq<Time>,
      others: seq<Runs.Op<E>>, i: nat, c: Time)
    requires W.PrintsPrefixes(canon) && IpRoutes(Flatten(chunks))
    requires |want| == |texts| && forall j :: 0 <= j < |texts| ==> W.EntryKey(canon, W.Text(texts[j])) == Ok(want[j])
    requires forall j :: 0 <= j < |texts| ==> exists r :: r in Flatten(chunks) && AsksForRoute(canon, texts[j], on, r)
    requires |tss| == |chunks| && Merge(during, UpdateOps(false, on, chunks, tss), others)
    requires i < |Runs.Run(enhanced, before + during).waiters|
    requires Runs.Run(enhanced, before + during).waiters[i].want == set k | k in want
    requires Runs.Run(enhanced, before + during).waiters[i].onlyAfter == c
    requires ReadSince(during, c)
    ensures var s0, r := Runs.Run(enhanced, before), Runs.Run(enhanced, before + during);
            && (r.waiters[i].pending == {} <==> forall k :: k in want ==> Current(s0, r, c, k))
            && (r.waiters[i].pending == {} ==> r.waiters[i].done)
  {
    forall k | k in want ensures k in RouteKeys(on, Flatten(chunks)) {
      var j :| 0 <= j < |want| && want[j] == k;
      TextIsSentKey(canon, texts[j], on, Flatten(chunks));
    }
    AdvertiseWakes(enhanced, before, during, on, chunks, tss, others, i, c);
  }

  // ----- from the wire

  /** The frames are the messages of the chunks of one request, and the receiver expects their keys. */
  ghost predicate Deliverable(frames: seq<S.Frame>, withdraw: bool, a: PathAttrs, chunks: seq<seq<Route>>,
                              fam: Family, o: Options, receive: Modes)
  {
    && S.Covers(frames, withdraw, a, chunks, o) && |frames| == |chunks|
    && (forall i :: 0 <= i < |chunks| ==> Chunking.OfFamily(chunks[i], fam))
    && SendOn(o.addPath, fam) == ReceiveOn(receive, fam)
  }

  lemma DeliverableInit(frames: seq<S.Frame>, f: S.Frame, withdraw: bool, a: PathAttrs, chunks: seq<seq<Route>>,
                        fam: Family, o: Options, receive: Modes)
    requires Deliverable(frames + [f], withdraw, a, chunks, fam, o, receive)
    ensures chunks != [] && Deliverable(frames, withdraw, a, chunks[..|chunks| - 1], fam, o, receive)
    ensures S.Carries(f, withdraw, a, chunks[|chunks| - 1], o)
  {
    forall i | 0 <= i < |frames| ensures S.Carries(frames[i], withdraw, a, chunks[i], o) {
      assert S.Carries((frames + [f])[i], withdraw, a, chunks[i], o);
    }
    assert S.Carries((frames + [f])[|frames|], withdraw, a, chunks[|frames|], o);
  }

  lemma OwnFrameOps<E>(f: S.Frame, withdraw: bool, a: PathAttrs, chunk: seq<Route>, fam: Family, o: Options,
                       receive: Modes, ts: Time)
    requires S.Carries(f, withdraw, a, chunk, o) && Chunking.OfFamily(chunk, fam)
    requires SendOn(o.addPath, fam) == ReceiveOn(receive, fam)
    ensures FrameOps<E>(f, o.addPath, receive, ts) == [UpdateOp(withdraw, SendOn(o.addPath, fam), chunk, ts)]
  {
    DispatchBuilt<E>(receive, withdraw, a, chunk, fam, o, ts);
  }

  lemma UpdateOpsSnoc<E>(withdraw: bool, on: bool, chunks: seq<seq<Route>>, chunk: seq<Route>, tss: seq<Time>, ts: Time)
    requires |tss| == |chunks|
    ensures UpdateOps<E>(withdraw, on, chunks + [chunk], tss + [ts])
         == UpdateOps(withdraw, on, chunks, tss) + [UpdateOp(withdraw, on, chunk, ts)]
  {
    assert (chunks + [chunk])[..|chunks|] == chunks && (tss + [ts])[..|tss|] == tss;
  }

  /** The whole log of a connection, other writers included, is an interleaving of the request's
      operations with the others'. */
  lemma {:induction false} LogIsMerge<E>(log: seq<S.Frame>, tss: seq<Time>, me: nat, withdraw: bool, a: PathAttrs,
      chunks: seq<seq<Route>>, fam: Family, o: Options, receive: Modes) returns (others: seq<Runs.Op<E>>)
    requires |tss| == |log| && Deliverable(S.Own(log, me), withdraw, a, chunks, fam, o, receive)
    ensures |OwnTimes(log, tss, me)| == |chunks|
    ensures Merge(LogOps(log, o.addPath, receive, tss),
                  UpdateOps(withdraw, SendOn(o.addPath, fam), chunks, OwnTimes(log, tss, me)), others)
  {
    if log == [] {
      others := [];
    } else {
      var n, on := |log| - 1, SendOn(o.addPath, fam);
      var init, f := log[..n], log[n];
      var ops := LogOps<E>(init, o.addPath, receive, tss[..n]);
      var times := OwnTimes(init, tss[..n], me);
      if f.writer == me {
        DeliverableInit(S.Own(init, me), f, withdraw, a, chunks, fam, o, receive);
        var cs, c := chunks[..|chunks| - 1], chunks[|chunks| - 1];
        assert chunks == cs + [c];
        others := LogIsMerge(init, tss[..n], me, withdraw, a, cs, fam, o, receive);
        OwnFrameOps<E>(f, withdraw, a, c, fam, o, receive, tss[n]);
        MergeSnoc(ops, UpdateOps(withdraw, on, cs, times), others, UpdateOp(withdraw, on, c, tss[n]));
        UpdateOpsSnoc<E>(withdraw, on, cs, c, times, tss[n]);
      } else {
        others := LogIsMerge(init, tss[..n], me, withdraw, a, chunks, fam, o, receive);
        MergeMore(ops, UpdateOps(withdraw, on, chunks, times), others, FrameOps(f, o.addPath, receive, tss[n]));
        others := others + FrameOps(f, o.addPath, receive, tss[n]);
      }
    }
  }

  /** From negotiation to delivery. Two Peers accepted each other's OPEN; a request was submitted and its
      messages got on the wire among those of other writers, as Send.Submit promises of the log; and the
      receiver dispatched that log while it did anything else. Then its run is an interleaving with the
      request, to which the results above apply; in particular every key of every route that nobody speaks
      against is reachable after an Advertise and withdrawn after a Withdraw. */
  lemma NegotiatedDelivers<E>(x: OpenMessage.Config, y: OpenMessage.Config, ox: OpenMessage.Open, oy: OpenMessage.Open,
      log: seq<S.Frame>, tss: seq<Time>, me: nat, withdraw: bool, a: PathAttrs, routes: seq<Route>,
      chunks: seq<seq<Route>>, fam: Family, o: Options, enhanced: bool, before: seq<Runs.Op<E>>,
      during: seq<Runs.Op<E>>, local: seq<Runs.Op<E>>) returns (others: seq<Runs.Op<E>>)
    requires Negotiation.Exchanged(x, y, ox, oy)
    requires o.addPath == F.Outcome(OpenMessage.ApplyDefaults(x), oy).addPath
    requires S.Chunked(withdraw, a, routes, chunks, o) && Chunking.OfFamily(routes, fam)
    requires S.Covers(S.Own(log, me), withdraw, a, chunks, o) && |S.Own(log, me)| == |chunks| && |tss| == |log|
    requires Merge(during, LogOps(log, o.addPath, F.Outcome(OpenMessage.ApplyDefaults(y), ox).addPath, tss), local)
    ensures |OwnTimes(log, tss, me)| == |chunks| && Flatten(chunks) == routes
    ensures Merge(during, UpdateOps(withdraw, SendOn(o.addPath, fam), chunks, OwnTimes(log, tss, me)), others)
    ensures var r := Runs.Run(enhanced, before + during);
            forall k :: k in RouteKeys(SendOn(o.addPath, fam), routes)
                        && Undisturbed(Runs.Delivered(during), k, withdraw) ==>
                          (k in r.withdrawn <==> withdraw) && (!withdraw ==> k in r.firstSeen)
  {
    var receive, on := F.Outcome(OpenMessage.ApplyDefaults(y), ox).addPath, SendOn(o.addPath, fam);
    Negotiation.ViewsAreDual(x, y, ox, oy);
    forall i | 0 <= i < |chunks| ensures Chunking.OfFamily(chunks[i], fam) {
      S.ChunkFamily(routes, chunks, PerNlri(o, fam), Budget(o, ShellOverhead(withdraw, a, routes[0], o).value), i);
    }
    var foreign := LogIsMerge<E>(log, tss, me, withdraw, a, chunks, fam, o, receive);
    var times := OwnTimes(log, tss, me);
    others := MergeWithin(during, LogOps(log, o.addPath, receive, tss), local,
                          UpdateOps(withdraw, on, chunks, times), foreign);
    forall k | k in RouteKeys(on, routes) && Undisturbed(Runs.Delivered(during), k, withdraw)
      ensures var r := Runs.Run(enhanced, before + during);
              (k in r.withdrawn <==> withdraw) && (!withdraw ==> k in r.firstSeen)
    {
      SameDisturbance(during, withdraw, on, chunks, times, others, k);
      KeyState(enhanced, before, during, withdraw, on, chunks, times, others, k);
    }
  }

  // ----- encodings

  /** The messages of a request alone, however encoded, are its operations. */
  lemma {:induction false} RequestOps<E>(frames: seq<S.Frame>, tss: seq<Time>, withdraw: bool, a: PathAttrs,
      chunks: seq<seq<Route>>, fam: Family, o: Options, receive: Modes)
    requires |tss| == |frames| && Deliverable(frames, withdraw, a, chunks, fam, o, receive)
    ensures LogOps<E>(frames, o.addPath, receive, tss) == UpdateOps(withdraw, SendOn(o.addPath, fam), chunks, tss)
  {
    if frames != [] {
      var n := |frames| - 1;
      var init, f, cs, c, ts, t := frames[..n], frames[n], chunks[..n], chunks[n], tss[..n], tss[n];
      assert frames == init + [f] && chunks == cs + [c] && tss == ts + [t];
      DeliverableInit(init, f, withdraw, a, chunks, fam, o, receive);
      RequestOps<E>(init, ts, withdraw, a, cs, fam, o, receive);
      OwnFrameOps<E>(f, withdraw, a, c, fam, o, receive, t);
      UpdateOpsSnoc<E>(withdraw, SendOn(o.addPath, fam), cs, c, ts, t);
    }
  }

  lemma ChunkingDoesNotShow<E>(enhanced: bool, before: seq<Runs.Op<E>>, others: seq<Runs.Op<E>>, withdraw: bool, on: bool,
      chunks1: seq<seq<Route>>, tss1: seq<Time>, during1: seq<Runs.Op<E>>,
      chunks2: seq<seq<Route>>, tss2: seq<Time>, during2: seq<Runs.Op<E>>)
    requires |tss1| == |chunks1| && Merge(during1, UpdateOps(withdraw, on, chunks1, tss1), others)
    requires |tss2| == |chunks2| && Merge(during2, UpdateOps(withdraw, on, chunks2, tss2), others)
    requires Flatten(chunks1) == Flatten(chunks2)
    ensures var r1, r2 := Runs.Run(enhanced, before + during1), Runs.Run(enhanced, before + during2);
            && r1.firstSeen.Keys == r2.firstSeen.Keys
            && r1.advertiseN == r2.advertiseN && r1.withdrawN == r2.withdrawN
            && (forall k :: k !in RouteKeys(on, Flatten(chunks1)) || Undisturbed(Runs.Delivered(others), k, withdraw)
                            ==> (k in r1.withdrawn <==> k in r2.withdrawn))
  {
    RequestIsDelivered(enhanced, before, during1, withdraw, on, chunks1, tss1, others);
    RequestIsDelivered(enhanced, before, during2, withdraw, on, chunks2, tss2, others);
  }

  /** Neither the choice between traditional and MP encoding, nor the message size, nor the chunking, nor
      where the messages fall among everything else the receiver does, shows at the receiver: same keys
      known, same counters, and the same keys withdrawn, except for sent keys that somebody else speaks
      against meanwhile. */
  lemma EncodingDoesNotShow<E>(enhanced: bool, before: seq<Runs.Op<E>>, others: seq<Runs.Op<E>>, receive: Modes,
      withdraw: bool, a: PathAttrs, routes: seq<Route>, fam: Family,
      o1: Options, chunks1: seq<seq<Route>>, frames1: seq<S.Frame>, tss1: seq<Time>, during1: seq<Runs.Op<E>>,
      o2: Options, chunks2: seq<seq<Route>>, frames2: seq<S.Frame>, tss2: seq<Time>, during2: seq<Runs.Op<E>>)
    requires o1.addPath == o2.addPath && |tss1| == |frames1| && |tss2| == |frames2|
    requires Deliverable(frames1, withdraw, a, chunks1, fam, o1, receive) && Flatten(chunks1) == routes
    requires Deliverable(frames2, withdraw, a, chunks2, fam, o2, receive) && Flatten(chunks2) == routes
    requires Merge(during1, LogOps(frames1, o1.addPath, receive, tss1), others)
    requires Merge(during2, LogOps(frames2, o2.addPath, receive, tss2), others)
    ensures var r1, r2 := Runs.Run(enhanced, before + during1), Runs.Run(enhanced, before + during2);
            && r1.firstSeen.Keys == r2.firstSeen.Keys
            && r1.advertiseN == r2.advertiseN && r1.withdrawN == r2.withdrawN
            && (forall k :: k !in RouteKeys(SendOn(o1.addPath, fam), routes)
                            || Undisturbed(Runs.Delivered(others), k, withdraw)
                            ==> (k in r1.withdrawn <==> k in r2.withdrawn))
  {
    var on := SendOn(o1.addPath, fam);
    RequestOps<E>(frames1, tss1, withdraw, a, chunks1, fam, o1, receive);
    RequestOps<E>(frames2, tss2, withdraw, a, chunks2, fam, o2, receive);
    ChunkingDoesNotShow(enhanced, before, others, withdraw, on, chunks1, tss1, during1, chunks2, tss2, during2);
  }
}
