/**
 internal/coord/barrier.go under every interleaving: any number of threads, each taking the atomic
 steps of ArriveTimeout whenever it likes.
 */
module Barrier {
  import opened Outcomes

  type Tid = nat

  /** Where a thread is inside ArriveTimeout; a thread not in the map has not called it. */
  datatype Pc =
    | Counted(n: nat, timed: bool)   // after arrived.Add(1)
    | Waiting(n: nat, timed: bool)   // after the target test, blocked on done (or the timer)
    | Returned(n: nat, ok: bool)

  datatype World = World(target: nat, arrived: nat, closes: nat, threads: map<Tid, Pc>)

  datatype Action = Arrive(t: Tid, timed: bool) | Test(t: Tid) | Release(t: Tid) | Expire(t: Tid)

  function Start(target: nat): World { World(target, 0, 0, map[]) }

  predicate Enabled(w: World, a: Action) {
    match a
    case Arrive(t, _) => t !in w.threads
    case Test(t) => t in w.threads && w.threads[t].Counted?
    case Release(t) => t in w.threads && w.threads[t].Waiting? && w.closes > 0
    case Expire(t) => t in w.threads && w.threads[t].Waiting? && w.threads[t].timed
  }

  /** One atomic step; a step whose thread is blocked changes nothing. */
  function Do(w: World, a: Action): World {
    if !Enabled(w, a) then w
    else
      match a
      case Arrive(t, timed) =>
        w.(arrived := w.arrived + 1, threads := w.threads[t := Counted(w.arrived + 1, timed)])
      case Test(t) =>
        var pc := w.threads[t];
        w.(closes := if pc.n == w.target then w.closes + 1 else w.closes,
           threads := w.threads[t := Waiting(pc.n, pc.timed)])
      case Release(t) => w.(threads := w.threads[t := Returned(w.threads[t].n, true)])
      case Expire(t) => w.(threads := w.threads[t := Returned(w.threads[t].n, false)])
  }

  function Run(target: nat, actions: seq<Action>): World {
    if actions == [] then Start(target)
    else Do(Run(target, actions[..|actions| - 1]), actions[|actions| - 1])
  }

  ghost predicate Issued(w: World, n: nat) { exists t :: t in w.threads && w.threads[t].n == n }

  /** Indices are issued once each, without gaps. */
  ghost predicate Indexed(w: World) {
    && |w.threads| == w.arrived
    && (forall t :: t in w.threads ==> 1 <= w.threads[t].n <= w.arrived)
    && (forall t, u :: t in w.threads && u in w.threads && w.threads[t].n == w.threads[u].n ==> t == u)
    && (forall n :: 1 <= n <= w.arrived ==> Issued(w, n))
  }

  ghost predicate PastTest(w: World, n: nat) {
    exists t :: t in w.threads && w.threads[t].n == n && !w.threads[t].Counted?
  }

  ghost predicate Inv(w: World) {
    && Indexed(w)
    && w.closes == (if PastTest(w, w.target) then 1 else 0)
    && (forall t :: t in w.threads && w.threads[t].Returned? && w.threads[t].ok ==> w.closes == 1)
  }

  /** A thread that moves on keeps its index. */
  lemma Moved(w: World, v: World, t: Tid, pc: Pc)
    requires t in w.threads && pc.n == w.threads[t].n && !pc.Counted?
    requires v == w.(closes := v.closes, threads := w.threads[t := pc])
    ensures Indexed(w) ==> Indexed(v)
    ensures forall n :: PastTest(v, n) <==> PastTest(w, n) || n == pc.n
  {
    assert forall n :: Issued(w, n) ==> Issued(v, n) by {
      forall n | Issued(w, n) ensures Issued(v, n) {
        var u :| u in w.threads && w.threads[u].n == n;
        assert u in v.threads && v.threads[u].n == n;
      }
    }
    assert v.threads.Keys == w.threads.Keys;
    assert |v.threads.Keys| == |w.threads.Keys|;
    forall n ensures PastTest(v, n) <==> PastTest(w, n) || n == pc.n {
      assert v.threads[t].n == pc.n && !v.threads[t].Counted?;
      if PastTest(w, n) {
        var u :| u in w.threads && w.threads[u].n == n && !w.threads[u].Counted?;
        assert u in v.threads && v.threads[u].n == n && !v.threads[u].Counted?;
      }
      if PastTest(v, n) {
        var u :| u in v.threads && v.threads[u].n == n && !v.threads[u].Counted?;
        if u != t { assert u in w.threads && w.threads[u].n == n && !w.threads[u].Counted?; }
      }
    }
  }

  lemma Arrived(w: World, t: Tid, timed: bool)
    requires t !in w.threads && Indexed(w)
    ensures var v := Do(w, Arrive(t, timed));
            Indexed(v) && forall n :: PastTest(v, n) <==> PastTest(w, n)
  {
    var v := Do(w, Arrive(t, timed));
    assert v.threads.Keys == w.threads.Keys + {t};
    assert |v.threads.Keys| == |w.threads.Keys| + 1;
    forall n | 1 <= n <= v.arrived ensures Issued(v, n) {
      if n == v.arrived {
        assert v.threads[t].n == n;
      } else {
        assert Issued(w, n);
        var u :| u in w.threads && w.threads[u].n == n;
        assert u in v.threads && v.threads[u].n == n;
      }
    }
    forall n ensures PastTest(v, n) <==> PastTest(w, n) {
      if PastTest(w, n) {
        var u :| u in w.threads && w.threads[u].n == n && !w.threads[u].Counted?;
        assert u in v.threads && v.threads[u].n == n && !v.threads[u].Counted?;
      }
      if PastTest(v, n) {
        var u :| u in v.threads && v.threads[u].n == n && !v.threads[u].Counted?;
        assert u in w.threads && w.threads[u].n == n && !w.threads[u].Counted?;
      }
    }
  }

  /** Only the thread with the index can be the one past the test. */
  lemma PastTestIsUnique(w: World, t: Tid)
    requires Indexed(w) && t in w.threads
    ensures PastTest(w, w.threads[t].n) <==> !w.threads[t].Counted?
  {
  }

  lemma StepInv(w: World, a: Action)
    requires Inv(w)
    ensures Inv(Do(w, a)) && Do(w, a).target == w.target
  {
    if Enabled(w, a) {
      if a.Arrive? {
        Arrived(w, a.t, a.timed);
      } else {
        Moved(w, Do(w, a), a.t, Do(w, a).threads[a.t]);
        PastTestIsUnique(w, a.t);
      }
    }
  }

  lemma {:induction false} RunInv(target: nat, actions: seq<Action>)
    requires 0 < target
    ensures Inv(Run(target, actions)) && Run(target, actions).target == target
  {
    if actions != [] {
      RunInv(target, actions[..|actions| - 1]);
      StepInv(Run(target, actions[..|actions| - 1]), actions[|actions| - 1]);
    }
  }

  /** Arrivals get the distinct indices 1..arrived, timed-out ones included; done is closed at most
      once, by the arrival whose index is the target and no other, and nobody is let through before
      target arrivals. */
  lemma BarrierIsSafe(target: nat, actions: seq<Action>)
    requires 0 < target
    ensures var w := Run(target, actions);
            && Indexed(w)
            && w.closes <= 1
            && (w.closes == 1 <==> PastTest(w, target))
            && (forall t :: t in w.threads && w.threads[t].Returned? && w.threads[t].ok ==> target <= w.arrived)
  {
    RunInv(target, actions);
  }

  /** Once the target has been reached and the closer has taken its step, every blocked thread can
      leave, whenever it arrived; a thread can only be blocked without a timer before that. */
  lemma NobodyStaysBlocked(target: nat, actions: seq<Action>, t: Tid)
    requires 0 < target
    requires t in Run(target, actions).threads && Run(target, actions).threads[t].Waiting?
    ensures var w := Run(target, actions);
            Enabled(w, Release(t)) <==>
              target <= w.arrived && !(exists u :: u in w.threads && w.threads[u].n == target && w.threads[u].Counted?)
  {
    RunInv(target, actions);
    var w := Run(target, actions);
    if target <= w.arrived {
      assert Issued(w, target);
      var u :| u in w.threads && w.threads[u].n == target;
    }
  }

  /** How an arrival ends: released, it returns its index and no error; expired, its index and the timeout,
      which only a timed arrival can; and what it returned is final. */
  lemma ReturnsAreFinal(target: nat, actions: seq<Action>, t: Tid, a: Action)
    requires 0 < target && t in Run(target, actions).threads
    ensures var w, v := Run(target, actions), Run(target, actions + [a]);
            && t in v.threads && v.threads[t].n == w.threads[t].n
            && (w.threads[t].Returned? ==> v.threads[t] == w.threads[t])
            && (a == Release(t) && Enabled(w, a) ==> v.threads[t] == Returned(w.threads[t].n, true))
            && (v.threads[t].Returned? && !w.threads[t].Returned? ==>
                  && w.threads[t].Waiting?
                  && (if v.threads[t].ok then a == Release(t) && w.closes > 0 else a == Expire(t) && w.threads[t].timed))
  {
    assert (actions + [a])[..|actions|] == actions;
  }

  /** A new arrival gets the next index and runs through its own steps to the wait; there it is let through
      at once, with that index and no error, exactly if it is the one with the target index or that one has
      taken its step before. */
  lemma ArrivalRunsThrough(target: nat, actions: seq<Action>, t: Tid, timed: bool)
    requires 0 < target && t !in Run(target, actions).threads
    ensures var w := Run(target, actions);
            var v := Do(Do(w, Arrive(t, timed)), Test(t));
            var n := w.arrived + 1;
            && t in v.threads && v.threads[t] == Waiting(n, timed) && v.arrived == n
            && (forall u :: u in w.threads ==> u in v.threads && v.threads[u] == w.threads[u])
            && (Enabled(v, Release(t)) <==> n == target || PastTest(w, target))
            && (Enabled(v, Release(t)) ==> Do(v, Release(t)).threads[t] == Returned(n, true))
  {
    RunInv(target, actions);
  }

  class Barrier {
    const target: nat
    var arrived: nat
    var done: bool
    ghost var world: World

    ghost predicate Valid() reads this {
      && 0 < target && Inv(world)
      && world.target == target && world.arrived == arrived && done == (world.closes > 0)
    }

    constructor (target: nat)
      requires 0 < target
      ensures Valid() && world == Start(target)
    {
      this.target, arrived, done := target, 0, false;
      world := Start(target);
    }

    /** arrived.Add(1) of thread t. */
    method Count(ghost t: Tid, ghost timed: bool) returns (n: nat)
      requires Valid() && t !in world.threads
      modifies this
      ensures Valid() && world == Do(old(world), Arrive(t, timed)) && n == arrived == old(arrived) + 1
    {
      arrived := arrived + 1;
      n := arrived;
      StepInv(world, Arrive(t, timed));
      world := Do(world, Arrive(t, timed));
    }

    /** The target test of thread t. Closing a closed channel would panic; it cannot happen. */
    method CloseIfTarget(ghost t: Tid, n: nat)
      requires Valid() && t in world.threads && world.threads[t].Counted? && world.threads[t].n == n
      modifies this
      ensures Valid() && world == Do(old(world), Test(t))
    {
      if n == target {
        PastTestIsUnique(world, t);
        assert !done;
        done := true;
      }
      StepInv(world, Test(t));
      world := Do(world, Test(t));
    }
  }

  class Registry {
    var barriers: map<string, Barrier>

    constructor ()
      ensures barriers == map[]
    {
      barriers := map[];
    }

    /** The first creator's barrier wins; a later target is ignored, even an invalid one. */
    method Get(name: string, target: int) returns (b: Option<Barrier>)
      modifies this
      ensures name in old(barriers) ==> b == Some(old(barriers)[name]) && barriers == old(barriers)
      ensures name !in old(barriers) && target <= 0 ==> b == None && barriers == old(barriers)
      ensures name !in old(barriers) && 0 < target ==>
                && b.Some? && fresh(b.value) && b.value.Valid() && b.value.world == Start(target)
                && barriers == old(barriers)[name := b.value]
    {
      if name in barriers { return Some(barriers[name]); }
      if target <= 0 { return None; }
      var created := new Barrier(target);
      barriers := barriers[name := created];
      return Some(created);
    }
  }
}
