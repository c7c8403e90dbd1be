/** Sleeping recursive mutexes and the per-VCPU resource lists, as a machine
    whose atomic steps are the code sections under `wq.lock` or `res_lock`.
    Mutexes and VCPUs are numbered. */
module Mutex {
  import opened Common

  /** `struct vmm_mutex`: count, owner and the VCPUs asleep on its queue. */
  datatype Mtx = Mtx(lock: nat, owner: Option<nat>, queue: seq<nat>)

  /** What a VCPU is doing. `Woken`: taken off the queue of a mutex but not back
      in the lock loop yet. `Flushing`: reset by its destruction, with the
      resource popped from its list whose cleanup has not run yet, if any. */
  datatype Pc = Running | Sleeping(m: nat) | Woken(m: nat) | Flushing(popped: Option<nat>) | Gone

  /** All mutexes, and state and resource list of every VCPU. */
  datatype Sys = Sys(mutexes: seq<Mtx>, pc: seq<Pc>, res: seq<seq<nat>>)

  datatype Step =
    | Lock(v: nat, m: nat)        // first pass through the loop of mutex_lock_common
    | Retry(v: nat)               // a later pass, after being woken
    | GiveUp(v: nat)              // woken, but the timeout has expired
    | TryLock(v: nat, m: nat)
    | Unlock(v: nat, m: nat)
    | StrayWake(v: nat)           // timer expiry, or resumed by someone else
    | Destroy(v: nat)             // off the queue and reset
    | FlushPop(v: nat)            // list_pop_tail of the resource list
    | FlushCleanup(v: nat)        // __vmm_mutex_cleanup of what was popped
    | DestroyDone(v: nat)         // the resource list is empty
    | Create(v: nat)

  /** What the call that a step belongs to returns to its caller, if it returns
      with this step. */
  datatype Reply = Pending | Returned(rc: int)

  // ----- lists -----

  ghost predicate Distinct(q: seq<nat>) {
    forall i, j :: 0 <= i < j < |q| ==> q[i] != q[j]
  }

  lemma EmptyDistinct()
    ensures Distinct([])
  {
  }

  lemma ConsDistinct(h: nat, t: seq<nat>)
    requires Distinct(t) && h !in t
    ensures Distinct([h] + t)
  {
  }

  lemma TailDistinct(q: seq<nat>)
    requires q != [] && Distinct(q)
    ensures Distinct(q[1..]) && q[0] !in q[1..]
    ensures forall y :: y in q <==> y == q[0] || y in q[1..]
  {
    assert q == [q[0]] + q[1..];
  }

  lemma AppendDistinct(q: seq<nat>, x: nat)
    requires Distinct(q) && x !in q
    ensures Distinct(q + [x])
  {
  }

  lemma PopDistinct(q: seq<nat>)
    requires q != [] && Distinct(q)
    ensures Distinct(q[..|q| - 1]) && q[|q| - 1] !in q[..|q| - 1]
    ensures forall y :: y in q <==> y in q[..|q| - 1] || y == q[|q| - 1]
  {
    var n := |q| - 1;
    assert q == q[..n] + [q[n]];
  }

  lemma {:induction false} WithoutDistinct(q: seq<nat>, x: nat)
    requires Distinct(q)
    ensures Distinct(Without(q, x)) && x !in Without(q, x)
    decreases |q|
  {
    hide Distinct;
    if q == [] {
      EmptyDistinct();
    } else {
      TailDistinct(q);
      if q[0] != x {
        WithoutDistinct(q[1..], x);
        ConsDistinct(q[0], Without(q[1..], x));
      }
    }
  }

  // ----- the invariant -----

  predicate Owns(s: Sys, v: nat, m: nat) {
    m < |s.mutexes| && s.mutexes[m].owner == Some(v)
  }

  /** A mutex has an owner exactly when its count is non-zero. */
  ghost predicate MutexOk(x: Mtx, vcpus: nat) {
    && (x.owner.Some? <==> x.lock > 0) && (x.owner.Some? ==> x.owner.value < vcpus)
    && Distinct(x.queue) && forall v :: v in x.queue ==> v < vcpus
  }

  ghost predicate VcpuOk(p: Pc, r: seq<nat>, mutexes: nat) {
    && (p.Sleeping? || p.Woken? ==> p.m < mutexes)
    && (p.Flushing? && p.popped.Some? ==> p.popped.value < mutexes)
    && Distinct(r) && forall m :: m in r ==> m < mutexes
  }

  /** VCPU `v` and mutex `m`: the resource node is on the VCPU's list exactly
      when it owns the mutex, apart from the window between pop and cleanup; it
      is on the queue exactly when it sleeps there; an owner is not gone and
      does not wait for the mutex; what is up for cleanup is still owned. */
  ghost predicate PairOk(x: Mtx, p: Pc, r: seq<nat>, v: nat, m: nat) {
    && (m in r <==> x.owner == Some(v) && p != Flushing(Some(m)))
    && (v in x.queue <==> p == Sleeping(m))
    && (x.owner == Some(v) ==> p != Gone && p != Sleeping(m) && p != Woken(m))
    && (p == Flushing(Some(m)) ==> x.owner == Some(v))
  }

  ghost predicate Inv(s: Sys) {
    && |s.res| == |s.pc|
    && (forall m :: 0 <= m < |s.mutexes| ==> MutexOk(s.mutexes[m], |s.pc|))
    && (forall v :: 0 <= v < |s.pc| ==> VcpuOk(s.pc[v], s.res[v], |s.mutexes|))
    && (forall v: nat, m: nat :: v < |s.pc| && m < |s.mutexes| ==>
          PairOk(s.mutexes[m], s.pc[v], s.res[v], v, m))
  }

  /** VCPU `v` and mutex `m` changed, all else as before. */
  function Local(s: Sys, v: nat, m: nat, x: Mtx, p: Pc, r: seq<nat>): Sys
    requires v < |s.pc| == |s.res| && m < |s.mutexes|
  {
    Sys(s.mutexes[m := x], s.pc[v := p], s.res[v := r])
  }

  /** A local change keeps the invariant when the pairs it touches are fine. */
  lemma LocalKeepsInv(s: Sys, v: nat, m: nat, x: Mtx, p: Pc, r: seq<nat>)
    requires Inv(s) && v < |s.pc| && m < |s.mutexes|
    requires MutexOk(x, |s.pc|) && VcpuOk(p, r, |s.mutexes|) && PairOk(x, p, r, v, m)
    requires forall u: nat :: u < |s.pc| && u != v ==> PairOk(x, s.pc[u], s.res[u], u, m)
    requires forall k: nat :: k < |s.mutexes| && k != m ==> PairOk(s.mutexes[k], p, r, v, k)
    ensures Inv(Local(s, v, m, x, p, r))
  {
    hide MutexOk, VcpuOk, PairOk;
    var s' := Local(s, v, m, x, p, r);
    forall u: nat, k: nat | u < |s'.pc| && k < |s'.mutexes|
      ensures PairOk(s'.mutexes[k], s'.pc[u], s'.res[u], u, k)
    {
      if u != v && k != m {
        assert PairOk(s.mutexes[k], s.pc[u], s.res[u], u, k);
      }
    }
  }

  // ----- the steps -----

  predicate Enabled(s: Sys, st: Step) {
    && st.v < |s.pc|
    && match st
       case Lock(v, m) => m < |s.mutexes| && s.pc[v] == Running
       case TryLock(v, m) => m < |s.mutexes| && s.pc[v] == Running
       case Unlock(v, m) => m < |s.mutexes| && s.pc[v] == Running
       case Retry(v) => s.pc[v].Woken?
       case GiveUp(v) => s.pc[v].Woken?
       case StrayWake(v) => s.pc[v].Sleeping?
       case Destroy(v) => s.pc[v].Running? || s.pc[v].Sleeping? || s.pc[v].Woken?
       case FlushPop(v) => s.pc[v] == Flushing(None) && v < |s.res| && s.res[v] != []
       case FlushCleanup(v) => s.pc[v].Flushing? && s.pc[v].popped.Some?
       case DestroyDone(v) => s.pc[v] == Flushing(None) && v < |s.res| && s.res[v] == []
       case Create(v) => s.pc[v] == Gone
  }

  function SetPc(s: Sys, v: nat, p: Pc): Sys
    requires v < |s.pc|
  {
    s.(pc := s.pc[v := p])
  }

  /** Takes the free mutex: count, resource node, owner. */
  function Acquire(s: Sys, v: nat, m: nat): Sys
    requires v < |s.pc| == |s.res| && m < |s.mutexes|
  {
    Local(s, v, m, s.mutexes[m].(lock := 1, owner := Some(v)), Running, s.res[v] + [m])
  }

  /** The owner takes its mutex once more. */
  function Bump(s: Sys, v: nat, m: nat): Sys
    requires v < |s.pc| == |s.res| && m < |s.mutexes|
  {
    Local(s, v, m, s.mutexes[m].(lock := s.mutexes[m].lock + 1), Running, s.res[v])
  }

  /** One pass through the loop of `mutex_lock_common`. */
  function LockPass(s: Sys, v: nat, m: nat): (r: (Sys, Reply))
    requires v < |s.pc| == |s.res| && m < |s.mutexes|
  {
    var x := s.mutexes[m];
    if x.lock == 0 then (Acquire(s, v, m), Returned(VMM_OK))
    else if x.owner == Some(v) then (Bump(s, v, m), Returned(VMM_OK))
    else (Local(s, v, m, x.(queue := x.queue + [v]), Sleeping(m), s.res[v]), Pending)
  }

  /** `vmm_mutex_trylock`, which returns 1 for success. */
  function TryPass(s: Sys, v: nat, m: nat): (r: (Sys, Reply))
    requires v < |s.pc| == |s.res| && m < |s.mutexes|
  {
    var x := s.mutexes[m];
    if x.lock == 0 then (Acquire(s, v, m), Returned(1))
    else if x.owner == Some(v) then (Bump(s, v, m), Returned(1))
    else (s, Returned(0))
  }

  /** VCPU `v` is taken off the queue it sleeps on. */
  function Dequeue(s: Sys, v: nat, p: Pc): Sys
    requires v < |s.pc| == |s.res| && s.pc[v].Sleeping? && s.pc[v].m < |s.mutexes|
  {
    var m := s.pc[v].m;
    Local(s, v, m, s.mutexes[m].(queue := Without(s.mutexes[m].queue, v)), p, s.res[v])
  }

  /** `__vmm_waitqueue_wakefirst`. */
  function WakeFirst(s: Sys, m: nat): (r: Sys)
    requires Inv(s) && m < |s.mutexes|
    ensures Inv(r) && |r.mutexes| == |s.mutexes|
    ensures s.mutexes[m].queue != [] ==> r.mutexes[m].queue == s.mutexes[m].queue[1..]
  {
    var q := s.mutexes[m].queue;
    if q == [] then s
    else
      WakeFirstKeepsInv(s, m);
      Local(s, q[0], m, s.mutexes[m].(queue := q[1..]), Woken(m), s.res[q[0]])
  }

  /** `__vmm_waitqueue_wakeall`. */
  function WakeAll(s: Sys, m: nat): (r: Sys)
    requires Inv(s) && m < |s.mutexes|
    ensures Inv(r) && |r.mutexes| == |s.mutexes| && r.mutexes[m].queue == []
    decreases |s.mutexes[m].queue|
  {
    hide Inv, WakeFirst;
    if s.mutexes[m].queue == [] then s else WakeAll(WakeFirst(s, m), m)
  }

  lemma WakeFirstKeepsInv(s: Sys, m: nat)
    requires Inv(s) && m < |s.mutexes| && s.mutexes[m].queue != []
    ensures s.mutexes[m].queue[0] < |s.pc|
    ensures var q := s.mutexes[m].queue;
            Inv(Local(s, q[0], m, s.mutexes[m].(queue := q[1..]), Woken(m), s.res[q[0]]))
  {
    hide Distinct;
    var q := s.mutexes[m].queue;
    assert MutexOk(s.mutexes[m], |s.pc|) && q[0] in q;
    var v, x := q[0], s.mutexes[m].(queue := q[1..]);
    TailDistinct(q);
    assert VcpuOk(s.pc[v], s.res[v], |s.mutexes|) && PairOk(s.mutexes[m], s.pc[v], s.res[v], v, m);
    forall u: nat | u < |s.pc| && u != v ensures PairOk(x, s.pc[u], s.res[u], u, m) {
      assert PairOk(s.mutexes[m], s.pc[u], s.res[u], u, m);
    }
    forall k: nat | k < |s.mutexes| && k != m ensures PairOk(s.mutexes[k], Woken(m), s.res[v], v, k) {
      assert PairOk(s.mutexes[k], s.pc[v], s.res[v], v, k);
    }
    LocalKeepsInv(s, v, m, x, Woken(m), s.res[v]);
  }

  /** The mutex becomes free and its node leaves the owner's list. */
  function Release(s: Sys, v: nat, m: nat): Sys
    requires v < |s.pc| == |s.res| && m < |s.mutexes|
  {
    Local(s, v, m, s.mutexes[m].(lock := 0, owner := None), s.pc[v], Without(s.res[v], m))
  }

  /** `vmm_mutex_unlock`. */
  function UnlockPass(s: Sys, v: nat, m: nat): (r: (Sys, Reply))
    requires Inv(s) && v < |s.pc| && m < |s.mutexes| && s.pc[v] == Running
  {
    hide MutexOk, VcpuOk, PairOk;
    var x := s.mutexes[m];
    if x.lock == 0 || x.owner != Some(v) then (s, Returned(VMM_EINVALID))
    else if x.lock > 1 then
      (Local(s, v, m, x.(lock := x.lock - 1), Running, s.res[v]), Returned(VMM_OK))
    else
      ReleaseKeepsInv(s, v, m);
      (WakeFirst(Release(s, v, m), m), Returned(VMM_OK))
  }

  lemma ReleaseKeepsInv(s: Sys, v: nat, m: nat)
    requires Inv(s) && v < |s.pc| && Owns(s, v, m) && s.pc[v] == Running
    ensures Inv(Release(s, v, m))
  {
    hide Distinct, Without;
    var x, r := s.mutexes[m].(lock := 0, owner := None), Without(s.res[v], m);
    assert MutexOk(s.mutexes[m], |s.pc|) && VcpuOk(s.pc[v], s.res[v], |s.mutexes|);
    assert PairOk(s.mutexes[m], s.pc[v], s.res[v], v, m);
    WithoutDistinct(s.res[v], m);
    forall u: nat | u < |s.pc| && u != v ensures PairOk(x, s.pc[u], s.res[u], u, m) {
      assert PairOk(s.mutexes[m], s.pc[u], s.res[u], u, m);
    }
    forall k: nat | k < |s.mutexes| && k != m ensures PairOk(s.mutexes[k], s.pc[v], r, v, k) {
      assert PairOk(s.mutexes[k], s.pc[v], s.res[v], v, k);
    }
    LocalKeepsInv(s, v, m, x, s.pc[v], r);
  }

  /** `__vmm_mutex_cleanup`, on behalf of the VCPU being flushed. */
  function Cleanup(s: Sys, v: nat): (r: (Sys, Reply))
    requires Inv(s) && Enabled(s, FlushCleanup(v))
  {
    hide MutexOk, VcpuOk, PairOk;
    CleanupKeepsInv(s, v);
    var m := s.pc[v].popped.value;
    var x := s.mutexes[m];
    if x.lock > 0 && x.owner == Some(v) then
      (WakeAll(Local(s, v, m, x.(lock := 0, owner := None), Flushing(None), s.res[v]), m), Pending)
    else (SetPc(s, v, Flushing(None)), Pending)
  }

  /** What was popped for cleanup is always still owned by the VCPU. */
  lemma CleanupKeepsInv(s: Sys, v: nat)
    requires Inv(s) && Enabled(s, FlushCleanup(v))
    ensures var m := s.pc[v].popped.value;
            && Owns(s, v, m) && s.mutexes[m].lock > 0
            && Inv(Local(s, v, m, s.mutexes[m].(lock := 0, owner := None), Flushing(None), s.res[v]))
  {
    hide Distinct;
    assert VcpuOk(s.pc[v], s.res[v], |s.mutexes|);
    var m := s.pc[v].popped.value;
    var x := s.mutexes[m].(lock := 0, owner := None);
    assert MutexOk(s.mutexes[m], |s.pc|) && PairOk(s.mutexes[m], s.pc[v], s.res[v], v, m);
    forall u: nat | u < |s.pc| && u != v ensures PairOk(x, s.pc[u], s.res[u], u, m) {
      assert PairOk(s.mutexes[m], s.pc[u], s.res[u], u, m);
    }
    forall k: nat | k < |s.mutexes| && k != m ensures PairOk(s.mutexes[k], Flushing(None), s.res[v], v, k) {
      assert PairOk(s.mutexes[k], s.pc[v], s.res[v], v, k);
    }
    LocalKeepsInv(s, v, m, x, Flushing(None), s.res[v]);
  }

  function Next(s: Sys, st: Step): (r: (Sys, Reply))
    requires Inv(s) && Enabled(s, st)
  {
    hide MutexOk, PairOk, LockPass, TryPass, UnlockPass, Cleanup;
    match st
    case Lock(v, m) => LockPass(s, v, m)
    case Retry(v) => LockPass(s, v, s.pc[v].m)
    case GiveUp(v) => (SetPc(s, v, Running), Returned(VMM_ETIMEDOUT))
    case TryLock(v, m) => TryPass(s, v, m)
    case Unlock(v, m) => UnlockPass(s, v, m)
    case StrayWake(v) => (Dequeue(s, v, Woken(s.pc[v].m)), Pending)
    case Destroy(v) =>
      (if s.pc[v].Sleeping? then Dequeue(s, v, Flushing(None)) else SetPc(s, v, Flushing(None)), Pending)
    case FlushPop(v) =>
      var n := |s.res[v]| - 1;
      (SetPc(s.(res := s.res[v := s.res[v][..n]]), v, Flushing(Some(s.res[v][n]))), Pending)
    case FlushCleanup(v) => Cleanup(s, v)
    case DestroyDone(v) => (SetPc(s, v, Gone), Pending)
    case Create(v) => (SetPc(s, v, Running).(res := s.res[v := []]), Pending)
  }

  // ----- every step keeps the invariant -----

  lemma AcquireKeepsInv(s: Sys, v: nat, m: nat)
    requires Inv(s) && v < |s.pc| && m < |s.mutexes| && s.mutexes[m].lock == 0
    requires s.pc[v] == Running || s.pc[v] == Woken(m)
    ensures Inv(Acquire(s, v, m))
  {
    hide Distinct;
    var x, r := s.mutexes[m].(lock := 1, owner := Some(v)), s.res[v] + [m];
    assert MutexOk(s.mutexes[m], |s.pc|) && VcpuOk(s.pc[v], s.res[v], |s.mutexes|);
    assert PairOk(s.mutexes[m], s.pc[v], s.res[v], v, m);
    AppendDistinct(s.res[v], m);
    forall u: nat | u < |s.pc| && u != v ensures PairOk(x, s.pc[u], s.res[u], u, m) {
      assert PairOk(s.mutexes[m], s.pc[u], s.res[u], u, m);
    }
    forall k: nat | k < |s.mutexes| && k != m ensures PairOk(s.mutexes[k], Running, r, v, k) {
      assert PairOk(s.mutexes[k], s.pc[v], s.res[v], v, k);
    }
    LocalKeepsInv(s, v, m, x, Running, r);
  }

  /** The owner's count moves between non-zero values. */
  lemma RecountKeepsInv(s: Sys, v: nat, m: nat, lock: nat)
    requires Inv(s) && v < |s.pc| && Owns(s, v, m) && lock > 0
    requires s.pc[v] == Running || s.pc[v] == Woken(m)
    ensures Inv(Local(s, v, m, s.mutexes[m].(lock := lock), Running, s.res[v]))
  {
    hide Distinct;
    var x := s.mutexes[m].(lock := lock);
    assert MutexOk(s.mutexes[m], |s.pc|) && VcpuOk(s.pc[v], s.res[v], |s.mutexes|);
    assert PairOk(s.mutexes[m], s.pc[v], s.res[v], v, m);
    forall u: nat | u < |s.pc| && u != v ensures PairOk(x, s.pc[u], s.res[u], u, m) {
      assert PairOk(s.mutexes[m], s.pc[u], s.res[u], u, m);
    }
    forall k: nat | k < |s.mutexes| && k != m ensures PairOk(s.mutexes[k], Running, s.res[v], v, k) {
      assert PairOk(s.mutexes[k], s.pc[v], s.res[v], v, k);
    }
    LocalKeepsInv(s, v, m, x, Running, s.res[v]);
  }

  lemma EnqueueKeepsInv(s: Sys, v: nat, m: nat)
    requires Inv(s) && v < |s.pc| && m < |s.mutexes| && s.mutexes[m].owner != Some(v)
    requires s.pc[v] == Running || s.pc[v] == Woken(m)
    ensures Inv(Local(s, v, m, s.mutexes[m].(queue := s.mutexes[m].queue + [v]), Sleeping(m), s.res[v]))
  {
    hide Distinct;
    var x := s.mutexes[m].(queue := s.mutexes[m].queue + [v]);
    assert MutexOk(s.mutexes[m], |s.pc|) && VcpuOk(s.pc[v], s.res[v], |s.mutexes|);
    assert PairOk(s.mutexes[m], s.pc[v], s.res[v], v, m);
    AppendDistinct(s.mutexes[m].queue, v);
    forall u: nat | u < |s.pc| && u != v ensures PairOk(x, s.pc[u], s.res[u], u, m) {
      assert PairOk(s.mutexes[m], s.pc[u], s.res[u], u, m);
    }
    forall k: nat | k < |s.mutexes| && k != m ensures PairOk(s.mutexes[k], Sleeping(m), s.res[v], v, k) {
      assert PairOk(s.mutexes[k], s.pc[v], s.res[v], v, k);
    }
    LocalKeepsInv(s, v, m, x, Sleeping(m), s.res[v]);
  }

  lemma DequeueKeepsInv(s: Sys, v: nat, p: Pc)
    requires Inv(s) && v < |s.pc| && s.pc[v].Sleeping? && s.pc[v].m < |s.mutexes|
    requires p == Woken(s.pc[v].m) || p == Flushing(None)
    ensures Inv(Dequeue(s, v, p))
  {
    hide Distinct, Without;
    var m := s.pc[v].m;
    var x := s.mutexes[m].(queue := Without(s.mutexes[m].queue, v));
    assert MutexOk(s.mutexes[m], |s.pc|) && VcpuOk(s.pc[v], s.res[v], |s.mutexes|);
    assert PairOk(s.mutexes[m], s.pc[v], s.res[v], v, m);
    WithoutDistinct(s.mutexes[m].queue, v);
    forall u: nat | u < |s.pc| && u != v ensures PairOk(x, s.pc[u], s.res[u], u, m) {
      assert PairOk(s.mutexes[m], s.pc[u], s.res[u], u, m);
    }
    forall k: nat | k < |s.mutexes| && k != m ensures PairOk(s.mutexes[k], p, s.res[v], v, k) {
      assert PairOk(s.mutexes[k], s.pc[v], s.res[v], v, k);
    }
    LocalKeepsInv(s, v, m, x, p, s.res[v]);
  }

  /** Only the state and the resource list of VCPU `v` change. */
  lemma VcpuKeepsInv(s: Sys, v: nat, p: Pc, r: seq<nat>)
    requires Inv(s) && v < |s.pc| && VcpuOk(p, r, |s.mutexes|)
    requires forall k: nat :: k < |s.mutexes| ==> PairOk(s.mutexes[k], p, r, v, k)
    ensures Inv(Sys(s.mutexes, s.pc[v := p], s.res[v := r]))
  {
    hide MutexOk, VcpuOk, PairOk;
    var s' := Sys(s.mutexes, s.pc[v := p], s.res[v := r]);
    forall u: nat, k: nat | u < |s'.pc| && k < |s'.mutexes|
      ensures PairOk(s'.mutexes[k], s'.pc[u], s'.res[u], u, k)
    {
      if u != v { assert PairOk(s.mutexes[k], s.pc[u], s.res[u], u, k); }
    }
  }

  /** A VCPU that does not sleep moves on: it goes on running, is reset, is
      gone with an empty list, or is set up anew. */
  lemma MoveKeepsInv(s: Sys, v: nat, p: Pc)
    requires Inv(s) && v < |s.pc|
    requires match p
             case Running => s.pc[v].Woken? || (s.pc[v].Gone? && s.res[v] == [])
             case Flushing(d) => d.None? && (s.pc[v].Running? || s.pc[v].Woken?)
             case Gone => s.pc[v] == Flushing(None) && s.res[v] == []
             case _ => false
    ensures Inv(SetPc(s, v, p))
  {
    hide Distinct;
    assert VcpuOk(s.pc[v], s.res[v], |s.mutexes|);
    forall k: nat | k < |s.mutexes| ensures PairOk(s.mutexes[k], p, s.res[v], v, k) {
      assert PairOk(s.mutexes[k], s.pc[v], s.res[v], v, k);
    }
    VcpuKeepsInv(s, v, p, s.res[v]);
    assert s.res[v := s.res[v]] == s.res;
  }

  lemma PopKeepsInv(s: Sys, v: nat)
    requires Inv(s) && Enabled(s, FlushPop(v))
    ensures Inv(Next(s, FlushPop(v)).0)
  {
    hide Distinct;
    var n := |s.res[v]| - 1;
    var r, p := s.res[v][..n], Flushing(Some(s.res[v][n]));
    assert VcpuOk(s.pc[v], s.res[v], |s.mutexes|);
    PopDistinct(s.res[v]);
    assert s.res[v][n] in s.res[v];
    assert forall m :: m in r ==> m in s.res[v];
    assert VcpuOk(p, r, |s.mutexes|);
    forall k: nat | k < |s.mutexes| ensures PairOk(s.mutexes[k], p, r, v, k) {
      assert PairOk(s.mutexes[k], s.pc[v], s.res[v], v, k);
    }
    VcpuKeepsInv(s, v, p, r);
  }

  /** A VCPU that is gone has nothing on its list. */
  lemma GoneHasNothing(s: Sys, v: nat)
    requires Inv(s) && v < |s.pc| && s.pc[v] == Gone
    ensures s.res[v] == []
  {
    hide Distinct;
    assert VcpuOk(s.pc[v], s.res[v], |s.mutexes|);
    assert s.res[v] != [] ==> s.res[v][0] in s.res[v];
    forall m: nat | m < |s.mutexes| ensures m !in s.res[v] {
      assert PairOk(s.mutexes[m], s.pc[v], s.res[v], v, m);
    }
  }

  lemma LockKeepsInv(s: Sys, v: nat, m: nat)
    requires Inv(s) && v < |s.pc| && m < |s.mutexes| && (s.pc[v] == Running || s.pc[v] == Woken(m))
    ensures Inv(LockPass(s, v, m).0)
  {
    hide MutexOk, VcpuOk, PairOk;
    var x := s.mutexes[m];
    if x.lock == 0 { AcquireKeepsInv(s, v, m); }
    else if x.owner == Some(v) { RecountKeepsInv(s, v, m, x.lock + 1); }
    else { EnqueueKeepsInv(s, v, m); }
  }

  lemma TryLockKeepsInv(s: Sys, v: nat, m: nat)
    requires Inv(s) && v < |s.pc| && m < |s.mutexes| && s.pc[v] == Running
    ensures Inv(TryPass(s, v, m).0)
  {
    hide MutexOk, VcpuOk, PairOk;
    var x := s.mutexes[m];
    if x.lock == 0 { AcquireKeepsInv(s, v, m); }
    else if x.owner == Some(v) { RecountKeepsInv(s, v, m, x.lock + 1); }
  }

  lemma UnlockKeepsInv(s: Sys, v: nat, m: nat)
    requires Inv(s) && v < |s.pc| && m < |s.mutexes| && s.pc[v] == Running
    ensures Inv(UnlockPass(s, v, m).0)
  {
    hide MutexOk, VcpuOk, PairOk, WakeFirst;
    var x := s.mutexes[m];
    if x.owner == Some(v) {
      if x.lock > 1 { RecountKeepsInv(s, v, m, x.lock - 1); } else { ReleaseKeepsInv(s, v, m); }
    }
  }

  lemma PcInRange(s: Sys, v: nat)
    requires Inv(s) && v < |s.pc|
    ensures |s.res| == |s.pc| && VcpuOk(s.pc[v], s.res[v], |s.mutexes|)
  {
  }

  /** Every step keeps the invariant. */
  lemma StepKeepsInv(s: Sys, st: Step)
    requires Inv(s) && Enabled(s, st)
    ensures Inv(Next(s, st).0)
  {
    hide Inv, Distinct, LockPass, TryPass, UnlockPass, WakeAll, Dequeue, PairOk, MutexOk;
    PcInRange(s, st.v);
    match st
    case Lock(v, m) => LockKeepsInv(s, v, m);
    case Retry(v) => LockKeepsInv(s, v, s.pc[v].m);
    case GiveUp(v) => MoveKeepsInv(s, v, Running);
    case TryLock(v, m) => TryLockKeepsInv(s, v, m);
    case Unlock(v, m) => UnlockKeepsInv(s, v, m);
    case StrayWake(v) => DequeueKeepsInv(s, v, Woken(s.pc[v].m));
    case Destroy(v) =>
      if s.pc[v].Sleeping? { DequeueKeepsInv(s, v, Flushing(None)); } else { MoveKeepsInv(s, v, Flushing(None)); }
    case FlushPop(v) => PopKeepsInv(s, v);
    case FlushCleanup(v) => CleanupInv(s, v);
    case DestroyDone(v) => MoveKeepsInv(s, v, Gone);
    case Create(v) => GoneHasNothing(s, v); MoveKeepsInv(s, v, Running); assert s.res[v := []] == s.res;
  }

  lemma CleanupInv(s: Sys, v: nat)
    requires Inv(s) && Enabled(s, FlushCleanup(v))
    ensures Inv(Cleanup(s, v).0)
  {
    hide MutexOk, VcpuOk, PairOk, WakeAll;
    CleanupKeepsInv(s, v);
  }

  // ----- the count is the net number of acquisitions -----

  /** The count of mutex `m` as far as VCPU `v` holds it. */
  function Count(s: Sys, v: nat, m: nat): nat {
    if Owns(s, v, m) then s.mutexes[m].lock else 0
  }

  /** Net acquisitions of `m` by `v` after one more step, told from the calls and
      what they return: a lock or trylock that succeeds, an unlock that returns
      `VMM_OK`, and the flush of a destroyed owner. */
  function Tally(s: Sys, st: Step, r: Reply, v: nat, m: nat, n: int): int {
    if st.v != v then n
    else
      match st
      case Lock(_, k) => if k == m && r == Returned(VMM_OK) then n + 1 else n
      case Retry(_) => if v < |s.pc| && s.pc[v] == Woken(m) && r == Returned(VMM_OK) then n + 1 else n
      case TryLock(_, k) => if k == m && r == Returned(1) then n + 1 else n
      case Unlock(_, k) => if k == m && r == Returned(VMM_OK) then n - 1 else n
      case FlushCleanup(_) => if v < |s.pc| && s.pc[v] == Flushing(Some(m)) then 0 else n
      case _ => n
  }

  lemma WakeFirstKeepsCounts(s: Sys, m: nat, v: nat, k: nat)
    requires Inv(s) && m < |s.mutexes|
    ensures Count(WakeFirst(s, m), v, k) == Count(s, v, k)
  {
  }

  lemma {:induction false} WakeAllKeepsCounts(s: Sys, m: nat, v: nat, k: nat)
    requires Inv(s) && m < |s.mutexes|
    ensures Count(WakeAll(s, m), v, k) == Count(s, v, k)
    decreases |s.mutexes[m].queue|
  {
    hide Inv, WakeFirst, Count;
    if s.mutexes[m].queue != [] {
      WakeFirstKeepsCounts(s, m, v, k);
      WakeAllKeepsCounts(WakeFirst(s, m), m, v, k);
    }
  }

  /** Each step changes the counts exactly as its call and its reply say. */
  lemma StepCounts(s: Sys, st: Step, v: nat, m: nat)
    requires Inv(s) && Enabled(s, st)
    ensures Count(Next(s, st).0, v, m) == Tally(s, st, Next(s, st).1, v, m, Count(s, v, m))
  {
    hide Distinct, WakeFirst, WakeAll, VcpuOk, PairOk, Without;
    PcInRange(s, st.v);
    match st {
      case Unlock(u, k) =>
        assert MutexOk(s.mutexes[k], |s.pc|);
        if Owns(s, u, k) && s.mutexes[k].lock == 1 {
          ReleaseKeepsInv(s, u, k);
          WakeFirstKeepsCounts(Release(s, u, k), k, v, m);
        }
      case FlushCleanup(u) =>
        CleanupKeepsInv(s, u);
        var k := s.pc[u].popped.value;
        WakeAllKeepsCounts(Local(s, u, k, s.mutexes[k].(lock := 0, owner := None), Flushing(None), s.res[u]), k, v, m);
      case Lock(u, k) =>
        assert MutexOk(s.mutexes[k], |s.pc|);
      case TryLock(u, k) =>
        assert MutexOk(s.mutexes[k], |s.pc|);
      case Retry(u) =>
        assert s.pc[u].m < |s.mutexes| by { PcMutexInRange(s, u); }
        assert MutexOk(s.mutexes[s.pc[u].m], |s.pc|);
      case _ =>
    }
  }

  lemma PcMutexInRange(s: Sys, v: nat)
    requires Inv(s) && v < |s.pc| && (s.pc[v].Woken? || s.pc[v].Sleeping?)
    ensures s.pc[v].m < |s.mutexes|
  {
    assert VcpuOk(s.pc[v], s.res[v], |s.mutexes|);
  }

  // ----- what the calls do -----

  /** Nobody's count of any mutex changes, except `v`'s of `m`. */
  ghost predicate OthersKeepCounts(s: Sys, s': Sys, v: nat, m: nat) {
    forall u: nat, k: nat :: u != v || k != m ==> Count(s', u, k) == Count(s, u, k)
  }

  /** A lock, first or retried, succeeds exactly when the mutex is free or held by
      the caller, and then the caller's count rises by one; otherwise the caller
      sleeps at the end of the queue and no count changes. */
  lemma LockEffect(s: Sys, st: Step, v: nat, m: nat)
    requires Inv(s) && Enabled(s, st) && (st == Lock(v, m) || (st == Retry(v) && s.pc[v] == Woken(m)))
    requires m < |s.mutexes|
    ensures var (s', r) := Next(s, st);
            && OthersKeepCounts(s, s', v, m)
            && if s.mutexes[m].lock == 0 || Owns(s, v, m) then
                 && r == Returned(VMM_OK) && Count(s', v, m) == Count(s, v, m) + 1 && s'.pc == s.pc[v := Running]
                 && v < |s.res| && s'.res == if s.mutexes[m].lock == 0 then s.res[v := s.res[v] + [m]] else s.res
               else
                 && r == Pending && Count(s', v, m) == Count(s, v, m) && s'.pc == s.pc[v := Sleeping(m)]
                 && s'.mutexes[m].queue == s.mutexes[m].queue + [v]
  {
    hide Distinct, VcpuOk, PairOk;
    PcInRange(s, v);
    assert MutexOk(s.mutexes[m], |s.pc|);
  }

  /** A trylock succeeds exactly when the mutex is free or held by the caller, and
      then the caller's count rises by one; otherwise nothing changes. */
  lemma TryLockEffect(s: Sys, v: nat, m: nat)
    requires Inv(s) && Enabled(s, TryLock(v, m))
    ensures var (s', r) := Next(s, TryLock(v, m));
            if s.mutexes[m].lock == 0 || Owns(s, v, m) then
              && r == Returned(1) && Count(s', v, m) == Count(s, v, m) + 1 && OthersKeepCounts(s, s', v, m)
              && v < |s.res| && s'.res == if s.mutexes[m].lock == 0 then s.res[v := s.res[v] + [m]] else s.res
            else r == Returned(0) && s' == s
  {
    hide Distinct, VcpuOk, PairOk;
    PcInRange(s, v);
    assert MutexOk(s.mutexes[m], |s.pc|);
  }

  /** The owner's unlock succeeds and lowers its count by one; at zero the mutex
      is free and the first sleeper is woken. Anyone else's is refused and
      changes nothing. */
  lemma UnlockEffect(s: Sys, v: nat, m: nat)
    requires Inv(s) && Enabled(s, Unlock(v, m))
    ensures var (s', r) := Next(s, Unlock(v, m));
            if Owns(s, v, m) then
              && r == Returned(VMM_OK) && Count(s', v, m) == Count(s, v, m) - 1 && OthersKeepCounts(s, s', v, m)
              && (s'.mutexes[m].lock == 0 <==> Count(s, v, m) == 1)
              && var q := s.mutexes[m].queue;
                 if Count(s, v, m) == 1 && q != [] then
                   s'.mutexes[m].queue == q[1..] && q[0] < |s.pc| && s'.pc == s.pc[q[0] := Woken(m)]
                 else s'.mutexes[m].queue == q && s'.pc == s.pc
            else r == Returned(VMM_EINVALID) && s' == s
  {
    hide Distinct, VcpuOk, PairOk, Without;
    PcInRange(s, v);
    assert MutexOk(s.mutexes[m], |s.pc|);
    assert s.pc[v := Running] == s.pc && s.pc[v := s.pc[v]] == s.pc;
    if Owns(s, v, m) && s.mutexes[m].lock == 1 {
      ReleaseKeepsInv(s, v, m);
      if s.mutexes[m].queue != [] { WakeFirstKeepsInv(s, m); }
    }
  }

  /** The remaining steps, which touch no owner and no count: a sleeper that wakes
      or is destroyed leaves its queue, the others keep their order; a woken VCPU
      that gives up returns the timeout; a flush pops the last resource. */
  lemma OtherSteps(s: Sys, st: Step)
    requires Inv(s) && Enabled(s, st)
    requires st.StrayWake? || st.GiveUp? || st.Destroy? || st.FlushPop? || st.DestroyDone? || st.Create?
    ensures var (s', r) := Next(s, st);
            var v := st.v;
            && v < |s.res|
            && r == (if st.GiveUp? then Returned(VMM_ETIMEDOUT) else Pending)
            && s'.pc == s.pc[v := match st
                                  case StrayWake(_) => Woken(s.pc[v].m)
                                  case GiveUp(_) => Running
                                  case Destroy(_) => Flushing(None)
                                  case FlushPop(_) => Flushing(Some(s.res[v][|s.res[v]| - 1]))
                                  case DestroyDone(_) => Gone
                                  case _ => Running]
            && s'.res == s.res[v := if st.FlushPop? then s.res[v][..|s.res[v]| - 1] else s.res[v]]
            && |s'.mutexes| == |s.mutexes|
            && forall k :: 0 <= k < |s.mutexes| ==>
                 s'.mutexes[k] == s.mutexes[k].(queue := Without(s.mutexes[k].queue, v))
                 || (s'.mutexes[k] == s.mutexes[k] && (s.pc[v] != Sleeping(k) || st.GiveUp?))
  {
    hide Distinct, MutexOk, Without;
    PcInRange(s, st.v);
    assert s.res[st.v := s.res[st.v]] == s.res;
    if s.pc[st.v].Sleeping? { PcMutexInRange(s, st.v); }
    if st.Create? { GoneHasNothing(s, st.v); }
  }

  /** Waking all empties the queue and wakes exactly those who slept on it. */
  lemma {:induction false} WakeAllEffect(s: Sys, m: nat)
    requires Inv(s) && m < |s.mutexes|
    ensures var s', q := WakeAll(s, m), s.mutexes[m].queue;
            && s'.mutexes == s.mutexes[m := s.mutexes[m].(queue := [])] && s'.res == s.res && |s'.pc| == |s.pc|
            && forall u :: 0 <= u < |s.pc| ==> s'.pc[u] == if u in q then Woken(m) else s.pc[u]
    decreases |s.mutexes[m].queue|
  {
    hide VcpuOk, PairOk, MutexOk;
    var q := s.mutexes[m].queue;
    if q == [] {
      assert s.mutexes[m := s.mutexes[m].(queue := [])] == s.mutexes;
    } else {
      WakeFirstKeepsInv(s, m);
      var s1 := WakeFirst(s, m);
      assert s.res[q[0] := s.res[q[0]]] == s.res && q == [q[0]] + q[1..];
      WakeAllEffect(s1, m);
      assert s1.mutexes[m := s1.mutexes[m].(queue := [])] == s.mutexes[m := s.mutexes[m].(queue := [])];
    }
  }

  /** The cleanup of a popped mutex frees it, however often its owner had acquired
      it, and wakes everyone who slept on it. Nothing else changes. */
  lemma CleanupEffect(s: Sys, v: nat)
    requires Inv(s) && Enabled(s, FlushCleanup(v))
    ensures var s', m := Next(s, FlushCleanup(v)).0, s.pc[v].popped.value;
            && m < |s.mutexes| && s'.mutexes == s.mutexes[m := Mtx(0, None, [])] && s'.res == s.res && |s'.pc| == |s.pc|
            && forall u :: 0 <= u < |s.pc| ==>
                 s'.pc[u] == if u == v then Flushing(None) else if s.pc[u] == Sleeping(m) then Woken(m) else s.pc[u]
  {
    hide MutexOk, VcpuOk, WakeAll, Distinct;
    CleanupKeepsInv(s, v);
    PcInRange(s, v);
    var m := s.pc[v].popped.value;
    var s1 := Local(s, v, m, s.mutexes[m].(lock := 0, owner := None), Flushing(None), s.res[v]);
    assert s.res[v := s.res[v]] == s.res;
    WakeAllEffect(s1, m);
    forall u: nat | u < |s.pc| ensures u in s.mutexes[m].queue <==> s.pc[u] == Sleeping(m) {
      assert PairOk(s.mutexes[m], s.pc[u], s.res[u], u, m);
    }
  }

  // ----- wake-ups -----

  /** Some VCPU woken from the queue of `m` has yet to retry. */
  ghost predicate SomeoneWoken(pc: seq<Pc>, m: nat) {
    exists v: nat :: v < |pc| && pc[v] == Woken(m)
  }

  /** When the mutex is free and someone sleeps on it, someone is up. */
  ghost predicate Awake(s: Sys, m: nat)
    requires m < |s.mutexes|
  {
    s.mutexes[m].lock == 0 && s.mutexes[m].queue != [] ==> SomeoneWoken(s.pc, m)
  }

  ghost predicate AllAwake(s: Sys) {
    forall m: nat :: m < |s.mutexes| ==> Awake(s, m)
  }

  /** The step takes away the only VCPU woken for a free mutex with sleepers:
      it times out after it was woken, or it is destroyed. */
  ghost predicate LosesWakeup(s: Sys, st: Step) {
    && (st.GiveUp? || st.Destroy?) && st.v < |s.pc| && s.pc[st.v].Woken?
    && var m := s.pc[st.v].m;
       && m < |s.mutexes| && s.mutexes[m].lock == 0 && s.mutexes[m].queue != []
       && !exists u: nat :: u < |s.pc| && u != st.v && s.pc[u] == Woken(m)
  }

  /** Changing a VCPU that was not woken, to a state that wakes no fewer. */
  lemma WokenStays(pc: seq<Pc>, v: nat, p: Pc, m: nat)
    requires v < |pc| && SomeoneWoken(pc, m) && pc[v] != Woken(m)
    ensures SomeoneWoken(pc[v := p], m)
  {
    var u: nat :| u < |pc| && pc[u] == Woken(m);
    assert pc[v := p][u] == Woken(m);
  }

  lemma NowWoken(pc: seq<Pc>, v: nat, m: nat)
    requires v < |pc|
    ensures SomeoneWoken(pc[v := Woken(m)], m)
  {
    assert pc[v := Woken(m)][v] == Woken(m);
  }

  /** A local change that leaves mutex `m` locked, without sleepers or with a
      VCPU just woken, and takes no VCPU away that was woken for another. */
  lemma LocalAwake(s: Sys, v: nat, m: nat, x: Mtx, p: Pc, r: seq<nat>)
    requires Inv(s) && AllAwake(s) && v < |s.pc| && m < |s.mutexes|
    requires x.lock > 0 || x.queue == [] || p == Woken(m)
             || (s.mutexes[m].lock == 0 && s.mutexes[m].queue != [] && s.pc[v] != Woken(m))
    requires s.pc[v].Woken? ==> s.pc[v] == Woken(m)
    ensures AllAwake(Local(s, v, m, x, p, r))
  {
    hide Inv, SomeoneWoken;
    assert |s.res| == |s.pc| by { PcInRange(s, v); }
    var s' := Local(s, v, m, x, p, r);
    forall k: nat | k < |s'.mutexes| ensures Awake(s', k) {
      assert Awake(s, k);
      if p == Woken(k) {
        NowWoken(s.pc, v, k);
      } else if k != m || s.pc[v] != Woken(m) {
        if SomeoneWoken(s.pc, k) && s.pc[v] != Woken(k) { WokenStays(s.pc, v, p, k); }
      }
    }
  }

  lemma {:induction false} WakeAllAwake(s: Sys, m: nat)
    requires Inv(s) && m < |s.mutexes| && forall k: nat :: k < |s.mutexes| && k != m ==> Awake(s, k)
    ensures AllAwake(WakeAll(s, m))
    decreases |s.mutexes[m].queue|
  {
    hide Distinct, MutexOk, VcpuOk, PairOk, SomeoneWoken;
    if s.mutexes[m].queue == [] {
      assert Awake(s, m);
    } else {
      WakeFirstAwake(s, m);
      WakeAllAwake(WakeFirst(s, m), m);
    }
  }

  lemma WakeFirstAwake(s: Sys, m: nat)
    requires Inv(s) && m < |s.mutexes| && forall k: nat :: k < |s.mutexes| && k != m ==> Awake(s, k)
    ensures AllAwake(WakeFirst(s, m))
  {
    hide Distinct, SomeoneWoken;
    var q := s.mutexes[m].queue;
    if q == [] {
      assert Awake(s, m);
    } else {
      WakeFirstKeepsInv(s, m);
      assert PairOk(s.mutexes[m], s.pc[q[0]], s.res[q[0]], q[0], m) && q[0] in q;
      var s' := WakeFirst(s, m);
      forall k: nat | k < |s'.mutexes| ensures Awake(s', k) {
        if k == m {
          NowWoken(s.pc, q[0], m);
        } else {
          assert Awake(s, k);
          if SomeoneWoken(s.pc, k) { WokenStays(s.pc, q[0], Woken(m), k); }
        }
      }
    }
  }

  lemma LockAwake(s: Sys, v: nat, m: nat)
    requires Inv(s) && AllAwake(s) && v < |s.pc| && m < |s.mutexes| && (s.pc[v] == Running || s.pc[v] == Woken(m))
    ensures AllAwake(LockPass(s, v, m).0)
  {
    hide MutexOk, VcpuOk, PairOk, SomeoneWoken, AllAwake;
    var x := s.mutexes[m];
    if x.lock == 0 {
      LocalAwake(s, v, m, x.(lock := 1, owner := Some(v)), Running, s.res[v] + [m]);
    } else if x.owner == Some(v) {
      LocalAwake(s, v, m, x.(lock := x.lock + 1), Running, s.res[v]);
    } else {
      LocalAwake(s, v, m, x.(queue := x.queue + [v]), Sleeping(m), s.res[v]);
    }
  }

  lemma TryLockAwake(s: Sys, v: nat, m: nat)
    requires Inv(s) && AllAwake(s) && v < |s.pc| && m < |s.mutexes| && s.pc[v] == Running
    ensures AllAwake(TryPass(s, v, m).0)
  {
    hide MutexOk, VcpuOk, PairOk, SomeoneWoken, AllAwake;
    var x := s.mutexes[m];
    if x.lock == 0 {
      LocalAwake(s, v, m, x.(lock := 1, owner := Some(v)), Running, s.res[v] + [m]);
    } else if x.owner == Some(v) {
      LocalAwake(s, v, m, x.(lock := x.lock + 1), Running, s.res[v]);
    }
  }

  lemma UnlockAwake(s: Sys, v: nat, m: nat)
    requires Inv(s) && AllAwake(s) && v < |s.pc| && m < |s.mutexes| && s.pc[v] == Running
    ensures AllAwake(UnlockPass(s, v, m).0)
  {
    hide MutexOk, VcpuOk, PairOk, SomeoneWoken, WakeFirst;
    var x := s.mutexes[m];
    if x.owner == Some(v) && x.lock > 1 {
      LocalAwake(s, v, m, x.(lock := x.lock - 1), Running, s.res[v]);
    } else if x.owner == Some(v) && x.lock == 1 {
      ReleaseKeepsInv(s, v, m);
      var s1 := Release(s, v, m);
      assert s.pc[v := s.pc[v]] == s.pc;
      forall k: nat | k < |s1.mutexes| && k != m ensures Awake(s1, k) { assert Awake(s, k); }
      WakeFirstAwake(s1, m);
    }
  }

  lemma CleanupAwake(s: Sys, v: nat)
    requires Inv(s) && AllAwake(s) && Enabled(s, FlushCleanup(v))
    ensures AllAwake(Cleanup(s, v).0)
  {
    hide MutexOk, VcpuOk, PairOk, SomeoneWoken, WakeAll;
    CleanupKeepsInv(s, v);
    var m := s.pc[v].popped.value;
    var s1 := Local(s, v, m, s.mutexes[m].(lock := 0, owner := None), Flushing(None), s.res[v]);
    forall k: nat | k < |s1.mutexes| && k != m ensures Awake(s1, k) {
      assert Awake(s, k);
      if SomeoneWoken(s.pc, k) { WokenStays(s.pc, v, Flushing(None), k); }
    }
    WakeAllAwake(s1, m);
  }

  lemma DequeueAwake(s: Sys, v: nat, p: Pc)
    requires Inv(s) && AllAwake(s) && v < |s.pc| && s.pc[v].Sleeping? && s.pc[v].m < |s.mutexes|
    ensures AllAwake(Dequeue(s, v, p))
  {
    hide Distinct, SomeoneWoken, AllAwake, MutexOk;
    var m := s.pc[v].m;
    assert PairOk(s.mutexes[m], s.pc[v], s.res[v], v, m);
    LocalAwake(s, v, m, s.mutexes[m].(queue := Without(s.mutexes[m].queue, v)), p, s.res[v]);
  }

  /** Only the state of a VCPU changes that was woken or runs. */
  lemma MoveAwakeIff(s: Sys, v: nat, p: Pc)
    requires Inv(s) && AllAwake(s) && v < |s.pc| && !p.Woken?
    ensures AllAwake(SetPc(s, v, p)) <==>
              !(s.pc[v].Woken?
                && var m := s.pc[v].m;
                   && m < |s.mutexes| && s.mutexes[m].lock == 0 && s.mutexes[m].queue != []
                   && !exists u: nat :: u < |s.pc| && u != v && s.pc[u] == Woken(m))
  {
    hide Inv;
    var s' := SetPc(s, v, p);
    forall k: nat | k < |s.mutexes| && s.pc[v] != Woken(k) ensures Awake(s', k) {
      assert Awake(s, k);
      if SomeoneWoken(s.pc, k) { WokenStays(s.pc, v, p, k); }
    }
    if s.pc[v].Woken? && s.pc[v].m < |s.mutexes| {
      var m := s.pc[v].m;
      if u: nat :| u < |s.pc| && u != v && s.pc[u] == Woken(m) {
        assert s'.pc[u] == Woken(m);
        assert Awake(s', m);
      } else {
        assert !SomeoneWoken(s'.pc, m);
        assert Awake(s', m) <==> !(s.mutexes[m].lock == 0 && s.mutexes[m].queue != []);
      }
    }
  }

  /** No lost wake-up, exactly: a step keeps someone awake for every free mutex
      with sleepers unless it takes away the only one. */
  lemma WakeupKeptIff(s: Sys, st: Step)
    requires Inv(s) && AllAwake(s) && Enabled(s, st)
    ensures AllAwake(Next(s, st).0) <==> !LosesWakeup(s, st)
  {
    hide Inv, AllAwake, LockPass, TryPass, UnlockPass, Cleanup, Dequeue, SomeoneWoken, PairOk, MutexOk, Distinct;
    PcInRange(s, st.v);
    match st
    case Lock(v, m) => LockAwake(s, v, m);
    case Retry(v) => LockAwake(s, v, s.pc[v].m);
    case GiveUp(v) => MoveAwakeIff(s, v, Running);
    case TryLock(v, m) => TryLockAwake(s, v, m);
    case Unlock(v, m) => UnlockAwake(s, v, m);
    case StrayWake(v) => DequeueAwake(s, v, Woken(s.pc[v].m));
    case Destroy(v) =>
      if s.pc[v].Sleeping? { DequeueAwake(s, v, Flushing(None)); } else { MoveAwakeIff(s, v, Flushing(None)); }
    case FlushPop(v) => MoveAwakeIff(s, v, Flushing(Some(s.res[v][|s.res[v]| - 1]))); ResAwake(s, st);
    case FlushCleanup(v) => CleanupAwake(s, v);
    case DestroyDone(v) => MoveAwakeIff(s, v, Gone);
    case Create(v) => MoveAwakeIff(s, v, Running); ResAwake(s, st);
  }

  /** Resource lists do not matter for who is awake. */
  lemma ResAwake(s: Sys, st: Step)
    requires Inv(s) && Enabled(s, st) && (st.FlushPop? || st.Create?)
    ensures AllAwake(Next(s, st).0) <==> AllAwake(SetPc(s, st.v, Next(s, st).0.pc[st.v]))
  {
    hide MutexOk, VcpuOk, PairOk;
    var s', t := Next(s, st).0, SetPc(s, st.v, Next(s, st).0.pc[st.v]);
    assert s'.pc == t.pc && s'.mutexes == t.mutexes;
    assert forall m: nat :: m < |s.mutexes| ==> (Awake(s', m) <==> Awake(t, m));
  }

  // ----- runs -----

  /** The steps are taken one after the other, each when it is enabled. */
  ghost predicate IsRun(s: Sys, steps: seq<Step>)
    requires Inv(s)
    decreases |steps|
  {
    steps != [] ==>
      && Enabled(s, steps[0])
      && (StepKeepsInv(s, steps[0]); IsRun(Next(s, steps[0]).0, steps[1..]))
  }

  ghost function Final(s: Sys, steps: seq<Step>): (r: Sys)
    requires Inv(s) && IsRun(s, steps)
    ensures Inv(r)
    decreases |steps|
  {
    if steps == [] then s
    else
      StepKeepsInv(s, steps[0]);
      Final(Next(s, steps[0]).0, steps[1..])
  }

  /** Net acquisitions of `m` by `v` over the run, starting from `n`. */
  ghost function Net(s: Sys, steps: seq<Step>, v: nat, m: nat, n: int): int
    requires Inv(s) && IsRun(s, steps)
    decreases |steps|
  {
    if steps == [] then n
    else
      StepKeepsInv(s, steps[0]);
      Net(Next(s, steps[0]).0, steps[1..], v, m, Tally(s, steps[0], Next(s, steps[0]).1, v, m, n))
  }

  /** In every interleaving the count of a mutex is the net number of times its
      owner has acquired it, and everyone else's is zero. */
  lemma {:induction false} EveryRunCounts(s: Sys, steps: seq<Step>, v: nat, m: nat)
    requires Inv(s) && IsRun(s, steps)
    ensures Count(Final(s, steps), v, m) == Net(s, steps, v, m, Count(s, v, m))
    decreases |steps|
  {
    hide Inv, Next, Enabled, Count, Tally;
    if steps != [] {
      StepKeepsInv(s, steps[0]);
      StepCounts(s, steps[0], v, m);
      EveryRunCounts(Next(s, steps[0]).0, steps[1..], v, m);
    }
  }

  /** After every run that starts with all mutexes free, a mutex is free exactly
      when no VCPU has acquired it more often than it has released it. */
  lemma FreeIffNobodyHolds(s: Sys, steps: seq<Step>, m: nat)
    requires Inv(s) && IsRun(s, steps) && forall k :: 0 <= k < |s.mutexes| ==> s.mutexes[k].lock == 0
    requires m < |Final(s, steps).mutexes|
    ensures Final(s, steps).mutexes[m].lock == 0 <==> forall v: nat :: Net(s, steps, v, m, 0) == 0
  {
    hide Next, Enabled, Tally, Net, Final, IsRun, PairOk, VcpuOk;
    var t := Final(s, steps);
    assert MutexOk(t.mutexes[m], |t.pc|);
    forall v: nat ensures Net(s, steps, v, m, 0) == Count(t, v, m) { NobodyCounts(s, v, m); EveryRunCounts(s, steps, v, m); }
    if t.mutexes[m].lock != 0 {
      assert Net(s, steps, t.mutexes[m].owner.value, m, 0) > 0;
    } else {
      forall v: nat ensures Count(t, v, m) == 0 {}
    }
  }

  lemma NobodyCounts(s: Sys, v: nat, m: nat)
    requires forall k :: 0 <= k < |s.mutexes| ==> s.mutexes[k].lock == 0
    ensures Count(s, v, m) == 0
  {
  }

  /** Mutual exclusion over every run: two VCPUs with net acquisitions of the
      same mutex are the same VCPU. */
  lemma MutualExclusion(s: Sys, steps: seq<Step>, u: nat, v: nat, m: nat)
    requires Inv(s) && IsRun(s, steps) && forall k :: 0 <= k < |s.mutexes| ==> s.mutexes[k].lock == 0
    requires Net(s, steps, u, m, 0) > 0 && Net(s, steps, v, m, 0) > 0
    ensures u == v
  {
    hide Next, Enabled, Tally, Net, Final, IsRun, PairOk, VcpuOk, MutexOk;
    EveryRunCounts(s, steps, u, m);
    EveryRunCounts(s, steps, v, m);
  }

  /** A destroyed VCPU owns no mutex and has no resource left. */
  lemma DestroyedOwnsNothing(s: Sys, v: nat, m: nat)
    requires Inv(s) && v < |s.pc| && s.pc[v] == Gone
    ensures !Owns(s, v, m) && s.res[v] == []
  {
    hide Distinct;
    GoneHasNothing(s, v);
    if m < |s.mutexes| { assert PairOk(s.mutexes[m], s.pc[v], s.res[v], v, m); }
  }

  ghost predicate NeverLoses(s: Sys, steps: seq<Step>)
    requires Inv(s) && IsRun(s, steps)
    decreases |steps|
  {
    steps != [] ==>
      && !LosesWakeup(s, steps[0])
      && (StepKeepsInv(s, steps[0]); NeverLoses(Next(s, steps[0]).0, steps[1..]))
  }

  /** No lost wake-up: in every run in which no VCPU that was the only one woken
      times out or is destroyed, whenever a mutex is free and someone sleeps on
      it, another VCPU already woken from that queue has yet to retry. */
  lemma {:induction false} EveryRunAwake(s: Sys, steps: seq<Step>)
    requires Inv(s) && AllAwake(s) && IsRun(s, steps) && NeverLoses(s, steps)
    ensures AllAwake(Final(s, steps))
    decreases |steps|
  {
    hide Inv, Next, Enabled, AllAwake, LosesWakeup;
    if steps != [] {
      StepKeepsInv(s, steps[0]);
      WakeupKeptIff(s, steps[0]);
      EveryRunAwake(Next(s, steps[0]).0, steps[1..]);
    }
  }

  /** Steps that are neither a timeout nor a destruction lose nothing. */
  lemma {:induction false} QuietRunNeverLoses(s: Sys, steps: seq<Step>)
    requires Inv(s) && IsRun(s, steps) && forall i :: 0 <= i < |steps| ==> !steps[i].GiveUp? && !steps[i].Destroy?
    ensures NeverLoses(s, steps)
    decreases |steps|
  {
    hide Inv, Next, Enabled;
    if steps != [] {
      StepKeepsInv(s, steps[0]);
      QuietRunNeverLoses(Next(s, steps[0]).0, steps[1..]);
    }
  }

  // ----- a wake-up that is lost -----

  const FREE := Sys([Mtx(0, None, [])], [Running, Running, Running], [[], [], []])
  const HELD := Sys([Mtx(1, Some(0), [])], [Running, Running, Running], [[0], [], []])
  const ONE_WAITS := Sys([Mtx(1, Some(0), [1])], [Running, Sleeping(0), Running], [[0], [], []])
  const TWO_WAIT := Sys([Mtx(1, Some(0), [1, 2])], [Running, Sleeping(0), Sleeping(0)], [[0], [], []])
  const HANDED_OVER := Sys([Mtx(0, None, [2])], [Running, Woken(0), Sleeping(0)], [[], [], []])

  lemma SameSys(s: Sys, t: Sys)
    requires s.mutexes == t.mutexes && s.pc == t.pc && s.res == t.res
    ensures s == t
  {
  }

  lemma FreeIsGood()
    ensures Inv(FREE) && AllAwake(FREE)
  {
  }

  /** VCPU 0 takes the mutex, VCPUs 1 and 2 queue up for it. */
  lemma TwoWaitIsReached()
    ensures LockPass(FREE, 0, 0).0 == HELD && LockPass(HELD, 1, 0).0 == ONE_WAITS && LockPass(ONE_WAITS, 2, 0).0 == TWO_WAIT
  {
    assert FREE.res[0] + [0] == [0];
    SameSys(LockPass(FREE, 0, 0).0, HELD);
    assert HELD.mutexes[0].queue + [1] == [1];
    SameSys(LockPass(HELD, 1, 0).0, ONE_WAITS);
    assert ONE_WAITS.mutexes[0].queue + [2] == [1, 2];
    SameSys(LockPass(ONE_WAITS, 2, 0).0, TWO_WAIT);
  }

  lemma TwoWaitIsGood()
    ensures Inv(TWO_WAIT) && AllAwake(TWO_WAIT)
  {
    hide Inv, AllAwake, LockPass;
    FreeIsGood();
    TwoWaitIsReached();
    LockKeepsInv(FREE, 0, 0);
    LockAwake(FREE, 0, 0);
    LockKeepsInv(HELD, 1, 0);
    LockAwake(HELD, 1, 0);
    LockKeepsInv(ONE_WAITS, 2, 0);
    LockAwake(ONE_WAITS, 2, 0);
  }

  /** VCPU 0 unlocks: the mutex is free, VCPU 1 is woken, VCPU 2 sleeps on. */
  lemma HandedOverIsReached()
    ensures Inv(TWO_WAIT) && UnlockPass(TWO_WAIT, 0, 0).0 == HANDED_OVER
  {
    hide MutexOk, VcpuOk, PairOk;
    TwoWaitIsGood();
    ReleaseKeepsInv(TWO_WAIT, 0, 0);
    assert Without([0], 0) == [];
    var s := Release(TWO_WAIT, 0, 0);
    assert s.mutexes[0].queue[1..] == [2];
    SameSys(UnlockPass(TWO_WAIT, 0, 0).0, HANDED_OVER);
  }

  /** When VCPU 1 then times out, or is destroyed, the mutex stays free with
      VCPU 2 asleep and nobody left to wake it. */
  lemma TimeoutLosesWakeup()
    ensures Inv(HANDED_OVER) && AllAwake(HANDED_OVER)
    ensures Enabled(HANDED_OVER, GiveUp(1)) && !AllAwake(Next(HANDED_OVER, GiveUp(1)).0)
    ensures Enabled(HANDED_OVER, Destroy(1)) && !AllAwake(Next(HANDED_OVER, Destroy(1)).0)
  {
    hide Inv, AllAwake, Next, UnlockPass;
    HandedOverIsReached();
    TwoWaitIsGood();
    UnlockKeepsInv(TWO_WAIT, 0, 0);
    UnlockAwake(TWO_WAIT, 0, 0);
    WakeupKeptIff(HANDED_OVER, GiveUp(1));
    WakeupKeptIff(HANDED_OVER, Destroy(1));
  }

  // ----- the steps in place -----

  class LockCtrl {
    var mutexes: seq<Mtx>
    var pc: seq<Pc>
    var res: seq<seq<nat>>

    ghost function Value(): Sys
      reads this
    {
      Sys(mutexes, pc, res)
    }

    /** `n` free mutexes and `vcpus` running VCPUs. */
    constructor (n: nat, vcpus: nat)
      ensures Inv(Value()) && AllAwake(Value()) && |mutexes| == n && |pc| == vcpus
    {
      mutexes := seq(n, _ => Mtx(0, None, []));
      pc := seq(vcpus, _ => Running);
      res := seq(vcpus, _ => []);
    }

    /** `vmm_manager_vcpu_resource_add`. */
    method ResourceAdd(v: nat, m: nat)
      requires v < |res|
      modifies this`res
      ensures res == old(res)[v := old(res)[v] + [m]]
    {
      res := res[v := res[v] + [m]];
    }

    /** `vmm_manager_vcpu_resource_remove`: unlinks the node. */
    method ResourceRemove(v: nat, m: nat)
      requires v < |res|
      modifies this`res
      ensures res == old(res)[v := Without(old(res)[v], m)]
    {
      var list, k := res[v], 0;
      assert list[0..] == list;
      while k < |list| && list[k] != m
        invariant 0 <= k <= |list|
        invariant Without(list, m) == list[..k] + Without(list[k..], m)
      {
        assert list[k..][1..] == list[k + 1..];
        k := k + 1;
      }
      if k < |list| {
        assert list[k..][1..] == list[k + 1..] && Without(list[k..], m) == list[k + 1..];
        res := res[v := list[..k] + list[k + 1..]];
      } else {
        assert list[k..] == [] && list[..k] + [] == list;
        assert res[v := list] == res;
      }
    }

    /** `__vmm_waitqueue_wakefirst`. */
    method WakeFirstWaiter(m: nat)
      requires Inv(Value()) && m < |mutexes|
      modifies this`mutexes, this`pc
      ensures Value() == WakeFirst(old(Value()), m)
    {
      var q := mutexes[m].queue;
      if q != [] {
        WakeFirstKeepsInv(Value(), m);
        mutexes := mutexes[m := mutexes[m].(queue := q[1..])];
        pc := pc[q[0] := Woken(m)];
        assert res[q[0] := res[q[0]]] == res;
      }
    }

    /** `__vmm_waitqueue_wakeall`. */
    method WakeAllWaiters(m: nat)
      requires Inv(Value()) && m < |mutexes|
      modifies this`mutexes, this`pc
      ensures Value() == WakeAll(old(Value()), m)
    {
      hide Inv, WakeFirst;
      while mutexes[m].queue != []
        invariant m < |mutexes| && Inv(Value())
        invariant WakeAll(old(Value()), m) == WakeAll(Value(), m)
        decreases |mutexes[m].queue|
      {
        WakeFirstWaiter(m);
      }
    }

    /** One pass through the loop of `mutex_lock_common`, up to the acquisition
        or to going to sleep. */
    method LockOnce(v: nat, m: nat) returns (acquired: bool)
      requires v < |pc| == |res| && m < |mutexes|
      modifies this
      ensures Value() == LockPass(old(Value()), v, m).0
      ensures acquired <==> LockPass(old(Value()), v, m).1 == Returned(VMM_OK)
      ensures acquired <==> old(mutexes)[m].lock == 0 || Owns(old(Value()), v, m)
    {
      if mutexes[m].lock != 0 && mutexes[m].owner != Some(v) {
        mutexes := mutexes[m := mutexes[m].(queue := mutexes[m].queue + [v])];
        pc := pc[v := Sleeping(m)];
        assert res[v := res[v]] == res;
        return false;
      }
      if mutexes[m].lock == 0 {
        mutexes := mutexes[m := mutexes[m].(lock := 1)];
        ResourceAdd(v, m);
        mutexes := mutexes[m := mutexes[m].(owner := Some(v))];
      } else {
        mutexes := mutexes[m := mutexes[m].(lock := mutexes[m].lock + 1)];
        assert res[v := res[v]] == res;
      }
      pc := pc[v := Running];
      acquired := true;
    }

    /** `vmm_mutex_trylock`. */
    method TryLockOnce(v: nat, m: nat) returns (acquired: bool)
      requires v < |pc| == |res| && m < |mutexes| && pc[v] == Running
      modifies this
      ensures Value() == TryPass(old(Value()), v, m).0
      ensures acquired <==> TryPass(old(Value()), v, m).1 == Returned(1)
      ensures acquired <==> old(mutexes)[m].lock == 0 || Owns(old(Value()), v, m)
    {
      acquired := false;
      assert pc[v := Running] == pc && res[v := res[v]] == res;
      if mutexes[m].lock == 0 {
        mutexes := mutexes[m := mutexes[m].(lock := mutexes[m].lock + 1)];
        ResourceAdd(v, m);
        mutexes := mutexes[m := mutexes[m].(owner := Some(v))];
        acquired := true;
      } else if mutexes[m].owner == Some(v) {
        mutexes := mutexes[m := mutexes[m].(lock := mutexes[m].lock + 1)];
        acquired := true;
      }
    }

    /** `vmm_mutex_unlock`. */
    method UnlockOnce(v: nat, m: nat) returns (rc: int)
      requires Inv(Value()) && v < |pc| && m < |mutexes| && pc[v] == Running
      modifies this
      ensures Value() == UnlockPass(old(Value()), v, m).0
      ensures rc == if Owns(old(Value()), v, m) then VMM_OK else VMM_EINVALID
      ensures Count(Value(), v, m) == if rc == VMM_OK then Count(old(Value()), v, m) - 1 else Count(old(Value()), v, m)
    {
      hide MutexOk, VcpuOk, PairOk, WakeFirst, Without;
      rc := VMM_EINVALID;
      UnlockEffect(Value(), v, m);
      assert MutexOk(mutexes[m], |pc|);
      assert pc[v := Running] == pc && res[v := res[v]] == res;
      if mutexes[m].lock > 0 && mutexes[m].owner == Some(v) {
        mutexes := mutexes[m := mutexes[m].(lock := mutexes[m].lock - 1)];
        if mutexes[m].lock == 0 {
          mutexes := mutexes[m := mutexes[m].(owner := None)];
          ResourceRemove(v, m);
          assert Value() == Release(old(Value()), v, m);
          ReleaseKeepsInv(old(Value()), v, m);
          WakeFirstWaiter(m);
        }
        rc := VMM_OK;
      }
    }

    /** The loop of `vmm_manager_vcpu_resource_flush`: afterwards the destroyed
        VCPU owns no mutex, and nobody else's count has changed. */
    method Flush(v: nat)
      requires Inv(Value()) && AllAwake(Value()) && v < |pc| && pc[v] == Flushing(None)
      modifies this
      ensures Inv(Value()) && AllAwake(Value()) && v < |pc| && pc[v] == Flushing(None) && res[v] == []
      ensures forall m: nat :: !Owns(Value(), v, m)
      ensures forall u: nat, m: nat :: u != v ==> Count(Value(), u, m) == Count(old(Value()), u, m)
    {
      hide Inv, AllAwake, Next, Count, MutexOk, PairOk, Distinct;
      PcInRange(Value(), v);
      while res[v] != []
        invariant Inv(Value()) && AllAwake(Value()) && v < |pc| == |res| && pc[v] == Flushing(None)
        invariant forall u: nat, m: nat :: u != v ==> Count(Value(), u, m) == Count(old(Value()), u, m)
        decreases |res[v]|
      {
        ghost var s := Value();
        var n := |res[v]| - 1;
        var m := res[v][n];
        res, pc := res[v := res[v][..n]], pc[v := Flushing(Some(m))];
        FlushPopped(s, v);
        ghost var s1 := Value();
        CleanupOnce(v);
        FlushCleaned(s1, v);
      }
      forall m: nat ensures !Owns(Value(), v, m) { FlushedOwnsNothing(Value(), v, m); }
    }

    /** `__vmm_mutex_cleanup` of the resource just popped. */
    method CleanupOnce(v: nat)
      requires Inv(Value()) && Enabled(Value(), FlushCleanup(v))
      modifies this`mutexes, this`pc
      ensures Value() == Cleanup(old(Value()), v).0
    {
      hide MutexOk, VcpuOk, PairOk, WakeAll;
      CleanupKeepsInv(Value(), v);
      var m := pc[v].popped.value;
      pc := pc[v := Flushing(None)];
      if mutexes[m].lock > 0 && mutexes[m].owner == Some(v) {
        mutexes := mutexes[m := mutexes[m].(lock := 0, owner := None)];
        assert res[v := res[v]] == res;
        WakeAllWaiters(m);
      }
    }
  }

  /** What the pop of the flush loop does. */
  lemma FlushPopped(s: Sys, v: nat)
    requires Inv(s) && AllAwake(s) && v < |s.pc| == |s.res| && s.pc[v] == Flushing(None) && s.res[v] != []
    ensures var n := |s.res[v]| - 1;
            var s' := Sys(s.mutexes, s.pc[v := Flushing(Some(s.res[v][n]))], s.res[v := s.res[v][..n]]);
            Inv(s') && AllAwake(s') && forall u: nat, m: nat :: Count(s', u, m) == Count(s, u, m)
  {
    StepKeepsInv(s, FlushPop(v));
    WakeupKeptIff(s, FlushPop(v));
  }

  /** What the cleanup of the flush loop does. */
  lemma FlushCleaned(s: Sys, v: nat)
    requires Inv(s) && AllAwake(s) && Enabled(s, FlushCleanup(v))
    ensures var s' := Cleanup(s, v).0;
            && Inv(s') && AllAwake(s') && |s'.pc| == |s.pc| && s'.pc[v] == Flushing(None) && s'.res == s.res
            && forall u: nat, m: nat :: u != v ==> Count(s', u, m) == Count(s, u, m)
  {
    hide Inv, AllAwake, Count, WakeAll, MutexOk, VcpuOk, PairOk;
    CleanupInv(s, v);
    CleanupAwake(s, v);
    forall u: nat, m: nat | u != v ensures Count(Cleanup(s, v).0, u, m) == Count(s, u, m) {
      StepCounts(s, FlushCleanup(v), u, m);
    }
    CleanupKeepsInv(s, v);
    PcInRange(s, v);
    var m := s.pc[v].popped.value;
    assert s.res[v := s.res[v]] == s.res;
    WakeAllKeepsOthers(Local(s, v, m, s.mutexes[m].(lock := 0, owner := None), Flushing(None), s.res[v]), m, v);
  }

  lemma {:induction false} WakeAllKeepsOthers(s: Sys, m: nat, v: nat)
    requires Inv(s) && m < |s.mutexes| && v < |s.pc| && !s.pc[v].Sleeping?
    ensures var s' := WakeAll(s, m);
            |s'.pc| == |s.pc| && s'.pc[v] == s.pc[v] && s'.res == s.res
    decreases |s.mutexes[m].queue|
  {
    hide Distinct;
    var q := s.mutexes[m].queue;
    if q != [] {
      WakeFirstKeepsInv(s, m);
      assert PairOk(s.mutexes[m], s.pc[q[0]], s.res[q[0]], q[0], m) && q[0] in q;
      WakeAllKeepsOthers(WakeFirst(s, m), m, v);
      assert s.res[q[0] := s.res[q[0]]] == s.res;
    }
  }

  lemma FlushedOwnsNothing(s: Sys, v: nat, m: nat)
    requires Inv(s) && v < |s.pc| == |s.res| && s.pc[v] == Flushing(None) && s.res[v] == []
    ensures !Owns(s, v, m)
  {
    if m < |s.mutexes| { assert PairOk(s.mutexes[m], s.pc[v], s.res[v], v, m); }
  }
}
