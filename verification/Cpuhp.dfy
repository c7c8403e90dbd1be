/** CPU hotplug notifiers of one CPU: the sorted notifier list, the hotplug
    state, and which notifiers have been started. */
module Cpuhp {
  import opened Common

  /** `struct vmm_cpuhp_notify`; the two flags say which callbacks it has. */
  datatype Notifier = Notifier(id: nat, state: nat, startup: bool, teardown: bool)

  datatype Call = Up(id: nat) | Down(id: nat)

  const VMM_CPUHP_STATE_OFFLINE := 0

  /** The list, the state of the CPU, the notifiers started on it, and the
      callbacks made so far. */
  datatype Cpu = Cpu(list: seq<Notifier>, state: nat, started: set<nat>, log: seq<Call>)

  predicate Both(n: Notifier) { n.startup && n.teardown }

  // ----- the operations on values -----

  predicate GoesUp(n: Notifier, from: nat, to: nat) { n.startup && from < n.state <= to }

  predicate GoesDown(n: Notifier, from: nat, to: nat) { n.teardown && to < n.state <= from }

  /** The notifiers whose startup is due, in list order. */
  function Ups(list: seq<Notifier>, from: nat, to: nat): (r: seq<Notifier>)
  {
    if list == [] then []
    else if GoesUp(list[0], from, to) then [list[0]] + Ups(list[1..], from, to)
    else Ups(list[1..], from, to)
  }

  /** The notifiers whose teardown is due, in reverse list order. */
  function Downs(list: seq<Notifier>, from: nat, to: nat): (r: seq<Notifier>)
  {
    if list == [] then []
    else
      var last := |list| - 1;
      if GoesDown(list[last], from, to) then [list[last]] + Downs(list[..last], from, to)
      else Downs(list[..last], from, to)
  }

  lemma {:induction false} UpsMembers(list: seq<Notifier>, from: nat, to: nat)
    ensures forall n :: n in Ups(list, from, to) <==> n in list && GoesUp(n, from, to)
    decreases |list|
  {
    if list != [] { UpsMembers(list[1..], from, to); }
  }

  lemma {:induction false} DownsMembers(list: seq<Notifier>, from: nat, to: nat)
    ensures forall n :: n in Downs(list, from, to) <==> n in list && GoesDown(n, from, to)
    decreases |list|
  {
    if list != [] {
      var last := |list| - 1;
      DownsMembers(list[..last], from, to);
      assert list == list[..last] + [list[last]];
    }
  }

  /** How many of the calls succeed before the first failure. */
  function Passed(calls: seq<Notifier>, fails: set<nat>): (k: nat)
    ensures k <= |calls|
    ensures forall i :: 0 <= i < k ==> calls[i].id !in fails
    ensures k < |calls| ==> calls[k].id in fails
  {
    if calls == [] || calls[0].id in fails then 0 else 1 + Passed(calls[1..], fails)
  }

  function Ids(calls: seq<Notifier>): (s: set<nat>)
    ensures forall i :: i in s <==> exists n :: n in calls && n.id == i
  {
    if calls == [] then {} else {calls[0].id} + Ids(calls[1..])
  }

  function UpLog(calls: seq<Notifier>): (r: seq<Call>)
    ensures |r| == |calls|
  {
    seq(|calls|, i requires 0 <= i < |calls| => Up(calls[i].id))
  }

  function DownLog(calls: seq<Notifier>): (r: seq<Call>)
    ensures |r| == |calls|
  {
    seq(|calls|, i requires 0 <= i < |calls| => Down(calls[i].id))
  }

  /** The calls made: up to and including the first that fails. */
  function Made(calls: seq<Notifier>, fails: set<nat>): seq<Notifier> {
    var k := Passed(calls, fails);
    calls[..if k < |calls| then k + 1 else k]
  }

  /** `vmm_cpuhp_set_state`; the callbacks of `fails` return the error `err`. */
  function SetStateSpec(s: Cpu, to: nat, fails: set<nat>, err: int): (r: (int, Cpu)) {
    if s.state < to then
      var calls := Ups(s.list, s.state, to);
      var k := Passed(calls, fails);
      (if k < |calls| then err else VMM_OK,
       Cpu(s.list, to, s.started + Ids(calls[..k]), s.log + UpLog(Made(calls, fails))))
    else if s.state > to then
      var calls := Downs(s.list, s.state, to);
      var k := Passed(calls, fails);
      (if k < |calls| then err else VMM_OK,
       Cpu(s.list, to, s.started - Ids(calls[..k]), s.log + DownLog(Made(calls, fails))))
    else (VMM_OK, s.(state := to))
  }

  /** `n` put in front of the first notifier with a higher state. */
  function Place(list: seq<Notifier>, n: Notifier): (r: seq<Notifier>)
    ensures forall x :: x in r <==> x in list || x == n
  {
    if list == [] then [n]
    else if n.state < list[0].state then [n] + list
    else [list[0]] + Place(list[1..], n)
  }

  /** `vmm_cpuhp_register`, as far as this CPU is concerned. */
  function RegisterSpec(s: Cpu, n: Notifier, invoke: bool, fails: set<nat>): (r: (int, Cpu)) {
    if n.state <= VMM_CPUHP_STATE_OFFLINE then (VMM_EINVALID, s)
    else if exists x :: x in s.list && x.id == n.id then (VMM_EEXIST, s)
    else
      var s' := s.(list := Place(s.list, n));
      if invoke && n.startup && n.state <= s.state then
        (VMM_OK, s'.(started := if n.id in fails then s.started else s.started + {n.id}, log := s.log + [Up(n.id)]))
      else (VMM_OK, s')
  }

  function Dropped(list: seq<Notifier>, id: nat): (r: seq<Notifier>)
    ensures forall x :: x in r ==> x in list
    ensures forall x :: x in list && x.id != id ==> x in r
  {
    if list == [] then [] else if list[0].id == id then list[1..] else [list[0]] + Dropped(list[1..], id)
  }

  /** `vmm_cpuhp_unregister`. */
  function UnregisterSpec(s: Cpu, id: nat): (r: (int, Cpu)) {
    if exists x :: x in s.list && x.id == id then (VMM_OK, s.(list := Dropped(s.list, id)))
    else (VMM_ENOTAVAIL, s)
  }

  // ----- the invariant -----

  ghost predicate Sorted(list: seq<Notifier>) {
    forall i, j :: 0 <= i < j < |list| ==> list[i].state <= list[j].state
  }

  ghost predicate Distinct(list: seq<Notifier>) {
    forall i, j :: 0 <= i < j < |list| ==> list[i].id != list[j].id
  }

  /** A notifier with both callbacks is started exactly when its state is at
      most the state of the CPU. */
  ghost predicate StartedOk(s: Cpu) {
    forall n :: n in s.list && Both(n) ==> (n.id in s.started <==> n.state <= s.state)
  }

  ghost predicate Inv(s: Cpu) {
    Sorted(s.list) && Distinct(s.list) && StartedOk(s)
  }

  /** Ids name notifiers. */
  lemma SameId(list: seq<Notifier>, a: Notifier, b: Notifier)
    requires Distinct(list) && a in list && b in list && a.id == b.id
    ensures a == b
  {
  }

  lemma PrefixIds(calls: seq<Notifier>, k: nat, n: Notifier)
    requires k <= |calls| && n in calls && Distinct(calls)
    ensures n.id in Ids(calls[..k]) <==> n in calls[..k]
  {
    if n.id in Ids(calls[..k]) {
      var x :| x in calls[..k] && x.id == n.id;
      SameId(calls, x, n);
    }
  }

  lemma {:induction false} UpsDistinct(list: seq<Notifier>, from: nat, to: nat)
    requires Distinct(list)
    ensures Distinct(Ups(list, from, to))
    decreases |list|
  {
    if list != [] {
      UpsDistinct(list[1..], from, to);
      var r := Ups(list[1..], from, to);
      UpsMembers(list[1..], from, to);
      forall i | 0 <= i < |r| ensures r[i].id != list[0].id { assert r[i] in r; }
    }
  }

  lemma {:induction false} DownsDistinct(list: seq<Notifier>, from: nat, to: nat)
    requires Distinct(list)
    ensures Distinct(Downs(list, from, to))
    decreases |list|
  {
    if list != [] {
      var last := |list| - 1;
      DownsDistinct(list[..last], from, to);
      var r := Downs(list[..last], from, to);
      DownsMembers(list[..last], from, to);
      forall i | 0 <= i < |r| ensures r[i].id != list[last].id { assert r[i] in r; }
    }
  }

  // ----- changing the state -----

  /** The callbacks due for a change of state, in calling order. */
  function Due(s: Cpu, to: nat): seq<Notifier> {
    if s.state < to then Ups(s.list, s.state, to)
    else if s.state > to then Downs(s.list, s.state, to)
    else []
  }

  /** A failure cuts off a notifier that has both callbacks. */
  ghost predicate CutsOff(calls: seq<Notifier>, fails: set<nat>) {
    exists j :: Passed(calls, fails) <= j < |calls| && Both(calls[j])
  }

  lemma DueDistinct(s: Cpu, to: nat)
    requires Inv(s)
    ensures Distinct(Due(s, to))
    ensures forall n :: n in Due(s, to) ==> n in s.list
  {
    hide Ups, Downs;
    UpsDistinct(s.list, s.state, to);
    UpsMembers(s.list, s.state, to);
    DownsDistinct(s.list, s.state, to);
    DownsMembers(s.list, s.state, to);
  }

  /** Whether one notifier is as it should be after the change of state. */
  lemma NotifierAfter(s: Cpu, to: nat, fails: set<nat>, err: int, n: Notifier)
    requires Inv(s) && n in s.list && Both(n)
    ensures var calls := Due(s, to);
            var s' := SetStateSpec(s, to, fails, err).1;
            (n.id in s'.started <==> n.state <= to) <==> (n in calls ==> n in calls[..Passed(calls, fails)])
  {
    hide Ups, Downs, Passed, Ids, Sorted;
    var calls := Due(s, to);
    var k := Passed(calls, fails);
    DueDistinct(s, to);
    UpsMembers(s.list, s.state, to);
    DownsMembers(s.list, s.state, to);
    if n in calls {
      PrefixIds(calls, k, n);
    } else if n.id in Ids(calls[..k]) {
      var x :| x in calls[..k] && x.id == n.id;
      assert x in calls;
      SameId(s.list, x, n);
    }
  }

  /** `vmm_cpuhp_set_state` sets the new state even when a callback fails: every
      notifier with both callbacks is started exactly up to the new state if
      and only if no failure cuts one off. */
  lemma SetStateKeepsInvIff(s: Cpu, to: nat, fails: set<nat>, err: int)
    requires Inv(s)
    ensures Inv(SetStateSpec(s, to, fails, err).1) <==> !CutsOff(Due(s, to), fails)
  {
    hide Ups, Downs, Passed, Ids, Distinct, Sorted;
    var calls := Due(s, to);
    var k := Passed(calls, fails);
    var s' := SetStateSpec(s, to, fails, err).1;
    DueDistinct(s, to);
    forall n | n in s.list && Both(n)
      ensures (n.id in s'.started <==> n.state <= to) <==> (n in calls ==> n in calls[..k])
    {
      NotifierAfter(s, to, fails, err, n);
    }
    if CutsOff(calls, fails) {
      var j :| k <= j < |calls| && Both(calls[j]);
      LaterNotInPrefix(calls, k, j);
      assert calls[j] in calls;
    } else {
      forall n | n in calls && Both(n) ensures n in calls[..k] {
        var i :| 0 <= i < |calls| && calls[i] == n;
        assert i < k;
        assert calls[..k][i] == n;
      }
    }
  }

  lemma LaterNotInPrefix(calls: seq<Notifier>, k: nat, j: nat)
    requires Distinct(calls) && k <= j < |calls|
    ensures calls[j] !in calls[..k]
  {
  }

  /** A change of state that returns `VMM_OK` cuts nothing off. */
  lemma OkKeepsInv(s: Cpu, to: nat, fails: set<nat>, err: int)
    requires Inv(s) && err != VMM_OK && SetStateSpec(s, to, fails, err).0 == VMM_OK
    ensures Inv(SetStateSpec(s, to, fails, err).1)
  {
    hide Inv, Ups, Downs;
    SetStateKeepsInvIff(s, to, fails, err);
  }

  const FAILING := Notifier(0, 1, true, true)

  /** A startup that fails: the CPU enters the state, the notifier is not
      started. */
  lemma FailureIsForgotten()
    ensures Inv(Cpu([FAILING], 0, {}, []))
    ensures var r := SetStateSpec(Cpu([FAILING], 0, {}, []), 1, {0}, VMM_EFAIL);
            r.0 == VMM_EFAIL && r.1.state == 1 && !Inv(r.1)
  {
    var s := Cpu([FAILING], 0, {}, []);
    assert s.list[0] == FAILING && s.list[1..] == [];
    assert Ups(s.list, 0, 1) == [FAILING];
    assert Both(Due(s, 1)[0]) && Passed(Due(s, 1), {0}) == 0;
    SetStateKeepsInvIff(s, 1, {0}, VMM_EFAIL);
  }

  // ----- the order of the callbacks -----

  /** Startups run in non-decreasing state order, each once. */
  lemma {:induction false} UpsSorted(list: seq<Notifier>, from: nat, to: nat)
    requires Sorted(list)
    ensures Sorted(Ups(list, from, to))
    decreases |list|
  {
    if list != [] {
      UpsSorted(list[1..], from, to);
      var r := Ups(list[1..], from, to);
      UpsMembers(list[1..], from, to);
      forall i | 0 <= i < |r| ensures list[0].state <= r[i].state {
        assert r[i] in r && r[i] in list[1..];
      }
    }
  }

  function BothOf(calls: seq<Notifier>): seq<Notifier> {
    if calls == [] then []
    else if Both(calls[0]) then [calls[0]] + BothOf(calls[1..])
    else BothOf(calls[1..])
  }

  function Reverse(calls: seq<Notifier>): seq<Notifier> {
    if calls == [] then [] else Reverse(calls[1..]) + [calls[0]]
  }

  lemma Reassociate(a: Notifier, b: seq<Notifier>, c: seq<Notifier>)
    ensures [a] + b + c == [a] + (b + c)
  {
  }

  lemma {:induction false} UpsAppend(list: seq<Notifier>, n: Notifier, from: nat, to: nat)
    ensures Ups(list + [n], from, to) == Ups(list, from, to) + (if GoesUp(n, from, to) then [n] else [])
    decreases |list|
  {
    if list == [] {
      assert list + [n] == [n];
    } else {
      UpsAppend(list[1..], n, from, to);
      assert (list + [n])[0] == list[0] && (list + [n])[1..] == list[1..] + [n];
      Reassociate(list[0], Ups(list[1..], from, to), if GoesUp(n, from, to) then [n] else []);
    }
  }

  lemma {:induction false} BothOfAppend(a: seq<Notifier>, n: Notifier)
    ensures BothOf(a + [n]) == BothOf(a) + (if Both(n) then [n] else [])
    decreases |a|
  {
    if a == [] {
      assert a + [n] == [n];
    } else {
      BothOfAppend(a[1..], n);
      assert (a + [n])[0] == a[0] && (a + [n])[1..] == a[1..] + [n];
      Reassociate(a[0], BothOf(a[1..]), if Both(n) then [n] else []);
    }
  }

  lemma {:induction false} ReverseAppend(a: seq<Notifier>, n: Notifier)
    ensures Reverse(a + [n]) == [n] + Reverse(a)
    decreases |a|
  {
    if a == [] {
      assert a + [n] == [n];
    } else {
      ReverseAppend(a[1..], n);
      assert (a + [n])[1..] == a[1..] + [n];
    }
  }

  /** Going down runs the teardowns in the mirrored order of the startups. */
  lemma {:induction false} DownMirrorsUp(list: seq<Notifier>, from: nat, to: nat)
    ensures BothOf(Downs(list, to, from)) == Reverse(BothOf(Ups(list, from, to)))
    decreases |list|
  {
    if list != [] {
      var last := |list| - 1;
      var n := list[last];
      assert list == list[..last] + [n];
      UpsAppend(list[..last], n, from, to);
      DownMirrorsUp(list[..last], from, to);
      var ups, downs := Ups(list[..last], from, to), Downs(list[..last], to, from);
      if GoesUp(n, from, to) {
        BothOfAppend(ups, n);
        assert BothOf(ups) + [] == BothOf(ups);
        if Both(n) { ReverseAppend(BothOf(ups), n); }
      } else {
        assert ups + [] == ups;
      }
      if GoesDown(n, to, from) {
        assert Downs(list, to, from) == [n] + downs && ([n] + downs)[1..] == downs;
      }
    }
  }

  // ----- which callbacks are made -----

  /** The positions `idx` rise, and are exactly those of the notifiers with a
      startup whose state lies above `from` and not above `to`. */
  predicate RisesOver(idx: seq<nat>, list: seq<Notifier>, from: nat, to: nat) {
    && (forall j, k :: 0 <= j < k < |idx| ==> idx[j] < idx[k])
    && (forall j :: 0 <= j < |idx| ==> idx[j] < |list|)
    && (forall i :: 0 <= i < |list| ==> (i in idx <==> list[i].startup && from < list[i].state <= to))
  }

  /** The positions `idx` fall, and are exactly those of the notifiers with a
      teardown whose state lies above `to` and not above `from`. */
  predicate FallsOver(idx: seq<nat>, list: seq<Notifier>, from: nat, to: nat) {
    && (forall j, k :: 0 <= j < k < |idx| ==> idx[k] < idx[j])
    && (forall j :: 0 <= j < |idx| ==> idx[j] < |list|)
    && (forall i :: 0 <= i < |list| ==> (i in idx <==> list[i].teardown && to < list[i].state <= from))
  }

  /** The notifiers at the positions. */
  predicate At(calls: seq<Notifier>, list: seq<Notifier>, idx: seq<nat>) {
    |calls| == |idx| && forall j :: 0 <= j < |idx| ==> idx[j] < |list| && calls[j] == list[idx[j]]
  }

  lemma RiseStep(idx: seq<nat>, list: seq<Notifier>, from: nat, to: nat)
    requires list != [] && RisesOver(idx, list[..|list| - 1], from, to)
    ensures var last := |list| - 1;
            RisesOver(idx + (if list[last].startup && from < list[last].state <= to then [last] else []), list, from, to)
  {
  }

  lemma FallStep(idx: seq<nat>, list: seq<Notifier>, from: nat, to: nat)
    requires list != [] && FallsOver(idx, list[..|list| - 1], from, to)
    ensures var last := |list| - 1;
            FallsOver((if list[last].teardown && to < list[last].state <= from then [last] else []) + idx, list, from, to)
  {
  }

  lemma NothingRises(from: nat, to: nat)
    ensures RisesOver([], [], from, to) && FallsOver([], [], from, to)
    ensures At(Ups([], from, to), [], []) && At(Downs([], from, to), [], [])
  {
  }

  lemma AtLast(calls: seq<Notifier>, list: seq<Notifier>, idx: seq<nat>)
    requires list != [] && At(calls, list[..|list| - 1], idx)
    ensures var last := |list| - 1;
            && At(calls, list, idx) && At(calls + [], list, idx + []) && At([] + calls, list, [] + idx)
            && At(calls + [list[last]], list, idx + [last]) && At([list[last]] + calls, list, [last] + idx)
  {
  }

  lemma DownsLast(list: seq<Notifier>, from: nat, to: nat)
    requires list != []
    ensures var last := |list| - 1;
            Downs(list, from, to)
              == (if list[last].teardown && to < list[last].state <= from then [list[last]] else [])
                 + Downs(list[..last], from, to)
  {
    var last := |list| - 1;
    assert [] + Downs(list[..last], from, to) == Downs(list[..last], from, to);
  }

  lemma {:induction false} UpsRise(list: seq<Notifier>, from: nat, to: nat) returns (idx: seq<nat>)
    ensures RisesOver(idx, list, from, to) && At(Ups(list, from, to), list, idx)
    decreases |list|
  {
    hide Ups, RisesOver, At;
    if list == [] {
      NothingRises(from, to);
      idx := [];
    } else {
      var last := |list| - 1;
      var rest := UpsRise(list[..last], from, to);
      assert list == list[..last] + [list[last]];
      UpsAppend(list[..last], list[last], from, to);
      RiseStep(rest, list, from, to);
      AtLast(Ups(list[..last], from, to), list, rest);
      idx := rest + (if list[last].startup && from < list[last].state <= to then [last] else []);
    }
  }

  lemma {:induction false} DownsFall(list: seq<Notifier>, from: nat, to: nat) returns (idx: seq<nat>)
    ensures FallsOver(idx, list, from, to) && At(Downs(list, from, to), list, idx)
    decreases |list|
  {
    hide Downs, FallsOver, At;
    if list == [] {
      NothingRises(from, to);
      idx := [];
    } else {
      var last := |list| - 1;
      var rest := DownsFall(list[..last], from, to);
      DownsLast(list, from, to);
      FallStep(rest, list, from, to);
      AtLast(Downs(list[..last], from, to), list, rest);
      idx := (if list[last].teardown && to < list[last].state <= from then [last] else []) + rest;
    }
  }

  /** The first `done` callbacks succeed, and the next, if there is one, fails. */
  predicate FirstFailure(list: seq<Notifier>, idx: seq<nat>, fails: set<nat>, done: nat)
    requires forall j :: 0 <= j < |idx| ==> idx[j] < |list|
  {
    && done <= |idx| && (forall j :: 0 <= j < done ==> list[idx[j]].id !in fails)
    && (done < |idx| ==> list[idx[done]].id in fails)
  }

  lemma PassedAt(calls: seq<Notifier>, list: seq<Notifier>, idx: seq<nat>, fails: set<nat>)
    requires At(calls, list, idx)
    ensures FirstFailure(list, idx, fails, Passed(calls, fails))
  {
  }

  /** Going up calls, in list order and once each, the startup of every notifier
      that has one and whose state is passed, whether or not it has a teardown,
      up to and including the first that fails. The state is entered in any
      case. */
  lemma GoingUpCalls(s: Cpu, to: nat, fails: set<nat>, err: int) returns (idx: seq<nat>, done: nat)
    requires s.state < to
    ensures RisesOver(idx, s.list, s.state, to) && FirstFailure(s.list, idx, fails, done)
    ensures var (rc, s') := SetStateSpec(s, to, fails, err);
            var made := if done < |idx| then done + 1 else done;
            && rc == (if done < |idx| then err else VMM_OK) && s'.state == to && s'.list == s.list
            && |s'.log| == |s.log| + made && s'.log[..|s.log|] == s.log
            && (forall j :: 0 <= j < made ==> s'.log[|s.log| + j] == Up(s.list[idx[j]].id))
            && forall id :: id in s'.started <==> id in s.started || exists j :: 0 <= j < done && s.list[idx[j]].id == id
  {
    hide Ups, Passed, Ids;
    idx := UpsRise(s.list, s.state, to);
    var calls := Ups(s.list, s.state, to);
    done := Passed(calls, fails);
    PassedAt(calls, s.list, idx, fails);
    IdsAt(calls, s.list, idx, done);
    var s' := SetStateSpec(s, to, fails, err).1;
    assert forall j :: 0 <= j < |Made(calls, fails)| ==> Made(calls, fails)[j] == s.list[idx[j]];
  }

  lemma IdsAt(calls: seq<Notifier>, list: seq<Notifier>, idx: seq<nat>, done: nat)
    requires At(calls, list, idx) && done <= |calls|
    ensures forall id :: id in Ids(calls[..done]) <==> exists j :: 0 <= j < done && list[idx[j]].id == id
  {
    hide Ids;
    forall id ensures id in Ids(calls[..done]) <==> exists j :: 0 <= j < done && list[idx[j]].id == id {
      if id in Ids(calls[..done]) {
        var n :| n in calls[..done] && n.id == id;
        var j :| 0 <= j < done && calls[..done][j] == n;
        assert list[idx[j]].id == id;
      }
      if j :| 0 <= j < done && list[idx[j]].id == id {
        assert calls[..done][j] in calls[..done];
      }
    }
  }

  /** Going down calls, from the end of the list and once each, the teardown of
      every notifier that has one and whose state is left, whether or not it has
      a startup, up to and including the first that fails. */
  lemma GoingDownCalls(s: Cpu, to: nat, fails: set<nat>, err: int) returns (idx: seq<nat>, done: nat)
    requires to < s.state
    ensures FallsOver(idx, s.list, s.state, to) && FirstFailure(s.list, idx, fails, done)
    ensures var (rc, s') := SetStateSpec(s, to, fails, err);
            var made := if done < |idx| then done + 1 else done;
            && rc == (if done < |idx| then err else VMM_OK) && s'.state == to && s'.list == s.list
            && |s'.log| == |s.log| + made && s'.log[..|s.log|] == s.log
            && (forall j :: 0 <= j < made ==> s'.log[|s.log| + j] == Down(s.list[idx[j]].id))
            && forall id :: id in s'.started <==> id in s.started && !exists j :: 0 <= j < done && s.list[idx[j]].id == id
  {
    hide Downs, Passed, Ids;
    idx := DownsFall(s.list, s.state, to);
    var calls := Downs(s.list, s.state, to);
    done := Passed(calls, fails);
    PassedAt(calls, s.list, idx, fails);
    IdsAt(calls, s.list, idx, done);
    var s' := SetStateSpec(s, to, fails, err).1;
    assert forall j :: 0 <= j < |Made(calls, fails)| ==> Made(calls, fails)[j] == s.list[idx[j]];
  }

  /** Staying where it is calls nobody. */
  lemma StayingCalls(s: Cpu, fails: set<nat>, err: int)
    ensures SetStateSpec(s, s.state, fails, err) == (VMM_OK, s)
  {
  }

  // ----- registering -----

  /** The list stays sorted, and stable: the new notifier goes behind those of
      its state and in front of the higher ones; the others keep their order. */
  lemma {:induction false} PlaceIsStable(list: seq<Notifier>, n: Notifier) returns (k: nat)
    requires Sorted(list)
    ensures k <= |list| && Place(list, n) == list[..k] + [n] + list[k..]
    ensures forall i :: 0 <= i < k ==> list[i].state <= n.state
    ensures forall i :: k <= i < |list| ==> n.state < list[i].state
    decreases |list|
  {
    if list == [] || n.state < list[0].state {
      k := 0;
    } else {
      var j := PlaceIsStable(list[1..], n);
      k := j + 1;
      assert list[..k] == [list[0]] + list[1..][..j];
      assert list[k..] == list[1..][j..];
    }
  }

  lemma PlaceKeepsOrder(list: seq<Notifier>, n: Notifier)
    requires Sorted(list) && Distinct(list) && forall x :: x in list ==> x.id != n.id
    ensures Sorted(Place(list, n)) && Distinct(Place(list, n))
  {
    hide Place;
    var k := PlaceIsStable(list, n);
    var r := list[..k] + [n] + list[k..];
    forall i | 0 <= i < |list| ensures list[i] in list {}
  }

  /** A notifier of the offline state and one on the list already are refused.
      Any other is on the list afterwards, with all that were there in their
      order. Its startup is called, whether or not it has a teardown, exactly
      when that is asked for and the CPU has reached its state. */
  lemma RegisterAdds(s: Cpu, n: Notifier, invoke: bool, fails: set<nat>) returns (k: nat)
    requires Sorted(s.list)
    ensures var (rc, s') := RegisterSpec(s, n, invoke, fails);
            && (rc == VMM_EINVALID <==> n.state == VMM_CPUHP_STATE_OFFLINE)
            && (rc == VMM_EEXIST <==> rc != VMM_EINVALID && exists x :: x in s.list && x.id == n.id)
            && (rc != VMM_EINVALID && rc != VMM_EEXIST ==> rc == VMM_OK)
            && (rc != VMM_OK ==> s' == s)
            && (rc == VMM_OK ==>
                  var called := invoke && n.startup && n.state <= s.state;
                  && k <= |s.list| && s'.list == s.list[..k] + [n] + s.list[k..] && s'.state == s.state
                  && s'.log == s.log + (if called then [Up(n.id)] else [])
                  && s'.started == s.started + (if called && n.id !in fails then {n.id} else {}))
  {
    hide Place, Sorted;
    k := PlaceIsStable(s.list, n);
    assert s.log + [] == s.log && s.started + {} == s.started;
  }

  /** What a registration needs: one that is due is started, before (it was
      unregistered without a teardown) or by the invocation; one that is not due
      is not started. */
  predicate InStep(s: Cpu, n: Notifier, invoke: bool, fails: set<nat>) {
    !Both(n) || (if s.state < n.state then n.id !in s.started else n.id in s.started || (invoke && n.id !in fails))
  }

  /** A registration leaves the notifiers in order if and only if the new one is
      in step with the CPU. */
  lemma RegisterKeepsInvIff(s: Cpu, n: Notifier, invoke: bool, fails: set<nat>)
    requires Inv(s) && RegisterSpec(s, n, invoke, fails).0 == VMM_OK
    ensures Inv(RegisterSpec(s, n, invoke, fails).1) <==> InStep(s, n, invoke, fails)
  {
    hide Sorted, Distinct, Place;
    PlaceKeepsOrder(s.list, n);
    var s' := RegisterSpec(s, n, invoke, fails).1;
    assert n in s'.list;
    forall x | x in s.list && Both(x) ensures x.id in s'.started <==> x.state <= s'.state {
      assert x.id != n.id;
    }
  }

  lemma {:induction false} DroppedKeepsOrder(list: seq<Notifier>, id: nat)
    requires Sorted(list) && Distinct(list)
    ensures Sorted(Dropped(list, id)) && Distinct(Dropped(list, id))
    decreases |list|
  {
    hide Sorted, Distinct;
    if list != [] {
      TailInOrder(list);
      if list[0].id != id {
        DroppedKeepsOrder(list[1..], id);
        ConsInOrder(list[0], Dropped(list[1..], id));
      }
    }
  }

  lemma TailInOrder(list: seq<Notifier>)
    requires list != [] && Sorted(list) && Distinct(list)
    ensures Sorted(list[1..]) && Distinct(list[1..])
    ensures forall n :: n in list[1..] ==> list[0].state <= n.state && list[0].id != n.id
  {
  }

  lemma ConsInOrder(n: Notifier, r: seq<Notifier>)
    requires Sorted(r) && Distinct(r) && forall x :: x in r ==> n.state <= x.state && n.id != x.id
    ensures Sorted([n] + r) && Distinct([n] + r)
  {
    forall i | 0 <= i < |r| ensures n.state <= r[i].state && n.id != r[i].id { assert r[i] in r; }
  }

  lemma DropHead(list: seq<Notifier>, id: nat)
    requires list != []
    ensures Dropped(list, id) == if list[0].id == id then list[1..] else [list[0]] + Dropped(list[1..], id)
  {
  }

  lemma CutTail(list: seq<Notifier>, k: nat)
    requires 0 < k <= |list|
    ensures [list[0]] + list[1..][..k - 1] == list[..k]
    ensures k < |list| ==> [list[0]] + (list[1..][..k - 1] + list[1..][k..]) == list[..k] + list[k + 1..]
    ensures [list[0]] + list[1..] == list
  {
  }

  lemma {:induction false} DroppedAt(list: seq<Notifier>, id: nat, k: nat)
    requires k <= |list| && (forall i :: 0 <= i < k ==> list[i].id != id) && (k < |list| ==> list[k].id == id)
    ensures Dropped(list, id) == if k < |list| then list[..k] + list[k + 1..] else list
    decreases k
  {
    hide Dropped;
    if k > 0 {
      DropHead(list, id);
      DroppedAt(list[1..], id, k - 1);
      CutTail(list, k);
    } else if list != [] {
      DropHead(list, id);
    } else {
      NoneDropped(id);
    }
  }

  lemma NoneDropped(id: nat)
    ensures Dropped([], id) == []
  {
  }

  function PositionOf(list: seq<Notifier>, id: nat): (k: nat)
    ensures k <= |list| && (forall i :: 0 <= i < k ==> list[i].id != id) && (k < |list| ==> list[k].id == id)
  {
    if list == [] || list[0].id == id then 0 else 1 + PositionOf(list[1..], id)
  }

  /** Only a notifier on the list can be unregistered; afterwards it is off the
      list, the others are as they were, and nothing has been called. */
  lemma UnregisterRemoves(s: Cpu, id: nat) returns (k: nat)
    requires Distinct(s.list)
    ensures var (rc, s') := UnregisterSpec(s, id);
            if exists x :: x in s.list && x.id == id then
              && rc == VMM_OK && k < |s.list| && s.list[k].id == id && s' == s.(list := s.list[..k] + s.list[k + 1..])
              && forall x :: x in s'.list ==> x.id != id
            else rc == VMM_ENOTAVAIL && s' == s
  {
    hide Dropped;
    k := PositionOf(s.list, id);
    DroppedAt(s.list, id, k);
    assert k < |s.list| ==> s.list[k] in s.list;
  }

  lemma UnregisterKeepsInv(s: Cpu, id: nat)
    requires Inv(s)
    ensures Inv(UnregisterSpec(s, id).1)
  {
    hide Dropped, Sorted, Distinct;
    DroppedKeepsOrder(s.list, id);
  }

  // ----- runs -----

  datatype Op =
    | SetStateOp(to: nat, fails: set<nat>, err: int)
    | RegisterOp(n: Notifier, invoke: bool, fails: set<nat>)
    | UnregisterOp(id: nat)

  function Step(s: Cpu, op: Op): Cpu {
    match op
    case SetStateOp(to, fails, err) => SetStateSpec(s, to, fails, err).1
    case RegisterOp(n, invoke, fails) => RegisterSpec(s, n, invoke, fails).1
    case UnregisterOp(id) => UnregisterSpec(s, id).1
  }

  /** Changes of state cut nothing off, and what is registered is in step. */
  ghost predicate Clean(s: Cpu, op: Op) {
    match op
    case SetStateOp(to, fails, err) => !CutsOff(Due(s, to), fails)
    case RegisterOp(n, invoke, fails) => InStep(s, n, invoke, fails)
    case UnregisterOp(id) => true
  }

  ghost predicate CleanRun(s: Cpu, ops: seq<Op>)
    decreases |ops|
  {
    ops != [] ==> Clean(s, ops[0]) && CleanRun(Step(s, ops[0]), ops[1..])
  }

  function Exec(s: Cpu, ops: seq<Op>): Cpu
    decreases |ops|
  {
    if ops == [] then s else Exec(Step(s, ops[0]), ops[1..])
  }

  /** Over every such run a notifier having both callbacks is started exactly
      when its state is at most the CPU's state. */
  lemma {:induction false} EveryRunKeepsInv(s: Cpu, ops: seq<Op>)
    requires Inv(s) && CleanRun(s, ops)
    ensures Inv(Exec(s, ops))
    decreases |ops|
  {
    hide Inv, SetStateSpec, RegisterSpec, UnregisterSpec, CutsOff, Due, InStep;
    if ops != [] {
      match ops[0] {
        case SetStateOp(to, fails, err) => SetStateKeepsInvIff(s, to, fails, err);
        case RegisterOp(n, invoke, fails) =>
          if RegisterSpec(s, n, invoke, fails).0 == VMM_OK {
            RegisterKeepsInvIff(s, n, invoke, fails);
          } else {
            RegisterRefused(s, n, invoke, fails);
          }
        case UnregisterOp(id) => UnregisterKeepsInv(s, id);
      }
      EveryRunKeepsInv(Step(s, ops[0]), ops[1..]);
    }
  }

  lemma RegisterRefused(s: Cpu, n: Notifier, invoke: bool, fails: set<nat>)
    requires RegisterSpec(s, n, invoke, fails).0 != VMM_OK
    ensures RegisterSpec(s, n, invoke, fails).1 == s
  {
  }

  // ----- startups and teardowns alternate -----

  /** Whether the last call for the notifier was its startup. */
  function LastUp(log: seq<Call>, id: nat): bool {
    log != [] && (
      var last := |log| - 1;
      if log[last].id == id then log[last].Up? else LastUp(log[..last], id)
    )
  }

  /** The calls for the notifier are startup, teardown, startup, ... */
  predicate Alternates(log: seq<Call>, id: nat) {
    log == [] || (
      var last := |log| - 1;
      Alternates(log[..last], id) && (log[last].id == id ==> (log[last].Up? <==> !LastUp(log[..last], id)))
    )
  }

  lemma AppendCall(log: seq<Call>, c: Call, id: nat)
    ensures LastUp(log + [c], id) == if c.id == id then c.Up? else LastUp(log, id)
    ensures Alternates(log + [c], id) <==> Alternates(log, id) && (c.id == id ==> (c.Up? <==> !LastUp(log, id)))
  {
    var l := log + [c];
    assert l[|l| - 1] == c && l[..|l| - 1] == log;
  }

  /** Calls to different notifiers, one of which may be for `id`. */
  lemma {:induction false} AppendCalls(log: seq<Call>, calls: seq<Notifier>, up: bool, id: nat)
    requires Distinct(calls) && Alternates(log, id)
    requires (exists n :: n in calls && n.id == id) ==> LastUp(log, id) != up
    ensures var l := log + (if up then UpLog(calls) else DownLog(calls));
            && Alternates(l, id)
            && LastUp(l, id) == if exists n :: n in calls && n.id == id then up else LastUp(log, id)
    decreases |calls|
  {
    hide Alternates, LastUp;
    if calls == [] {
      NoCalls({});
      assert log + [] == log;
    } else {
      var last := |calls| - 1;
      var front, n := calls[..last], calls[last];
      assert calls == front + [n];
      LogLast(front, n);
      DistinctFront(calls);
      if n.id == id {
        AppendCalls(log, front, up, id);
      } else {
        assert forall x :: x in calls && x.id == id ==> x in front;
        AppendCalls(log, front, up, id);
      }
      var before := log + (if up then UpLog(front) else DownLog(front));
      var c := if up then Up(n.id) else Down(n.id);
      AppendCall(before, c, id);
      assert log + (if up then UpLog(calls) else DownLog(calls)) == before + [c];
    }
  }

  lemma LogLast(calls: seq<Notifier>, n: Notifier)
    ensures UpLog(calls + [n]) == UpLog(calls) + [Up(n.id)] && DownLog(calls + [n]) == DownLog(calls) + [Down(n.id)]
  {
  }

  lemma DistinctFront(calls: seq<Notifier>)
    requires calls != [] && Distinct(calls)
    ensures var last := |calls| - 1;
            Distinct(calls[..last]) && forall x :: x in calls[..last] ==> x.id != calls[last].id
  {
  }

  /** The calls for `id` alternate, it is started exactly when the last one was
      its startup, and where it is registered it has both callbacks. */
  ghost predicate InTurn(s: Cpu, id: nat) {
    && Alternates(s.log, id) && (LastUp(s.log, id) <==> id in s.started)
    && forall n :: n in s.list && n.id == id ==> Both(n)
  }

  /** What is registered is not started, and has both callbacks if it is `id`. */
  ghost predicate Regular(s: Cpu, op: Op, id: nat) {
    op.RegisterOp? ==> op.n.id !in s.started && (op.n.id == id ==> Both(op.n))
  }

  ghost predicate RegularRun(s: Cpu, ops: seq<Op>, id: nat)
    decreases |ops|
  {
    ops != [] ==> Regular(s, ops[0], id) && RegularRun(Step(s, ops[0]), ops[1..], id)
  }

  /** Where nothing is cut off, the calls made for `id` all succeed. */
  lemma MadeFor(calls: seq<Notifier>, fails: set<nat>, id: nat)
    requires Distinct(calls) && !CutsOff(calls, fails) && forall n :: n in calls && n.id == id ==> Both(n)
    ensures Distinct(Made(calls, fails))
    ensures (exists n :: n in Made(calls, fails) && n.id == id) <==> (exists n :: n in calls && n.id == id)
    ensures id in Ids(calls[..Passed(calls, fails)]) <==> (exists n :: n in calls && n.id == id)
  {
    hide Ids, Passed;
    var k, made := Passed(calls, fails), Made(calls, fails);
    forall j | 0 <= j < |calls| && calls[j].id == id ensures j < k {
      assert calls[j] in calls && Both(calls[j]);
    }
    forall n | n in calls && n.id == id ensures n in calls[..k] && n in made {
      var j :| 0 <= j < |calls| && calls[j] == n;
      assert calls[..k][j] == n && made[j] == n;
    }
  }

  lemma SetStateInTurn(s: Cpu, to: nat, fails: set<nat>, err: int, id: nat)
    requires Inv(s) && InTurn(s, id) && !CutsOff(Due(s, to), fails)
    ensures InTurn(SetStateSpec(s, to, fails, err).1, id)
  {
    hide Ups, Downs, Ids, Passed, Made, UpLog, DownLog, Alternates, LastUp, CutsOff, Distinct, Sorted;
    var calls := Due(s, to);
    if s.state != to {
      DueDistinct(s, to);
      MadeFor(calls, fails, id);
      MadeInCalls(calls, fails);
      DueTurn(s, to, id);
      AppendCalls(s.log, Made(calls, fails), s.state < to, id);
    }
  }

  lemma MadeInCalls(calls: seq<Notifier>, fails: set<nat>)
    ensures forall n :: n in Made(calls, fails) ==> n in calls
  {
  }

  /** What is due to go up is not started, what is due to go down is. */
  lemma DueTurn(s: Cpu, to: nat, id: nat)
    requires Inv(s) && InTurn(s, id)
    ensures s.state < to ==> forall n :: n in Due(s, to) && n.id == id ==> id !in s.started
    ensures s.state > to ==> forall n :: n in Due(s, to) && n.id == id ==> id in s.started
  {
    hide Ups, Downs, Alternates, LastUp, Distinct, Sorted;
    UpsMembers(s.list, s.state, to);
    DownsMembers(s.list, s.state, to);
  }

  lemma RegisterInTurn(s: Cpu, n: Notifier, invoke: bool, fails: set<nat>, id: nat)
    requires InTurn(s, id) && InStep(s, n, invoke, fails) && n.id !in s.started && (n.id == id ==> Both(n))
    ensures InTurn(RegisterSpec(s, n, invoke, fails).1, id)
  {
    hide Place, Alternates, LastUp;
    AppendCall(s.log, Up(n.id), id);
  }

  /** In every clean run in which a notifier is registered only while it is not
      started, and with both callbacks, its startups and teardowns alternate. */
  lemma {:induction false} EveryRunAlternates(s: Cpu, ops: seq<Op>, id: nat)
    requires Inv(s) && InTurn(s, id) && CleanRun(s, ops) && RegularRun(s, ops, id)
    ensures InTurn(Exec(s, ops), id)
    decreases |ops|
  {
    hide Inv, InTurn, SetStateSpec, RegisterSpec, UnregisterSpec, CutsOff, Due, InStep;
    if ops != [] {
      EveryRunKeepsInv(s, ops[..1]);
      assert ops[..1][0] == ops[0] && ops[..1][1..] == [];
      match ops[0] {
        case SetStateOp(to, fails, err) => SetStateInTurn(s, to, fails, err, id);
        case RegisterOp(n, invoke, fails) => RegisterInTurn(s, n, invoke, fails, id);
        case UnregisterOp(d) => UnregisterInTurn(s, d, id);
      }
      assert Exec(s, ops[..1]) == Step(s, ops[0]);
      EveryRunAlternates(Step(s, ops[0]), ops[1..], id);
    }
  }

  lemma UnregisterInTurn(s: Cpu, d: nat, id: nat)
    requires InTurn(s, id)
    ensures InTurn(UnregisterSpec(s, d).1, id)
  {
    hide Dropped, Alternates, LastUp;
  }

  /** An offline CPU without notifiers is where such runs start. */
  lemma OfflineIsInTurn(id: nat)
    ensures var s := Cpu([], VMM_CPUHP_STATE_OFFLINE, {}, []); Inv(s) && InTurn(s, id)
  {
  }

  // ----- the notifier list in place -----

  /** Result of a callback loop: whether it got through, what succeeded, what
      was called. */
  datatype Sweep = Sweep(ok: bool, done: set<nat>, log: seq<Call>)

  /** The startup loop from the head of `list` on. */
  function UpSweep(list: seq<Notifier>, from: nat, to: nat, fails: set<nat>): Sweep {
    if list == [] then Sweep(true, {}, [])
    else if !GoesUp(list[0], from, to) then UpSweep(list[1..], from, to, fails)
    else if list[0].id in fails then Sweep(false, {}, [Up(list[0].id)])
    else
      var r := UpSweep(list[1..], from, to, fails);
      Sweep(r.ok, {list[0].id} + r.done, [Up(list[0].id)] + r.log)
  }

  /** The teardown loop from the tail of `list` on. */
  function DownSweep(list: seq<Notifier>, from: nat, to: nat, fails: set<nat>): Sweep {
    if list == [] then Sweep(true, {}, [])
    else
      var n, rest := list[|list| - 1], list[..|list| - 1];
      if !GoesDown(n, from, to) then DownSweep(rest, from, to, fails)
      else if n.id in fails then Sweep(false, {}, [Down(n.id)])
      else
        var r := DownSweep(rest, from, to, fails);
        Sweep(r.ok, {n.id} + r.done, [Down(n.id)] + r.log)
  }

  /** Prepending a call to a sequence of calls. */
  lemma MadeStep(n: Notifier, calls: seq<Notifier>, fails: set<nat>)
    ensures var all := [n] + calls;
            if n.id in fails then Passed(all, fails) == 0 && all[..0] == [] && Made(all, fails) == [n]
            else
              && Passed(all, fails) == 1 + Passed(calls, fails)
              && all[..Passed(all, fails)] == [n] + calls[..Passed(calls, fails)]
              && Made(all, fails) == [n] + Made(calls, fails)
  {
    assert ([n] + calls)[1..] == calls;
  }

  lemma LogCons(n: Notifier, calls: seq<Notifier>)
    ensures UpLog([n] + calls) == [Up(n.id)] + UpLog(calls) && UpLog([n]) == [Up(n.id)] && UpLog([]) == []
    ensures DownLog([n] + calls) == [Down(n.id)] + DownLog(calls) && DownLog([n]) == [Down(n.id)] && DownLog([]) == []
  {
  }

  lemma IdsCons(n: Notifier, calls: seq<Notifier>)
    ensures Ids([n] + calls) == {n.id} + Ids(calls) && Ids([]) == {}
  {
    assert ([n] + calls)[1..] == calls;
  }

  lemma {:induction false} UpSweepSpec(list: seq<Notifier>, from: nat, to: nat, fails: set<nat>)
    ensures var calls := Ups(list, from, to);
            var k := Passed(calls, fails);
            UpSweep(list, from, to, fails) == Sweep(k == |calls|, Ids(calls[..k]), UpLog(Made(calls, fails)))
    decreases |list|
  {
    hide Passed, Ids, UpLog, Made;
    if list == [] {
      NoCalls(fails);
    } else {
      var n, rest := list[0], Ups(list[1..], from, to);
      UpSweepSpec(list[1..], from, to, fails);
      if GoesUp(n, from, to) {
        MadeStep(n, rest, fails);
        LogCons(n, Made(rest, fails));
        IdsCons(n, rest[..Passed(rest, fails)]);
      }
    }
  }

  lemma {:induction false} DownSweepSpec(list: seq<Notifier>, from: nat, to: nat, fails: set<nat>)
    ensures var calls := Downs(list, from, to);
            var k := Passed(calls, fails);
            DownSweep(list, from, to, fails) == Sweep(k == |calls|, Ids(calls[..k]), DownLog(Made(calls, fails)))
    decreases |list|
  {
    hide Passed, Ids, DownLog, Made;
    if list == [] {
      NoCalls(fails);
    } else {
      var last := |list| - 1;
      var n, rest := list[last], Downs(list[..last], from, to);
      DownSweepSpec(list[..last], from, to, fails);
      if GoesDown(n, from, to) {
        MadeStep(n, rest, fails);
        LogCons(n, Made(rest, fails));
        IdsCons(n, rest[..Passed(rest, fails)]);
      }
    }
  }

  lemma NoCalls(fails: set<nat>)
    ensures Passed([], fails) == 0 && Made([], fails) == [] && Ids([]) == {} && UpLog([]) == [] && DownLog([]) == []
  {
  }

  lemma {:induction false} PlaceAt(list: seq<Notifier>, n: Notifier, k: nat)
    requires k <= |list| && forall i :: 0 <= i < k ==> list[i].state <= n.state
    requires k < |list| ==> n.state < list[k].state
    ensures Place(list, n) == list[..k] + [n] + list[k..]
    decreases k
  {
    if k > 0 {
      PlaceAt(list[1..], n, k - 1);
      assert list[..k] == [list[0]] + list[1..][..k - 1] && list[k..] == list[1..][k - 1..];
    }
  }

  class CpuCtrl {
    var list: seq<Notifier>
    var state: nat
    var started: set<nat>
    var log: seq<Call>

    ghost function Value(): Cpu
      reads this
    {
      Cpu(list, state, started, log)
    }

    /** `vmm_cpuhp_init`: offline, no notifier. */
    constructor ()
      ensures Inv(Value()) && list == [] && state == VMM_CPUHP_STATE_OFFLINE
    {
      list, state, started, log := [], VMM_CPUHP_STATE_OFFLINE, {}, [];
    }

    /** `vmm_cpuhp_set_state`. */
    method SetState(to: nat, fails: set<nat>, err: int) returns (rc: int)
      requires err != VMM_OK
      modifies this
      ensures (rc, Value()) == SetStateSpec(old(Value()), to, fails, err)
    {
      hide Ups, Downs, Passed, Ids, UpLog, DownLog, Made, UpSweep, DownSweep;
      rc := VMM_OK;
      if state < to {
        UpSweepSpec(list, state, to, fails);
        rc := RunStartups(to, fails, err);
      } else if state > to {
        DownSweepSpec(list, state, to, fails);
        rc := RunTeardowns(to, fails, err);
      }
      state := to;
    }

    /** The startup loop. */
    method RunStartups(to: nat, fails: set<nat>, err: int) returns (rc: int)
      requires err != VMM_OK
      modifies this`started, this`log
      ensures var r := UpSweep(list, state, to, fails);
              && rc == (if r.ok then VMM_OK else err)
              && started == old(started) + r.done && log == old(log) + r.log
    {
      ghost var r := UpSweep(list, state, to, fails);
      var i := 0;
      rc := VMM_OK;
      assert list[0..] == list;
      while i < |list|
        invariant 0 <= i <= |list| && rc == VMM_OK
        invariant var t := UpSweep(list[i..], state, to, fails);
                  r.ok == t.ok && old(started) + r.done == started + t.done && old(log) + r.log == log + t.log
      {
        assert list[i..][1..] == list[i + 1..];
        var n := list[i];
        if n.startup && state < n.state && n.state <= to {
          log := log + [Up(n.id)];
          if n.id in fails {
            rc := err;
            break;
          }
          started := started + {n.id};
        }
        i := i + 1;
      }
    }

    /** The teardown loop, from the end of the list. */
    method RunTeardowns(to: nat, fails: set<nat>, err: int) returns (rc: int)
      requires err != VMM_OK
      modifies this`started, this`log
      ensures var r := DownSweep(list, state, to, fails);
              && rc == (if r.ok then VMM_OK else err)
              && started == old(started) - r.done && log == old(log) + r.log
    {
      ghost var r := DownSweep(list, state, to, fails);
      var i := |list|;
      rc := VMM_OK;
      assert list[..i] == list;
      while i > 0
        invariant 0 <= i <= |list| && rc == VMM_OK
        invariant var t := DownSweep(list[..i], state, to, fails);
                  r.ok == t.ok && old(started) - r.done == started - t.done && old(log) + r.log == log + t.log
      {
        assert list[..i][..i - 1] == list[..i - 1];
        i := i - 1;
        var n := list[i];
        if n.teardown && to < n.state && n.state <= state {
          log := log + [Down(n.id)];
          if n.id in fails {
            rc := err;
            break;
          }
          started := started - {n.id};
        }
      }
    }

    /** The scan for the first notifier with a higher state. */
    method FindPlace(n: Notifier) returns (k: nat)
      ensures k <= |list| && Place(list, n) == list[..k] + [n] + list[k..]
    {
      k := 0;
      while k < |list| && !(n.state < list[k].state)
        invariant 0 <= k <= |list| && forall i :: 0 <= i < k ==> list[i].state <= n.state
      {
        k := k + 1;
      }
      PlaceAt(list, n, k);
    }

    /** `vmm_cpuhp_register`. */
    method Register(n: Notifier, invoke: bool, fails: set<nat>) returns (rc: int)
      modifies this
      ensures (rc, Value()) == RegisterSpec(old(Value()), n, invoke, fails)
    {
      hide Place;
      if n.state <= VMM_CPUHP_STATE_OFFLINE {
        return VMM_EINVALID;
      }
      var found := Contains(n.id);
      if found {
        return VMM_EEXIST;
      }
      var k := FindPlace(n);
      list := list[..k] + [n] + list[k..];
      if invoke && n.startup && n.state <= state {
        log := log + [Up(n.id)];
        if n.id !in fails {
          started := started + {n.id};
        }
      }
      rc := VMM_OK;
    }

    /** Whether a notifier is on the list. */
    method Contains(id: nat) returns (found: bool)
      ensures found <==> exists x :: x in list && x.id == id
    {
      var i := 0;
      while i < |list|
        invariant 0 <= i <= |list| && forall j :: 0 <= j < i ==> list[j].id != id
      {
        if list[i].id == id {
          assert list[i] in list;
          return true;
        }
        i := i + 1;
      }
      found := false;
    }

    /** `vmm_cpuhp_unregister`. */
    method Unregister(id: nat) returns (rc: int)
      modifies this
      ensures (rc, Value()) == UnregisterSpec(old(Value()), id)
    {
      hide Dropped;
      var found := Contains(id);
      if !found {
        return VMM_ENOTAVAIL;
      }
      list := Dropped(list, id);
      rc := VMM_OK;
    }
  }
}
