// The scheduler of a batch rename: which change waits for which, which changes close a cycle,
// and the list of physical renames that carries the whole batch out.
module RenameOrder {
  import opened Rename

  // The last change starting at p, or -1: what the by-source table holds once it is filled.
  function LastSource(cs: seq<Change>, p: Path): (j: int)
    ensures -1 <= j < |cs|
    ensures j >= 0 ==> cs[j].from == p
    ensures j == -1 ==> p !in Sources(cs)
    ensures forall k :: j < k < |cs| ==> cs[k].from != p
  {
    if cs == [] then -1
    else if cs[|cs| - 1].from == p then |cs| - 1
    else LastSource(cs[..|cs| - 1], p)
  }

  // The change that must move out of the way before change i can land, or -1.
  function Waits(cs: seq<Change>, i: nat): (j: int)
    requires i < |cs|
    ensures -1 <= j < |cs| && j != i
    ensures j >= 0 ==> cs[j].from == cs[i].to
  {
    var j := LastSource(cs, cs[i].to);
    if j == i then -1 else j
  }

  // The k-th change met when following the waits from i, or -1 once nothing is waited for.
  ghost function Chain(cs: seq<Change>, i: nat, k: nat): (j: int)
    requires i < |cs|
    ensures -1 <= j < |cs|
  {
    if k == 0 then i
    else
      var j := Chain(cs, i, k - 1);
      if j < 0 then -1 else Waits(cs, j)
  }

  ghost predicate OnCycle(cs: seq<Change>, i: nat)
    requires i < |cs|
  {
    exists k: nat :: k > 0 && Chain(cs, i, k) == i
  }

  // The lowest-numbered change of a cycle of waits: one per cycle.
  ghost predicate CycleLeader(cs: seq<Change>, i: nat)
    requires i < |cs|
  {
    OnCycle(cs, i) && forall k: nat :: Chain(cs, i, k) >= i
  }

  ghost function CycleLeaders(cs: seq<Change>): set<nat> {
    set i: nat | i < |cs| && CycleLeader(cs, i)
  }

  lemma {:induction false} ChainAdd(cs: seq<Change>, i: nat, j: nat, k: nat)
    requires i < |cs|
    ensures Chain(cs, i, j) >= 0 ==> Chain(cs, i, j + k) == Chain(cs, Chain(cs, i, j), k)
    ensures Chain(cs, i, j) < 0 ==> Chain(cs, i, j + k) < 0
  {
    if k > 0 {
      ChainAdd(cs, i, j, k - 1);
    }
  }

  // Two changes waiting for the same one are the same.
  lemma SameWait(cs: seq<Change>, x: nat, y: nat)
    requires DistinctTargets(cs) && x < |cs| && y < |cs| && Waits(cs, x) == Waits(cs, y) >= 0
    ensures x == y
  {
    hide LastSource;
    assert cs[x].to == cs[y].to;
  }

  lemma {:induction false} ChainBack(cs: seq<Change>, i: nat, a: nat, b: nat)
    requires i < |cs| && a <= b && DistinctTargets(cs)
    requires Chain(cs, i, a) == Chain(cs, i, b) >= 0
    ensures Chain(cs, i, b - a) == i
  {
    hide DistinctTargets, Waits, LastSource;
    if a > 0 {
      var x, y := Chain(cs, i, a - 1), Chain(cs, i, b - 1);
      SameWait(cs, x, y);
      ChainBack(cs, i, a - 1, b - 1);
    }
  }

  lemma {:induction false} PigeonHole(s: seq<int>, u: set<int>) returns (a: nat, b: nat)
    requires |s| > |u| && forall x :: x in s ==> x in u
    ensures a < b < |s| && s[a] == s[b]
  {
    var n := |s| - 1;
    var last := s[n];
    if k :| 0 <= k < n && s[k] == last {
      return k, n;
    }
    a, b := PigeonHole(s[..n], u - {last});
  }

  // Every change of the set waits for another one of it.
  ghost predicate Closed(cs: seq<Change>, u: set<int>) {
    forall j :: j in u ==> 0 <= j < |cs| && Waits(cs, j) in u
  }

  // In a set of changes each waiting for another of the set, the lowest one leads its cycle.
  lemma LowestLeads(cs: seq<Change>, u: set<int>, i: nat)
    requires DistinctTargets(cs) && Closed(cs, u)
    requires i in u && i < |cs| && forall j :: j in u ==> i <= j
    ensures CycleLeader(cs, i)
  {
    hide Closed, DistinctTargets;
    forall k: nat ensures Chain(cs, i, k) in u {
      StaysIn(cs, u, i, k);
    }
    var s := seq(|u| + 1, (k: nat) => Chain(cs, i, k));
    var a, b := PigeonHole(s, u);
    ChainBack(cs, i, a, b);
  }

  lemma {:induction false} StaysIn(cs: seq<Change>, u: set<int>, i: nat, k: nat)
    requires Closed(cs, u) && i in u && i < |cs|
    ensures Chain(cs, i, k) in u
  {
    hide Waits;
    if k > 0 {
      StaysIn(cs, u, i, k - 1);
    }
  }

  // On a cycle everything reached is reached back from.
  lemma ReachBack(cs: seq<Change>, i: nat, k: nat, j: nat)
    requires i < |cs| && OnCycle(cs, i) && Chain(cs, i, k) == j
    ensures exists m: nat :: Chain(cs, j, m) == i
  {
    hide Chain, Waits;
    var p: nat :| p > 0 && Chain(cs, i, p) == i;
    Laps(cs, i, p, k);
    assert p * k >= k;
    ChainAdd(cs, i, k, p * k - k);
    assert Chain(cs, j, p * k - k) == i;
  }

  lemma {:induction false} Laps(cs: seq<Change>, i: nat, p: nat, m: nat)
    requires i < |cs| && Chain(cs, i, p) == i
    ensures p * m >= 0 && Chain(cs, i, p * m) == i
  {
    if m > 0 {
      Laps(cs, i, p, m - 1);
      assert p * m == p * (m - 1) + p;
      ChainAdd(cs, i, p * (m - 1), p);
    }
  }

  // Two leaders on one cycle are the same.
  lemma LeadersMeet(cs: seq<Change>, i: nat, k: nat, b: nat)
    requires i < |cs| && b < |cs|
    requires CycleLeader(cs, i) && CycleLeader(cs, b) && Chain(cs, i, k) == b
    ensures i == b
  {
    ReachBack(cs, i, k, b);
  }

  // If every change on a cycle reaches a staged one, and only leaders are staged,
  // then exactly the leaders are staged.
  lemma StagedAreLeaders(cs: seq<Change>, staged: seq<nat>)
    requires forall b :: b in staged ==> b < |cs| && CycleLeader(cs, b)
    requires forall i: nat :: i < |cs| && OnCycle(cs, i) ==> ReachesOneOf(cs, i, staged)
    ensures Elements(staged) == CycleLeaders(cs)
  {
    forall i: nat | i < |cs| && CycleLeader(cs, i) ensures i in staged {
      assert ReachesOneOf(cs, i, staged);
      var k: nat :| Chain(cs, i, k) in staged;
      LeadersMeet(cs, i, k, Chain(cs, i, k));
    }
  }

  ghost predicate ReachesOneOf(cs: seq<Change>, i: nat, staged: seq<nat>)
    requires i < |cs|
  {
    exists k: nat :: Chain(cs, i, k) in staged
  }

  lemma ReachesFurther(cs: seq<Change>, i: nat, staged: seq<nat>)
    requires i < |cs| && Waits(cs, i) >= 0 && ReachesOneOf(cs, Waits(cs, i), staged)
    ensures ReachesOneOf(cs, i, staged)
  {
    var k: nat :| Chain(cs, Waits(cs, i), k) in staged;
    assert Chain(cs, i, 1) == Waits(cs, i) by { assert Chain(cs, i, 0) == i; }
    ChainAdd(cs, i, 1, k);
    assert Chain(cs, i, k + 1) in staged;
  }

  lemma WaitsOnCycle(cs: seq<Change>, i: nat)
    requires i < |cs| && OnCycle(cs, i)
    ensures Waits(cs, i) >= 0 && OnCycle(cs, Waits(cs, i))
  {
    var p: nat :| p > 0 && Chain(cs, i, p) == i;
    assert Chain(cs, i, 1) == Waits(cs, i) by { assert Chain(cs, i, 0) == i; }
    ChainAdd(cs, i, 1, p - 1);
    var j := Waits(cs, i);
    ChainAdd(cs, j, p - 1, 1);
    assert Chain(cs, i, 0 + 1) == j && Chain(cs, j, p) == j;
  }

  // ---- The schedule ----

  // staged[m] is the m-th change broken out of a cycle through temps[m].
  function Position(staged: seq<nat>, i: nat): (m: nat)
    requires i in staged
    ensures m < |staged| && staged[m] == i
  {
    if staged[|staged| - 1] == i then |staged| - 1 else Position(staged[..|staged| - 1], i)
  }

  function FirstHalf(cs: seq<Change>, temps: seq<Path>, staged: seq<nat>, i: nat): Change
    requires i < |cs| && |staged| <= |temps|
  {
    if i in staged then Change(cs[i].from, temps[Position(staged, i)]) else cs[i]
  }

  function SecondHalf(cs: seq<Change>, temps: seq<Path>, staged: seq<nat>, m: nat): Change
    requires m < |staged| <= |temps| && staged[m] < |cs|
  {
    Change(temps[m], cs[staged[m]].to)
  }

  ghost predicate Distinct(s: seq<nat>, n: nat) {
    && (forall i :: 0 <= i < |s| ==> s[i] < n)
    && (forall i, j :: 0 <= i < j < |s| ==> s[i] != s[j])
  }

  // order lists the changes as they are started; one that is not staged starts only
  // after the change it waits for. The second halves of the staged ones come last.
  ghost predicate Scheduled(cs: seq<Change>, temps: seq<Path>, order: seq<nat>, staged: seq<nat>) {
    && Distinct(order, |cs|) && Distinct(staged, |cs|) && |staged| <= |temps|
    && (forall i :: i in staged ==> i in order)
    && (forall k :: 0 <= k < |order| && order[k] !in staged ==> WaitedFor(cs, order, k))
  }

  ghost predicate WaitedFor(cs: seq<Change>, order: seq<nat>, k: nat)
    requires k < |order| && order[k] < |cs|
  {
    var j := Waits(cs, order[k]);
    j >= 0 ==> j in order[..k]
  }

  ghost predicate Emitted(cs: seq<Change>, temps: seq<Path>, order: seq<nat>, staged: seq<nat>,
                          steps: seq<Change>, finals: seq<Change>)
    requires Scheduled(cs, temps, order, staged)
  {
    && |steps| == |order| && |finals| == |staged|
    && (forall k :: 0 <= k < |order| ==> steps[k] == FirstHalf(cs, temps, staged, order[k]))
    && (forall m :: 0 <= m < |staged| ==> finals[m] == SecondHalf(cs, temps, staged, m))
  }

  // What the scheduler's tables hold while the changes of order have been started: every
  // startable change is queued, skip excepted (the one just taken from the queue, or -1).
  ghost predicate Tables(cs: seq<Change>, indegree: seq<int>, done: seq<bool>, queue: seq<nat>, order: seq<nat>,
                         skip: int) {
    && |indegree| == |done| == |cs|
    && (forall i :: 0 <= i < |cs| ==> done[i] == (i in order))
    && (forall i :: 0 <= i < |cs| ==> indegree[i] == Blockers(cs, order, i))
    && (forall i :: i in queue ==> i < |cs| && indegree[i] == 0)
    && (forall i :: 0 <= i < |cs| && i != skip && indegree[i] == 0 && !done[i] ==> i in queue)
  }

  ghost function Blockers(cs: seq<Change>, order: seq<nat>, i: nat): int
    requires i < |cs|
  {
    var j := Waits(cs, i);
    if j >= 0 && j !in order then 1 else 0
  }

  // dependents[j] is the list of changes waiting for j, each once.
  ghost predicate DependentsOf(cs: seq<Change>, dependents: seq<seq<nat>>, upTo: nat)
    requires upTo <= |cs|
  {
    && |dependents| == |cs|
    && (forall j :: 0 <= j < |cs| ==> Distinct(dependents[j], upTo))
    && (forall j, d :: 0 <= j < |cs| && 0 <= d < upTo ==> (d in dependents[j] <==> Waits(cs, d) == j))
  }

  // Marks change i as started and queues what it was blocking.
  method Release(cs: seq<Change>, i: nat, dependents: seq<seq<nat>>, indegree: array<int>, done: array<bool>,
                 queue: seq<nat>, ghost order: seq<nat>)
    returns (queue': seq<nat>)
    requires i < |cs| && i !in order && indegree != done as object
    requires DependentsOf(cs, dependents, |cs|)
    requires indegree.Length == done.Length == |cs|
    requires Tables(cs, indegree[..], done[..], queue, order, i)
    modifies indegree, done
    ensures Tables(cs, indegree[..], done[..], queue', order + [i], -1)
  {
    done[i] := true;
    queue' := queue;
    var ds := dependents[i];
    var k := 0;
    while k < |ds|
      invariant 0 <= k <= |ds|
      invariant done[..] == old(done[..])[i := true]
      invariant forall d :: 0 <= d < |cs| && d !in ds[..k] ==> indegree[d] == old(indegree[d])
      invariant forall d :: d in ds[..k] ==> indegree[d] == old(indegree[d]) - 1
      invariant queue' == queue + ds[..k]
    {
      var d := ds[k];
      assert d !in ds[..k];
      indegree[d] := indegree[d] - 1;
      if indegree[d] == 0 {
        queue' := queue' + [d];
      }
      assert Waits(cs, d) == i;
      assert old(indegree[d]) == 1;
      assert ds[..k + 1] == ds[..k] + [d];
      k := k + 1;
    }
    assert ds[..k] == ds;
  }

  function Elements(s: seq<nat>): set<nat> { set i | i in s }

  ghost function Upto(n: nat): (u: set<nat>)
    ensures |u| == n && forall i: nat :: i in u <==> i < n
  {
    if n == 0 then {} else Upto(n - 1) + {n - 1}
  }

  // The set of a list without repeats has as many elements as the list.
  lemma {:induction false} DistinctSize(s: seq<nat>, n: nat)
    requires Distinct(s, n)
    ensures |Elements(s)| == |s|
  {
    if s != [] {
      var init, last := s[..|s| - 1], s[|s| - 1];
      DistinctSize(init, n);
      assert s == init + [last];
      assert Elements(s) == Elements(init) + {last};
    }
  }

  lemma LowestPending(cs: seq<Change>, order: seq<nat>)
    requires Distinct(order, |cs|) && |order| < |cs|
    ensures exists j :: 0 <= j < |cs| && j !in order
  {
    DistinctSize(order, |cs|);
    var rest := Upto(|cs|) - Elements(order);
    SubsetSize(Upto(|cs|) * Elements(order), Elements(order));
    assert Upto(|cs|) == rest + Upto(|cs|) * Elements(order);
    var j :| j in rest;
  }

  lemma SubsetSize(a: set<nat>, b: set<nat>)
    requires a <= b
    ensures |a| <= |b|
    ensures |a| == |b| ==> a == b
  {
    assert b == a + (b - a);
  }

  lemma EveryIndex(order: seq<nat>, n: nat)
    requires Distinct(order, n) && |order| == n
    ensures forall i: nat :: i < n ==> i in order
  {
    DistinctSize(order, n);
    SubsetSize(Elements(order), Upto(n));
    forall i: nat | i < n ensures i in order {
      assert i in Upto(n);
    }
  }

  lemma AllStarted(cs: seq<Change>, order: seq<nat>, staged: seq<nat>)
    requires Distinct(order, |cs|) && Distinct(staged, |cs|) && |order| == |cs|
    requires DistinctTargets(cs) ==> LeadersSoFar(cs, order, staged)
    ensures forall i: nat :: i < |cs| ==> i in order
    ensures DistinctTargets(cs) ==> Elements(staged) == CycleLeaders(cs) && |staged| == |CycleLeaders(cs)|
  {
    EveryIndex(order, |cs|);
    DistinctSize(staged, |cs|);
    if DistinctTargets(cs) {
      StagedAreLeaders(cs, staged);
    }
  }

  lemma StartStaged(cs: seq<Change>, temps: seq<Path>, order: seq<nat>, staged: seq<nat>, i: nat)
    requires Scheduled(cs, temps, order, staged)
    requires i < |cs| && i !in order && |staged| < |temps|
    ensures Scheduled(cs, temps, order + [i], staged + [i])
  {
    hide Waits, LastSource;
    var order', staged' := order + [i], staged + [i];
    assert i !in staged;
    forall k | 0 <= k < |order'| && order'[k] !in staged' ensures WaitedFor(cs, order', k) {
      assert order'[..k] == order[..k] && WaitedFor(cs, order, k);
    }
  }

  // Staging one more change concerns no other change's first half.
  lemma StagedHalves(cs: seq<Change>, temps: seq<Path>, staged: seq<nat>, i: nat)
    requires i < |cs| && |staged| < |temps|
    ensures forall j :: 0 <= j < |cs| && j != i ==>
              FirstHalf(cs, temps, staged + [i], j) == FirstHalf(cs, temps, staged, j)
    ensures FirstHalf(cs, temps, staged + [i], i) == Change(cs[i].from, temps[|staged|])
  {
    assert (staged + [i])[..|staged|] == staged;
  }

  lemma StagedLeaders(cs: seq<Change>, order: seq<nat>, staged: seq<nat>, i: nat)
    requires LeadersSoFar(cs, order, staged) && i < |cs| && CycleLeader(cs, i)
    ensures LeadersSoFar(cs, order + [i], staged + [i])
  {
    hide CycleLeader, OnCycle, Waits;
    assert Chain(cs, i, 0) in staged + [i];
    hide Chain;
    forall j | j in order && OnCycle(cs, j) ensures ReachesOneOf(cs, j, staged + [i]) {
      assert ReachesOneOf(cs, j, staged);
      var k: nat :| Chain(cs, j, k) in staged;
      assert Chain(cs, j, k) in staged + [i];
    }
  }

  lemma StartFree(cs: seq<Change>, temps: seq<Path>, order: seq<nat>, staged: seq<nat>, i: nat)
    requires Scheduled(cs, temps, order, staged)
    requires i < |cs| && i !in order && Blockers(cs, order, i) == 0
    ensures Scheduled(cs, temps, order + [i], staged)
  {
    var order' := order + [i];
    forall k | 0 <= k < |order'| && order'[k] !in staged ensures WaitedFor(cs, order', k) {
      if k < |order| {
        assert order'[..k] == order[..k] && WaitedFor(cs, order, k);
      } else {
        assert order'[..k] == order;
      }
    }
  }

  lemma FreeKeepsLeaders(cs: seq<Change>, order: seq<nat>, staged: seq<nat>, i: nat)
    requires LeadersSoFar(cs, order, staged)
    requires i < |cs| && Blockers(cs, order, i) == 0
    ensures LeadersSoFar(cs, order + [i], staged)
  {
    if OnCycle(cs, i) {
      WaitsOnCycle(cs, i);
      ReachesFurther(cs, i, staged);
    }
  }

  method SourceTable(cs: seq<Change>) returns (bySource: map<Path, nat>)
    ensures forall p :: p in bySource <==> LastSource(cs, p) >= 0
    ensures forall p :: p in bySource ==> bySource[p] == LastSource(cs, p)
  {
    bySource := map[];
    var i := 0;
    while i < |cs|
      invariant 0 <= i <= |cs|
      invariant forall p :: p in bySource <==> LastSource(cs[..i], p) >= 0
      invariant forall p :: p in bySource ==> bySource[p] == LastSource(cs[..i], p)
    {
      assert cs[..i + 1][..i] == cs[..i];
      bySource := bySource[cs[i].from := i];
      i := i + 1;
    }
    assert cs[..i] == cs;
  }

  // Who waits for whom: one list of dependents and one blocker count per change.
  method Dependencies(cs: seq<Change>) returns (dependents: seq<seq<nat>>, indegree: array<int>)
    ensures DependentsOf(cs, dependents, |cs|)
    ensures fresh(indegree) && indegree.Length == |cs|
    ensures forall i :: 0 <= i < |cs| ==> indegree[i] == Blockers(cs, [], i)
  {
    hide *;
    var n := |cs|;
    var bySource := SourceTable(cs);
    dependents := seq(n, _ => []);
    indegree := new int[n](_ => 0);
    NoneCounted(cs, dependents, indegree[..]);
    var i := 0;
    while i < n
      invariant 0 <= i <= n
      invariant DependentsOf(cs, dependents, i) && Counted(cs, indegree[..], i)
    {
      WaitsFromTable(cs, bySource, i);
      CountNext(cs, dependents, indegree[..], i);
      if cs[i].to in bySource && bySource[cs[i].to] != i {
        var j := bySource[cs[i].to];
        dependents := dependents[j := dependents[j] + [i]];
        indegree[i] := indegree[i] + 1;
      }
      i := i + 1;
    }
    AllCounted(cs, indegree[..]);
  }

  // The first upTo changes have been counted.
  ghost predicate Counted(cs: seq<Change>, indegree: seq<int>, upTo: nat) {
    && |indegree| == |cs|
    && forall k :: 0 <= k < |cs| ==> indegree[k] == if k < upTo then Blockers(cs, [], k) else 0
  }

  lemma NoneCounted(cs: seq<Change>, dependents: seq<seq<nat>>, indegree: seq<int>)
    requires |dependents| == |indegree| == |cs|
    requires forall k :: 0 <= k < |cs| ==> dependents[k] == [] && indegree[k] == 0
    ensures DependentsOf(cs, dependents, 0) && Counted(cs, indegree, 0)
  {
  }

  lemma AllCounted(cs: seq<Change>, indegree: seq<int>)
    requires Counted(cs, indegree, |cs|)
    ensures forall k :: 0 <= k < |cs| ==> indegree[k] == Blockers(cs, [], k)
  {
  }

  lemma WaitsFromTable(cs: seq<Change>, bySource: map<Path, nat>, i: nat)
    requires i < |cs|
    requires forall p :: p in bySource <==> LastSource(cs, p) >= 0
    requires forall p :: p in bySource ==> bySource[p] == LastSource(cs, p)
    ensures var waits := cs[i].to in bySource && bySource[cs[i].to] != i;
            && (waits ==> Waits(cs, i) == bySource[cs[i].to])
            && (!waits ==> Waits(cs, i) == -1)
  {
    hide LastSource;
  }

  lemma CountNext(cs: seq<Change>, dependents: seq<seq<nat>>, indegree: seq<int>, i: nat)
    requires i < |cs| && DependentsOf(cs, dependents, i) && Counted(cs, indegree, i)
    ensures |dependents| == |indegree| == |cs|
    ensures Waits(cs, i) >= 0 ==>
              var j := Waits(cs, i);
              DependentsOf(cs, dependents[j := dependents[j] + [i]], i + 1)
                  && Counted(cs, indegree[i := indegree[i] + 1], i + 1)
    ensures Waits(cs, i) < 0 ==> DependentsOf(cs, dependents, i + 1) && Counted(cs, indegree, i + 1)
  {
    hide LastSource;
    if Waits(cs, i) >= 0 {
      AddDependent(cs, dependents, i, Waits(cs, i));
    }
  }

  lemma AddDependent(cs: seq<Change>, dependents: seq<seq<nat>>, i: nat, j: nat)
    requires i < |cs| && DependentsOf(cs, dependents, i) && Waits(cs, i) == j
    ensures DependentsOf(cs, dependents[j := dependents[j] + [i]], i + 1)
  {
    hide Waits;
  }

  // Everything the scheduling loop keeps about what it has emitted.
  ghost predicate Progress(cs: seq<Change>, temps: seq<Path>, order: seq<nat>, staged: seq<nat>,
                           steps: seq<Change>, finals: seq<Change>) {
    && Scheduled(cs, temps, order, staged) && |staged| <= |order|
    && Emitted(cs, temps, order, staged, steps, finals)
    && (DistinctTargets(cs) ==> LeadersSoFar(cs, order, staged))
  }

  ghost predicate LeadersSoFar(cs: seq<Change>, order: seq<nat>, staged: seq<nat>) {
    && (forall b :: b in staged ==> b < |cs| && CycleLeader(cs, b))
    && (forall i :: i in order ==> i < |cs| && (OnCycle(cs, i) ==> ReachesOneOf(cs, i, staged)))
  }

  // The queue is empty and i is the lowest change not started: it leads a cycle.
  lemma StageStep(cs: seq<Change>, temps: seq<Path>, order: seq<nat>, staged: seq<nat>,
                  steps: seq<Change>, finals: seq<Change>, i: nat)
    requires Progress(cs, temps, order, staged, steps, finals)
    requires i < |cs| && i !in order && |order| < |temps|
    requires forall j :: 0 <= j < i ==> j in order
    requires forall j :: 0 <= j < |cs| && j !in order ==> Blockers(cs, order, j) != 0
    ensures var tmp := temps[|finals|];
            Progress(cs, temps, order + [i], staged + [i],
                     steps + [Change(cs[i].from, tmp)], finals + [Change(tmp, cs[i].to)])
  {
    hide *;
    ProgressParts(cs, temps, order, staged, steps, finals);
    StartStaged(cs, temps, order, staged, i);
    if DistinctTargets(cs) {
      LowestIsLeader(cs, order, i);
      StagedLeaders(cs, order, staged, i);
    }
    StageEmits(cs, temps, order, staged, steps, finals, i);
    var tmp := temps[|finals|];
    MakeProgress(cs, temps, order + [i], staged + [i], steps + [Change(cs[i].from, tmp)],
        finals + [Change(tmp, cs[i].to)]);
  }

  lemma ProgressParts(cs: seq<Change>, temps: seq<Path>, order: seq<nat>, staged: seq<nat>,
      steps: seq<Change>, finals: seq<Change>)
    requires Progress(cs, temps, order, staged, steps, finals)
    ensures Scheduled(cs, temps, order, staged) && Distinct(order, |cs|) && |staged| <= |order|
    ensures Emitted(cs, temps, order, staged, steps, finals) && |finals| == |staged|
    ensures DistinctTargets(cs) ==> LeadersSoFar(cs, order, staged)
  {
  }

  lemma MakeProgress(cs: seq<Change>, temps: seq<Path>, order: seq<nat>, staged: seq<nat>,
      steps: seq<Change>, finals: seq<Change>)
    requires Scheduled(cs, temps, order, staged) && |staged| <= |order|
    requires Emitted(cs, temps, order, staged, steps, finals)
    requires DistinctTargets(cs) ==> LeadersSoFar(cs, order, staged)
    ensures Progress(cs, temps, order, staged, steps, finals)
  {
  }

  ghost function Pending(cs: seq<Change>, order: seq<nat>): (u: set<int>)
    ensures forall j :: j in u <==> 0 <= j < |cs| && j !in order
  {
    set j: int | 0 <= j < |cs| && j !in order
  }

  lemma LowestIsLeader(cs: seq<Change>, order: seq<nat>, i: nat)
    requires DistinctTargets(cs)
    requires i < |cs| && i !in order
    requires forall j :: 0 <= j < i ==> j in order
    requires forall j :: 0 <= j < |cs| && j !in order ==> Blockers(cs, order, j) != 0
    ensures CycleLeader(cs, i)
  {
    hide *;
    var u := Pending(cs, order);
    PendingWaits(cs, order, u);
    PendingFrom(order, |cs|, u, i);
    LowestLeads(cs, u, i);
  }

  lemma PendingFrom(order: seq<nat>, n: nat, u: set<int>, i: nat)
    requires forall j :: j in u <==> 0 <= j < n && j !in order
    requires i < n && i !in order && forall j :: 0 <= j < i ==> j in order
    ensures i in u && forall j :: j in u ==> i <= j
  {
    assert forall j :: j in u ==> i <= j;
  }

  lemma PendingWaits(cs: seq<Change>, order: seq<nat>, u: set<int>)
    requires forall j :: j in u <==> 0 <= j < |cs| && j !in order
    requires forall j :: 0 <= j < |cs| && j !in order ==> Blockers(cs, order, j) != 0
    ensures Closed(cs, u)
  {
    hide Waits;
  }

  lemma StageEmits(cs: seq<Change>, temps: seq<Path>, order: seq<nat>, staged: seq<nat>,
                   steps: seq<Change>, finals: seq<Change>, i: nat)
    requires Scheduled(cs, temps, order, staged) && Emitted(cs, temps, order, staged, steps, finals)
    requires i < |cs| && i !in order && |staged| < |temps|
    requires Scheduled(cs, temps, order + [i], staged + [i])
    ensures var tmp := temps[|finals|];
            Emitted(cs, temps, order + [i], staged + [i],
                    steps + [Change(cs[i].from, tmp)], finals + [Change(tmp, cs[i].to)])
  {
    var tmp := temps[|finals|];
    var order', staged' := order + [i], staged + [i];
    var steps', finals' := steps + [Change(cs[i].from, tmp)], finals + [Change(tmp, cs[i].to)];
    StagedHalves(cs, temps, staged, i);
    hide FirstHalf, Position, WaitedFor;
    forall k | 0 <= k < |order'| ensures steps'[k] == FirstHalf(cs, temps, staged', order'[k]) {
      if k < |order| {
        assert order[k] in order && order'[k] == order[k];
      }
    }
    forall m | 0 <= m < |staged'| ensures finals'[m] == SecondHalf(cs, temps, staged', m) {
      assert m < |staged| ==> staged'[m] == staged[m] && finals[m] == SecondHalf(cs, temps, staged, m);
    }
  }

  lemma FreeStep(cs: seq<Change>, temps: seq<Path>, order: seq<nat>, staged: seq<nat>,
                 steps: seq<Change>, finals: seq<Change>, i: nat)
    requires Progress(cs, temps, order, staged, steps, finals)
    requires i < |cs| && i !in order && Blockers(cs, order, i) == 0
    ensures Progress(cs, temps, order + [i], staged, steps + [cs[i]], finals)
  {
    hide *;
    ProgressParts(cs, temps, order, staged, steps, finals);
    StartFree(cs, temps, order, staged, i);
    if DistinctTargets(cs) {
      FreeKeepsLeaders(cs, order, staged, i);
    }
    FreeEmits(cs, temps, order, staged, steps, finals, i);
    AddedLength(order, i);
    MakeProgress(cs, temps, order + [i], staged, steps + [cs[i]], finals);
  }

  lemma AddedLength(order: seq<nat>, i: nat)
    ensures |order + [i]| == |order| + 1
  {
  }

  lemma FreeEmits(cs: seq<Change>, temps: seq<Path>, order: seq<nat>, staged: seq<nat>,
      steps: seq<Change>, finals: seq<Change>, i: nat)
    requires Scheduled(cs, temps, order, staged) && Emitted(cs, temps, order, staged, steps, finals)
    requires i < |cs| && i !in order && Scheduled(cs, temps, order + [i], staged)
    ensures Emitted(cs, temps, order + [i], staged, steps + [cs[i]], finals)
  {
    hide WaitedFor, Position;
    assert i !in staged;
  }

  method InitialQueue(indegree: array<int>) returns (queue: seq<nat>)
    ensures forall i :: i in queue <==> 0 <= i < indegree.Length && indegree[i] == 0
  {
    queue := [];
    for i := 0 to indegree.Length
      invariant forall k :: k in queue <==> 0 <= k < i && indegree[k] == 0
    {
      if indegree[i] == 0 {
        queue := queue + [i];
      }
    }
  }

  method LowestNotDone(cs: seq<Change>, done: array<bool>, ghost order: seq<nat>) returns (i: nat)
    requires Distinct(order, |cs|) && |order| < |cs| == done.Length
    requires forall j :: 0 <= j < |cs| ==> done[j] == (j in order)
    ensures i < |cs| && i !in order
    ensures forall j :: 0 <= j < i ==> j in order
  {
    LowestPending(cs, order);
    i := 0;
    while done[i]
      invariant i < |cs| && forall j :: 0 <= j < i ==> j in order
      invariant exists j :: i <= j < |cs| && j !in order
      decreases |cs| - i
    {
      i := i + 1;
    }
  }

  lemma TablesDone(cs: seq<Change>, indegree: seq<int>, done: seq<bool>, queue: seq<nat>, order: seq<nat>)
    requires Tables(cs, indegree, done, queue, order, -1)
    ensures |done| == |cs| && forall j :: 0 <= j < |cs| ==> done[j] == (j in order)
  {
  }

  lemma EmptyQueueBlocks(cs: seq<Change>, indegree: seq<int>, done: seq<bool>, order: seq<nat>)
    requires Tables(cs, indegree, done, [], order, -1)
    ensures forall j :: 0 <= j < |cs| && j !in order ==> Blockers(cs, order, j) != 0
  {
  }

  lemma TakeFirst(cs: seq<Change>, indegree: seq<int>, done: seq<bool>, queue: seq<nat>, order: seq<nat>)
    requires queue != [] && Tables(cs, indegree, done, queue, order, -1)
    ensures queue[0] < |cs| && Blockers(cs, order, queue[0]) == 0 && done[queue[0]] == (queue[0] in order)
    ensures Tables(cs, indegree, done, queue[1..], order, queue[0])
    ensures done[queue[0]] ==> Tables(cs, indegree, done, queue[1..], order, -1)
  {
    assert queue == [queue[0]] + queue[1..];
    assert queue[0] in queue;
  }

  lemma SkipNothing(cs: seq<Change>, indegree: seq<int>, done: seq<bool>, queue: seq<nat>, order: seq<nat>, i: nat)
    requires Tables(cs, indegree, done, queue, order, -1)
    ensures Tables(cs, indegree, done, queue, order, i)
  {
  }

  // Every change still pending is part of a cycle: stages the lowest one through a temporary name.
  method BreakCycle(cs: seq<Change>, temps: seq<Path>, dependents: seq<seq<nat>>, indegree: array<int>,
                    done: array<bool>, steps: seq<Change>, finals: seq<Change>,
                    ghost order: seq<nat>, ghost staged: seq<nat>)
    returns (steps': seq<Change>, finals': seq<Change>, queue: seq<nat>, i: nat)
    requires indegree != done as object && indegree.Length == done.Length == |cs|
    requires |order| < |cs| <= |temps| && DependentsOf(cs, dependents, |cs|)
    requires Tables(cs, indegree[..], done[..], [], order, -1)
    requires Progress(cs, temps, order, staged, steps, finals)
    modifies indegree, done
    ensures |finals| < |temps|
    ensures i < |cs| && i !in order && forall k :: 0 <= k < i ==> k in order
    ensures Tables(cs, indegree[..], done[..], queue, order + [i], -1)
    ensures steps' == steps + [Change(cs[i].from, temps[|finals|])]
    ensures finals' == finals + [Change(temps[|finals|], cs[i].to)]
    ensures Progress(cs, temps, order + [i], staged + [i], steps', finals')
  {
    hide *;
    ProgressParts(cs, temps, order, staged, steps, finals);
    TablesDone(cs, indegree[..], done[..], [], order);
    i := LowestNotDone(cs, done, order);
    EmptyQueueBlocks(cs, indegree[..], done[..], order);
    SkipNothing(cs, indegree[..], done[..], [], order, i);
    StageStep(cs, temps, order, staged, steps, finals, i);
    var tmp := temps[|finals|];
    steps' := steps + [Change(cs[i].from, tmp)];
    finals' := finals + [Change(tmp, cs[i].to)];
    queue := Release(cs, i, dependents, indegree, done, [], order);
  }

  // order is the order the changes are started in; staged lists those broken out of a cycle,
  // the m-th of them through temps[m], the m-th name the temporary-name generator draws.
  method Order(changes: seq<Change>, temps: seq<Path>)
    returns (steps: seq<Change>, ghost order: seq<nat>, ghost staged: seq<nat>)
    requires |temps| >= |changes|
    ensures Scheduled(changes, temps, order, staged) && |order| == |changes|
    ensures |steps| == |order| + |staged| && |staged| <= |order|
    ensures Emitted(changes, temps, order, staged, steps[..|order|], steps[|order|..])
    ensures DistinctTargets(changes) ==> Elements(staged) == CycleLeaders(changes)
    ensures DistinctTargets(changes) ==> |steps| == |changes| + |CycleLeaders(changes)|
  {
    hide *;
    var n := |changes|;
    order, staged, steps := [], [], [];
    NothingStarted(changes, temps);
    if n == 0 {
      AllStarted(changes, order, staged);
      return;
    }
    var dependents, indegree := Dependencies(changes);
    var finals: seq<Change> := [];
    var queue := InitialQueue(indegree);
    var done := new bool[n](_ => false);
    TablesFilled(changes, indegree[..], done[..], queue);
    var remaining := n;
    while remaining > 0
      invariant remaining == n - |order|
      invariant fresh(indegree) && fresh(done) && indegree.Length == done.Length == n
      invariant Tables(changes, indegree[..], done[..], queue, order, -1)
      invariant Progress(changes, temps, order, staged, steps, finals)
      decreases remaining, |queue|
    {
      if queue == [] {
        var i;
        steps, finals, queue, i := BreakCycle(changes, temps, dependents, indegree, done, steps, finals, order, staged);
        order, staged := order + [i], staged + [i];
        remaining := remaining - 1;
        continue;
      }
      TakeFirst(changes, indegree[..], done[..], queue, order);
      var i := queue[0];
      queue := queue[1..];
      if done[i] {
        continue;
      }
      FreeStep(changes, temps, order, staged, steps, finals, i);
      steps := steps + [changes[i]];
      queue := Release(changes, i, dependents, indegree, done, queue, order);
      order := order + [i];
      remaining := remaining - 1;
    }
    ProgressParts(changes, temps, order, staged, steps, finals);
    StagedDistinct(changes, temps, order, staged);
    AllStarted(changes, order, staged);
    EmittedLengths(changes, temps, order, staged, steps, finals);
    steps := steps + finals;
    assert steps[..|order|] + steps[|order|..] == steps;
  }

  lemma NothingStarted(cs: seq<Change>, temps: seq<Path>)
    ensures Progress(cs, temps, [], [], [], []) && Distinct([], |cs|)
    ensures Scheduled(cs, temps, [], []) && Emitted(cs, temps, [], [], [], [])
    ensures LeadersSoFar(cs, [], [])
  {
  }

  lemma TablesFilled(cs: seq<Change>, indegree: seq<int>, done: seq<bool>, queue: seq<nat>)
    requires |indegree| == |done| == |cs| && forall i :: 0 <= i < |cs| ==> !done[i]
    requires forall i :: 0 <= i < |cs| ==> indegree[i] == Blockers(cs, [], i)
    requires forall i :: i in queue <==> 0 <= i < |cs| && indegree[i] == 0
    ensures Tables(cs, indegree, done, queue, [], -1)
  {
    hide Blockers;
  }

  lemma StagedDistinct(cs: seq<Change>, temps: seq<Path>, order: seq<nat>, staged: seq<nat>)
    requires Scheduled(cs, temps, order, staged)
    ensures Distinct(staged, |cs|)
  {
  }

  lemma EmittedLengths(cs: seq<Change>, temps: seq<Path>, order: seq<nat>, staged: seq<nat>,
      steps: seq<Change>, finals: seq<Change>)
    requires Scheduled(cs, temps, order, staged) && Emitted(cs, temps, order, staged, steps, finals)
    ensures |steps| == |order| && |finals| == |staged|
    ensures (steps + finals)[..|order|] == steps && (steps + finals)[|order|..] == finals
  {
  }
}
