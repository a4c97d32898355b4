// The lanes of a commit graph as a state machine: one step per commit, newest first.
module LaneSpec {
  datatype Commit = Commit(hash: string, parents: seq<string>)

  // A lane waits for the commit named hash; an empty hash marks a free lane.
  datatype Lane = Lane(hash: string, id: nat)
  datatype State = State(lanes: seq<Lane>, nextID: nat)

  const FREE := Lane("", 0)

  // The leftmost lane waiting for hash (or the leftmost free lane, for ""), or -1.
  function FirstIndex(lanes: seq<Lane>, hash: string): (j: int)
    ensures -1 <= j < |lanes|
    ensures j >= 0 ==> lanes[j].hash == hash
    ensures forall k :: 0 <= k < (if j < 0 then |lanes| else j) ==> lanes[k].hash != hash
  {
    if lanes == [] then -1
    else
      var j := FirstIndex(lanes[..|lanes| - 1], hash);
      if j >= 0 then j else if lanes[|lanes| - 1].hash == hash then |lanes| - 1 else -1
  }

  datatype Seated = Seated(col: nat, st: State)

  // The column of a commit: the leftmost lane waiting for it, else a new lane.
  function Seat(st: State, hash: string): (s: Seated)
    ensures s.col < |s.st.lanes| && s.st.lanes[s.col].hash == hash
  {
    var j := FirstIndex(st.lanes, hash);
    if j >= 0 then Seated(j, st) else NewLane(st, -1, hash)
  }

  // A lane with a fresh id for hash, in the leftmost free column other than taken.
  function NewLane(st: State, taken: int, hash: string): (s: Seated)
    ensures s.col < |s.st.lanes| && s.st.lanes[s.col] == Lane(hash, st.nextID)
    ensures s.col != taken || taken == |st.lanes|
    ensures s.st.nextID == st.nextID + 1 && |st.lanes| <= |s.st.lanes| <= |st.lanes| + 1
    ensures forall k :: 0 <= k < |st.lanes| && k != s.col ==> s.st.lanes[k] == st.lanes[k]
    ensures s.col < |st.lanes| ==> st.lanes[s.col].hash == ""
  {
    var e := FirstIndex(st.lanes, "");
    var lane := Lane(hash, st.nextID);
    if e == -1 || e == taken then Seated(|st.lanes|, State(st.lanes + [lane], st.nextID + 1))
    else Seated(e, State(st.lanes[e := lane], st.nextID + 1))
  }

  // Every other lane waiting for the same commit ends here.
  function CloseOthers(lanes: seq<Lane>, col: nat, hash: string): (r: seq<Lane>)
    ensures |r| == |lanes|
  {
    seq(|lanes|, i requires 0 <= i < |lanes| => if i != col && lanes[i].hash == hash then FREE else lanes[i])
  }

  // A merge commit's further parents: an existing lane is reused, otherwise a new one is opened.
  function OpenForks(st: State, col: nat, parents: seq<string>): (r: State)
    requires col < |st.lanes|
    ensures |st.lanes| <= |r.lanes|
  {
    if parents == [] then st
    else
      var r := OpenForks(st, col, parents[..|parents| - 1]);
      OpenFork(r, col, parents[|parents| - 1])
  }

  function OpenFork(st: State, col: nat, p: string): (r: State)
    requires col < |st.lanes|
    ensures |st.lanes| <= |r.lanes|
  {
    var j := FirstIndex(st.lanes, p);
    if j >= 0 && j != col then st else NewLane(st, col, p).st
  }

  // The commit's own lane goes on to its first parent, or ends.
  function Continue(st: State, col: nat, c: Commit): (r: State)
    requires col < |st.lanes|
  {
    if c.parents == [] then State(st.lanes[col := FREE], st.nextID)
    else OpenForks(State(st.lanes[col := Lane(c.parents[0], st.lanes[col].id)], st.nextID), col, c.parents[1..])
  }

  function Step(st: State, c: Commit): State {
    var s := Seat(st, c.hash);
    Continue(State(CloseOthers(s.st.lanes, s.col, c.hash), s.st.nextID), s.col, c)
  }

  // The state before the k-th commit.
  function StateAt(commits: seq<Commit>, k: nat): State
    requires k <= |commits|
  {
    if k == 0 then State([], 0) else Step(StateAt(commits, k - 1), commits[k - 1])
  }

  function ColumnAt(commits: seq<Commit>, k: nat): nat
    requires k < |commits|
  {
    Seat(StateAt(commits, k), commits[k].hash).col
  }

  function NodeIdAt(commits: seq<Commit>, k: nat): nat
    requires k < |commits|
  {
    var s := Seat(StateAt(commits, k), commits[k].hash);
    s.st.lanes[s.col].id
  }

  // ---- What every step keeps ----

  ghost function Active(lanes: seq<Lane>): set<string> {
    set l | l in lanes && l.hash != "" :: l.hash
  }

  ghost function Names(parents: seq<string>): set<string> { set p | p in parents }

  ghost predicate IdsDistinct(st: State) {
    && (forall i :: 0 <= i < |st.lanes| && st.lanes[i].hash != "" ==> st.lanes[i].id < st.nextID)
    && (forall i, j :: 0 <= i < j < |st.lanes| && st.lanes[i].hash != "" && st.lanes[j].hash != "" ==>
          st.lanes[i].id != st.lanes[j].id)
  }

  ghost predicate Named(c: Commit) {
    c.hash != "" && forall p :: p in c.parents ==> p != ""
  }

  lemma NewLaneKeeps(st: State, taken: int, hash: string)
    requires hash != ""
    ensures var s := NewLane(st, taken, hash);
            Active(s.st.lanes) == Active(st.lanes) + {hash} && (IdsDistinct(st) ==> IdsDistinct(s.st))
  {
    var s := NewLane(st, taken, hash);
    assert s.st.lanes[s.col] in s.st.lanes;
    forall h | h in Active(st.lanes) ensures h in Active(s.st.lanes) {
      var k :| 0 <= k < |st.lanes| && st.lanes[k].hash == h;
      assert s.st.lanes[k] in s.st.lanes;
    }
  }

  lemma OpenForkKeeps(st: State, col: nat, p: string)
    requires col < |st.lanes| && st.lanes[col].hash != "" && p != ""
    ensures var r := OpenFork(st, col, p);
            && Active(r.lanes) == Active(st.lanes) + {p}
            && (IdsDistinct(st) ==> IdsDistinct(r))
            && (forall k :: 0 <= k < |st.lanes| && st.lanes[k].hash != "" ==> r.lanes[k] == st.lanes[k])
  {
    NewLaneKeeps(st, col, p);
    var j := FirstIndex(st.lanes, p);
    if j >= 0 {
      assert st.lanes[j] in st.lanes;
    }
  }

  lemma {:induction false} OpenForksKeep(st: State, col: nat, parents: seq<string>)
    requires col < |st.lanes| && st.lanes[col].hash != "" && forall p :: p in parents ==> p != ""
    ensures var r := OpenForks(st, col, parents);
            && Active(r.lanes) == Active(st.lanes) + Names(parents)
            && (IdsDistinct(st) ==> IdsDistinct(r))
            && (forall k :: 0 <= k < |st.lanes| && st.lanes[k].hash != "" ==> r.lanes[k] == st.lanes[k])
  {
    if parents != [] {
      var n := |parents| - 1;
      assert parents[n] in parents && forall p :: p in parents[..n] ==> p in parents;
      assert Names(parents) == Names(parents[..n]) + {parents[n]} by { assert parents == parents[..n] + [parents[n]]; }
      OpenForksKeep(st, col, parents[..n]);
      OpenForkKeeps(OpenForks(st, col, parents[..n]), col, parents[n]);
      hide OpenFork, IdsDistinct, Active, Names;
    }
  }

  // After the commit is seated and the other lanes waiting for it are closed.
  function Closed(st: State, hash: string): (r: State)
    ensures var s := Seat(st, hash); |r.lanes| == |s.st.lanes| && s.col < |r.lanes| && r.lanes[s.col].hash == hash
  {
    var s := Seat(st, hash);
    State(CloseOthers(s.st.lanes, s.col, hash), s.st.nextID)
  }

  lemma ClosedLanes(st: State, hash: string)
    requires hash != ""
    ensures var r, col := Closed(st, hash), Seat(st, hash).col;
            && |st.lanes| <= |r.lanes|
            && (forall k :: 0 <= k < |st.lanes| && st.lanes[k].hash != "" && st.lanes[k].hash != hash ==>
                  k != col && r.lanes[k] == st.lanes[k])
            && (forall k :: 0 <= k < |r.lanes| && k != col && r.lanes[k].hash != "" ==>
                  k < |st.lanes| && r.lanes[k] == st.lanes[k] && st.lanes[k].hash != hash)
  {
  }

  lemma ClosedKeeps(st: State, hash: string)
    requires hash != ""
    ensures var r, col := Closed(st, hash), Seat(st, hash).col;
            && |st.lanes| <= |r.lanes|
            && Active(r.lanes[col := FREE]) == Active(st.lanes) - {hash}
            && (IdsDistinct(st) ==> IdsDistinct(r))
            && (forall k :: 0 <= k < |st.lanes| && st.lanes[k].hash != "" && st.lanes[k].hash != hash ==>
                  k != col && r.lanes[k] == st.lanes[k])
  {
    ClosedLanes(st, hash);
    ClosedActive(st, hash);
    ClosedIds(st, hash);
    hide Closed, Seat, Active, IdsDistinct;
  }

  lemma ClosedActive(st: State, hash: string)
    requires hash != ""
    ensures Active(Closed(st, hash).lanes[Seat(st, hash).col := FREE]) == Active(st.lanes) - {hash}
  {
    ClosedLanes(st, hash);
    hide Closed, Seat;
    var col := Seat(st, hash).col;
    var f := Closed(st, hash).lanes[col := FREE];
    forall h | h in Active(st.lanes) - {hash} ensures h in Active(f) {
      var k :| 0 <= k < |st.lanes| && st.lanes[k].hash == h;
      assert f[k] in f;
    }
    forall k | 0 <= k < |f| && f[k].hash != "" ensures f[k].hash in Active(st.lanes) - {hash} {
      assert st.lanes[k] in st.lanes;
    }
  }

  lemma ClosedIds(st: State, hash: string)
    requires hash != ""
    ensures IdsDistinct(st) ==> IdsDistinct(Closed(st, hash))
  {
    NewLaneKeeps(st, -1, hash);
    hide NewLane;
  }

  // The commit's lane handed on to its first parent.
  function HandedOn(st: State, col: nat, p: string): (r: State)
    requires col < |st.lanes|
    ensures |r.lanes| == |st.lanes|
  {
    State(st.lanes[col := Lane(p, st.lanes[col].id)], st.nextID)
  }

  lemma HandedOnKeeps(st: State, col: nat, p: string)
    requires col < |st.lanes| && st.lanes[col].hash != "" && p != ""
    ensures Active(HandedOn(st, col, p).lanes) == Active(st.lanes[col := FREE]) + {p}
    ensures IdsDistinct(st) ==>
              IdsDistinct(HandedOn(st, col, p)) && IdsDistinct(State(st.lanes[col := FREE], st.nextID))
  {
    var r, f := HandedOn(st, col, p).lanes, st.lanes[col := FREE];
    assert r[col] in r;
    forall h | h in Active(f) ensures h in Active(r) {
      var k :| 0 <= k < |f| && f[k].hash == h;
      assert r[k] in r;
    }
    forall k | 0 <= k < |r| && k != col && r[k].hash != "" ensures r[k].hash in Active(f) {
      assert f[k] in f;
    }
  }

  lemma FirstAndRest(c: Commit)
    requires Named(c) && c.parents != []
    ensures c.parents[0] != "" && forall p :: p in c.parents[1..] ==> p != ""
    ensures Names(c.parents) == {c.parents[0]} + Names(c.parents[1..])
  {
    assert c.parents == [c.parents[0]] + c.parents[1..];
    assert c.parents[0] in c.parents;
    assert forall p :: p in c.parents[1..] ==> p in c.parents;
  }

  // One row: the commit is no longer waited for, its parents are; a lane waiting for anything
  // else keeps its hash and its id; ids stay distinct.
  lemma StepKeeps(st: State, c: Commit)
    requires Named(c)
    ensures var r := Step(st, c);
            && Active(r.lanes) == Active(st.lanes) - {c.hash} + Names(c.parents)
            && (IdsDistinct(st) ==> IdsDistinct(r))
            && (forall k :: 0 <= k < |st.lanes| && st.lanes[k].hash != "" && st.lanes[k].hash != c.hash ==>
                  k < |r.lanes| && r.lanes[k] == st.lanes[k])
  {
    ClosedKeeps(st, c.hash);
    var cl, col := Closed(st, c.hash), Seat(st, c.hash).col;
    if c.parents == [] {
      HandedOnKeeps(cl, col, c.hash);
    } else {
      FirstAndRest(c);
      HandedOnKeeps(cl, col, c.parents[0]);
      OpenForksKeep(HandedOn(cl, col, c.parents[0]), col, c.parents[1..]);
    }
  }

  // The commit's lane keeps its column and its id for the first parent.
  lemma FirstParentInherits(st: State, c: Commit)
    requires Named(c) && c.parents != []
    ensures var s, r := Seat(st, c.hash), Step(st, c);
            s.col < |r.lanes| && r.lanes[s.col] == Lane(c.parents[0], s.st.lanes[s.col].id)
  {
    FirstAndRest(c);
    var col := Seat(st, c.hash).col;
    OpenForksKeep(HandedOn(Closed(st, c.hash), col, c.parents[0]), col, c.parents[1..]);
  }

  // ---- Whole runs ----

  // Non-empty names, and no commit is listed at or before one of its own children.
  ghost predicate ChildrenFirst(commits: seq<Commit>) {
    && (forall k :: 0 <= k < |commits| ==> Named(commits[k]))
    && (forall i, j :: 0 <= i <= j < |commits| ==> commits[i].hash !in commits[j].parents)
  }

  // Parents of the first k commits that are not among those k themselves.
  ghost function Awaited(commits: seq<Commit>, k: nat): set<string>
    requires k <= |commits|
  {
    (set i, p | 0 <= i < k && p in commits[i].parents :: p) - (set i | 0 <= i < k :: commits[i].hash)
  }

  lemma {:induction false} ActiveAreAwaited(commits: seq<Commit>, k: nat)
    requires ChildrenFirst(commits) && k <= |commits|
    ensures Active(StateAt(commits, k).lanes) == Awaited(commits, k)
    ensures IdsDistinct(StateAt(commits, k))
  {
    hide Step, Awaited, Names;
    if k == 0 {
      NothingAwaited(commits);
    } else {
      hide Active, IdsDistinct;
      ActiveAreAwaited(commits, k - 1);
      StepKeeps(StateAt(commits, k - 1), commits[k - 1]);
      AwaitedNext(commits, k - 1);
    }
  }

  lemma NothingAwaited(commits: seq<Commit>)
    ensures Awaited(commits, 0) == {}
  {
  }

  lemma AwaitedNext(commits: seq<Commit>, k: nat)
    requires ChildrenFirst(commits) && k < |commits|
    ensures Awaited(commits, k + 1) == Awaited(commits, k) - {commits[k].hash} + Names(commits[k].parents)
  {
    var c := commits[k];
    forall p | p in c.parents ensures p in Awaited(commits, k + 1) {
      assert forall i :: 0 <= i < k + 1 ==> commits[i].hash != p;
    }
  }

  // A log that lists every parent of every commit ends with no lane in use.
  lemma CompleteLogEndsEmpty(commits: seq<Commit>)
    requires ChildrenFirst(commits)
    requires forall i, p :: 0 <= i < |commits| && p in commits[i].parents ==>
               exists j :: 0 <= j < |commits| && commits[j].hash == p
    ensures forall l :: l in StateAt(commits, |commits|).lanes ==> l.hash == ""
  {
    ActiveAreAwaited(commits, |commits|);
    var lanes := StateAt(commits, |commits|).lanes;
    forall l | l in lanes ensures l.hash == "" {
      assert l.hash != "" ==> l.hash in Active(lanes);
    }
  }

  // Until its parent's own row comes, the lane of a first parent stays where its child was.
  lemma {:induction false} FirstParentWaits(commits: seq<Commit>, k: nat, l: nat)
    requires ChildrenFirst(commits) && k < l <= |commits| && commits[k].parents != []
    requires forall m :: k < m < l ==> commits[m].hash != commits[k].parents[0]
    ensures var lanes := StateAt(commits, l).lanes;
            ColumnAt(commits, k) < |lanes| &&
            lanes[ColumnAt(commits, k)] == Lane(commits[k].parents[0], NodeIdAt(commits, k))
  {
    hide *;
    FirstParentNamed(commits, k, l);
    if l == k + 1 {
      Unfolded(commits, k);
      FirstParentInherits(StateAt(commits, k), commits[k]);
    } else {
      FirstParentWaits(commits, k, l - 1);
      var st, c, j := StateAt(commits, l - 1), commits[l - 1], ColumnAt(commits, k);
      assert c.hash != commits[k].parents[0];
      Unfolded(commits, l - 1);
      OtherLaneKept(st, c, j);
    }
  }

  // One lane that waits for another commit.
  lemma OtherLaneKept(st: State, c: Commit, j: nat)
    requires Named(c) && j < |st.lanes| && st.lanes[j].hash != "" && st.lanes[j].hash != c.hash
    ensures j < |Step(st, c).lanes| && Step(st, c).lanes[j] == st.lanes[j]
  {
    hide *;
    StepKeeps(st, c);
  }

  lemma Unfolded(commits: seq<Commit>, k: nat)
    requires k < |commits|
    ensures StateAt(commits, k + 1) == Step(StateAt(commits, k), commits[k])
    ensures ColumnAt(commits, k) == Seat(StateAt(commits, k), commits[k].hash).col
    ensures var s := Seat(StateAt(commits, k), commits[k].hash); NodeIdAt(commits, k) == s.st.lanes[s.col].id
  {
    hide Step, Seat;
  }

  lemma FirstParentNamed(commits: seq<Commit>, k: nat, l: nat)
    requires ChildrenFirst(commits) && k < l <= |commits| && commits[k].parents != []
    ensures Named(commits[k]) && Named(commits[l - 1]) && commits[k].parents[0] != ""
  {
    assert commits[k].parents[0] in commits[k].parents;
  }

  // A first parent is drawn in its child's column, with its child's lane id, exactly when that
  // lane is the leftmost one waiting for it.
  lemma FirstParentColumn(commits: seq<Commit>, k: nat, l: nat)
    requires ChildrenFirst(commits) && k < l < |commits| && commits[k].parents != []
    requires commits[l].hash == commits[k].parents[0]
    requires forall m :: k < m < l ==> commits[m].hash != commits[l].hash
    ensures ColumnAt(commits, l) <= ColumnAt(commits, k)
    ensures ColumnAt(commits, l) == ColumnAt(commits, k) <==> NodeIdAt(commits, l) == NodeIdAt(commits, k)
    ensures ColumnAt(commits, l) == ColumnAt(commits, k) <==>
              forall j :: 0 <= j < ColumnAt(commits, k) ==>
                !(j < |StateAt(commits, l).lanes| && StateAt(commits, l).lanes[j].hash == commits[l].hash)
  {
    FirstParentWaits(commits, k, l);
    ActiveAreAwaited(commits, l);
  }

  // Where a commit goes: to the leftmost lane that waits for it; and if none does, under the next id
  // to the leftmost column that is free.
  lemma ColumnExactly(commits: seq<Commit>, k: nat)
    requires k < |commits|
    ensures var st, hash, col := StateAt(commits, k), commits[k].hash, ColumnAt(commits, k);
            if exists l :: l in st.lanes && l.hash == hash
            then col < |st.lanes| && st.lanes[col].hash == hash && NodeIdAt(commits, k) == st.lanes[col].id
                 && forall j :: 0 <= j < col ==> st.lanes[j].hash != hash
            else col <= |st.lanes| && (col < |st.lanes| ==> st.lanes[col].hash == "")
                 && NodeIdAt(commits, k) == st.nextID && forall j :: 0 <= j < col ==> st.lanes[j].hash != ""
  {
    var st, hash := StateAt(commits, k), commits[k].hash;
    hide StateAt;
    assert FirstIndex(st.lanes, hash) >= 0 ==> st.lanes[FirstIndex(st.lanes, hash)] in st.lanes;
  }

  // Where the lane of a further parent goes: where one waits for it, and if none does, under the next
  // id to the leftmost column that is free and not the commit's own.
  lemma ForkExactly(st: State, col: nat, p: string)
    requires col < |st.lanes| && st.lanes[col].hash != "" && p != ""
    ensures var r := OpenFork(st, col, p);
            if exists j :: 0 <= j < |st.lanes| && j != col && st.lanes[j].hash == p
            then r == st || st.lanes[col].hash == p
            else r.nextID == st.nextID + 1 && exists j: nat :: j < |r.lanes| && Opened(st, r, p, j)
  {
    var s := NewLane(st, col, p);
    var j := FirstIndex(st.lanes, p);
    assert Opened(st, s.st, p, s.col);
  }

  // Column j, all those left of it being in use, has got a lane for p.
  ghost predicate Opened(st: State, r: State, p: string, j: nat) {
    && j <= |st.lanes| <= |r.lanes| && j < |r.lanes| && r.lanes[j] == Lane(p, st.nextID)
    && (forall i :: 0 <= i < j ==> st.lanes[i].hash != "")
    && (forall i :: 0 <= i < |st.lanes| && i != j ==> r.lanes[i] == st.lanes[i])
  }
}
