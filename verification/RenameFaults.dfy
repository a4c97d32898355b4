// What a batch rename does when some of its renames fail: exactly when it destroys something,
// and when Undo brings everything back.
module RenameFaults {
  import opened Rename
  import opened RenameOrder
  import opened RenameRefines
  import opened RenameApply

  // Change i's own first rename goes through; and so does its last one.
  predicate Leaves(order: seq<nat>, faults: seq<bool>, i: nat)
    requires i in order && |order| <= |faults|
  {
    !faults[Position(order, i)]
  }

  predicate Arrives(order: seq<nat>, staged: seq<nat>, faults: seq<bool>, i: nat)
    requires i in order && |order| + |staged| <= |faults|
  {
    Leaves(order, faults, i) && (i in staged ==> !faults[|order| + Position(staged, i)])
  }

  // Some change reaches its new name although the file standing there could not be moved away.
  ghost predicate Overrun(cs: seq<Change>, order: seq<nat>, staged: seq<nat>, faults: seq<bool>)
    requires |order| + |staged| <= |faults| && forall i: nat :: i < |cs| ==> i in order
  {
    exists i: nat, j: nat :: i < |cs| && j < |cs| && Overruns(cs, order, staged, faults, i, j)
  }

  ghost predicate Overruns(cs: seq<Change>, order: seq<nat>, staged: seq<nat>, faults: seq<bool>, i: nat, j: nat)
    requires |order| + |staged| <= |faults| && i < |cs| && j < |cs| && i in order && j in order
  {
    cs[i].to == cs[j].from && Arrives(order, staged, faults, i) && !Leaves(order, faults, j)
  }

  ghost predicate Batch(fs: Fs, cs: seq<Change>, temps: seq<Path>, order: seq<nat>, staged: seq<nat>,
                        steps: seq<Change>, faults: seq<bool>) {
    && ValidBatch(fs, cs) && FreshTemps(fs, cs, temps) && ScheduleOf(cs, temps, order, staged, steps)
    && |faults| == |steps|
  }

  // The m-th second half.
  lemma SecondStep(fs: Fs, cs: seq<Change>, temps: seq<Path>, order: seq<nat>, staged: seq<nat>, steps: seq<Change>,
                   faults: seq<bool>, m: nat)
    requires Batch(fs, cs, temps, order, staged, steps, faults) && m < |staged|
    ensures steps[|order| + m] == Change(temps[m], cs[staged[m]].to)
    ensures cs[staged[m]].to in Targets(cs)
  {
    assert steps[|order|..][m] == SecondHalf(cs, temps, staged, m);
  }

  // No two steps share a source or a destination.
  lemma StepsApart(fs: Fs, cs: seq<Change>, temps: seq<Path>, order: seq<nat>, staged: seq<nat>, steps: seq<Change>,
                   faults: seq<bool>, k: nat, l: nat)
    requires Batch(fs, cs, temps, order, staged, steps, faults)
    requires l < k < |steps|
    ensures steps[l].from != steps[k].from && steps[l].to != steps[k].to
  {
    var n := |order|;
    if k < n {
      FirstStep(fs, cs, temps, order, staged, steps, k);
    } else {
      SecondStep(fs, cs, temps, order, staged, steps, faults, k - n);
      if l < n {
        FirstStep(fs, cs, temps, order, staged, steps, l);
        assert staged[k - n] in staged;
        assert staged[k - n] != order[l] ==> cs[staged[k - n]].to != cs[order[l]].to;
      } else {
        SecondStep(fs, cs, temps, order, staged, steps, faults, l - n);
      }
    }
  }

  lemma StepsMove(fs: Fs, cs: seq<Change>, temps: seq<Path>, order: seq<nat>, staged: seq<nat>, steps: seq<Change>,
                  faults: seq<bool>)
    requires Batch(fs, cs, temps, order, staged, steps, faults)
    ensures NoSelf(steps)
  {
    forall k | 0 <= k < |steps| ensures steps[k].from != steps[k].to {
      if k < |order| {
        FirstStep(fs, cs, temps, order, staged, steps, k);
      } else {
        SecondStep(fs, cs, temps, order, staged, steps, faults, k - |order|);
      }
    }
  }

  // A first half goes through unless it is refused.
  lemma FirstLands(fs: Fs, cs: seq<Change>, temps: seq<Path>, order: seq<nat>, staged: seq<nat>, steps: seq<Change>,
                   faults: seq<bool>, k: nat)
    requires Batch(fs, cs, temps, order, staged, steps, faults) && k < |order|
    ensures Lands(fs, steps, faults, k) == Leaves(order, faults, order[k]) == !faults[k]
  {
    PositionAt(order, |cs|, k);
    FirstStep(fs, cs, temps, order, staged, steps, k);
    PresentBefore(fs, steps, faults, k, steps[k].from);
    assert LeftAlone(fs, steps, faults, k, steps[k].from);
  }

  // A second half goes through unless it or its first half is refused.
  lemma SecondLands(fs: Fs, cs: seq<Change>, temps: seq<Path>, order: seq<nat>, staged: seq<nat>, steps: seq<Change>,
                    faults: seq<bool>, m: nat)
    requires Batch(fs, cs, temps, order, staged, steps, faults) && m < |staged|
    ensures staged[m] in order
    ensures Lands(fs, steps, faults, |order| + m) == Arrives(order, staged, faults, staged[m])
  {
    var k, tmp, i := |order| + m, temps[m], staged[m];
    assert i in staged;
    hide Before, Waits, Emitted;
    var a := Position(order, i);
    SecondStep(fs, cs, temps, order, staged, steps, faults, m);
    PositionAt(staged, |cs|, m);
    FirstStep(fs, cs, temps, order, staged, steps, a);
    FirstLands(fs, cs, temps, order, staged, steps, faults, a);
    PresentBefore(fs, steps, faults, k, tmp);
    forall b: nat | b < k && b != a ensures steps[b].to != tmp {
      StepsApart(fs, cs, temps, order, staged, steps, faults, if a < b then b else a, if a < b then a else b);
    }
    forall b: nat | b < k ensures steps[b].from != tmp {
      StepsApart(fs, cs, temps, order, staged, steps, faults, k, b);
    }
    assert Lands(fs, steps, faults, a) ==> PutAt(fs, steps, faults, k, tmp, a);
  }

  // The destination of step k is occupied exactly when the file standing there was not moved away.
  lemma OccupiedBefore(fs: Fs, cs: seq<Change>, temps: seq<Path>, order: seq<nat>, staged: seq<nat>, steps: seq<Change>,
                       faults: seq<bool>, k: nat)
    requires Batch(fs, cs, temps, order, staged, steps, faults) && k < |steps|
    ensures steps[k].to in Before(fs, steps, faults, k) <==>
              && steps[k].to in fs
              && forall c :: 0 <= c < k && Lands(fs, steps, faults, c) ==> steps[c].from != steps[k].to
  {
    PresentBefore(fs, steps, faults, k, steps[k].to);
    forall c | 0 <= c < k ensures steps[c].to != steps[k].to {
      StepsApart(fs, cs, temps, order, staged, steps, faults, k, c);
    }
  }

  // The change the k-th step brings to its new name.
  function Brings(order: seq<nat>, staged: seq<nat>, k: nat): nat
    requires k < |order| + |staged|
  {
    if k < |order| then order[k] else staged[k - |order|]
  }

  lemma StepBrings(fs: Fs, cs: seq<Change>, temps: seq<Path>, order: seq<nat>, staged: seq<nat>, steps: seq<Change>,
                   faults: seq<bool>, k: nat)
    requires Batch(fs, cs, temps, order, staged, steps, faults) && k < |steps|
    requires Lands(fs, steps, faults, k) && steps[k].to in fs
    ensures var i := Brings(order, staged, k);
            i < |cs| && steps[k].to == cs[i].to && Arrives(order, staged, faults, i)
  {
    hide Position, Waits, Lands, Before;
    if k < |order| {
      FirstStep(fs, cs, temps, order, staged, steps, k);
      FirstLands(fs, cs, temps, order, staged, steps, faults, k);
    } else {
      SecondStep(fs, cs, temps, order, staged, steps, faults, k - |order|);
      SecondLands(fs, cs, temps, order, staged, steps, faults, k - |order|);
    }
  }

  // What stands in the way of step k is due to leave before it.
  lemma OccupantEarlier(fs: Fs, cs: seq<Change>, temps: seq<Path>, order: seq<nat>, staged: seq<nat>,
        steps: seq<Change>, faults: seq<bool>, k: nat, j: nat)
    requires Batch(fs, cs, temps, order, staged, steps, faults) && k < |steps| && j < |cs|
    requires steps[k].to == cs[j].from
    ensures Position(order, j) < k
    ensures steps[Position(order, j)].from == cs[j].from
  {
    var a := Position(order, j);
    FirstStep(fs, cs, temps, order, staged, steps, a);
    if k < |order| {
      FirstStep(fs, cs, temps, order, staged, steps, k);
      WaitsForSource(cs, order[k], j);
      assert WaitedFor(cs, order, k);
      EarlierPosition(order, |cs|, k, j);
    }
  }

  // A rename that replaces something is a change arriving where the occupant did not leave.
  lemma ClobberIsOverrun(fs: Fs, cs: seq<Change>, temps: seq<Path>, order: seq<nat>, staged: seq<nat>,
        steps: seq<Change>, faults: seq<bool>, k: nat)
    requires Batch(fs, cs, temps, order, staged, steps, faults) && k < |steps|
    requires Lands(fs, steps, faults, k) && steps[k].to in Before(fs, steps, faults, k)
    ensures Overrun(cs, order, staged, faults)
  {
    OccupiedBefore(fs, cs, temps, order, staged, steps, faults, k);
    StepBrings(fs, cs, temps, order, staged, steps, faults, k);
    var i := Brings(order, staged, k);
    assert cs[i].to in Sources(cs);
    var c :| c in cs && c.from == cs[i].to;
    var j: nat :| j < |cs| && cs[j] == c;
    OccupantEarlier(fs, cs, temps, order, staged, steps, faults, k, j);
    FirstLands(fs, cs, temps, order, staged, steps, faults, Position(order, j));
    assert Overruns(cs, order, staged, faults, i, j);
  }

  lemma EarlierPosition(order: seq<nat>, n: nat, k: nat, j: nat)
    requires Distinct(order, n) && k <= |order| && j in order[..k]
    ensures j in order && Position(order, j) < k
  {
    var a: nat :| a < k && order[a] == j;
    PositionAt(order, n, a);
  }

  lemma ArrivingStep(fs: Fs, cs: seq<Change>, temps: seq<Path>, order: seq<nat>, staged: seq<nat>, steps: seq<Change>,
                     faults: seq<bool>, i: nat)
    requires Batch(fs, cs, temps, order, staged, steps, faults) && i < |cs|
    requires Arrives(order, staged, faults, i)
    ensures var k := if i in staged then |order| + Position(staged, i) else Position(order, i);
            k < |steps| && Lands(fs, steps, faults, k) && steps[k].to == cs[i].to
  {
    if i in staged {
      SecondStep(fs, cs, temps, order, staged, steps, faults, Position(staged, i));
      SecondLands(fs, cs, temps, order, staged, steps, faults, Position(staged, i));
    } else {
      FirstStep(fs, cs, temps, order, staged, steps, Position(order, i));
      FirstLands(fs, cs, temps, order, staged, steps, faults, Position(order, i));
    }
  }

  lemma OnlyItsOwnStep(fs: Fs, cs: seq<Change>, temps: seq<Path>, order: seq<nat>, staged: seq<nat>, steps: seq<Change>,
                       faults: seq<bool>, j: nat)
    requires Batch(fs, cs, temps, order, staged, steps, faults) && j < |cs|
    ensures forall c :: 0 <= c < |steps| && c != Position(order, j) ==> steps[c].from != cs[j].from
  {
    var a := Position(order, j);
    FirstStep(fs, cs, temps, order, staged, steps, a);
    forall c: nat | c < |steps| && c != a ensures steps[c].from != cs[j].from {
      StepsApart(fs, cs, temps, order, staged, steps, faults, if a < c then c else a, if a < c then a else c);
    }
  }

  lemma OverrunIsClobber(fs: Fs, cs: seq<Change>, temps: seq<Path>, order: seq<nat>, staged: seq<nat>,
        steps: seq<Change>, faults: seq<bool>, i: nat, j: nat)
    requires Batch(fs, cs, temps, order, staged, steps, faults)
    requires i < |cs| && j < |cs| && Overruns(cs, order, staged, faults, i, j)
    ensures !ClobberFree(fs, steps, faults)
  {
    hide Lands, Before, FreshTemps, Emitted, Waits, Leaves, Arrives;
    var k := if i in staged then |order| + Position(staged, i) else Position(order, i);
    ArrivingStep(fs, cs, temps, order, staged, steps, faults, i);
    StillThere(fs, cs, temps, order, staged, steps, faults, k, j);
  }

  lemma StillThere(fs: Fs, cs: seq<Change>, temps: seq<Path>, order: seq<nat>, staged: seq<nat>, steps: seq<Change>,
                   faults: seq<bool>, k: nat, j: nat)
    requires Batch(fs, cs, temps, order, staged, steps, faults) && k < |steps| && j < |cs|
    requires j in order && Position(order, j) < |faults| && !Leaves(order, faults, j)
    requires steps[k].to == cs[j].from
    ensures steps[k].to in Before(fs, steps, faults, k)
  {
    hide Lands, Before, Emitted, Waits, FreshTemps;
    assert cs[j].from in Sources(cs);
    FirstLands(fs, cs, temps, order, staged, steps, faults, Position(order, j));
    OnlyItsOwnStep(fs, cs, temps, order, staged, steps, faults, j);
    hide ValidBatch, Scheduled;
    OccupiedBefore(fs, cs, temps, order, staged, steps, faults, k);
  }

  // With any set of failing renames: every content survives, and undoing exactly the applied steps
  // restores the original, if and only if no change overruns one that did not leave.
  lemma FaultsExactly(fs: Fs, cs: seq<Change>, temps: seq<Path>, order: seq<nat>, staged: seq<nat>, steps: seq<Change>,
                      faults: seq<bool>)
    requires Batch(fs, cs, temps, order, staged, steps, faults)
    ensures var r := ApplyRun(fs, steps, faults);
            && (Contents(r.fs) == Contents(fs) <==> !Overrun(cs, order, staged, faults))
            && (UndoRun(r.fs, r.applied) == fs <==> !Overrun(cs, order, staged, faults))
  {
    StepsMove(fs, cs, temps, order, staged, steps, faults);
    ContentsKept(fs, steps, faults);
    UndoRestores(fs, steps, faults);
    if Overrun(cs, order, staged, faults) {
      var i: nat, j: nat :| i < |cs| && j < |cs| && Overruns(cs, order, staged, faults, i, j);
      OverrunIsClobber(fs, cs, temps, order, staged, steps, faults, i, j);
    }
    if !ClobberFree(fs, steps, faults) {
      var k :| 0 <= k < |steps| && Lands(fs, steps, faults, k) && steps[k].to in Before(fs, steps, faults, k);
      ClobberIsOverrun(fs, cs, temps, order, staged, steps, faults, k);
    }
  }

  // A failed first link of a chain: "b" could not move to "c", yet "a" is renamed onto it and
  // the content of "b" is gone.
  lemma FailedLinkOverwrites(a: Path, b: Path, c: Path)
    requires a != b && b != c && a != c
    ensures var fs: Fs := map[a := File("A"), b := File("B")];
            var cs := [Change(a, b), Change(b, c)];
            && ValidBatch(fs, cs)
            && ScheduleOf(cs, [], [1, 0], [], [cs[1], cs[0]])
            && ApplyRun(fs, [cs[1], cs[0]], [true, false]).fs == map[b := File("A")]
  {
    var fs: Fs := map[a := File("A"), b := File("B")];
    var cs := [Change(a, b), Change(b, c)];
    assert cs[0] in cs && cs[1] in cs;
    assert Sources(cs) == {a, b};
    var order, steps := [1, 0], [cs[1], cs[0]];
    assert order[0] == 1 && order[1] == 0;
    WaitsForSource(cs, 0, 1);
    assert steps[..2] == steps && steps[2..] == [];
    assert steps[..1] == [cs[1]] && [cs[1]][..0] == [] && [true, false][..1] == [true];
    assert ApplyRun(fs, [cs[1]], [true]) == Outcome(fs, []);
  }
}
