// Which batches keep every content whatever the operating system refuses: decided by the batch
// and by what stands under its names, before anything is renamed.
module RenameSafety {
  import opened Rename
  import opened RenameOrder
  import opened RenameRefines
  import opened RenameApply
  import opened RenameFaults
  import opened RenameGuards

  // A file of the batch is to land where another file of the batch stands.
  ghost predicate FileOntoFile(fs: Fs, cs: seq<Change>) {
    exists i: nat, j: nat :: i < |cs| && j < |cs| && Onto(fs, cs, i, j)
  }

  predicate Onto(fs: Fs, cs: seq<Change>, i: nat, j: nat)
    requires i < |cs| && j < |cs|
  {
    && cs[i].to == cs[j].from && cs[i].from in fs && cs[j].from in fs
    && fs[cs[i].from].File? && fs[cs[j].from].File?
  }

  // The batch as Order has scheduled it.
  ghost predicate Planned(fs: Fs, cs: seq<Change>, temps: seq<Path>, order: seq<nat>, staged: seq<nat>,
                          steps: seq<Change>) {
    ValidBatch(fs, cs) && FreshTemps(fs, cs, temps) && ScheduleOf(cs, temps, order, staged, steps)
  }

  // What Apply leaves behind under the given refusals, and what undoing it then leaves.
  ghost function Applied(fs: Fs, steps: seq<Change>, refusals: seq<bool>): Outcome
    requires |refusals| == |steps|
  {
    GuardedRun(fs, steps, refusals, Blocked)
  }

  ghost function Undone(fs: Fs, steps: seq<Change>, refusals: seq<bool>): Fs
    requires |refusals| == |steps|
  {
    var r := Applied(fs, steps, refusals);
    GuardedRun(r.fs, Reversed(r.applied), NoFaults(|r.applied|), Blocked).fs
  }

  // ---- Why a step fails ----

  lemma {:induction false} FailingPrefix(fs: Fs, steps: seq<Change>, refusals: seq<bool>,
      guard: (Fs, Change) -> bool, k: nat)
    requires |refusals| == |steps| && k <= |steps|
    ensures Failing(fs, steps, refusals, guard)[..k] == Failing(fs, steps[..k], refusals[..k], guard)
    decreases |steps|
  {
    var n := |steps| - 1;
    if k == |steps| {
      assert steps[..k] == steps && refusals[..k] == refusals;
    } else {
      FailingPrefix(fs, steps[..n], refusals[..n], guard, k);
      assert steps[..n][..k] == steps[..k] && refusals[..n][..k] == refusals[..k];
      assert Failing(fs, steps, refusals, guard)[..n] == Failing(fs, steps[..n], refusals[..n], guard);
    }
  }

  // It is refused, or the guard holds where the run stands.
  lemma FailingAt(fs: Fs, steps: seq<Change>, refusals: seq<bool>, guard: (Fs, Change) -> bool, k: nat)
    requires |refusals| == |steps| && k < |steps|
    ensures var failing := Failing(fs, steps, refusals, guard);
            failing[k] == (refusals[k] || guard(Before(fs, steps, failing, k), steps[k]))
  {
    var failing := Failing(fs, steps, refusals, guard);
    FailingPrefix(fs, steps, refusals, guard, k);
    FailingPrefix(fs, steps, refusals, guard, k + 1);
    GuardedIsRun(fs, steps[..k], refusals[..k], guard);
    assert steps[..k + 1][..k] == steps[..k] && refusals[..k + 1][..k] == refusals[..k];
    assert failing[k] == failing[..k + 1][k];
  }

  // ---- What stands under a name ----

  // A name no step has touched holds what it held.
  lemma {:induction false} Untouched(fs: Fs, steps: seq<Change>, faults: seq<bool>, k: nat, p: Path)
    requires |faults| == |steps| && k <= |steps| && LeftAlone(fs, steps, faults, k, p)
    ensures p in Before(fs, steps, faults, k) && Before(fs, steps, faults, k)[p] == fs[p]
  {
    if k > 0 {
      LeftAloneNext(fs, steps, faults, k - 1, p);
      Untouched(fs, steps, faults, k - 1, p);
      NextState(fs, steps, faults, k - 1);
      hide LeftAlone, Lands, Before;
    }
  }

  // What step a put under a name stays there as long as no step touches it.
  lemma {:induction false} Carried(fs: Fs, steps: seq<Change>, faults: seq<bool>, a: nat, k: nat)
    requires |faults| == |steps| && a < k <= |steps| && Lands(fs, steps, faults, a)
    requires forall b :: a < b < k ==> steps[b].from != steps[a].to && steps[b].to != steps[a].to
    ensures steps[a].from in Before(fs, steps, faults, a)
    ensures steps[a].to in Before(fs, steps, faults, k)
    ensures Before(fs, steps, faults, k)[steps[a].to] == Before(fs, steps, faults, a)[steps[a].from]
  {
    NextState(fs, steps, faults, k - 1);
    if k - 1 > a {
      Carried(fs, steps, faults, a, k - 1);
      hide Before, Lands;
    }
  }

  // Change i's first step finds its own file.
  lemma FirstHolds(fs: Fs, cs: seq<Change>, temps: seq<Path>, order: seq<nat>, staged: seq<nat>, steps: seq<Change>,
                   faults: seq<bool>, k: nat)
    requires Batch(fs, cs, temps, order, staged, steps, faults) && k < |order|
    ensures order[k] < |cs| && steps[k].from == cs[order[k]].from && steps[k].from in fs
    ensures steps[k].from in Before(fs, steps, faults, k)
    ensures Before(fs, steps, faults, k)[steps[k].from] == fs[steps[k].from]
  {
    FirstStep(fs, cs, temps, order, staged, steps, k);
    hide Before, Lands, ValidBatch, FreshTemps, Emitted, Waits;
    assert LeftAlone(fs, steps, faults, k, steps[k].from);
    Untouched(fs, steps, faults, k, steps[k].from);
  }

  // And so does its second one, if the first went through.
  lemma SecondHolds(fs: Fs, cs: seq<Change>, temps: seq<Path>, order: seq<nat>, staged: seq<nat>, steps: seq<Change>,
                    faults: seq<bool>, m: nat)
    requires Batch(fs, cs, temps, order, staged, steps, faults) && m < |staged|
    requires staged[m] in order && Leaves(order, faults, staged[m])
    ensures staged[m] < |cs| && cs[staged[m]].from in fs
    ensures var k := |order| + m;
            && steps[k].from in Before(fs, steps, faults, k)
            && Before(fs, steps, faults, k)[steps[k].from] == fs[cs[staged[m]].from]
  {
    var k, tmp, i := |order| + m, temps[m], staged[m];
    assert i in staged;
    hide Before, Waits, Emitted;
    var a := Position(order, i);
    SecondStep(fs, cs, temps, order, staged, steps, faults, m);
    PositionAt(staged, |cs|, m);
    FirstStep(fs, cs, temps, order, staged, steps, a);
    FirstLands(fs, cs, temps, order, staged, steps, faults, a);
    FirstHolds(fs, cs, temps, order, staged, steps, faults, a);
    assert Lands(fs, steps, faults, a) && steps[a].to == tmp;
    forall b: nat | a < b < k ensures steps[b].from != tmp && steps[b].to != tmp {
      StepsApart(fs, cs, temps, order, staged, steps, faults, b, a);
      StepsApart(fs, cs, temps, order, staged, steps, faults, k, b);
    }
    Carried(fs, steps, faults, a, k);
  }

  // Whatever has not left is still what it was when step k comes to its name.
  lemma StayerHolds(fs: Fs, cs: seq<Change>, temps: seq<Path>, order: seq<nat>, staged: seq<nat>, steps: seq<Change>,
                    faults: seq<bool>, k: nat, j: nat)
    requires Batch(fs, cs, temps, order, staged, steps, faults) && k < |steps| && j < |cs|
    requires j in order && Position(order, j) < |faults| && !Leaves(order, faults, j)
    requires steps[k].to == cs[j].from
    ensures cs[j].from in fs && cs[j].from in Before(fs, steps, faults, k)
    ensures Before(fs, steps, faults, k)[cs[j].from] == fs[cs[j].from]
  {
    hide Lands, Before, Emitted, Waits, FreshTemps;
    assert cs[j].from in Sources(cs);
    FirstLands(fs, cs, temps, order, staged, steps, faults, Position(order, j));
    OnlyItsOwnStep(fs, cs, temps, order, staged, steps, faults, j);
    forall c | 0 <= c < k ensures steps[c].to != cs[j].from {
      StepsApart(fs, cs, temps, order, staged, steps, faults, k, c);
    }
    hide Scheduled;
    assert LeftAlone(fs, steps, faults, k, cs[j].from);
    Untouched(fs, steps, faults, k, cs[j].from);
  }

  // The change's own file, when its last step is taken.
  lemma ArrivalHolds(fs: Fs, cs: seq<Change>, temps: seq<Path>, order: seq<nat>, staged: seq<nat>, steps: seq<Change>,
                     faults: seq<bool>, i: nat)
    requires Batch(fs, cs, temps, order, staged, steps, faults) && i < |cs| && i in order && |order| <= |faults|
    requires i in staged ==> Leaves(order, faults, i)
    ensures var k := if i in staged then |order| + Position(staged, i) else Position(order, i);
            && k < |steps| && steps[k].to == cs[i].to && steps[k].from != steps[k].to
            && steps[k].from in Before(fs, steps, faults, k) && cs[i].from in fs
            && Before(fs, steps, faults, k)[steps[k].from] == fs[cs[i].from]
  {
    StepsMove(fs, cs, temps, order, staged, steps, faults);
    hide Before, Leaves, Waits;
    if i in staged {
      var m := Position(staged, i);
      SecondStep(fs, cs, temps, order, staged, steps, faults, m);
      SecondHolds(fs, cs, temps, order, staged, steps, faults, m);
    } else {
      FirstStep(fs, cs, temps, order, staged, steps, Position(order, i));
      FirstHolds(fs, cs, temps, order, staged, steps, faults, Position(order, i));
    }
  }

  // ---- Which batches are safe ----

  // A folder in the way stops the arriving change, and a folder does not replace anything.
  lemma OnlyFilesOverrun(fs: Fs, cs: seq<Change>, temps: seq<Path>, order: seq<nat>, staged: seq<nat>,
                         steps: seq<Change>, refusals: seq<bool>, i: nat, j: nat)
    requires Batch(fs, cs, temps, order, staged, steps, refusals) && i < |cs| && j < |cs|
    requires |order| + |staged| <= |refusals| && i in order && j in order
    requires Overruns(cs, order, staged, Failing(fs, steps, refusals, Blocked), i, j)
    ensures Onto(fs, cs, i, j)
  {
    var failing := Failing(fs, steps, refusals, Blocked);
    hide Failing, Before, Waits, ValidBatch, FreshTemps, Scheduled, Emitted;
    ArrivingStep(fs, cs, temps, order, staged, steps, failing, i);
    ArrivalHolds(fs, cs, temps, order, staged, steps, failing, i);
    var k := if i in staged then |order| + Position(staged, i) else Position(order, i);
    StayerHolds(fs, cs, temps, order, staged, steps, failing, k, j);
    FailingAt(fs, steps, refusals, Blocked, k);
  }

  // A file that is not refused lands on a file that has not left.
  lemma FilePasses(fs: Fs, cs: seq<Change>, temps: seq<Path>, order: seq<nat>, staged: seq<nat>,
                   steps: seq<Change>, refusals: seq<bool>, i: nat, j: nat, k: nat)
    requires Batch(fs, cs, temps, order, staged, steps, refusals) && i < |cs| && j < |cs| && Onto(fs, cs, i, j)
    requires |order| + |staged| == |refusals| && i in order && j in order
    requires var failing := Failing(fs, steps, refusals, Blocked);
             !Leaves(order, failing, j) && (i in staged ==> Leaves(order, failing, i))
    requires k == (if i in staged then |order| + Position(staged, i) else Position(order, i)) && !refusals[k]
    ensures !Failing(fs, steps, refusals, Blocked)[k]
  {
    var failing := Failing(fs, steps, refusals, Blocked);
    hide Failing, Before, Leaves, Waits, ValidBatch, FreshTemps, ScheduleOf, Position;
    ArrivalHolds(fs, cs, temps, order, staged, steps, failing, i);
    StayerHolds(fs, cs, temps, order, staged, steps, failing, k, j);
    FailingAt(fs, steps, refusals, Blocked, k);
  }

  // Refusing only the first step of j.
  function OneRefusal(n: nat, a: nat): (r: seq<bool>)
    ensures |r| == n && forall k :: 0 <= k < n ==> r[k] == (k == a)
  {
    seq(n, k => k == a)
  }

  lemma RefusedStays(fs: Fs, cs: seq<Change>, temps: seq<Path>, order: seq<nat>, staged: seq<nat>,
                     steps: seq<Change>, i: nat, j: nat)
    requires Planned(fs, cs, temps, order, staged, steps) && i < |cs| && j < |cs| && Onto(fs, cs, i, j)
    ensures i != j && i in order && j in order && Position(order, i) != Position(order, j) < |order|
    ensures |steps| == |order| + |staged|
    ensures var failing := Failing(fs, steps, OneRefusal(|steps|, Position(order, j)), Blocked);
            !Leaves(order, failing, j)
  {
    FailingAt(fs, steps, OneRefusal(|steps|, Position(order, j)), Blocked, Position(order, j));
  }

  // Then i, a file, arrives on the file that has not left: first it leaves its own name.
  lemma RefusedLeaves(fs: Fs, cs: seq<Change>, temps: seq<Path>, order: seq<nat>, staged: seq<nat>,
                      steps: seq<Change>, i: nat, j: nat)
    requires Planned(fs, cs, temps, order, staged, steps) && i < |cs| && j < |cs| && Onto(fs, cs, i, j)
    requires j in order && i in order && |order| <= |steps|
    ensures Leaves(order, Failing(fs, steps, OneRefusal(|steps|, Position(order, j)), Blocked), i)
  {
    RefusedStays(fs, cs, temps, order, staged, steps, i, j);
    var refusals := OneRefusal(|steps|, Position(order, j));
    var failing := Failing(fs, steps, refusals, Blocked);
    var a := Position(order, i);
    hide Failing, Before, Waits, ValidBatch, FreshTemps, Scheduled, Emitted, OneRefusal;
    if i in staged {
      FailingAt(fs, steps, refusals, Blocked, a);
      FirstStep(fs, cs, temps, order, staged, steps, a);
      OccupiedBefore(fs, cs, temps, order, staged, steps, failing, a);
    } else {
      FilePasses(fs, cs, temps, order, staged, steps, refusals, i, j, a);
    }
  }

  // And then goes on from its temporary name, if it is staged.
  lemma RefusedArrives(fs: Fs, cs: seq<Change>, temps: seq<Path>, order: seq<nat>, staged: seq<nat>,
                       steps: seq<Change>, i: nat, j: nat)
    requires Planned(fs, cs, temps, order, staged, steps) && i < |cs| && j < |cs| && Onto(fs, cs, i, j)
    requires j in order && i in staged && |steps| == |order| + |staged|
    ensures !Failing(fs, steps, OneRefusal(|steps|, Position(order, j)), Blocked)[|order| + Position(staged, i)]
  {
    hide Failing, Leaves, ValidBatch, FreshTemps, ScheduleOf, Position;
    RefusedStays(fs, cs, temps, order, staged, steps, i, j);
    RefusedLeaves(fs, cs, temps, order, staged, steps, i, j);
    var k := |order| + Position(staged, i);
    FilePasses(fs, cs, temps, order, staged, steps, OneRefusal(|steps|, Position(order, j)), i, j, k);
  }

  lemma RefusedOverruns(fs: Fs, cs: seq<Change>, temps: seq<Path>, order: seq<nat>, staged: seq<nat>,
                        steps: seq<Change>, i: nat, j: nat)
    requires Planned(fs, cs, temps, order, staged, steps) && i < |cs| && j < |cs| && Onto(fs, cs, i, j)
    requires j in order && i in order && |order| + |staged| <= |steps|
    ensures Overruns(cs, order, staged, Failing(fs, steps, OneRefusal(|steps|, Position(order, j)), Blocked), i, j)
  {
    hide Failing, Leaves, Planned, OneRefusal, Position;
    RefusedStays(fs, cs, temps, order, staged, steps, i, j);
    RefusedLeaves(fs, cs, temps, order, staged, steps, i, j);
    if i in staged {
      RefusedArrives(fs, cs, temps, order, staged, steps, i, j);
    }
  }

  // Whichever renames are refused, every content survives: exactly when no file of the batch is to
  // land where another one stands. And exactly then undoing always restores the original.
  lemma SafeExactly(fs: Fs, cs: seq<Change>, temps: seq<Path>, order: seq<nat>, staged: seq<nat>, steps: seq<Change>)
    requires Planned(fs, cs, temps, order, staged, steps)
    ensures (forall refusals :: |refusals| == |steps| ==> Contents(Applied(fs, steps, refusals).fs) == Contents(fs))
            <==> !FileOntoFile(fs, cs)
    ensures (forall refusals :: |refusals| == |steps| ==> Undone(fs, steps, refusals) == fs)
            <==> !FileOntoFile(fs, cs)
  {
    if FileOntoFile(fs, cs) {
      var i: nat, j: nat :| i < |cs| && j < |cs| && Onto(fs, cs, i, j);
      RefusedStays(fs, cs, temps, order, staged, steps, i, j);
      RefusedOverruns(fs, cs, temps, order, staged, steps, i, j);
      var refusals := OneRefusal(|steps|, Position(order, j));
      OsFaultsExactly(fs, cs, temps, order, staged, steps, refusals);
      assert Contents(Applied(fs, steps, refusals).fs) != Contents(fs) && Undone(fs, steps, refusals) != fs;
    } else {
      forall refusals: seq<bool> | |refusals| == |steps|
        ensures Contents(Applied(fs, steps, refusals).fs) == Contents(fs) && Undone(fs, steps, refusals) == fs
      {
        SafeRun(fs, cs, temps, order, staged, steps, refusals);
      }
    }
  }

  lemma SafeRun(fs: Fs, cs: seq<Change>, temps: seq<Path>, order: seq<nat>, staged: seq<nat>, steps: seq<Change>,
      refusals: seq<bool>)
    requires Planned(fs, cs, temps, order, staged, steps) && !FileOntoFile(fs, cs) && |refusals| == |steps|
    ensures Contents(Applied(fs, steps, refusals).fs) == Contents(fs) && Undone(fs, steps, refusals) == fs
  {
    OsFaultsExactly(fs, cs, temps, order, staged, steps, refusals);
    var failing := Failing(fs, steps, refusals, Blocked);
    hide Failing, ValidBatch, FreshTemps, Emitted, Overruns;
    if Overrun(cs, order, staged, failing) {
      var i: nat, j: nat :| i < |cs| && j < |cs| && Overruns(cs, order, staged, failing, i, j);
      OnlyFilesOverrun(fs, cs, temps, order, staged, steps, refusals, i, j);
    }
  }
}
