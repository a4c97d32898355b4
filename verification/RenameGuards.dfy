// Renames that look at the destination first: the one of the operating system, and one that
// never replaces anything.
module RenameGuards {
  import opened Wrappers
  import opened Rename
  import opened RenameApply
  import opened RenameFaults

  // os.Rename takes the place of a file only, and only with a file.
  predicate Blocked(fs: Fs, c: Change) {
    c.from in fs && c.to in fs && c.from != c.to && (fs[c.from].Folder? || fs[c.to].Folder?)
  }

  // What the comment on Apply takes for granted: an occupied destination stops a rename.
  predicate Occupied(fs: Fs, c: Change) { c.to in fs }

  // The run in which a step also fails if the guard holds of it.
  function GuardedRun(fs: Fs, steps: seq<Change>, refusals: seq<bool>, guard: (Fs, Change) -> bool): Outcome
    requires |refusals| == |steps|
  {
    if steps == [] then Outcome(fs, [])
    else
      var n := |steps| - 1;
      var r := GuardedRun(fs, steps[..n], refusals[..n], guard);
      if refusals[n] || steps[n].from !in r.fs || guard(r.fs, steps[n]) then r
      else Outcome(Moved(r.fs, steps[n]), r.applied + [steps[n]])
  }

  // Which steps fail in it, refused or stopped by the guard.
  function Failing(fs: Fs, steps: seq<Change>, refusals: seq<bool>, guard: (Fs, Change) -> bool): (r: seq<bool>)
    requires |refusals| == |steps|
    ensures |r| == |steps|
  {
    if steps == [] then []
    else
      var n := |steps| - 1;
      Failing(fs, steps[..n], refusals[..n], guard)
        + [refusals[n] || guard(GuardedRun(fs, steps[..n], refusals[..n], guard).fs, steps[n])]
  }

  // It is the plain run with those steps failing.
  lemma {:induction false} GuardedIsRun(fs: Fs, steps: seq<Change>, refusals: seq<bool>, guard: (Fs, Change) -> bool)
    requires |refusals| == |steps|
    ensures GuardedRun(fs, steps, refusals, guard) == ApplyRun(fs, steps, Failing(fs, steps, refusals, guard))
  {
    if steps != [] {
      var n := |steps| - 1;
      GuardedIsRun(fs, steps[..n], refusals[..n], guard);
      assert Failing(fs, steps, refusals, guard)[..n] == Failing(fs, steps[..n], refusals[..n], guard);
    }
  }

  lemma GuardedNext(fs: Fs, steps: seq<Change>, refusals: seq<bool>, guard: (Fs, Change) -> bool, k: nat)
    requires |refusals| == |steps| && k < |steps|
    ensures var r := GuardedRun(fs, steps[..k], refusals[..k], guard);
            GuardedRun(fs, steps[..k + 1], refusals[..k + 1], guard) ==
              if refusals[k] || steps[k].from !in r.fs || guard(r.fs, steps[k]) then r
              else Outcome(Moved(r.fs, steps[k]), r.applied + [steps[k]])
  {
    assert steps[..k + 1][..k] == steps[..k] && refusals[..k + 1][..k] == refusals[..k];
  }

  // A run that always finds its destination free meets no guard of these kinds.
  lemma {:induction false} UnguardedRun(fs: Fs, steps: seq<Change>, guard: (Fs, Change) -> bool)
    requires Run(fs, steps).Some? && forall g, c :: guard(g, c) ==> c.to in g
    ensures GuardedRun(fs, steps, NoFaults(|steps|), guard) == Outcome(Run(fs, steps).value, steps)
  {
    if steps != [] {
      var n := |steps| - 1;
      UnguardedRun(fs, steps[..n], guard);
      assert NoFaults(|steps|)[..n] == NoFaults(n);
      assert steps[..n] + [steps[n]] == steps;
    }
  }

  // ---- A rename that never replaces anything ----

  lemma {:induction false} NothingReplaced(fs: Fs, steps: seq<Change>, refusals: seq<bool>)
    requires |refusals| == |steps|
    ensures ClobberFree(fs, steps, Failing(fs, steps, refusals, Occupied))
  {
    if steps != [] {
      var n := |steps| - 1;
      var all := Failing(fs, steps, refusals, Occupied);
      NothingReplaced(fs, steps[..n], refusals[..n]);
      GuardedIsRun(fs, steps[..n], refusals[..n], Occupied);
      assert all[..n] == Failing(fs, steps[..n], refusals[..n], Occupied);
      ClobberFreeLast(fs, steps, all);
    }
  }

  lemma ClobberFreeLast(fs: Fs, steps: seq<Change>, faults: seq<bool>)
    requires |faults| == |steps| && steps != []
    requires var n := |steps| - 1;
             && ClobberFree(fs, steps[..n], faults[..n])
             && (faults[n] || steps[n].to !in ApplyRun(fs, steps[..n], faults[..n]).fs)
    ensures ClobberFree(fs, steps, faults)
  {
    var n := |steps| - 1;
    forall k | 0 <= k < |steps| && Lands(fs, steps, faults, k) ensures steps[k].to !in Before(fs, steps, faults, k) {
      if k < n {
        assert steps[..n][..k] == steps[..k] && faults[..n][..k] == faults[..k];
        assert Lands(fs, steps[..n], faults[..n], k);
      }
    }
  }

  // With such a rename, whichever steps fail, no content is lost or duplicated, and undoing
  // exactly the applied steps restores the original.
  lemma NoClobberSafe(fs: Fs, steps: seq<Change>, refusals: seq<bool>)
    requires |refusals| == |steps| && NoSelf(steps)
    ensures var r := GuardedRun(fs, steps, refusals, Occupied);
            && Contents(r.fs) == Contents(fs) && |r.fs| == |fs|
            && GuardedRun(r.fs, Reversed(r.applied), NoFaults(|r.applied|), Occupied).fs == fs
  {
    var failing := Failing(fs, steps, refusals, Occupied);
    var r := GuardedRun(fs, steps, refusals, Occupied);
    GuardedIsRun(fs, steps, refusals, Occupied);
    NothingReplaced(fs, steps, refusals);
    assert forall g, c :: Occupied(g, c) ==> c.to in g;
    hide *;
    ContentsKept(fs, steps, failing);
    UndoIsRun(fs, steps, failing);
    UnguardedRun(r.fs, Reversed(r.applied), Occupied);
    ContentsSize(fs);
    ContentsSize(r.fs);
  }

  // ---- The operating system's rename ----

  // With any set of refused renames: every content survives, and undoing exactly the applied steps
  // restores the original, if and only if no change arrives on one that did not leave, be it that
  // the latter was refused or that a folder was in its way.
  lemma OsFaultsExactly(fs: Fs, cs: seq<Change>, temps: seq<Path>, order: seq<nat>, staged: seq<nat>,
      steps: seq<Change>, refusals: seq<bool>)
    requires Batch(fs, cs, temps, order, staged, steps, refusals)
    ensures var r := GuardedRun(fs, steps, refusals, Blocked);
            var failing := Failing(fs, steps, refusals, Blocked);
            && (Contents(r.fs) == Contents(fs) <==> !Overrun(cs, order, staged, failing))
            && (GuardedRun(r.fs, Reversed(r.applied), NoFaults(|r.applied|), Blocked).fs == fs
                <==> !Overrun(cs, order, staged, failing))
  {
    var failing := Failing(fs, steps, refusals, Blocked);
    StepsMove(fs, cs, temps, order, staged, steps, failing);
    GuardedIsRun(fs, steps, refusals, Blocked);
    FaultsExactly(fs, cs, temps, order, staged, steps, failing);
    hide *;
    ContentsKept(fs, steps, failing);
    OsUndo(fs, steps, refusals);
  }

  lemma OsUndo(fs: Fs, steps: seq<Change>, refusals: seq<bool>)
    requires |refusals| == |steps| && NoSelf(steps)
    ensures var r := GuardedRun(fs, steps, refusals, Blocked);
            GuardedRun(r.fs, Reversed(r.applied), NoFaults(|r.applied|), Blocked).fs == fs
            <==> ClobberFree(fs, steps, Failing(fs, steps, refusals, Blocked))
  {
    var failing := Failing(fs, steps, refusals, Blocked);
    var r := GuardedRun(fs, steps, refusals, Blocked);
    GuardedIsRun(fs, steps, refusals, Blocked);
    AppliedMove(fs, steps, failing);
    ReversedMove(r.applied);
    assert forall g, c :: Blocked(g, c) ==> c.to in g;
    hide *;
    if ClobberFree(fs, steps, failing) {
      UndoIsRun(fs, steps, failing);
      UnguardedRun(r.fs, Reversed(r.applied), Blocked);
    } else {
      ClobberShrinks(fs, steps, failing);
      GuardedIsRun(r.fs, Reversed(r.applied), NoFaults(|r.applied|), Blocked);
      RunNeverMore(r.fs, Reversed(r.applied), Failing(r.fs, Reversed(r.applied), NoFaults(|r.applied|), Blocked));
    }
  }

  lemma ReversedMove(applied: seq<Change>)
    requires NoSelf(applied)
    ensures NoSelf(Reversed(applied)) && |Reversed(applied)| == |applied| == |NoFaults(|applied|)|
  {
  }

  // No folder is ever lost or duplicated, whichever renames are refused.
  lemma {:induction false} FoldersKept(fs: Fs, steps: seq<Change>, refusals: seq<bool>, tree: string)
    requires |refusals| == |steps| && NoSelf(steps)
    ensures Contents(GuardedRun(fs, steps, refusals, Blocked).fs)[Folder(tree)] == Contents(fs)[Folder(tree)]
  {
    if steps != [] {
      var n := |steps| - 1;
      FoldersKept(fs, steps[..n], refusals[..n], tree);
      var g := GuardedRun(fs, steps[..n], refusals[..n], Blocked).fs;
      if steps[n].from in g && !Blocked(g, steps[n]) {
        MoveKeepsFolders(g, steps[n], tree);
      }
    }
  }

  lemma MoveKeepsFolders(g: Fs, c: Change, tree: string)
    requires c.from in g && c.from != c.to && !Blocked(g, c)
    ensures Contents(Moved(g, c))[Folder(tree)] == Contents(g)[Folder(tree)]
  {
    hide Contents, Moved;
    if c.to in g {
      MovedOver(g, c);
      ContentsRemove(g, c.to);
      MovedToFree(Without(g, c.to), c);
    } else {
      MovedToFree(g, c);
    }
  }

  lemma MovedOver(g: Fs, c: Change)
    requires c.from in g && c.from != c.to
    ensures c.from in Without(g, c.to) && Moved(g, c) == Moved(Without(g, c.to), c)
  {
  }

  // A folder that could not move away is not overwritten, but stops the change behind it.
  lemma FailedLinkStops(a: Path, b: Path, c: Path)
    requires a != b && b != c && a != c
    ensures var fs: Fs := map[a := File("A"), b := Folder("B")];
            GuardedRun(fs, [Change(b, c), Change(a, b)], [true, false], Blocked).fs == fs
  {
    var fs: Fs := map[a := File("A"), b := Folder("B")];
    var steps := [Change(b, c), Change(a, b)];
    assert steps[..1] == [Change(b, c)] && [Change(b, c)][..0] == [] && [true, false][..1] == [true];
    assert GuardedRun(fs, [Change(b, c)], [true], Blocked) == Outcome(fs, []);
  }
}
