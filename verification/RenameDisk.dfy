// Apply and Undo as they run: one rename after another on a disk that changes underneath.
module RenameDisk {
  import opened Wrappers
  import opened Rename
  import opened RenameOrder
  import opened RenameRefines
  import opened RenameApply
  import opened RenameFaults
  import opened RenameGuards
  import opened RenameSafety

  class Disk {
    var files: Fs

    // os.Rename: a file replaces a file; it fails on a missing source, when a folder stands at an
    // occupied destination or would come to stand there, or when refused.
    method Rename(c: Change, refused: bool) returns (ok: bool)
      modifies this
      ensures ok == (!refused && c.from in old(files) && !Blocked(old(files), c))
      ensures files == if ok then Moved(old(files), c) else old(files)
    {
      ok := !refused && c.from in files && !Blocked(files, c);
      if ok {
        files := Moved(files, c);
      }
    }

    // refusals[k] decides whether the k-th physical rename is refused.
    method Apply(changes: seq<Change>, temps: seq<Path>, refusals: seq<bool>)
      returns (applied: seq<Change>, firstErr: Option<Path>, ghost steps: seq<Change>,
               ghost order: seq<nat>, ghost staged: seq<nat>)
      requires |temps| >= |changes| && |refusals| >= 2 * |changes|
      modifies this
      ensures ScheduleOf(changes, temps, order, staged, steps) && |steps| <= |refusals|
      ensures Outcome(files, applied) == GuardedRun(old(files), steps, refusals[..|steps|], Blocked)
      ensures firstErr.None? <==> applied == steps
      ensures var fs := old(files);
              ValidBatch(fs, changes) && FreshTemps(fs, changes, temps) && refusals[..|steps|] == NoFaults(|steps|)
              ==> files == Simultaneous(fs, changes) && applied == steps &&
                  |steps| == |changes| + |CycleLeaders(changes)|
      ensures var fs := old(files);
              ValidBatch(fs, changes) && FreshTemps(fs, changes, temps)
              ==> (Contents(files) == Contents(fs) <==>
                   !Overrun(changes, order, staged, Failing(fs, steps, refusals[..|steps|], Blocked)))
      ensures var fs := old(files);
              ValidBatch(fs, changes) && FreshTemps(fs, changes, temps) && !FileOntoFile(fs, changes)
              ==> Contents(files) == Contents(fs)
    {
      var todo;
      todo, order, staged := Order(changes, temps);
      steps := todo;
      AllScheduled(changes, temps, order, staged, steps);
      applied, firstErr := Carry(todo, refusals[..|todo|]);
      ApplySummary(old(files), changes, temps, order, staged, steps, refusals[..|steps|]);
    }

    // The loop over the physical renames: goes on past a failure, keeps the first one.
    method Carry(steps: seq<Change>, refusals: seq<bool>) returns (applied: seq<Change>, firstErr: Option<Path>)
      requires |refusals| == |steps|
      modifies this
      ensures Outcome(files, applied) == GuardedRun(old(files), steps, refusals, Blocked)
      ensures firstErr.None? <==> applied == steps
      ensures FirstFailure(old(files), steps, refusals, |steps|, firstErr)
    {
      hide *;
      applied, firstErr := [], None;
      CarryStarts(files, steps, refusals);
      for k := 0 to |steps|
        invariant Outcome(files, applied) == GuardedRun(old(files), steps[..k], refusals[..k], Blocked)
        invariant FirstFailure(old(files), steps, refusals, k, firstErr)
        invariant firstErr.None? ==> applied == steps[..k]
        invariant firstErr.Some? ==> |applied| < k
      {
        GuardedNext(old(files), steps, refusals, Blocked, k);
        FailureNext(old(files), steps, refusals, k, firstErr);
        var ok := Rename(steps[k], refusals[k]);
        if !ok {
          if firstErr.None? {
            firstErr := Some(steps[k].from);
          }
          continue;
        }
        applied := applied + [steps[k]];
      }
      assert steps[..|steps|] == steps && refusals[..|steps|] == refusals;
    }

    // refusals[k] decides whether the k-th reversal is refused.
    method Undo(applied: seq<Change>, refusals: seq<bool>)
      returns (undone: seq<Change>, firstErr: Option<Path>)
      requires |refusals| == |applied|
      modifies this
      ensures Outcome(files, Flipped(undone)) == GuardedRun(old(files), Reversed(applied), refusals, Blocked)
      ensures firstErr.None? <==> |undone| == |applied|
      ensures FirstFailure(old(files), Reversed(applied), refusals, |applied|, firstErr)
    {
      hide *;
      undone, firstErr := [], None;
      ghost var back := Reversed(applied);
      UndoStarts(files, applied, refusals);
      CarryStarts(files, back, refusals);
      var i := |applied|;
      while i > 0
        invariant 0 <= i <= |applied|
        invariant UndoState(old(files), applied, refusals, |applied| - i, files, undone)
        invariant FirstFailure(old(files), back, refusals, |applied| - i, firstErr)
        invariant firstErr.None? ==> |undone| == |applied| - i
        invariant firstErr.Some? ==> |undone| < |applied| - i
      {
        i := i - 1;
        var c := applied[i];
        UndoNext(old(files), applied, refusals, |applied| - 1 - i, files, undone);
        UndoRuns(old(files), applied, refusals, |applied| - 1 - i, files, undone);
        FailureNext(old(files), back, refusals, |applied| - 1 - i, firstErr);
        var ok := Rename(Change(c.to, c.from), refusals[|applied| - 1 - i]);
        if !ok {
          if firstErr.None? {
            firstErr := Some(c.to);
          }
          continue;
        }
        undone := undone + [c];
      }
      UndoEnds(old(files), applied, refusals, files, undone);
    }
  }

  // The error reported after n steps is that of the first one that failed, by the path it was to move.
  ghost predicate FirstFailure(fs: Fs, steps: seq<Change>, refusals: seq<bool>, n: nat, firstErr: Option<Path>)
    requires n <= |steps| == |refusals|
  {
    match firstErr
    case None => forall k :: 0 <= k < n ==> !StepFails(fs, steps, refusals, k)
    case Some(p) =>
      exists k :: 0 <= k < n && StepFails(fs, steps, refusals, k) && steps[k].from == p &&
                  forall l :: 0 <= l < k ==> !StepFails(fs, steps, refusals, l)
  }

  // The k-th step is refused, or finds its file missing or a folder in the way where the run stands.
  ghost predicate StepFails(fs: Fs, steps: seq<Change>, refusals: seq<bool>, k: nat)
    requires |refusals| == |steps| && k < |steps|
  {
    var now := GuardedRun(fs, steps[..k], refusals[..k], Blocked).fs;
    refusals[k] || steps[k].from !in now || Blocked(now, steps[k])
  }

  lemma CarryStarts(fs: Fs, steps: seq<Change>, refusals: seq<bool>)
    requires |refusals| == |steps|
    ensures GuardedRun(fs, steps[..0], refusals[..0], Blocked) == Outcome(fs, [])
    ensures FirstFailure(fs, steps, refusals, 0, None)
  {
  }

  lemma FailureNext(fs: Fs, steps: seq<Change>, refusals: seq<bool>, k: nat, firstErr: Option<Path>)
    requires k < |steps| == |refusals| && FirstFailure(fs, steps, refusals, k, firstErr)
    ensures var now := GuardedRun(fs, steps[..k], refusals[..k], Blocked).fs;
            var fails := refusals[k] || steps[k].from !in now || Blocked(now, steps[k]);
            FirstFailure(fs, steps, refusals, k + 1,
              if firstErr.None? && fails then Some(steps[k].from) else firstErr)
  {
    assert StepFails(fs, steps, refusals, k) == (var now := GuardedRun(fs, steps[..k], refusals[..k], Blocked).fs;
                                                refusals[k] || steps[k].from !in now || Blocked(now, steps[k]));
    hide StepFails;
  }

  // After k reversals.
  ghost predicate UndoState(fs: Fs, applied: seq<Change>, refusals: seq<bool>, k: nat, now: Fs, undone: seq<Change>) {
    && k <= |applied| == |refusals|
    && Outcome(now, Flipped(undone)) == GuardedRun(fs, Reversed(applied)[..k], refusals[..k], Blocked)
  }

  lemma UndoRuns(fs: Fs, applied: seq<Change>, refusals: seq<bool>, k: nat, now: Fs, undone: seq<Change>)
    requires UndoState(fs, applied, refusals, k, now, undone) && k < |applied|
    ensures var back := Reversed(applied);
            && k < |back| == |refusals| && now == GuardedRun(fs, back[..k], refusals[..k], Blocked).fs
            && back[k] == (var c := applied[|applied| - 1 - k]; Change(c.to, c.from))
  {
  }

  lemma UndoStarts(fs: Fs, applied: seq<Change>, refusals: seq<bool>)
    requires |refusals| == |applied|
    ensures UndoState(fs, applied, refusals, 0, fs, [])
  {
  }

  lemma UndoNext(fs: Fs, applied: seq<Change>, refusals: seq<bool>, k: nat, now: Fs, undone: seq<Change>)
    requires UndoState(fs, applied, refusals, k, now, undone) && k < |applied|
    ensures var c := applied[|applied| - 1 - k];
            var back := Change(c.to, c.from);
            if refusals[k] || back.from !in now || Blocked(now, back)
                then UndoState(fs, applied, refusals, k + 1, now, undone)
            else UndoState(fs, applied, refusals, k + 1, Moved(now, back), undone + [c])
  {
    hide GuardedRun, Blocked, Moved;
    GuardedNext(fs, Reversed(applied), refusals, Blocked, k);
    FlippedAppend(undone, applied[|applied| - 1 - k]);
  }

  lemma UndoEnds(fs: Fs, applied: seq<Change>, refusals: seq<bool>, now: Fs, undone: seq<Change>)
    requires UndoState(fs, applied, refusals, |applied|, now, undone)
    ensures Outcome(now, Flipped(undone)) == GuardedRun(fs, Reversed(applied), refusals, Blocked)
  {
    assert Reversed(applied)[..|applied|] == Reversed(applied) && refusals[..|applied|] == refusals;
  }

  lemma FlippedAppend(cs: seq<Change>, c: Change)
    ensures Flipped(cs + [c]) == Flipped(cs) + [Flip(c)]
  {
  }

  function Flipped(cs: seq<Change>): (r: seq<Change>)
    ensures |r| == |cs|
  {
    seq(|cs|, i requires 0 <= i < |cs| => Flip(cs[i]))
  }

  lemma AllScheduled(cs: seq<Change>, temps: seq<Path>, order: seq<nat>, staged: seq<nat>, steps: seq<Change>)
    requires Scheduled(cs, temps, order, staged) && |order| == |cs| && |steps| == |order| + |staged|
    requires Emitted(cs, temps, order, staged, steps[..|order|], steps[|order|..])
    ensures ScheduleOf(cs, temps, order, staged, steps)
  {
    EveryIndex(order, |cs|);
  }

  // What one Apply does to a valid batch, with and without refusals.
  lemma ApplySummary(fs: Fs, cs: seq<Change>, temps: seq<Path>, order: seq<nat>, staged: seq<nat>, steps: seq<Change>,
      refusals: seq<bool>)
    requires ScheduleOf(cs, temps, order, staged, steps) && |refusals| == |steps|
    ensures ValidBatch(fs, cs) && FreshTemps(fs, cs, temps) ==>
              && (refusals == NoFaults(|steps|) ==>
                    GuardedRun(fs, steps, refusals, Blocked) == Outcome(Simultaneous(fs, cs), steps))
              && (Contents(GuardedRun(fs, steps, refusals, Blocked).fs) == Contents(fs) <==>
                    !Overrun(cs, order, staged, Failing(fs, steps, refusals, Blocked)))
              && (!FileOntoFile(fs, cs) ==> Contents(GuardedRun(fs, steps, refusals, Blocked).fs) == Contents(fs))
  {
    if ValidBatch(fs, cs) && FreshTemps(fs, cs, temps) {
      assert forall g, c :: Blocked(g, c) ==> c.to in g;
      ScheduleRefines(fs, cs, temps, order, staged, steps);
      OsFaultsExactly(fs, cs, temps, order, staged, steps, refusals);
      if !FileOntoFile(fs, cs) {
        SafeRun(fs, cs, temps, order, staged, steps, refusals);
      }
      if refusals == NoFaults(|steps|) {
        UnguardedRun(fs, steps, Blocked);
      }
    }
  }
}
