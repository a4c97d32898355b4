// Carrying a schedule out with a rename that replaces an occupied destination, any step of
// which may fail, and taking it back again.
module RenameApply {
  import opened Wrappers
  import opened Rename

  datatype Outcome = Outcome(fs: Fs, applied: seq<Change>)

  // faults[k] says that the k-th rename is refused for a reason of its own.
  function ApplyRun(fs: Fs, steps: seq<Change>, faults: seq<bool>): Outcome
    requires |faults| == |steps|
  {
    if steps == [] then Outcome(fs, [])
    else
      var n := |steps| - 1;
      var r := ApplyRun(fs, steps[..n], faults[..n]);
      if faults[n] || steps[n].from !in r.fs then r
      else Outcome(Moved(r.fs, steps[n]), r.applied + [steps[n]])
  }

  // Undo runs the applied steps backwards, last one first.
  function Reversed(cs: seq<Change>): (r: seq<Change>)
    ensures |r| == |cs|
    ensures forall k :: 0 <= k < |cs| ==> r[k] == Flip(cs[|cs| - 1 - k])
  {
    if cs == [] then [] else [Flip(cs[|cs| - 1])] + Reversed(cs[..|cs| - 1])
  }

  function Flip(c: Change): Change { Change(c.to, c.from) }

  function NoFaults(n: nat): seq<bool> { seq(n, _ => false) }

  ghost function UndoRun(fs: Fs, applied: seq<Change>): Fs {
    ApplyRun(fs, Reversed(applied), NoFaults(|applied|)).fs
  }

  // Where the run stands before the k-th step.
  function After(fs: Fs, steps: seq<Change>, faults: seq<bool>, k: nat): Outcome
    requires |faults| == |steps| && k <= |steps|
  {
    ApplyRun(fs, steps[..k], faults[..k])
  }

  lemma AfterNext(fs: Fs, steps: seq<Change>, faults: seq<bool>, k: nat)
    requires |faults| == |steps| && k < |steps|
    ensures var r := After(fs, steps, faults, k);
            After(fs, steps, faults, k + 1) ==
              if faults[k] || steps[k].from !in r.fs then r
              else Outcome(Moved(r.fs, steps[k]), r.applied + [steps[k]])
  {
    assert steps[..k + 1][..k] == steps[..k] && faults[..k + 1][..k] == faults[..k];
  }

  function Before(fs: Fs, steps: seq<Change>, faults: seq<bool>, k: nat): Fs
    requires |faults| == |steps| && k <= |steps|
  {
    After(fs, steps, faults, k).fs
  }

  predicate Lands(fs: Fs, steps: seq<Change>, faults: seq<bool>, k: nat)
    requires |faults| == |steps| && k < |steps|
  {
    !faults[k] && steps[k].from in Before(fs, steps, faults, k)
  }

  // No rename that goes through replaces anything.
  ghost predicate ClobberFree(fs: Fs, steps: seq<Change>, faults: seq<bool>)
    requires |faults| == |steps|
  {
    forall k :: 0 <= k < |steps| && Lands(fs, steps, faults, k) ==> steps[k].to !in Before(fs, steps, faults, k)
  }

  ghost predicate NoSelf(steps: seq<Change>) {
    forall k :: 0 <= k < |steps| ==> steps[k].from != steps[k].to
  }

  lemma NextState(fs: Fs, steps: seq<Change>, faults: seq<bool>, k: nat)
    requires |faults| == |steps| && k < |steps|
    ensures Lands(fs, steps, faults, k) ==>
              Before(fs, steps, faults, k + 1) == Moved(Before(fs, steps, faults, k), steps[k])
    ensures !Lands(fs, steps, faults, k) ==> Before(fs, steps, faults, k + 1) == Before(fs, steps, faults, k)
  {
    AfterNext(fs, steps, faults, k);
  }

  // Which names exist before step k: those put there and not taken since, and the untouched originals.
  lemma {:induction false} PresentBefore(fs: Fs, steps: seq<Change>, faults: seq<bool>, k: nat, p: Path)
    requires |faults| == |steps| && k <= |steps|
    ensures p in Before(fs, steps, faults, k) <==>
              PutThere(fs, steps, faults, k, p) || LeftAlone(fs, steps, faults, k, p)
  {
    if k > 0 {
      PresentBefore(fs, steps, faults, k - 1, p);
      NextState(fs, steps, faults, k - 1);
      PutThereNext(fs, steps, faults, k - 1, p);
      LeftAloneNext(fs, steps, faults, k - 1, p);
      hide PutThere, LeftAlone, Lands, Before;
    }
  }

  lemma LeftAloneNext(fs: Fs, steps: seq<Change>, faults: seq<bool>, k: nat, p: Path)
    requires |faults| == |steps| && k < |steps|
    ensures LeftAlone(fs, steps, faults, k + 1, p) <==>
              LeftAlone(fs, steps, faults, k, p) &&
              (Lands(fs, steps, faults, k) ==> steps[k].from != p && steps[k].to != p)
    ensures Lands(fs, steps, faults, k) ==> steps[k].from in Before(fs, steps, faults, k)
  {
    hide Before;
  }

  lemma PutThereNext(fs: Fs, steps: seq<Change>, faults: seq<bool>, k: nat, p: Path)
    requires |faults| == |steps| && k < |steps|
    ensures PutThere(fs, steps, faults, k + 1, p) <==>
              if !Lands(fs, steps, faults, k) then PutThere(fs, steps, faults, k, p)
              else steps[k].to == p || (steps[k].from != p && PutThere(fs, steps, faults, k, p))
  {
    if Lands(fs, steps, faults, k) && steps[k].to == p {
      assert PutAt(fs, steps, faults, k + 1, p, k);
    } else {
      PutThereOld(fs, steps, faults, k, p);
    }
  }

  lemma PutThereOld(fs: Fs, steps: seq<Change>, faults: seq<bool>, k: nat, p: Path)
    requires |faults| == |steps| && k < |steps|
    requires Lands(fs, steps, faults, k) ==> steps[k].to != p
    ensures PutThere(fs, steps, faults, k + 1, p) <==>
              (Lands(fs, steps, faults, k) ==> steps[k].from != p) && PutThere(fs, steps, faults, k, p)
  {
    hide Lands;
    if PutThere(fs, steps, faults, k + 1, p) {
      var a: nat :| a < k + 1 && PutAt(fs, steps, faults, k + 1, p, a);
      assert PutAt(fs, steps, faults, k, p, a);
    }
    if (Lands(fs, steps, faults, k) ==> steps[k].from != p) && PutThere(fs, steps, faults, k, p) {
      var a: nat :| a < k && PutAt(fs, steps, faults, k, p, a);
      assert PutAt(fs, steps, faults, k + 1, p, a);
    }
  }

  ghost predicate PutAt(fs: Fs, steps: seq<Change>, faults: seq<bool>, k: nat, p: Path, a: nat)
    requires |faults| == |steps| && k <= |steps| && a < k
  {
    && Lands(fs, steps, faults, a) && steps[a].to == p
    && (forall b :: a < b < k && Lands(fs, steps, faults, b) ==> steps[b].from != p)
  }

  ghost predicate PutThere(fs: Fs, steps: seq<Change>, faults: seq<bool>, k: nat, p: Path)
    requires |faults| == |steps| && k <= |steps|
  {
    exists a: nat :: a < k && PutAt(fs, steps, faults, k, p, a)
  }

  ghost predicate LeftAlone(fs: Fs, steps: seq<Change>, faults: seq<bool>, k: nat, p: Path)
    requires |faults| == |steps| && k <= |steps|
  {
    && p in fs
    && (forall c :: 0 <= c < k && Lands(fs, steps, faults, c) ==> steps[c].from != p && steps[c].to != p)
  }

  // ---- Contents and undo, for any list of steps ----

  ghost predicate CleanBefore(fs: Fs, steps: seq<Change>, faults: seq<bool>, k: nat)
    requires |faults| == |steps| && k <= |steps|
  {
    forall l :: 0 <= l < k && Lands(fs, steps, faults, l) ==> steps[l].to !in Before(fs, steps, faults, l)
  }

  lemma CleanNext(fs: Fs, steps: seq<Change>, faults: seq<bool>, k: nat)
    requires |faults| == |steps| && k < |steps| && NoSelf(steps)
    ensures var g, h := Before(fs, steps, faults, k), Before(fs, steps, faults, k + 1);
            if CleanBefore(fs, steps, faults, k + 1)
            then CleanBefore(fs, steps, faults, k) && |h| == |g| && Contents(h) == Contents(g)
            else |h| <= |g| && (CleanBefore(fs, steps, faults, k) ==> |h| < |g|)
  {
    NextState(fs, steps, faults, k);
    if Lands(fs, steps, faults, k) {
      OneMove(Before(fs, steps, faults, k), steps[k]);
    }
  }

  lemma {:induction false} NeverMore(fs: Fs, steps: seq<Change>, faults: seq<bool>, k: nat)
    requires |faults| == |steps| && k <= |steps| && NoSelf(steps)
    ensures var h := Before(fs, steps, faults, k);
            if CleanBefore(fs, steps, faults, k) then |h| == |fs| && Contents(h) == Contents(fs) else |h| < |fs|
  {
    if k > 0 {
      NeverMore(fs, steps, faults, k - 1);
      CleanNext(fs, steps, faults, k - 1);
    }
  }

  lemma OneMove(g: Fs, c: Change)
    requires c.from in g && c.from != c.to
    ensures |Moved(g, c)| == if c.to in g then |g| - 1 else |g|
    ensures c.to !in g ==> Contents(Moved(g, c)) == Contents(g)
  {
    MovedSize(g, c);
    if c.to !in g {
      MovedToFree(g, c);
    }
  }

  // Content survives exactly when nothing was replaced.
  lemma ContentsKept(fs: Fs, steps: seq<Change>, faults: seq<bool>)
    requires |faults| == |steps| && NoSelf(steps)
    ensures ClobberFree(fs, steps, faults) <==> Contents(ApplyRun(fs, steps, faults).fs) == Contents(fs)
  {
    var n := |steps|;
    assert steps[..n] == steps && faults[..n] == faults;
    NeverMore(fs, steps, faults, n);
    ContentsSize(fs);
    ContentsSize(ApplyRun(fs, steps, faults).fs);
  }

  lemma ClobberFreeInit(fs: Fs, steps: seq<Change>, faults: seq<bool>)
    requires |faults| == |steps| && steps != [] && ClobberFree(fs, steps, faults)
    ensures ClobberFree(fs, steps[..|steps| - 1], faults[..|steps| - 1])
  {
    var n := |steps| - 1;
    forall k | 0 <= k < n && Lands(fs, steps[..n], faults[..n], k)
      ensures steps[k].to !in Before(fs, steps[..n], faults[..n], k)
    {
      assert steps[..n][..k] == steps[..k] && faults[..n][..k] == faults[..k];
      assert Lands(fs, steps, faults, k);
    }
  }

  // In a run that replaces nothing, every step can be taken back onto a free name.
  lemma {:induction false} UndoIsRun(fs: Fs, steps: seq<Change>, faults: seq<bool>)
    requires |faults| == |steps| && ClobberFree(fs, steps, faults)
    ensures var r := ApplyRun(fs, steps, faults); Run(r.fs, Reversed(r.applied)) == Some(fs)
  {
    if steps != [] {
      var n := |steps| - 1;
      ClobberFreeInit(fs, steps, faults);
      UndoIsRun(fs, steps[..n], faults[..n]);
      var r := ApplyRun(fs, steps[..n], faults[..n]);
      if Lands(fs, steps, faults, n) {
        BackFirst(r.fs, r.applied, steps[n]);
      }
    }
  }

  lemma BackFirst(fs: Fs, applied: seq<Change>, c: Change)
    requires c.from in fs && c.to !in fs
    ensures Run(Moved(fs, c), Reversed(applied + [c])) == Run(fs, Reversed(applied))
  {
    MovedToFree(fs, c);
    assert (applied + [c])[..|applied|] == applied;
    assert [Flip(c)][..0] == [];
    RunAppend(Moved(fs, c), [Flip(c)], Reversed(applied));
  }

  // A run in which every step finds its source present and its destination free is carried out in full.
  lemma {:induction false} NoFaultRun(fs: Fs, steps: seq<Change>, faults: seq<bool>)
    requires |faults| == |steps| && (forall k :: 0 <= k < |faults| ==> !faults[k])
    requires Run(fs, steps).Some?
    ensures ApplyRun(fs, steps, faults) == Outcome(Run(fs, steps).value, steps)
  {
    if steps != [] {
      var n := |steps| - 1;
      NoFaultRun(fs, steps[..n], faults[..n]);
      assert steps[..n] + [steps[n]] == steps;
    }
  }

  // Undo restores the original exactly when nothing was replaced.
  lemma UndoRestores(fs: Fs, steps: seq<Change>, faults: seq<bool>)
    requires |faults| == |steps| && NoSelf(steps)
    ensures var r := ApplyRun(fs, steps, faults);
            UndoRun(r.fs, r.applied) == fs <==> ClobberFree(fs, steps, faults)
  {
    var r := ApplyRun(fs, steps, faults);
    if ClobberFree(fs, steps, faults) {
      UndoIsRun(fs, steps, faults);
      NoFaultRun(r.fs, Reversed(r.applied), NoFaults(|r.applied|));
    } else {
      AppliedMove(fs, steps, faults);
      ClobberShrinks(fs, steps, faults);
      RunNeverMore(r.fs, Reversed(r.applied), NoFaults(|r.applied|));
    }
  }

  lemma {:induction false} AppliedMove(fs: Fs, steps: seq<Change>, faults: seq<bool>)
    requires |faults| == |steps| && NoSelf(steps)
    ensures NoSelf(ApplyRun(fs, steps, faults).applied)
  {
    if steps != [] {
      AppliedMove(fs, steps[..|steps| - 1], faults[..|steps| - 1]);
    }
  }

  lemma RunNeverMore(fs: Fs, steps: seq<Change>, faults: seq<bool>)
    requires |faults| == |steps| && NoSelf(steps)
    ensures |ApplyRun(fs, steps, faults).fs| <= |fs|
  {
    assert steps[..|steps|] == steps && faults[..|steps|] == faults;
    NeverMore(fs, steps, faults, |steps|);
  }

  lemma ClobberShrinks(fs: Fs, steps: seq<Change>, faults: seq<bool>)
    requires |faults| == |steps| && NoSelf(steps) && !ClobberFree(fs, steps, faults)
    ensures |ApplyRun(fs, steps, faults).fs| < |fs|
  {
    assert steps[..|steps|] == steps && faults[..|steps|] == faults;
    NeverMore(fs, steps, faults, |steps|);
  }
}
