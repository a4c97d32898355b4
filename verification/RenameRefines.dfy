// The schedule refines the simultaneous renaming.
module RenameRefines {
  import opened Wrappers
  import opened Rename
  import opened RenameOrder

  // What Plan hands to Order: everything exists, nothing is claimed twice, and every
  // destination is free or about to be vacated.
  ghost predicate ValidBatch(fs: Fs, cs: seq<Change>) {
    && Sources(cs) <= fs.Keys && DistinctSources(cs) && DistinctTargets(cs)
    && (forall i :: 0 <= i < |cs| ==> cs[i].from != cs[i].to)
    && (forall i :: 0 <= i < |cs| ==> cs[i].to !in fs || cs[i].to in Sources(cs))
  }

  // Temporary names collide with nothing.
  ghost predicate FreshTemps(fs: Fs, cs: seq<Change>, temps: seq<Path>) {
    && (forall m :: 0 <= m < |temps| ==> temps[m] !in fs && temps[m] !in Targets(cs))
    && (forall m, l :: 0 <= m < l < |temps| ==> temps[m] != temps[l])
  }

  ghost predicate ScheduleOf(cs: seq<Change>, temps: seq<Path>, order: seq<nat>, staged: seq<nat>, steps: seq<Change>) {
    && Scheduled(cs, temps, order, staged) && |order| == |cs| && |steps| == |order| + |staged|
    && (forall i: nat :: i < |cs| ==> i in order)
    && Emitted(cs, temps, order, staged, steps[..|order|], steps[|order|..])
  }

  lemma WaitsForSource(cs: seq<Change>, i: nat, j: nat)
    requires DistinctSources(cs) && i < |cs| && j < |cs| && i != j && cs[i].to == cs[j].from
    ensures Waits(cs, i) == j
  {
    assert cs[j].from in Sources(cs);
  }

  lemma SimultaneousAt(fs: Fs, cs: seq<Change>, k: nat)
    requires Sources(cs) <= fs.Keys && DistinctTargets(cs) && k < |cs|
    ensures cs[k].to in Simultaneous(fs, cs) && Simultaneous(fs, cs)[cs[k].to] == fs[cs[k].from]
  {
    assert cs[k].to in Targets(cs);
    UniqueClaimant(cs, cs[k].to);
  }

  lemma MainSteps(cs: seq<Change>, temps: seq<Path>, order: seq<nat>, staged: seq<nat>, steps: seq<Change>, k: nat)
    requires ScheduleOf(cs, temps, order, staged, steps) && k < |order|
    ensures |staged| <= |temps| && order[k] < |cs| && steps[k] == FirstHalf(cs, temps, staged, order[k])
    ensures forall l :: 0 <= l < k ==> order[l] != order[k]
    ensures order[k] !in staged ==> WaitedFor(cs, order, k)
  {
    assert steps[..|order|][k] == steps[k];
  }

  lemma HalfGoes(fs: Fs, cs: seq<Change>, temps: seq<Path>, staged: seq<nat>, i: nat)
    requires ValidBatch(fs, cs) && i < |cs| && |staged| <= |temps|
    ensures var h := FirstHalf(cs, temps, staged, i);
            && h.from == cs[i].from && h.from in fs && cs[i].to in Targets(cs)
            && (i !in staged ==> h.to == cs[i].to)
            && (i in staged ==> h.to == temps[Position(staged, i)])
  {
    assert cs[i] in cs;
  }

  // An earlier first step starts and lands elsewhere, and not where a later one starts.
  lemma StepsDiffer(fs: Fs, cs: seq<Change>, temps: seq<Path>, order: seq<nat>, staged: seq<nat>,
      steps: seq<Change>, l: nat, k: nat)
    requires ValidBatch(fs, cs) && FreshTemps(fs, cs, temps) && ScheduleOf(cs, temps, order, staged, steps)
    requires l < k < |order|
    ensures steps[l].from != steps[k].from && steps[l].to != steps[k].to && steps[k].from != steps[l].to
  {
    hide FirstHalf, Position, Waits, LastSource, Scheduled, Emitted, ScheduleOf;
    var o, i := order[l], order[k];
    MainSteps(cs, temps, order, staged, steps, l);
    MainSteps(cs, temps, order, staged, steps, k);
    HalfGoes(fs, cs, temps, staged, o);
    HalfGoes(fs, cs, temps, staged, i);
    if o !in staged && cs[o].to == cs[i].from {
      WaitsForSource(cs, o, i);
    }
  }

  // Where the k-th started change goes first.
  lemma FirstStep(fs: Fs, cs: seq<Change>, temps: seq<Path>, order: seq<nat>, staged: seq<nat>,
      steps: seq<Change>, k: nat)
    requires ValidBatch(fs, cs) && FreshTemps(fs, cs, temps) && ScheduleOf(cs, temps, order, staged, steps)
    requires k < |order|
    ensures steps[k].from == cs[order[k]].from && steps[k].from in fs
    ensures order[k] !in staged ==> steps[k].to == cs[order[k]].to
    ensures order[k] in staged ==> steps[k].to == temps[Position(staged, order[k])] && steps[k].to !in fs
    ensures forall l :: 0 <= l < k ==> steps[l].from != steps[k].from && steps[l].to != steps[k].to
    ensures forall l :: 0 <= l < k ==> steps[k].from != steps[l].to
    ensures steps[k].to in fs ==> exists l :: 0 <= l < k && steps[l].from == steps[k].to
  {
    hide FirstHalf, Position, Waits, LastSource, Scheduled, Emitted, ScheduleOf;
    ScheduleLength(cs, temps, order, staged, steps);
    var i := order[k];
    MainSteps(cs, temps, order, staged, steps, k);
    HalfGoes(fs, cs, temps, staged, i);
    forall l | 0 <= l < k
      ensures steps[l].from != steps[k].from && steps[l].to != steps[k].to && steps[k].from != steps[l].to
    {
      StepsDiffer(fs, cs, temps, order, staged, steps, l, k);
    }
    if i !in staged && cs[i].to in fs {
      var c :| c in cs && c.from == cs[i].to;
      var j: nat :| j < |cs| && cs[j] == c;
      WaitsForSource(cs, i, j);
      assert WaitedFor(cs, order, k);
      var l :| 0 <= l < k && order[..k][l] == j;
      MainSteps(cs, temps, order, staged, steps, l);
      HalfGoes(fs, cs, temps, staged, j);
    }
  }

  lemma FirstHalvesSerial(fs: Fs, cs: seq<Change>, temps: seq<Path>, order: seq<nat>, staged: seq<nat>,
        steps: seq<Change>)
    requires ValidBatch(fs, cs) && FreshTemps(fs, cs, temps) && ScheduleOf(cs, temps, order, staged, steps)
    ensures Serial(fs, steps[..|order|])
    ensures Sources(steps[..|order|]) == Sources(cs)
  {
    var main := steps[..|order|];
    forall k | 0 <= k < |main|
      ensures main[k].from in fs && main[k].from in Sources(cs)
      ensures forall l :: 0 <= l < k ==> main[l].from != main[k].from && main[l].to != main[k].to
      ensures main[k].from !in Targets(main[..k])
      ensures main[k].to !in fs || main[k].to in Sources(main[..k])
    {
      FirstStep(fs, cs, temps, order, staged, steps, k);
      if main[k].to in fs {
        var l :| 0 <= l < k && steps[l].from == steps[k].to;
        assert main[..k][l] == steps[l];
      }
    }
    forall i: nat | i < |cs| ensures cs[i].from in Sources(main) {
      assert i in order;
      var k: nat :| k < |order| && order[k] == i;
      assert main[k].from == cs[i].from && main[k] in main;
    }
  }

  // Where each change's content is once all first halves are done.
  lemma AfterFirstHalves(fs: Fs, cs: seq<Change>, temps: seq<Path>, order: seq<nat>, staged: seq<nat>,
        steps: seq<Change>, i: nat)
    requires ValidBatch(fs, cs) && FreshTemps(fs, cs, temps) && ScheduleOf(cs, temps, order, staged, steps)
    requires i < |cs| && Serial(fs, steps[..|order|])
    ensures var h := FirstHalf(cs, temps, staged, i);
            h in steps[..|order|] &&
            h.to in Simultaneous(fs, steps[..|order|]) &&
            Simultaneous(fs, steps[..|order|])[h.to] == fs[cs[i].from]
  {
    assert i in order;
    var k: nat :| k < |order| && order[k] == i;
    assert steps[..|order|][k] == FirstHalf(cs, temps, staged, order[k]);
    SimultaneousAt(fs, steps[..|order|], k);
  }

  lemma SecondHalvesSerial(fs: Fs, cs: seq<Change>, temps: seq<Path>, order: seq<nat>, staged: seq<nat>,
        steps: seq<Change>)
    requires ValidBatch(fs, cs) && FreshTemps(fs, cs, temps) && ScheduleOf(cs, temps, order, staged, steps)
    requires Serial(fs, steps[..|order|]) && Sources(steps[..|order|]) == Sources(cs)
    ensures Serial(Simultaneous(fs, steps[..|order|]), steps[|order|..])
  {
    var main, finals := steps[..|order|], steps[|order|..];
    var g := Simultaneous(fs, main);
    forall m | 0 <= m < |finals|
      ensures finals[m].from in g && finals[m].to !in g
      ensures finals[m].from !in Targets(finals[..m])
      ensures forall l :: 0 <= l < m ==> finals[l].from != finals[m].from && finals[l].to != finals[m].to
    {
      var i := staged[m];
      assert cs[i].to in Targets(cs) && i in staged;
      AfterFirstHalves(fs, cs, temps, order, staged, steps, i);
      PositionAt(staged, |cs|, m);
      forall k | 0 <= k < |main| ensures main[k].to != cs[i].to {
        FirstStep(fs, cs, temps, order, staged, steps, k);
        assert i != order[k] ==> cs[order[k]].to != cs[i].to;
      }
      forall l | 0 <= l < m ensures finals[l].from != finals[m].from && finals[l].to != finals[m].to
          && finals[l].to != finals[m].from {
        assert cs[staged[l]].to in Targets(cs);
      }
    }
  }

  lemma {:induction false} PositionAt(staged: seq<nat>, n: nat, m: nat)
    requires Distinct(staged, n) && m < |staged|
    ensures Position(staged, staged[m]) == m
  {
  }

  // Started in the order of the schedule, one by one, every step finds its source present and
  // its destination free, and the whole run is the simultaneous renaming; no temporary is left.
  lemma ScheduleRefines(fs: Fs, cs: seq<Change>, temps: seq<Path>, order: seq<nat>, staged: seq<nat>,
        steps: seq<Change>)
    requires ValidBatch(fs, cs) && FreshTemps(fs, cs, temps) && ScheduleOf(cs, temps, order, staged, steps)
    ensures Run(fs, steps) == Some(Simultaneous(fs, cs))
    ensures forall m :: 0 <= m < |temps| ==> temps[m] !in Simultaneous(fs, cs)
  {
    hide *;
    NoTemporaries(fs, cs, temps);
    ScheduleLength(cs, temps, order, staged, steps);
    var main, finals := steps[..|order|], steps[|order|..];
    FirstHalvesSerial(fs, cs, temps, order, staged, steps);
    SecondHalvesSerial(fs, cs, temps, order, staged, steps);
    SerialRun(fs, main);
    var g := Simultaneous(fs, main);
    SerialRun(g, finals);
    assert steps == main + finals;
    RunAppend(fs, main, finals);
    HalvesCompose(fs, cs, temps, order, staged, steps);
  }

  lemma NoTemporaries(fs: Fs, cs: seq<Change>, temps: seq<Path>)
    requires ValidBatch(fs, cs) && FreshTemps(fs, cs, temps)
    ensures forall m :: 0 <= m < |temps| ==> temps[m] !in Simultaneous(fs, cs)
  {
  }

  lemma ScheduleLength(cs: seq<Change>, temps: seq<Path>, order: seq<nat>, staged: seq<nat>, steps: seq<Change>)
    requires ScheduleOf(cs, temps, order, staged, steps)
    ensures |order| <= |steps|
  {
  }

  lemma HalvesCompose(fs: Fs, cs: seq<Change>, temps: seq<Path>, order: seq<nat>, staged: seq<nat>, steps: seq<Change>)
    requires ValidBatch(fs, cs) && FreshTemps(fs, cs, temps) && ScheduleOf(cs, temps, order, staged, steps)
    requires Serial(fs, steps[..|order|]) && Sources(steps[..|order|]) == Sources(cs)
    requires Serial(Simultaneous(fs, steps[..|order|]), steps[|order|..])
    ensures Simultaneous(Simultaneous(fs, steps[..|order|]), steps[|order|..]) == Simultaneous(fs, cs)
  {
    SourcesThere(fs, cs, temps, order, staged, steps);
    hide Serial, ScheduleOf, ValidBatch, FreshTemps, Claimant;
    var main, finals := steps[..|order|], steps[|order|..];
    var g := Simultaneous(fs, main);
    var whole, halves := Simultaneous(fs, cs), Simultaneous(g, finals);
    forall p | p in whole ensures p in halves && halves[p] == whole[p] {
      if p in Targets(cs) {
        var c :| c in cs && c.to == p;
        var i: nat :| i < |cs| && cs[i] == c;
        TargetComposes(fs, cs, temps, order, staged, steps, i);
      } else {
        Untouched(fs, cs, temps, order, staged, steps, p);
      }
    }
    forall p | p in halves ensures p in whole {
      OnlyWhole(fs, cs, temps, order, staged, steps, p);
    }
  }

  lemma SourcesThere(fs: Fs, cs: seq<Change>, temps: seq<Path>, order: seq<nat>, staged: seq<nat>, steps: seq<Change>)
    requires ValidBatch(fs, cs) && ScheduleOf(cs, temps, order, staged, steps)
    requires Serial(fs, steps[..|order|]) && Serial(Simultaneous(fs, steps[..|order|]), steps[|order|..])
    ensures |order| <= |steps| && Sources(cs) <= fs.Keys && Sources(steps[..|order|]) <= fs.Keys
    ensures Sources(steps[|order|..]) <= Simultaneous(fs, steps[..|order|]).Keys
  {
    hide Simultaneous;
  }

  lemma TargetComposes(fs: Fs, cs: seq<Change>, temps: seq<Path>, order: seq<nat>, staged: seq<nat>,
        steps: seq<Change>, i: nat)
    requires ValidBatch(fs, cs) && FreshTemps(fs, cs, temps) && ScheduleOf(cs, temps, order, staged, steps)
    requires Serial(fs, steps[..|order|])
    requires Serial(Simultaneous(fs, steps[..|order|]), steps[|order|..])
    requires i < |cs|
    ensures var halves := Simultaneous(Simultaneous(fs, steps[..|order|]), steps[|order|..]);
            var whole := Simultaneous(fs, cs);
            cs[i].to in halves && cs[i].to in whole && halves[cs[i].to] == whole[cs[i].to]
  {
    var finals := steps[|order|..];
    SimultaneousAt(fs, cs, i);
    AfterFirstHalves(fs, cs, temps, order, staged, steps, i);
    if i in staged {
      var m := Position(staged, i);
      assert finals[m] == SecondHalf(cs, temps, staged, m);
      SimultaneousAt(Simultaneous(fs, steps[..|order|]), finals, m);
    } else {
      NotASecondHalf(cs, temps, order, staged, steps, i);
    }
  }

  lemma NotASecondHalf(cs: seq<Change>, temps: seq<Path>, order: seq<nat>, staged: seq<nat>, steps: seq<Change>, i: nat)
    requires DistinctTargets(cs) && ScheduleOf(cs, temps, order, staged, steps)
    requires i < |cs| && i !in staged && forall m :: 0 <= m < |temps| ==> temps[m] !in Targets(cs)
    ensures cs[i].to !in Targets(steps[|order|..]) && cs[i].to !in Sources(steps[|order|..])
  {
    var finals := steps[|order|..];
    assert cs[i].to in Targets(cs);
    forall m | 0 <= m < |finals| ensures finals[m].to != cs[i].to && finals[m].from != cs[i].to {
      assert finals[m] == SecondHalf(cs, temps, staged, m);
      assert staged[m] in staged;
    }
  }

  lemma Untouched(fs: Fs, cs: seq<Change>, temps: seq<Path>, order: seq<nat>, staged: seq<nat>,
        steps: seq<Change>, p: Path)
    requires ScheduleOf(cs, temps, order, staged, steps) && FreshTemps(fs, cs, temps)
    requires p in fs && p !in Targets(cs)
    ensures p !in Targets(steps[..|order|]) && p !in Targets(steps[|order|..]) && p !in Sources(steps[|order|..])
  {
    var main, finals := steps[..|order|], steps[|order|..];
    forall k | 0 <= k < |main| ensures main[k].to != p {
      assert main[k] == FirstHalf(cs, temps, staged, order[k]);
      assert cs[order[k]].to in Targets(cs);
    }
    forall m | 0 <= m < |finals| ensures finals[m].to != p && finals[m].from != p {
      assert finals[m] == SecondHalf(cs, temps, staged, m);
      assert cs[staged[m]].to in Targets(cs);
    }
  }

  lemma TemporariesLeave(cs: seq<Change>, temps: seq<Path>, order: seq<nat>, staged: seq<nat>, steps: seq<Change>)
    requires ScheduleOf(cs, temps, order, staged, steps)
    ensures forall k :: 0 <= k < |order| && order[k] in staged ==>
              FirstHalf(cs, temps, staged, order[k]).to in Sources(steps[|order|..])
  {
    var finals := steps[|order|..];
    forall k | 0 <= k < |order| && order[k] in staged
      ensures FirstHalf(cs, temps, staged, order[k]).to in Sources(finals)
    {
      var m := Position(staged, order[k]);
      assert finals[m] == SecondHalf(cs, temps, staged, m) && finals[m] in finals;
    }
  }

  lemma OnlyWhole(fs: Fs, cs: seq<Change>, temps: seq<Path>, order: seq<nat>, staged: seq<nat>,
        steps: seq<Change>, p: Path)
    requires ValidBatch(fs, cs) && FreshTemps(fs, cs, temps) && ScheduleOf(cs, temps, order, staged, steps)
    requires Serial(fs, steps[..|order|]) && Sources(steps[..|order|]) == Sources(cs)
    requires Serial(Simultaneous(fs, steps[..|order|]), steps[|order|..])
    requires p in Simultaneous(Simultaneous(fs, steps[..|order|]), steps[|order|..])
    ensures p in Simultaneous(fs, cs)
  {
    hide Serial, WaitedFor, Position, Claimant;
    var main, finals := steps[..|order|], steps[|order|..];
    TemporariesLeave(cs, temps, order, staged, steps);
    if p in Targets(finals) {
      var c :| c in finals && c.to == p;
      var m: nat :| m < |finals| && finals[m] == c;
      assert c == SecondHalf(cs, temps, staged, m);
      assert cs[staged[m]] in cs;
    } else if p in Targets(main) {
      var c :| c in main && c.to == p;
      var k: nat :| k < |main| && main[k] == c;
      assert c == FirstHalf(cs, temps, staged, order[k]);
      assert cs[order[k]] in cs;
    }
  }
}
