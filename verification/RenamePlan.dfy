// Which of the proposed renames can be carried out at all.
module RenamePlan {
  import opened Wrappers
  import opened Rename
  import opened RenameRefines

  // What lies on disk: every existing path and the identity of the file it names.
  type Listing = map<Path, int>

  datatype Reason = BadRule | EmptyName | SharedTarget(owner: Path) | WouldOverwrite(occupied: Path)
  datatype Problem = Problem(path: Path, reason: Reason)

  // What the rename rules say about one path.
  datatype Proposal = Refused | NewName(name: string)

  // The destination is free, or names the very same file as the source.
  predicate Free(disk: Listing, c: Change) {
    c.to !in disk || (c.from in disk && disk[c.from] == disk[c.to])
  }

  predicate Stays(disk: Listing, c: Change, moving: set<Path>) {
    !Free(disk, c) && c.to !in moving
  }

  function ChangeSet(cs: seq<Change>): set<Change> { set c | c in cs }

  // The sources all of whose changes are chosen: what will have moved away.
  function Vacated(cs: seq<Change>, s: set<Change>): set<Path> {
    set p | p in Sources(cs) && forall d :: d in cs && d.from == p ==> d in s
  }

  // Every destination is free, or is itself vacated by the choice.
  ghost predicate Settled(disk: Listing, cs: seq<Change>, s: set<Change>) {
    forall c :: c in s ==> !Stays(disk, c, Vacated(cs, s))
  }

  // The candidates that belong to a choice, in order.
  function Chosen(cs: seq<Change>, s: set<Change>): (r: seq<Change>)
    ensures forall c :: c in r <==> c in cs && c in s
    ensures |r| <= |cs|
  {
    if cs == [] then []
    else
      var r := Chosen(cs[..|cs| - 1], s);
      if cs[|cs| - 1] in s then r + [cs[|cs| - 1]] else r
  }

  lemma {:induction false} ChosenSame(cs: seq<Change>, s: set<Change>, t: set<Change>)
    requires forall c :: c in cs ==> (c in s <==> c in t)
    ensures Chosen(cs, s) == Chosen(cs, t)
  {
    if cs != [] {
      ChosenSame(cs[..|cs| - 1], s, t);
    }
  }

  lemma {:induction false} ChosenTwice(cs: seq<Change>, s: set<Change>, t: set<Change>)
    requires t <= s
    ensures Chosen(Chosen(cs, s), t) == Chosen(cs, t)
  {
    if cs != [] {
      var n := |cs| - 1;
      ChosenTwice(cs[..n], s, t);
      if cs[n] in s {
        var r := Chosen(cs[..n], s);
        assert (r + [cs[n]])[..|r|] == r;
      }
    }
  }

  lemma {:induction false} ChosenAll(cs: seq<Change>, s: set<Change>)
    requires forall c :: c in cs ==> c in s
    ensures Chosen(cs, s) == cs
  {
    if cs != [] {
      ChosenAll(cs[..|cs| - 1], s);
    }
  }

  lemma {:induction false} ChosenAt(cs: seq<Change>, s: set<Change>, k: nat) returns (l: nat)
    requires k < |Chosen(cs, s)|
    ensures l < |cs| && cs[l] == Chosen(cs, s)[k] && k <= l
    ensures forall m :: 0 <= m < k ==> Chosen(cs, s)[m] in cs[..l]
  {
    var n := |cs| - 1;
    var r := Chosen(cs[..n], s);
    if k < |r| {
      l := ChosenAt(cs[..n], s, k);
      assert cs[..n][..l] == cs[..l];
    } else {
      l := n;
    }
  }

  lemma ChosenDistinct(cs: seq<Change>, s: set<Change>)
    ensures DistinctSources(cs) ==> DistinctSources(Chosen(cs, s))
    ensures DistinctTargets(cs) ==> DistinctTargets(Chosen(cs, s))
  {
    var r := Chosen(cs, s);
    hide Chosen;
    forall i, j | 0 <= i < j < |r|
      ensures (DistinctSources(cs) ==> r[i].from != r[j].from) && (DistinctTargets(cs) ==> r[i].to != r[j].to)
    {
      var l := ChosenAt(cs, s, j);
      var k :| 0 <= k < l && cs[k] == r[i];
    }
  }

  // No settled choice contains anything that has been dropped.
  ghost predicate KeepsEverySettled(disk: Listing, cs: seq<Change>, kept: set<Change>) {
    forall s: set<Change> :: s <= ChangeSet(cs) && Settled(disk, cs, s) ==> s <= kept
  }

  // Dropping a change whose destination stays occupied loses no settled choice, and its source is
  // not vacated any more.
  lemma DropKeepsSettled(disk: Listing, cs: seq<Change>, kept: set<Change>, c: Change)
    requires c in cs && c in kept && KeepsEverySettled(disk, cs, kept) && Stays(disk, c, Vacated(cs, kept))
    ensures KeepsEverySettled(disk, cs, kept - {c})
    ensures Vacated(cs, kept - {c}) == Vacated(cs, kept) - {c.from}
  {
    forall s: set<Change> | s <= ChangeSet(cs) && Settled(disk, cs, s) ensures c !in s {
      assert s <= kept;
      assert Vacated(cs, s) <= Vacated(cs, kept);
    }
  }

  // Dropping the i-th change leaves the survivors before it as they are.
  lemma DropStep(cur: seq<Change>, i: nat, kept: set<Change>)
    requires DistinctTargets(cur) && i < |cur|
    ensures Chosen(cur[..i + 1], kept - {cur[i]}) == Chosen(cur[..i], kept)
    ensures cur[i] !in cur[i + 1..]
  {
    assert cur[..i + 1][..i] == cur[..i];
    ChosenSame(cur[..i], kept, kept - {cur[i]});
  }

  lemma KeepStep(cur: seq<Change>, i: nat, kept: set<Change>)
    requires i < |cur| && cur[i] in kept
    ensures Chosen(cur[..i + 1], kept) == Chosen(cur[..i], kept) + [cur[i]]
    ensures cur[..i + 1] == cur[..i] + [cur[i]] && cur[i..] == [cur[i]] + cur[i + 1..]
  {
    assert cur[..i + 1][..i] == cur[..i];
  }

  // Where a filtering pass over cur stands after i candidates: out are the survivors so far.
  ghost predicate PassState(disk: Listing, all: seq<Change>, cur: seq<Change>, i: nat, kept0: set<Change>,
      kept: set<Change>, out: seq<Change>, problems: seq<Problem>) {
    && i <= |cur| && kept <= kept0 <= ChangeSet(all)
    && DistinctTargets(cur) && cur == Chosen(all, kept0)
    && out == Chosen(cur[..i], kept) && |out| + |problems| == i
    && (forall c :: c in cur[i..] ==> c in kept)
    && KeepsEverySettled(disk, all, kept)
    && Reported(kept0 - kept, problems)
    && (problems == [] ==> kept == kept0 && NoneStays(disk, all, cur[..i], kept))
  }

  ghost predicate Reported(dropped: set<Change>, problems: seq<Problem>) {
    forall c :: c in dropped ==> Problem(c.from, WouldOverwrite(c.to)) in problems
  }

  ghost predicate NoneStays(disk: Listing, all: seq<Change>, cs: seq<Change>, kept: set<Change>) {
    forall c :: c in cs ==> !Stays(disk, c, Vacated(all, kept))
  }

  lemma PassDrops(disk: Listing, all: seq<Change>, cur: seq<Change>, i: nat, kept0: set<Change>,
      kept: set<Change>, out: seq<Change>, problems: seq<Problem>)
    requires PassState(disk, all, cur, i, kept0, kept, out, problems)
    requires i < |cur| && Stays(disk, cur[i], Vacated(all, kept))
    ensures PassState(disk, all, cur, i + 1, kept0, kept - {cur[i]}, out,
                      problems + [Problem(cur[i].from, WouldOverwrite(cur[i].to))])
    ensures Vacated(all, kept - {cur[i]}) == Vacated(all, kept) - {cur[i].from}
  {
    hide KeepsEverySettled, Stays, Chosen, Vacated, ChangeSet, DistinctTargets, NoneStays;
    var c := cur[i];
    assert c in all && c in cur[i..] && c in kept;
    DropStep(cur, i, kept);
    DropKeepsSettled(disk, all, kept, c);
    assert kept0 - (kept - {c}) <= (kept0 - kept) + {c};
    assert cur[i..] == [c] + cur[i + 1..];
  }

  lemma PassKeeps(disk: Listing, all: seq<Change>, cur: seq<Change>, i: nat, kept0: set<Change>,
      kept: set<Change>, out: seq<Change>, problems: seq<Problem>)
    requires PassState(disk, all, cur, i, kept0, kept, out, problems)
    requires i < |cur| && !Stays(disk, cur[i], Vacated(all, kept))
    ensures PassState(disk, all, cur, i + 1, kept0, kept, out + [cur[i]], problems)
  {
    assert cur[i] in cur[i..];
    hide KeepsEverySettled, Stays, Reported, Chosen, Vacated, DistinctTargets, ChangeSet;
    KeepStep(cur, i, kept);
  }

  lemma PassStarts(disk: Listing, all: seq<Change>, cur: seq<Change>, kept: set<Change>)
    requires DistinctTargets(all) && cur == Chosen(all, kept) && KeepsEverySettled(disk, all, kept)
    requires kept <= ChangeSet(all)
    ensures PassState(disk, all, cur, 0, kept, kept, [], [])
  {
    ChosenDistinct(all, kept);
  }

  // What a finished pass leaves: still every settled choice, and if nothing was dropped, a settled one.
  ghost predicate PassDone(disk: Listing, all: seq<Change>, n: nat, kept0: set<Change>, kept: set<Change>,
      out: seq<Change>, problems: seq<Problem>) {
    && kept <= kept0 <= ChangeSet(all) && KeepsEverySettled(disk, all, kept)
    && out == Chosen(all, kept) && |out| + |problems| == n
    && Reported(kept0 - kept, problems)
    && (problems == [] ==> NoneStays(disk, all, out, kept))
  }

  lemma PassEnds(disk: Listing, all: seq<Change>, cur: seq<Change>, kept0: set<Change>, kept: set<Change>,
      out: seq<Change>, problems: seq<Problem>)
    requires PassState(disk, all, cur, |cur|, kept0, kept, out, problems)
    ensures PassDone(disk, all, |cur|, kept0, kept, out, problems)
  {
    hide KeepsEverySettled, Stays, Vacated, ChangeSet;
    ChosenTwice(all, kept0, kept);
    assert cur[..|cur|] == cur;
  }

  // One filtering pass over candidates[..n]: the survivors end up in candidates[..count], and the
  // source of a dropped candidate stops counting as moving at once, for the rest of the same pass.
  method FilterPass(candidates: array<Change>, n: nat, disk: Listing, moving0: set<Path>, ghost all: seq<Change>,
      ghost kept0: set<Change>)
    returns (count: nat, moving: set<Path>, problems: seq<Problem>, ghost kept: set<Change>)
    requires n <= candidates.Length && moving0 == Vacated(all, kept0)
    requires PassState(disk, all, candidates[..n], 0, kept0, kept0, [], [])
    modifies candidates
    ensures count <= n && moving == Vacated(all, kept)
    ensures PassDone(disk, all, n, kept0, kept, candidates[..count], problems)
  {
    hide *;
    count, moving, problems, kept := 0, moving0, [], kept0;
    ghost var cur, out: seq<Change> := candidates[..n], [];
    for i := 0 to n
      invariant count <= i && candidates[..count] == out
      invariant forall k :: i <= k < n ==> candidates[k] == cur[k]
      invariant PassState(disk, all, cur, i, kept0, kept, out, problems)
      invariant moving == Vacated(all, kept)
    {
      var c := candidates[i];
      if Stays(disk, c, moving) {
        PassDrops(disk, all, cur, i, kept0, kept, out, problems);
        problems := problems + [Problem(c.from, WouldOverwrite(c.to))];
        moving, kept := moving - {c.from}, kept - {c};
        continue;
      }
      PassKeeps(disk, all, cur, i, kept0, kept, out, problems);
      candidates[count] := c;
      count, out := count + 1, out + [c];
    }
    PassEnds(disk, all, cur, kept0, kept, out, problems);
  }

  // kept is the largest settled choice among cs, in the order of cs.
  ghost predicate GreatestSettled(disk: Listing, cs: seq<Change>, kept: seq<Change>) {
    && kept == Chosen(cs, ChangeSet(kept))
    && Settled(disk, cs, ChangeSet(kept))
    && (forall s: set<Change> :: s <= ChangeSet(cs) && Settled(disk, cs, s) ==> s <= ChangeSet(kept))
  }

  // Passes over the candidates until one drops nothing.
  method SettleCollisions(candidates: array<Change>, disk: Listing) returns (count: nat, problems: seq<Problem>)
    requires DistinctTargets(candidates[..])
    modifies candidates
    ensures count <= candidates.Length
    ensures GreatestSettled(disk, old(candidates[..]), candidates[..count])
    ensures count + |problems| == candidates.Length
    ensures Reported(ChangeSet(old(candidates[..])) - ChangeSet(candidates[..count]), problems)
  {
    ghost var all := candidates[..];
    var moving := Sources(candidates[..]);
    ghost var kept := ChangeSet(all);
    count, problems := candidates.Length, [];
    AllMoving(disk, all);
    hide *;
    assert candidates[..count] == all;
    while true
      invariant count <= candidates.Length && count + |problems| == candidates.Length
      invariant PassState(disk, all, candidates[..count], 0, kept, kept, [], [])
      invariant moving == Vacated(all, kept)
      invariant Reported(ChangeSet(all) - kept, problems)
      decreases count
    {
      var before, movingBefore := count, moving;
      ghost var keptBefore := kept;
      var dropped;
      count, moving, dropped, kept := FilterPass(candidates, before, disk, movingBefore, all, keptBefore);
      PassParts(disk, all, before, keptBefore, kept, candidates[..count], dropped);
      MergeReports(ChangeSet(all), keptBefore, kept, problems, dropped);
      problems := problems + dropped;
      if dropped == [] {
        SettledAtEnd(disk, all, kept, candidates[..count]);
        return;
      }
      PassStarts(disk, all, candidates[..count], kept);
    }
  }

  lemma PassParts(disk: Listing, all: seq<Change>, n: nat, kept0: set<Change>, kept: set<Change>,
      out: seq<Change>, problems: seq<Problem>)
    requires PassDone(disk, all, n, kept0, kept, out, problems)
    ensures kept <= kept0 <= ChangeSet(all) && KeepsEverySettled(disk, all, kept)
    ensures out == Chosen(all, kept) && |out| + |problems| == n && Reported(kept0 - kept, problems)
    ensures problems == [] ==> NoneStays(disk, all, out, kept)
  {
  }

  lemma AllMoving(disk: Listing, all: seq<Change>)
    requires DistinctTargets(all)
    ensures PassState(disk, all, all, 0, ChangeSet(all), ChangeSet(all), [], [])
    ensures Vacated(all, ChangeSet(all)) == Sources(all)
    ensures Reported(ChangeSet(all) - ChangeSet(all), []) && DistinctTargets(all)
  {
    ChosenAll(all, ChangeSet(all));
  }

  lemma MergeReports(all: set<Change>, kept0: set<Change>, kept: set<Change>, problems: seq<Problem>,
      dropped: seq<Problem>)
    requires Reported(all - kept0, problems) && Reported(kept0 - kept, dropped)
    ensures Reported(all - kept, problems + dropped)
  {
    forall c | c in all - kept ensures Problem(c.from, WouldOverwrite(c.to)) in problems + dropped {
      if c in kept0 {
        assert c in kept0 - kept;
      } else {
        assert c in all - kept0;
      }
    }
  }

  lemma SettledAtEnd(disk: Listing, all: seq<Change>, kept: set<Change>, out: seq<Change>)
    requires KeepsEverySettled(disk, all, kept) && out == Chosen(all, kept) && kept <= ChangeSet(all)
    requires NoneStays(disk, all, out, kept)
    ensures GreatestSettled(disk, all, out) && ChangeSet(out) == kept
  {
    hide Stays, Vacated;
    assert ChangeSet(out) == kept;
  }

  // ---- Plan ----

  function NewPath(p: Path, name: string): Path { Path(p.dir, name) }

  // The renames worth trying: a changed, non-empty name that no earlier path has claimed.
  function Candidates(paths: seq<Path>, proposals: seq<Proposal>): (cs: seq<Change>)
    requires |paths| == |proposals|
    ensures forall c :: c in cs ==> c.from in paths && c.to.dir == c.from.dir && c.to != c.from
  {
    if paths == [] then []
    else
      var n := |paths| - 1;
      var cs := Candidates(paths[..n], proposals[..n]);
      if Wanted(paths[n], proposals[n]) && NewPath(paths[n], proposals[n].name) !in Targets(cs)
      then cs + [Change(paths[n], NewPath(paths[n], proposals[n].name))] else cs
  }

  predicate Wanted(p: Path, proposal: Proposal) {
    proposal.NewName? && proposal.name != "" && proposal.name != p.name
  }

  lemma {:induction false} CandidatesDistinct(paths: seq<Path>, proposals: seq<Proposal>)
    requires |paths| == |proposals|
    ensures DistinctTargets(Candidates(paths, proposals))
    ensures NoneTwice(paths) ==> DistinctSources(Candidates(paths, proposals))
  {
    if paths != [] {
      var n := |paths| - 1;
      CandidatesDistinct(paths[..n], proposals[..n]);
      var cs := Candidates(paths[..n], proposals[..n]);
      forall c | c in cs && NoneTwice(paths) ensures c.from != paths[n] {
        assert c.from in paths[..n];
      }
    }
  }

  ghost predicate NoneTwice(paths: seq<Path>) { forall i, j :: 0 <= i < j < |paths| ==> paths[i] != paths[j] }

  // The first path that is to get the name q, or |paths| if there is none.
  function FirstToWant(paths: seq<Path>, proposals: seq<Proposal>, q: Path): (k: nat)
    requires |paths| == |proposals|
    ensures k <= |paths|
    ensures k < |paths| ==> Wanted(paths[k], proposals[k]) && NewPath(paths[k], proposals[k].name) == q
    ensures forall l :: 0 <= l < k && Wanted(paths[l], proposals[l]) ==> NewPath(paths[l], proposals[l].name) != q
  {
    if paths == [] then 0
    else
      var n := |paths| - 1;
      var k := FirstToWant(paths[..n], proposals[..n], q);
      if k < n then k
      else if Wanted(paths[n], proposals[n]) && NewPath(paths[n], proposals[n].name) == q then n
      else n + 1
  }

  // Why the i-th path cannot be a candidate, if it cannot: its rule fails, its new name is empty, or
  // an earlier path, the first to want it, has that name.
  function Objection(paths: seq<Path>, proposals: seq<Proposal>, i: nat): Option<Reason>
    requires i < |paths| == |proposals|
  {
    if proposals[i].Refused? then Some(BadRule)
    else if proposals[i].name == "" then Some(EmptyName)
    else if proposals[i].name == paths[i].name then None
    else
      var k := FirstToWant(paths[..i], proposals[..i], NewPath(paths[i], proposals[i].name));
      if k < i then Some(SharedTarget(paths[k])) else None
  }

  // One problem for each path that is objected to, in order.
  function Objections(paths: seq<Path>, proposals: seq<Proposal>): (problems: seq<Problem>)
    requires |paths| == |proposals|
  {
    if paths == [] then []
    else
      var n := |paths| - 1;
      Objections(paths[..n], proposals[..n]) +
      (match Objection(paths, proposals, n) case Some(reason) => [Problem(paths[n], reason)] case None => [])
  }

  // A name is taken exactly when some path wants it.
  lemma {:induction false} TakenExactly(paths: seq<Path>, proposals: seq<Proposal>, q: Path)
    requires |paths| == |proposals|
    ensures q in Targets(Candidates(paths, proposals)) <==> FirstToWant(paths, proposals, q) < |paths|
  {
    if paths != [] {
      var n := |paths| - 1;
      TakenExactly(paths[..n], proposals[..n], q);
      var cs := Candidates(paths[..n], proposals[..n]);
      if Wanted(paths[n], proposals[n]) {
        OneMoreTarget(cs, Change(paths[n], NewPath(paths[n], proposals[n].name)));
      }
    }
  }

  // Every path is a candidate, keeps its name, or is objected to: the i-th one is a candidate exactly
  // when it wants a new name that no earlier path wants.
  lemma {:induction false} CandidateExactly(paths: seq<Path>, proposals: seq<Proposal>, c: Change)
    requires |paths| == |proposals|
    ensures c in Candidates(paths, proposals) <==>
              exists i :: 0 <= i < |paths| && c.from == paths[i] && Claims(paths, proposals, i, c.to)
  {
    if paths != [] {
      var n := |paths| - 1;
      CandidateExactly(paths[..n], proposals[..n], c);
      LastCandidate(paths, proposals, c);
      forall i | 0 <= i < n ensures Claims(paths[..n], proposals[..n], i, c.to) == Claims(paths, proposals, i, c.to) {
        SameClaim(paths, proposals, n, i, c.to);
      }
      hide Candidates, Claims;
    }
  }

  lemma SameClaim(paths: seq<Path>, proposals: seq<Proposal>, n: nat, i: nat, q: Path)
    requires i < n <= |paths| == |proposals|
    ensures Claims(paths[..n], proposals[..n], i, q) == Claims(paths, proposals, i, q)
  {
    assert paths[..n][..i] == paths[..i] && proposals[..n][..i] == proposals[..i];
  }

  lemma LastCandidate(paths: seq<Path>, proposals: seq<Proposal>, c: Change)
    requires 0 < |paths| == |proposals|
    ensures var n := |paths| - 1;
            c in Candidates(paths, proposals) <==>
              c in Candidates(paths[..n], proposals[..n]) || (c.from == paths[n] && Claims(paths, proposals, n, c.to))
  {
    var n := |paths| - 1;
    assert paths[..n + 1] == paths && proposals[..n + 1] == proposals;
    hide *;
    ClaimNext(paths, proposals, n);
    ObjectionPlain(paths, proposals, n);
    LastClaim(paths, proposals, c.to);
  }

  lemma LastClaim(paths: seq<Path>, proposals: seq<Proposal>, q: Path)
    requires 0 < |paths| == |proposals|
    ensures var n := |paths| - 1;
            Claims(paths, proposals, n, q) <==>
              && Wanted(paths[n], proposals[n]) && NewPath(paths[n], proposals[n].name) == q
              && q !in Targets(Candidates(paths[..n], proposals[..n]))
  {
    var n := |paths| - 1;
    if Wanted(paths[n], proposals[n]) {
      TakenExactly(paths[..n], proposals[..n], NewPath(paths[n], proposals[n].name));
    }
    hide Candidates, Targets, FirstToWant;
  }

  predicate Claims(paths: seq<Path>, proposals: seq<Proposal>, i: nat, q: Path)
    requires i < |paths| == |proposals|
  {
    && Wanted(paths[i], proposals[i]) && NewPath(paths[i], proposals[i].name) == q
    && Objection(paths, proposals, i) == None
  }

  // The paths whose names do not change.
  function Unchanged(paths: seq<Path>, proposals: seq<Proposal>): nat
    requires |paths| == |proposals|
  {
    if paths == [] then 0
    else
      var n := |paths| - 1;
      Unchanged(paths[..n], proposals[..n]) +
      (if proposals[n].NewName? && proposals[n].name == paths[n].name && paths[n].name != "" then 1 else 0)
  }

  method Plan(paths: seq<Path>, proposals: seq<Proposal>, disk: Listing)
    returns (changes: seq<Change>, problems: seq<Problem>)
    requires |paths| == |proposals|
    ensures GreatestSettled(disk, Candidates(paths, proposals), changes)
    ensures DistinctTargets(changes) && (NoneTwice(paths) ==> DistinctSources(changes))
    ensures |changes| + |problems| + Unchanged(paths, proposals) == |paths|
    ensures var objections := Objections(paths, proposals);
            && objections <= problems
            && Reported(ChangeSet(Candidates(paths, proposals)) - ChangeSet(changes), problems[|objections|..])
  {
    var cs;
    cs, problems := Claim(paths, proposals);
    CandidatesDistinct(paths, proposals);
    var candidates := new Change[|cs|](i requires 0 <= i < |cs| => cs[i]);
    assert candidates[..] == cs;
    hide Settled, Chosen, ChangeSet, Candidates, Unchanged, Objections;
    var count, collisions := SettleCollisions(candidates, disk);
    changes := candidates[..count];
    ChosenDistinct(cs, ChangeSet(changes));
    assert (problems + collisions)[|problems|..] == collisions;
    problems := problems + collisions;
  }

  lemma ClaimNext(paths: seq<Path>, proposals: seq<Proposal>, i: nat)
    requires i < |paths| == |proposals|
    ensures var cs, p, proposal := Candidates(paths[..i], proposals[..i]), paths[i], proposals[i];
            Candidates(paths[..i + 1], proposals[..i + 1]) ==
              if proposal.NewName? && proposal.name != "" && proposal.name != p.name
                 && NewPath(p, proposal.name) !in Targets(cs)
              then cs + [Change(p, NewPath(p, proposal.name))] else cs
    ensures Unchanged(paths[..i + 1], proposals[..i + 1]) == Unchanged(paths[..i], proposals[..i]) +
              (if proposals[i].NewName? && proposals[i].name == paths[i].name && paths[i].name != "" then 1 else 0)
    ensures Objections(paths[..i + 1], proposals[..i + 1]) == Objections(paths[..i], proposals[..i]) +
              (match Objection(paths, proposals, i) case Some(reason) => [Problem(paths[i], reason)] case None => [])
  {
    hide Targets, NewPath;
    assert paths[..i + 1][..i] == paths[..i] && proposals[..i + 1][..i] == proposals[..i];
  }

  lemma NothingClaimed(paths: seq<Path>, proposals: seq<Proposal>)
    requires |paths| == |proposals|
    ensures Targets([]) == {} && Candidates(paths[..0], proposals[..0]) == []
        && Unchanged(paths[..0], proposals[..0]) == 0 && Objections(paths[..0], proposals[..0]) == []
  {
  }

  lemma OneMoreTarget(cs: seq<Change>, c: Change)
    ensures Targets(cs + [c]) == Targets(cs) + {c.to}
  {
    assert forall d :: d in cs + [c] <==> d in cs || d == c;
  }

  // Who has claimed which name among the first i paths.
  ghost predicate ClaimedBy(paths: seq<Path>, proposals: seq<Proposal>, i: nat, claimedBy: map<Path, Path>)
    requires i <= |paths| == |proposals|
  {
    forall q :: var k := FirstToWant(paths[..i], proposals[..i], q);
      (q in claimedBy <==> k < i) && (q in claimedBy ==> claimedBy[q] == paths[k])
  }

  lemma ClaimedNext(paths: seq<Path>, proposals: seq<Proposal>, i: nat, claimedBy: map<Path, Path>)
    requires i < |paths| == |proposals| && ClaimedBy(paths, proposals, i, claimedBy)
    ensures var p, proposal := paths[i], proposals[i];
            if Wanted(p, proposal) && NewPath(p, proposal.name) !in claimedBy
            then ClaimedBy(paths, proposals, i + 1, claimedBy[NewPath(p, proposal.name) := p])
            else ClaimedBy(paths, proposals, i + 1, claimedBy)
  {
    hide NewPath, Wanted;
    forall q {
      FirstNext(paths, proposals, i, q);
    }
    hide FirstToWant;
  }

  lemma FirstNext(paths: seq<Path>, proposals: seq<Proposal>, i: nat, q: Path)
    requires i < |paths| == |proposals|
    ensures var k := FirstToWant(paths[..i], proposals[..i], q);
            FirstToWant(paths[..i + 1], proposals[..i + 1], q) ==
              if k < i then k
              else if Wanted(paths[i], proposals[i]) && NewPath(paths[i], proposals[i].name) == q then i
              else i + 1
  {
    assert paths[..i + 1][..i] == paths[..i] && proposals[..i + 1][..i] == proposals[..i];
  }

  lemma ObjectionClaimed(paths: seq<Path>, proposals: seq<Proposal>, i: nat, claimedBy: map<Path, Path>)
    requires i < |paths| == |proposals| && ClaimedBy(paths, proposals, i, claimedBy) && Wanted(paths[i], proposals[i])
    ensures var q := NewPath(paths[i], proposals[i].name);
            Objection(paths, proposals, i) == if q in claimedBy then Some(SharedTarget(claimedBy[q])) else None
  {
  }

  lemma ObjectionPlain(paths: seq<Path>, proposals: seq<Proposal>, i: nat)
    requires i < |paths| == |proposals|
    ensures proposals[i].Refused? ==> Objection(paths, proposals, i) == Some(BadRule)
    ensures proposals[i].NewName? && proposals[i].name == "" ==> Objection(paths, proposals, i) == Some(EmptyName)
    ensures proposals[i].NewName? && proposals[i].name != "" && proposals[i].name == paths[i].name ==>
              Objection(paths, proposals, i) == None
    ensures Wanted(paths[i], proposals[i]) <==>
              proposals[i].NewName? && proposals[i].name != "" && proposals[i].name != paths[i].name
  {
  }

  lemma NoneClaimed(paths: seq<Path>, proposals: seq<Proposal>)
    requires |paths| == |proposals|
    ensures ClaimedBy(paths, proposals, 0, map[])
  {
  }

  // The first path to want a new name gets it; every other one is a problem.
  method Claim(paths: seq<Path>, proposals: seq<Proposal>) returns (cs: seq<Change>, problems: seq<Problem>)
    requires |paths| == |proposals|
    ensures cs == Candidates(paths, proposals) && problems == Objections(paths, proposals)
    ensures |cs| + |problems| + Unchanged(paths, proposals) == |paths|
  {
    hide *;
    var claimedBy: map<Path, Path> := map[];
    cs, problems := [], [];
    NothingClaimed(paths, proposals);
    NoneClaimed(paths, proposals);
    for i := 0 to |paths|
      invariant cs == Candidates(paths[..i], proposals[..i])
      invariant claimedBy.Keys == Targets(cs) && ClaimedBy(paths, proposals, i, claimedBy)
      invariant problems == Objections(paths[..i], proposals[..i])
      invariant |cs| + |problems| + Unchanged(paths[..i], proposals[..i]) == i
    {
      var p, proposal := paths[i], proposals[i];
      ClaimNext(paths, proposals, i);
      ClaimedNext(paths, proposals, i, claimedBy);
      ObjectionPlain(paths, proposals, i);
      if proposal.Refused? {
        problems := problems + [Problem(p, BadRule)];
        continue;
      } else if proposal.name == "" {
        problems := problems + [Problem(p, EmptyName)];
        continue;
      } else if proposal.name == p.name {
        continue;
      }
      var newPath := NewPath(p, proposal.name);
      ObjectionClaimed(paths, proposals, i, claimedBy);
      if newPath in claimedBy {
        problems := problems + [Problem(p, SharedTarget(claimedBy[newPath]))];
        continue;
      }
      claimedBy := claimedBy[newPath := p];
      OneMoreTarget(cs, Change(p, newPath));
      cs := cs + [Change(p, newPath)];
    }
    assert paths[..|paths|] == paths && proposals[..|paths|] == proposals;
  }

  // Some settled choice among the candidates renames one file twice.
  ghost predicate Contending(disk: Listing, cs: seq<Change>) {
    exists s: set<Change> :: s <= ChangeSet(cs) && Settled(disk, cs, s) && HasRivals(s)
  }

  predicate HasRivals(s: set<Change>) { exists c, d :: c in s && d in s && c != d && c.from == d.from }

  // Some settled choice gives a file another of the names it already has, and none vacates that name.
  ghost predicate Aliasing(disk: Listing, cs: seq<Change>) {
    exists s: set<Change> :: s <= ChangeSet(cs) && Settled(disk, cs, s) && HasAliased(disk, cs, s)
  }

  ghost predicate HasAliased(disk: Listing, cs: seq<Change>, s: set<Change>) {
    exists c :: c in s && Aliased(disk, cs, c)
  }

  ghost predicate Aliased(disk: Listing, cs: seq<Change>, c: Change) {
    SameFile(disk, c) && forall t: set<Change> :: t <= ChangeSet(cs) && Settled(disk, cs, t) ==> !Renames(t, c.to)
  }

  predicate SameFile(disk: Listing, c: Change) {
    c.from in disk && c.to in disk && disk[c.from] == disk[c.to]
  }

  predicate Doubled(disk: Listing, changes: seq<Change>, c: Change) {
    SameFile(disk, c) && c.to !in Sources(changes)
  }

  predicate Renames(t: set<Change>, p: Path) { exists d :: d in t && d.from == p }

  // What Plan returns is what Order expects exactly when no settled choice renames a file twice or
  // merely gives it another of its own names.
  lemma PlanIsValid(fs: Fs, disk: Listing, cs: seq<Change>, changes: seq<Change>)
    requires fs.Keys == disk.Keys && DistinctTargets(cs)
    requires forall c :: c in cs ==> c.from in disk && c.from != c.to
    requires GreatestSettled(disk, cs, changes)
    ensures ValidBatch(fs, changes) <==> !Contending(disk, cs) && !Aliasing(disk, cs)
  {
    ContendingExactly(disk, cs, changes);
    AliasingExactly(disk, cs, changes);
    ResultIsValid(fs, disk, cs, changes);
  }

  // The returned changes hold every settled choice, so they show what any of them does.
  lemma ContendingExactly(disk: Listing, cs: seq<Change>, changes: seq<Change>)
    requires DistinctTargets(cs) && GreatestSettled(disk, cs, changes)
    ensures Contending(disk, cs) <==> !DistinctSources(changes)
  {
    var all := ChangeSet(changes);
    assert all <= ChangeSet(cs);
    ChosenDistinct(cs, all);
    RivalsExactly(changes);
    hide Settled, Chosen, DistinctSources, DistinctTargets, ChangeSet;
    if Contending(disk, cs) {
      var s: set<Change> :| s <= ChangeSet(cs) && Settled(disk, cs, s) && HasRivals(s);
      assert s <= all;
    }
  }

  lemma RivalsExactly(changes: seq<Change>)
    requires DistinctTargets(changes)
    ensures HasRivals(ChangeSet(changes)) <==> !DistinctSources(changes)
  {
    if !DistinctSources(changes) {
      var i, j :| 0 <= i < j < |changes| && changes[i].from == changes[j].from;
      assert changes[i] in changes && changes[j] in changes;
    }
  }

  lemma AliasingExactly(disk: Listing, cs: seq<Change>, changes: seq<Change>)
    requires GreatestSettled(disk, cs, changes)
    ensures Aliasing(disk, cs) <==> exists c :: c in changes && Doubled(disk, changes, c)
  {
    var all := ChangeSet(changes);
    assert all <= ChangeSet(cs);
    assert forall p :: Renames(all, p) <==> p in Sources(changes);
    hide Settled, Chosen, SameFile;
    if c :| c in changes && Doubled(disk, changes, c) {
      forall t: set<Change> | t <= ChangeSet(cs) && Settled(disk, cs, t) ensures !Renames(t, c.to) {
        assert t <= all;
      }
      assert c in all;
    }
    if Aliasing(disk, cs) {
      var s: set<Change> :| s <= ChangeSet(cs) && Settled(disk, cs, s) && HasAliased(disk, cs, s);
      var c :| c in s && Aliased(disk, cs, c);
      assert c in all && !Renames(all, c.to);
    }
  }

  lemma ResultIsValid(fs: Fs, disk: Listing, cs: seq<Change>, changes: seq<Change>)
    requires fs.Keys == disk.Keys && DistinctTargets(cs)
    requires forall c :: c in cs ==> c.from in disk && c.from != c.to
    requires GreatestSettled(disk, cs, changes)
    ensures ValidBatch(fs, changes) <==>
              && DistinctSources(changes)
              && !exists c :: c in changes && Doubled(disk, changes, c)
  {
    ChosenDistinct(cs, ChangeSet(changes));
    hide Chosen;
    forall c | c in changes ensures c.from in fs && c.from != c.to {
      assert c in cs;
    }
    forall c | c in changes
      ensures c.to !in fs || c.to in Sources(changes) || Doubled(disk, changes, c)
    {
      assert c in ChangeSet(changes) && !Stays(disk, c, Vacated(cs, ChangeSet(changes)));
      if c.to in Vacated(cs, ChangeSet(changes)) {
        var d :| d in cs && d.from == c.to;
        assert d in changes;
      }
    }
    if ValidBatch(fs, changes) {
      forall c | c in changes && SameFile(disk, c) ensures c.to in Sources(changes) {
        var i :| 0 <= i < |changes| && changes[i] == c;
      }
    }
  }

  // No two names are one file.
  ghost predicate OneName(disk: Listing) {
    forall p, q :: p in disk && q in disk && disk[p] == disk[q] ==> p == q
  }

  // Where no two names are one file, the candidates lead to a valid batch on every disk exactly when
  // no two of them have one source.
  lemma AlwaysValidExactly(cs: seq<Change>)
    requires DistinctTargets(cs) && forall c :: c in cs ==> c.from != c.to
    ensures (forall fs: Fs, disk, changes :: Leads(fs, disk, cs, changes) ==> ValidBatch(fs, changes))
            <==> DistinctSources(cs)
  {
    if DistinctSources(cs) {
      forall fs: Fs, disk, changes | Leads(fs, disk, cs, changes) ensures ValidBatch(fs, changes) {
        ChosenDistinct(cs, ChangeSet(changes));
        ResultIsValid(fs, disk, cs, changes);
        forall c | c in changes ensures !SameFile(disk, c) {
          assert c in cs;
        }
      }
    } else {
      OnlySources(cs);
    }
  }

  // What Plan may come to on a disk that holds at least the sources.
  ghost predicate Leads(fs: Fs, disk: Listing, cs: seq<Change>, changes: seq<Change>) {
    && fs.Keys == disk.Keys && OneName(disk) && (forall c :: c in cs ==> c.from in disk)
    && GreatestSettled(disk, cs, changes)
  }

  // On a disk that holds the sources and nothing else, everything is carried out.
  lemma OnlySources(cs: seq<Change>)
    requires DistinctTargets(cs) && !DistinctSources(cs)
    ensures exists fs: Fs, disk, changes :: Leads(fs, disk, cs, changes) && !ValidBatch(fs, changes)
  {
    var disk := Numbered(Sources(cs));
    var fs: Fs := map p | p in disk :: File("");
    ChosenAll(cs, ChangeSet(cs));
    assert Vacated(cs, ChangeSet(cs)) == Sources(cs);
    assert Leads(fs, disk, cs, cs);
  }

  // Some numbering of the names.
  ghost function Numbered(names: set<Path>): (disk: Listing)
    ensures disk.Keys == names && OneName(disk) && forall p :: p in disk ==> 0 <= disk[p] < |names|
  {
    if names == {} then map[]
    else
      var p :| p in names;
      var rest := Numbered(names - {p});
      rest[p := |rest|]
  }

  // In particular when every path is given once and no two names are one file.
  lemma DistinctPlanIsValid(fs: Fs, disk: Listing, paths: seq<Path>, proposals: seq<Proposal>, changes: seq<Change>)
    requires fs.Keys == disk.Keys && |paths| == |proposals|
    requires NoneTwice(paths) && forall p :: p in paths ==> p in disk
    requires OneName(disk)
    requires GreatestSettled(disk, Candidates(paths, proposals), changes)
    ensures ValidBatch(fs, changes)
  {
    var cs := Candidates(paths, proposals);
    CandidatesDistinct(paths, proposals);
    AlwaysValidExactly(cs);
    assert Leads(fs, disk, cs, changes);
  }

  // A path given twice with two new names is to be renamed twice.
  lemma PathGivenTwice(p: Path, x: string, y: string)
    requires x != y && x != "" && y != "" && x != p.name && y != p.name
    ensures var cs := Candidates([p, p], [NewName(x), NewName(y)]);
            && cs == [Change(p, NewPath(p, x)), Change(p, NewPath(p, y))]
            && GreatestSettled(map[p := 0], cs, cs) && !DistinctSources(cs)
  {
    var cs := [Change(p, NewPath(p, x)), Change(p, NewPath(p, y))];
    assert [p, p][..1] == [p] && [p][..0] == [] && [NewName(x), NewName(y)][..1] == [NewName(x)];
    assert Candidates([p], [NewName(x)]) == [cs[0]];
    assert Candidates([p, p], [NewName(x), NewName(y)]) == cs;
    assert cs[0].from == cs[1].from;
    ChosenAll(cs, ChangeSet(cs));
  }

  // A path is a candidate for a name exactly when it wants that name, a new one in its own directory,
  // and no earlier path wants the same.
  lemma CandidateSpelled(paths: seq<Path>, proposals: seq<Proposal>, c: Change)
    requires |paths| == |proposals|
    ensures c in Candidates(paths, proposals) <==>
              exists i :: 0 <= i < |paths| && c.from == paths[i] && Asks(paths[i], proposals[i], c.to) &&
                          forall l :: 0 <= l < i ==> !Asks(paths[l], proposals[l], c.to)
  {
    CandidateExactly(paths, proposals, c);
    forall i: nat | i < |paths|
      ensures Claims(paths, proposals, i, c.to) <==>
                Asks(paths[i], proposals[i], c.to) && forall l :: 0 <= l < i ==> !Asks(paths[l], proposals[l], c.to)
    {
      ClaimSpelled(paths, proposals, i, c.to);
    }
    hide Claims, Asks, Candidates;
  }

  // p is to get the new name q.
  predicate Asks(p: Path, proposal: Proposal, q: Path) {
    && proposal.NewName? && proposal.name != "" && proposal.name != p.name
    && q.dir == p.dir && q.name == proposal.name
  }

  lemma ClaimSpelled(paths: seq<Path>, proposals: seq<Proposal>, i: nat, q: Path)
    requires i < |paths| == |proposals|
    ensures Claims(paths, proposals, i, q) <==>
              Asks(paths[i], proposals[i], q) && forall l :: 0 <= l < i ==> !Asks(paths[l], proposals[l], q)
  {
    var k := FirstToWant(paths[..i], proposals[..i], q);
    if k < i {
      assert paths[..i][k] == paths[k] && proposals[..i][k] == proposals[k];
      assert Asks(paths[k], proposals[k], q);
    } else {
      forall l | 0 <= l < i ensures !Asks(paths[l], proposals[l], q) {
        assert paths[..i][l] == paths[l] && proposals[..i][l] == proposals[l];
      }
    }
  }

  // A path is refused for its rule, an empty name, or a name that an earlier path, the first to ask
  // for it, gets.
  lemma ObjectionExactly(paths: seq<Path>, proposals: seq<Proposal>, i: nat, owner: Path)
    requires i < |paths| == |proposals|
    ensures Objection(paths, proposals, i) == Some(BadRule) <==> proposals[i].Refused?
    ensures Objection(paths, proposals, i) == Some(EmptyName) <==> proposals[i] == NewName("")
    ensures Objection(paths, proposals, i) == Some(SharedTarget(owner)) <==>
              exists q, l :: 0 <= l < i && Asks(paths[i], proposals[i], q) && Asks(paths[l], proposals[l], q) &&
                             paths[l] == owner && forall k :: 0 <= k < l ==> !Asks(paths[k], proposals[k], q)
  {
    if proposals[i].NewName? && proposals[i].name != "" && proposals[i].name != paths[i].name {
      var q := NewPath(paths[i], proposals[i].name);
      var l := FirstToWant(paths[..i], proposals[..i], q);
      assert Asks(paths[i], proposals[i], q);
      forall k | 0 <= k < l && k < i ensures !Asks(paths[k], proposals[k], q) {
        assert paths[..i][k] == paths[k] && proposals[..i][k] == proposals[k];
      }
      if l < i {
        assert paths[..i][l] == paths[l] && proposals[..i][l] == proposals[l];
        assert Asks(paths[l], proposals[l], q);
      }
      hide FirstToWant;
    }
  }

  // What a settled choice is: every new name is free, names the file itself, or is vacated because all
  // changes from there are chosen.
  lemma SettledExactly(disk: Listing, cs: seq<Change>, s: set<Change>)
    ensures Settled(disk, cs, s) <==>
              forall c :: c in s ==>
                || c.to !in disk || (c.from in disk && disk[c.from] == disk[c.to])
                || ((exists d :: d in cs && d.from == c.to) && forall d :: d in cs && d.from == c.to ==> d in s)
  {
    forall c | c in s
      ensures c.to in Vacated(cs, s) <==>
                (exists d :: d in cs && d.from == c.to) && forall d :: d in cs && d.from == c.to ==> d in s
    {
    }
  }
}
