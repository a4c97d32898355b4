// Where the tree at a source can be laid down: what stands in the way, and what is missing.
module FileFits {
  import opened Wrappers
  import opened FileTree
  import opened FileDisk

  // The entry the walk of the tree at s comes to at r, before a link there is followed.
  function EntryAt(fs: Fs, links: Links, s: Path, r: Path): Option<Path> {
    if r == [] then if s in fs then Some(s) else None
    else
      match View(fs, links, s, r[..|r| - 1])
      case Some(q) =>
        var e := q + [r[|r| - 1]];
        if Get(fs, q) == Some(Dir) && e in fs then Some(e) else None
      case None => None
  }

  // Where the destination is, if a link stands at it.
  function Standing(fs: Fs, links: Links, d: Path): Path
    requires links.Followed?
  {
    if d in fs && fs[d].Symlink? && d in links.resolved then links.resolved[d] else d
  }

  // What stands at p lets o be laid down there: a directory joins a directory; anything else takes the
  // place of what is no directory or an empty one; and only if something may be overwritten at all.
  ghost predicate MakesWay(now: Fs, p: Path, o: Object, force: bool) {
    p in now ==> force && if o == Dir then now[p] == Dir else now[p] == Dir ==> forall n :: p + [n] !in now
  }

  // The entry at x can be laid down at p: the path is not too long, a link to be followed leads
  // somewhere, and not to the destination or what holds it, and nothing is in the way.
  ghost predicate FitsAt(fs0: Fs, links: Links, x: Path, p: Path, now: Fs, force: bool, maxPath: nat)
    requires x in fs0
  {
    && |p| <= maxPath
    && match Deref(fs0, links, x)
       case Some(q) =>
         && q in fs0 && MakesWay(now, p, fs0[q], force)
         && (fs0[x].Symlink? && links.Followed? ==> !Overlaps(q, Standing(now, links, p)))
       case None => false
  }

  // Every entry of the tree at s can be laid down at its place at or below d.
  ghost predicate Suits(fs0: Fs, links: Links, s: Path, d: Path, now: Fs, force: bool, maxPath: nat) {
    && s in fs0
    && forall r ::
         match EntryAt(fs0, links, s, r)
         case Some(x) => x in fs0 && FitsAt(fs0, links, x, d + r, now, force, maxPath)
         case None => true
  }

  // The way to d is there: for a directory it may be made, anything else needs its parent.
  ghost predicate Standable(fs0: Fs, links: Links, s: Path, d: Path, now: Fs) {
    match Deref(fs0, links, s)
    case Some(q) => if Get(fs0, q) == Some(Dir) then Opens(now, d) else d != [] && Get(now, d[..|d| - 1]) == Some(Dir)
    case None => false
  }

  ghost predicate Fits(fs0: Fs, links: Links, s: Path, d: Path, now: Fs, force: bool, maxPath: nat) {
    Suits(fs0, links, s, d, now, force, maxPath) && Standable(fs0, links, s, d, now)
  }

  // What a copy of the tree at s to d must have answered, if noFault says that nothing failed for a
  // reason of its own.
  ghost predicate Decided(settled: bool, fs0: Fs, links: Links, s: Path, d: Path, before: Fs, force: bool,
      maxPath: nat, ok: bool, noFault: bool) {
    settled ==>
      && (ok ==> Fits(fs0, links, s, d, before, force, maxPath))
      && (noFault && Fits(fs0, links, s, d, before, force, maxPath) ==> ok)
  }

  lemma EntryBelow(fs: Fs, links: Links, q: Path, n: Name, r: Path)
    requires Deref(fs, links, q) == Some(q) && Get(fs, q) == Some(Dir)
    ensures EntryAt(fs, links, q, [n] + r) == EntryAt(fs, links, q + [n], r)
  {
    var nr := [n] + r;
    if r == [] {
      assert nr[..|nr| - 1] == [];
    } else {
      assert nr[..|nr| - 1] == [n] + r[..|r| - 1];
      ViewBelow(fs, links, q, q, n, r[..|r| - 1]);
    }
  }

  // The two states are the same at and below d.
  ghost predicate SameBelow(before: Fs, now: Fs, d: Path) {
    forall p :: d <= p ==> Get(now, p) == Get(before, p)
  }

  lemma FitsThere(fs0: Fs, links: Links, x: Path, p: Path, before: Fs, now: Fs, d: Path, force: bool, maxPath: nat)
    requires x in fs0 && SameBelow(before, now, d) && d <= p
    ensures FitsAt(fs0, links, x, p, now, force, maxPath) == FitsAt(fs0, links, x, p, before, force, maxPath)
  {
    assert Get(now, p) == Get(before, p);
    forall n ensures p + [n] in now <==> p + [n] in before {
      assert d <= p + [n];
      assert Get(now, p + [n]) == Get(before, p + [n]);
    }
  }

  // What fits below d depends only on what is there.
  lemma SuitsStill(fs0: Fs, links: Links, s: Path, d: Path, before: Fs, now: Fs, force: bool, maxPath: nat)
    requires SameBelow(before, now, d)
    ensures Suits(fs0, links, s, d, now, force, maxPath) == Suits(fs0, links, s, d, before, force, maxPath)
  {
    forall r | EntryAt(fs0, links, s, r).Some? && EntryAt(fs0, links, s, r).value in fs0
      ensures var x := EntryAt(fs0, links, s, r).value;
              FitsAt(fs0, links, x, d + r, now, force, maxPath) == FitsAt(fs0, links, x, d + r, before, force, maxPath)
    {
      FitsThere(fs0, links, EntryAt(fs0, links, s, r).value, d + r, before, now, d, force, maxPath);
    }
    hide FitsAt, EntryAt, SameBelow;
  }

  lemma SuitsEntry(fs0: Fs, links: Links, q: Path, d: Path, n: Name, now: Fs, force: bool, maxPath: nat)
    requires Deref(fs0, links, q) == Some(q) && Get(fs0, q) == Some(Dir) && q + [n] in fs0
    requires Suits(fs0, links, q, d, now, force, maxPath)
    ensures Suits(fs0, links, q + [n], d + [n], now, force, maxPath)
  {
    forall r | EntryAt(fs0, links, q + [n], r).Some?
      ensures var x := EntryAt(fs0, links, q + [n], r).value;
              x in fs0 && FitsAt(fs0, links, x, d + [n] + r, now, force, maxPath)
    {
      EntryBelow(fs0, links, q, n, r);
      assert d + [n] + r == d + ([n] + r);
    }
    hide FitsAt, EntryAt;
  }

  // A directory suits if it fits itself and all its entries suit.
  lemma SuitsDir(fs0: Fs, links: Links, q: Path, d: Path, now: Fs, force: bool, maxPath: nat)
    requires Deref(fs0, links, q) == Some(q) && Get(fs0, q) == Some(Dir)
    requires FitsAt(fs0, links, q, d, now, force, maxPath)
    requires forall n :: q + [n] in fs0 ==> Suits(fs0, links, q + [n], d + [n], now, force, maxPath)
    ensures Suits(fs0, links, q, d, now, force, maxPath)
  {
    forall r | EntryAt(fs0, links, q, r).Some?
      ensures var x := EntryAt(fs0, links, q, r).value;
              x in fs0 && FitsAt(fs0, links, x, d + r, now, force, maxPath)
    {
      if r == [] {
        assert d + r == d;
      } else {
        var n, below := r[0], r[1..];
        assert r == [n] + below && d + r == d + [n] + below;
        EntryBelow(fs0, links, q, n, below);
        EntryNeeds(fs0, links, q + [n], below);
      }
    }
    hide FitsAt, EntryAt;
  }

  lemma EntryNeeds(fs: Fs, links: Links, s: Path, r: Path)
    requires EntryAt(fs, links, s, r).Some?
    ensures s in fs
  {
    if r != [] && s !in fs {
      NothingToView(fs, links, s, r[..|r| - 1]);
    }
  }

  // A file, or a link that is kept, suits if it fits itself.
  lemma SuitsLeaf(fs0: Fs, links: Links, q: Path, d: Path, now: Fs, force: bool, maxPath: nat)
    requires Deref(fs0, links, q) == Some(q) && q in fs0 && fs0[q] != Dir
    ensures Suits(fs0, links, q, d, now, force, maxPath) == FitsAt(fs0, links, q, d, now, force, maxPath)
  {
    forall r | r != [] ensures EntryAt(fs0, links, q, r) == None {
      var init := r[..|r| - 1];
      if init != [] {
        assert init == [init[0]] + init[1..];
        ViewOfLeaf(fs0, links, q, init[0], init[1..]);
      }
    }
    assert EntryAt(fs0, links, q, []) == Some(q) && d + [] == d;
    hide FitsAt, EntryAt;
  }

  lemma SuitsHere(fs0: Fs, links: Links, s: Path, d: Path, now: Fs, force: bool, maxPath: nat)
    requires Suits(fs0, links, s, d, now, force, maxPath)
    ensures s in fs0 && FitsAt(fs0, links, s, d, now, force, maxPath)
  {
    assert EntryAt(fs0, links, s, []) == Some(s) && d + [] == d;
  }

  // A followed link suits if it fits itself and what it leads to suits.
  lemma SuitsTarget(fs0: Fs, links: Links, s: Path, q: Path, d: Path, now: Fs, force: bool, maxPath: nat)
    requires s in fs0 && Deref(fs0, links, s) == Some(q) && Deref(fs0, links, q) == Some(q)
    requires forall r :: View(fs0, links, s, r) == View(fs0, links, q, r)
    ensures Suits(fs0, links, s, d, now, force, maxPath) <==>
              FitsAt(fs0, links, s, d, now, force, maxPath) && Suits(fs0, links, q, d, now, force, maxPath)
    ensures Standable(fs0, links, s, d, now) == Standable(fs0, links, q, d, now)
  {
    forall r | r != [] ensures EntryAt(fs0, links, s, r) == EntryAt(fs0, links, q, r) {
    }
    assert EntryAt(fs0, links, s, []) == Some(s) && EntryAt(fs0, links, q, []) == Some(q) && d + [] == d;
    TargetFits(fs0, links, s, q, d, now, force, maxPath);
    hide FitsAt, EntryAt, View;
  }

  lemma TargetFits(fs0: Fs, links: Links, s: Path, q: Path, d: Path, now: Fs, force: bool, maxPath: nat)
    requires s in fs0 && Deref(fs0, links, s) == Some(q) && Deref(fs0, links, q) == Some(q)
    ensures FitsAt(fs0, links, s, d, now, force, maxPath) ==> FitsAt(fs0, links, q, d, now, force, maxPath)
  {
  }
}
