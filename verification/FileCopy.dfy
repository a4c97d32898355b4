// Recursive copying.
module FileCopy {
  import opened Wrappers
  import opened Sorting
  import opened FileTree
  import opened FileDisk
  import opened FileFits

  // force: an existing destination may be overwritten; replace: a directory destination is removed first.
  datatype Options = Options(force: bool, replace: bool, links: Links)

  // The copy of the tree at s to d inside an ongoing copy of src into root can go ahead: s still
  // looks as it did in fs0, and no link is in the way at the destination.
  ghost predicate Ready(fs0: Fs, links: Links, s: Path, d: Path, now: Fs, root: Path, src: Path) {
    && root <= d && Frame(fs0, now, root, src) && LinksOutside(fs0, links, root, src)
    && (forall a :: a < d && a in now ==> !now[a].Symlink?)
    && NoClash(fs0, links, s, d, now)
    && Still(root, src, s) && Passable(fs0, links, s, d, src)
  }

  // Links may lead anywhere, even into the destination, whose contents then change while they are
  // read: what is copied is not settled, but no link stands in the way anywhere.
  ghost predicate Loose(links: Links, d: Path, now: Fs, root: Path, src: Path) {
    && links.Followed? && root <= d && !(src <= root) && !(root <= src)
    && (forall p :: (p <= root || root <= p) && p in now ==> !now[p].Symlink?)
    && (forall l :: l in links.resolved && links.resolved[l] in now ==> !now[links.resolved[l]].Symlink?)
  }

  // Either way the copy can go ahead.
  ghost predicate Entry(settled: bool, fs0: Fs, links: Links, s: Path, d: Path, now: Fs, root: Path, src: Path) {
    if settled then Ready(fs0, links, s, d, now, root, src) else Loose(links, d, now, root, src)
  }

  // No link has come into being.
  ghost predicate NoNewLinks(before: Fs, after: Fs) {
    forall p :: p in after && after[p].Symlink? ==> Get(before, p) == Get(after, p)
  }

  // What a copy of the tree at s to d may have done when it returns.
  ghost predicate Outcome(settled: bool, fs0: Fs, links: Links, s: Path, d: Path, before: Fs, after: Fs, ok: bool,
      src: Path) {
    && Frame(before, after, d, src) && (links.Followed? ==> NoNewLinks(before, after))
    && (settled && ok ==> Laid(fs0, links, s, d, before, after) && Complete(fs0, links, s))
  }

  lemma LooseStays(links: Links, d: Path, e: Path, before: Fs, now: Fs, root: Path, src: Path)
    requires Loose(links, d, before, root, src) && root <= e
    requires Frame(before, now, d, src) && NoNewLinks(before, now)
    ensures Loose(links, e, now, root, src)
  {
  }

  lemma SourceSeen(fs0: Fs, now: Fs, root: Path, p: Path, src: Path)
    requires Frame(fs0, now, root, src) && (src <= p || !(root <= p))
    ensures p in fs0 ==> Get(now, p) == Get(fs0, p)
    ensures Still(root, src, p) ==> Get(now, p) == Get(fs0, p)
  {
  }

  // What holds of a path holds of its entries.
  lemma ChildApart(root: Path, q: Path, n: Name, src: Path)
    requires Still(root, src, q)
    ensures Still(root, src, q + [n])
  {
    var p := q + [n];
    assert p[..|q|] == q;
    assert |root| <= |q| && root <= p ==> root <= q;
    assert |root| == |p| && root <= p ==> root == p;
  }

  lemma SourceListed(fs0: Fs, now: Fs, root: Path, q: Path, src: Path)
    requires Frame(fs0, now, root, src) && Still(root, src, q)
    ensures Children(now, q) == Children(fs0, q)
    ensures forall n :: n in Children(fs0, q) <==> q + [n] in fs0
  {
    ChildNames(now, q);
    ChildNames(fs0, q);
    forall n ensures q + [n] in now <==> q + [n] in fs0 {
      ChildApart(root, q, n, src);
      SourceSeen(fs0, now, root, q + [n], src);
    }
  }

  lemma ChildNames(fs: Fs, q: Path)
    ensures forall n :: n in Children(fs, q) <==> q + [n] in fs
  {
    forall n ensures n in Children(fs, q) <==> q + [n] in fs {
      if n in Children(fs, q) {
        var p :| p in fs && |p| == |q| + 1 && q <= p && p[|q|] == n;
        assert p == q + [n];
      }
      if q + [n] in fs {
        assert q <= q + [n] && (q + [n])[|q|] == n;
      }
    }
  }

  lemma {:induction false} ViewDeref(fs: Fs, links: Links, s: Path, q: Path, r: Path)
    requires Deref(fs, links, s) == Some(q) && Deref(fs, links, q) == Some(q)
    ensures View(fs, links, s, r) == View(fs, links, q, r)
  {
    if r != [] {
      ViewDeref(fs, links, s, q, r[..|r| - 1]);
    }
  }

  lemma PassableHere(fs: Fs, links: Links, s: Path, d: Path, src: Path)
    requires Passable(fs, links, s, d, src) && Deref(fs, links, s) == Some(s)
    ensures MayLand(fs, s, d, src)
  {
    assert View(fs, links, s, []) == Some(s) && d + [] == d;
  }

  lemma PassableEntry(fs: Fs, links: Links, q: Path, d: Path, n: Name, src: Path)
    requires Passable(fs, links, q, d, src) && Get(fs, q) == Some(Dir)
    ensures Passable(fs, links, q + [n], d + [n], src)
  {
    forall r | View(fs, links, q + [n], r).Some?
      ensures MayLand(fs, View(fs, links, q + [n], r).value, d + [n] + r, src)
    {
      ViewBelow(fs, links, q, q, n, r);
      assert d + [n] + r == d + ([n] + r);
    }
  }

  // A directory that holds something is not made place for anything.
  lemma RefusedOnSource(fs0: Fs, before: Fs, q: Path, d: Path, src: Path, e: Errno)
    requires SourceWhole(fs0, before, src) && MayLand(fs0, q, d, src) && e != Failed
    requires e == NotExist ==> d !in before
    requires e == Done ==> d in before && (before[d] == Dir ==> forall n :: d + [n] !in before)
    ensures !(src <= d)
  {
    if Held(fs0, src) {
      HeldStill(fs0, before, src);
    }
  }

  lemma HeldStill(fs0: Fs, now: Fs, src: Path)
    requires SourceWhole(fs0, now, src) && Held(fs0, src)
    ensures Held(now, src)
  {
    var n :| src + [n] in fs0;
    assert Get(now, src + [n]) == Get(fs0, src + [n]) && Get(now, src) == Get(fs0, src);
  }

  // ---- One file, one link ----

  // A file can be copied; where nothing is settled it may have become something else meanwhile.
  ghost predicate FileEntry(settled: bool, fs0: Fs, links: Links, q: Path, d: Path, now: Fs, root: Path, src: Path) {
    && root <= d && (forall a :: a < d && a in now ==> !now[a].Symlink?)
    && if settled
       then
         && Frame(fs0, now, root, src) && (src <= q || !(root <= q)) && MayLand(fs0, q, d, src)
         && Get(fs0, q).Some? && fs0[q].File?
       else Loose(links, d, now, root, src)
  }

  method CopyFile(disk: Disk, q: Path, d: Path, opts: Options, ghost settled: bool, ghost fs0: Fs, ghost root: Path,
      ghost src: Path)
      returns (ok: bool)
    requires FileEntry(settled, fs0, opts.links, q, d, disk.fs, root, src)
    modifies disk
    ensures Outcome(settled, fs0, opts.links, q, d, old(disk.fs), disk.fs, ok, src)
    ensures States(disk.visited, old(disk.visited), old(disk.fs), d, src)
    ensures settled && ok ==> disk.streamed == old(disk.streamed) + TotalAt(fs0, q)
    ensures d in old(disk.fs) && !opts.force ==> !ok && disk.fs == old(disk.fs)
    ensures disk.faults >= old(disk.faults)
    ensures Decided(settled, fs0, opts.links, q, d, old(disk.fs), opts.force, disk.maxPath, ok,
        disk.faults == old(disk.faults))
  {
    hide Frame, SourceWhole, View, Complete, Want, MayLand, Loose, Laid, FileEntry, Fits, Creatable, States, NoNewLinks;
    ghost var before, since := disk.fs, disk.visited;
    FileOff(settled, fs0, opts.links, q, d, before, root, src);
    OnlyThere(since, since, before, before, d, src);
    if opts.force {
      var e := disk.Remove(d);
      if e == Failed {
        FileBlocked(settled, fs0, opts.links, q, d, before, opts.force, disk.maxPath);
        return false;
      }
      MadeWay(settled, fs0, opts.links, q, d, before, root, src, e);
    }
    ghost var now := disk.fs;
    OnlyThere(disk.visited, since, before, now, d, src);
    FileSeen(settled, fs0, opts.links, q, d, before, now, root, src);
    FileFitsExactly(settled, fs0, opts.links, q, d, before, now, opts.force, disk.maxPath);
    var seen, o := disk.Lstat(q);
    if !seen {
      return false;
    }
    // A directory can be opened but not read.
    ok := disk.WriteNew(d, if o.File? then o.data else "");
    OnlyAtTrans(before, now, disk.visited, d);
    OnlyThere(disk.visited, since, before, disk.fs, d, src);
    FileStill(settled, fs0, opts.links, q, d, before, now, o, root, src);
    if ok && settled {
      FileLaid(fs0, opts.links, q, d, before, disk.fs);
    }
    ok := ok && o.File?;
  }

  // A directory that holds something is in the way of a file or a link.
  lemma FileBlocked(settled: bool, fs0: Fs, links: Links, q: Path, d: Path, before: Fs, force: bool, maxPath: nat)
    requires settled ==> Deref(fs0, links, q) == Some(q) && q in fs0 && fs0[q] != Dir
    ensures settled && Get(before, d) == Some(Dir) && (exists n :: d + [n] in before) ==>
              !Fits(fs0, links, q, d, before, force, maxPath)
  {
    if settled && Fits(fs0, links, q, d, before, force, maxPath) {
      SuitsHere(fs0, links, q, d, before, force, maxPath);
    }
  }

  // Once it has made place, all that is asked is that the entry can be created.
  lemma FileFitsExactly(settled: bool, fs0: Fs, links: Links, q: Path, d: Path, before: Fs, now: Fs, force: bool,
      maxPath: nat)
    requires settled ==> Deref(fs0, links, q) == Some(q) && q in fs0 && fs0[q] != Dir
    requires settled && links.Followed? ==> !fs0[q].Symlink?
    requires now == if force && d in before then before - {d} else before
    requires force && Get(before, d) == Some(Dir) ==> forall n :: d + [n] !in before
    ensures settled ==> (Fits(fs0, links, q, d, before, force, maxPath) <==> Creatable(now, d, maxPath))
  {
    if settled {
      SuitsLeaf(fs0, links, q, d, before, force, maxPath);
      assert |d| > 0 ==> d[..|d| - 1] != d;
    }
  }

  lemma FileSeen(settled: bool, fs0: Fs, links: Links, q: Path, d: Path, before: Fs, now: Fs, root: Path, src: Path)
    requires FileEntry(settled, fs0, links, q, d, before, root, src)
    requires Frame(before, now, d, src)
    ensures settled ==> q in now
  {
    if settled {
      FrameThrough(fs0, before, now, root, d, src);
      SourceSeen(fs0, now, root, q, src);
    }
  }

  // What stands in the source's place is there.
  lemma FileOff(settled: bool, fs0: Fs, links: Links, q: Path, d: Path, before: Fs, root: Path, src: Path)
    requires FileEntry(settled, fs0, links, q, d, before, root, src)
    ensures forall a :: a < d && a in before ==> !before[a].Symlink?
    ensures src <= d ==> d in before
    ensures settled ==> q in fs0 && fs0[q].File?
  {
    if settled {
      SourceThere(fs0, before, q, d, src);
    } else {
      OneRoot(d, src, root);
    }
  }

  lemma MadeWay(settled: bool, fs0: Fs, links: Links, q: Path, d: Path, before: Fs, root: Path, src: Path, e: Errno)
    requires FileEntry(settled, fs0, links, q, d, before, root, src) && e != Failed
    requires e == NotExist ==> d !in before
    requires e == Done ==> d in before && (before[d] == Dir ==> forall n :: d + [n] !in before)
    ensures !(src <= d)
  {
    if settled {
      RefusedOnSource(fs0, before, q, d, src, e);
    } else {
      OneRoot(d, src, root);
    }
  }

  lemma FileStill(settled: bool, fs0: Fs, links: Links, q: Path, d: Path, before: Fs, now: Fs, o: Object, root: Path,
      src: Path)
    requires FileEntry(settled, fs0, links, q, d, before, root, src)
    requires Frame(before, now, d, src) && Get(now, q) == Some(o)
    ensures settled ==> Get(fs0, q) == Some(o)
  {
    if settled {
      FrameThrough(fs0, before, now, root, d, src);
      SourceSeen(fs0, now, root, q, src);
    }
  }

  lemma SourceThere(fs0: Fs, before: Fs, q: Path, d: Path, src: Path)
    requires Frame(fs0, before, d, src) || SourceWhole(fs0, before, src)
    requires MayLand(fs0, q, d, src)
    ensures src <= d ==> d in before
  {
    assert Get(before, src) == Get(fs0, src);
  }

  // What changes nothing but d keeps the frame around it.
  lemma OnlyThere(visited: set<Fs>, since: set<Fs>, before: Fs, now: Fs, d: Path, src: Path)
    requires forall h :: h in visited ==> h in since || OnlyAt(before, h, d)
    requires OnlyAt(before, now, d) && (!(src <= d) || (now == before && visited == since))
    ensures Frame(before, now, d, src) && States(visited, since, before, d, src)
    ensures (d in now && now[d].Symlink? ==> Get(before, d) == Get(now, d)) ==> NoNewLinks(before, now)
  {
  }

  lemma OnlyAtTrans(before: Fs, now: Fs, visited: set<Fs>, d: Path)
    requires OnlyAt(before, now, d)
    ensures forall h :: h in visited && OnlyAt(now, h, d) ==> OnlyAt(before, h, d)
  {
  }

  lemma FileLaid(fs0: Fs, links: Links, q: Path, d: Path, before: Fs, after: Fs)
    requires q in fs0 && (fs0[q].File? || (fs0[q].Symlink? && links.Kept?))
    requires OnlyAt(before, after, d) && Get(after, d) == Some(fs0[q])
    ensures Laid(fs0, links, q, d, before, after) && Complete(fs0, links, q)
  {
    CompleteLeaf(fs0, links, q);
    forall p | d <= p ensures Get(after, p) == Want(fs0, links, q, d, before, p) {
      if |p| > |d| {
        var r := p[|d|..];
        assert r == [r[0]] + r[1..];
        ViewOfLeaf(fs0, links, q, r[0], r[1..]);
      } else {
        assert p == d && p[|d|..] == [];
      }
    }
  }

  // ---- Directories: one entry after another ----

  // The first k entries have been copied, the rest of the destination is as it was.
  ghost predicate Copying(fs0: Fs, links: Links, q: Path, d: Path, before: Fs, now: Fs, names: seq<Name>, k: nat,
      src: Path) {
    && k <= |names| && Frame(before, now, d, src) && Get(now, d) == Some(Dir)
    && (forall p :: d <= p && p != d ==>
          Get(now, p) == if p[|d|] in names[..k] then Want(fs0, links, q, d, before, p) else Get(before, p))
  }

  lemma CopyingStarts(fs0: Fs, links: Links, q: Path, d: Path, before: Fs, now: Fs, names: seq<Name>, src: Path)
    requires WayOpened(before, now, d) && Get(now, d) == Some(Dir) && !(src <= d)
    ensures Copying(fs0, links, q, d, before, now, names, 0, src)
  {
  }

  lemma WayIsFrame(before: Fs, now: Fs, d: Path, src: Path)
    requires WayOpened(before, now, d) && !(src <= d)
    ensures Frame(before, now, d, src)
  {
  }

  // An entry of the destination directory, and the same entry's path relative to it.
  lemma Entered(d: Path, n: Name, p: Path)
    requires d + [n] <= p
    ensures d <= p && p != d && p[|d|] == n && p[|d|..] == [n] + p[|d| + 1..]
    ensures |d + [n]| == |d| + 1
  {
    assert d == (d + [n])[..|d|] == p[..|d|];
  }

  lemma ViewOfEntry(fs0: Fs, links: Links, q: Path, d: Path, n: Name, p: Path)
    requires Get(fs0, q) == Some(Dir) && d + [n] <= p
    ensures View(fs0, links, q, p[|d|..]) == View(fs0, links, q + [n], p[|d + [n]|..])
  {
    Entered(d, n, p);
    ViewBelow(fs0, links, q, q, n, p[|d| + 1..]);
  }

  lemma ChildReady(fs0: Fs, links: Links, q: Path, d: Path, before: Fs, now: Fs, names: seq<Name>, k: nat, root: Path,
      src: Path)
    requires Ready(fs0, links, q, d, before, root, src) && Get(fs0, q) == Some(Dir)
    requires Copying(fs0, links, q, d, before, now, names, k, src) && k < |names| && names[k] !in names[..k]
    ensures Ready(fs0, links, q + [names[k]], d + [names[k]], now, root, src)
  {
    var n := names[k];
    ChildApart(root, q, n, src);
    PassableEntry(fs0, links, q, d, n, src);
    FrameThrough(fs0, before, now, root, d, src);
    assert d == (d + [n])[..|d|];
    forall a | a < d + [n] && a in now ensures !now[a].Symlink? {
      assert |a| <= |d| && a == (d + [n])[..|a|] == d[..|a|];
      if a != d {
        assert a < d && !(d <= a);
        assert Get(now, a) == Get(before, a) || Get(now, a) == Some(Dir);
      } else {
        assert Get(now, a) == Some(Dir);
      }
    }
    forall p | d + [n] <= p && p in now && now[p].Symlink?
      ensures match View(fs0, links, q + [n], p[|d + [n]|..]) case Some(x) => Get(fs0, x) != Some(Dir) case None => true
    {
      Entered(d, n, p);
      ViewOfEntry(fs0, links, q, d, n, p);
    }
  }

  // Nothing that was settled is upset, and nothing else needs to be.
  lemma ChildLoose(links: Links, d: Path, n: Name, before: Fs, now: Fs, root: Path, src: Path)
    requires Loose(links, d, before, root, src)
    requires Frame(before, now, d, src) && NoNewLinks(before, now)
    ensures Loose(links, d + [n], now, root, src)
  {
    assert root <= d + [n];
    LooseStays(links, d, d + [n], before, now, root, src);
  }

  lemma FrameThrough(fs0: Fs, before: Fs, now: Fs, root: Path, d: Path, src: Path)
    requires root <= d && Frame(fs0, before, root, src) && Frame(before, now, d, src)
    ensures Frame(fs0, now, root, src)
  {
    forall p | !(root <= p) ensures Get(now, p) == Get(fs0, p)
        || (p <= root && Get(fs0, p) == None && Get(now, p) == Some(Dir)) {
      Shorter(root, d, p);
    }
  }

  lemma Shorter(root: Path, d: Path, p: Path)
    requires root <= d
    ensures d <= p ==> root <= p
    ensures p <= d ==> root <= p || p <= root
  {
    assert p <= d && |p| >= |root| ==> p[..|root|] == d[..|root|];
    assert d <= p ==> p[..|root|] == d[..|root|];
  }

  lemma ChildFrame(before: Fs, now: Fs, h: Fs, d: Path, n: Name, src: Path)
    requires Frame(before, now, d, src) && Get(now, d) == Some(Dir) && Frame(now, h, d + [n], src)
    ensures Frame(before, h, d, src)
  {
    assert d == (d + [n])[..|d|];
    forall p | !(d <= p) ensures Get(h, p) == Get(before, p)
        || (p <= d && Get(before, p) == None && Get(h, p) == Some(Dir)) {
      NotEntered(d, n, p);
    }
  }

  lemma NotEntered(d: Path, n: Name, p: Path)
    ensures d + [n] <= p ==> d <= p
    ensures p <= d + [n] ==> d <= p || p <= d
  {
    var e := d + [n];
    assert e[..|d|] == d;
    assert e <= p ==> p[..|d|] == e[..|d|];
    assert |p| == |e| && p <= e ==> p == e;
  }

  lemma CopyingNext(fs0: Fs, links: Links, q: Path, d: Path, before: Fs, now: Fs, next: Fs, names: seq<Name>, k: nat,
      src: Path)
    requires Get(fs0, q) == Some(Dir)
    requires Copying(fs0, links, q, d, before, now, names, k, src) && k < |names| && names[k] !in names[..k]
    requires Outcome(true, fs0, links, q + [names[k]], d + [names[k]], now, next, true, src)
    ensures Copying(fs0, links, q, d, before, next, names, k + 1, src)
  {
    var n := names[k];
    ChildFrame(before, now, next, d, n, src);
    assert names[..k + 1] == names[..k] + [n];
    forall p | d <= p && p != d
      ensures Get(next, p) == if p[|d|] in names[..k + 1] then Want(fs0, links, q, d, before, p) else Get(before, p)
    {
      CopyingNextAt(fs0, links, q, d, before, now, next, names, k, p, src);
    }
    assert !(d + [n] <= d);
  }

  lemma CopyingNextAt(fs0: Fs, links: Links, q: Path, d: Path, before: Fs, now: Fs, next: Fs,
        names: seq<Name>, k: nat, p: Path, src: Path)
    requires Get(fs0, q) == Some(Dir)
    requires Copying(fs0, links, q, d, before, now, names, k, src) && k < |names| && names[k] !in names[..k]
    requires Outcome(true, fs0, links, q + [names[k]], d + [names[k]], now, next, true, src)
    requires d <= p && p != d
    ensures p[|d|] == names[k] ==> Get(next, p) == Want(fs0, links, q, d, before, p)
    ensures p[|d|] != names[k] ==> Get(next, p) == Get(now, p)
  {
    var n := names[k];
    if p[|d|] == n {
      assert d + [n] <= p by { assert p[..|d| + 1] == d + [n]; }
      ViewOfEntry(fs0, links, q, d, n, p);
      assert Get(next, p) == Want(fs0, links, q + [n], d + [n], now, p);
    } else {
      assert !(d + [n] <= p) && !(p <= d + [n]) by {
        assert (d + [n])[|d|] == n;
      }
    }
  }

  lemma CopyingEnds(fs0: Fs, links: Links, q: Path, d: Path, before: Fs, now: Fs, names: seq<Name>, src: Path)
    requires Get(fs0, q) == Some(Dir) && names == Sorted(Children(fs0, q))
    requires Copying(fs0, links, q, d, before, now, names, |names|, src)
    ensures Laid(fs0, links, q, d, before, now)
  {
    ChildNames(fs0, q);
    forall p | d <= p ensures Get(now, p) == Want(fs0, links, q, d, before, p) {
      assert names[..|names|] == names;
      if p != d && p[|d|] !in names {
        NotAnEntry(fs0, links, q, d, before, p);
      } else if p == d {
        assert p[|d|..] == [];
      }
    }
  }

  lemma NotAnEntry(fs0: Fs, links: Links, q: Path, d: Path, before: Fs, p: Path)
    requires Get(fs0, q) == Some(Dir) && d <= p && p != d && q + [p[|d|]] !in fs0
    ensures Want(fs0, links, q, d, before, p) == Get(before, p)
  {
    var n, r := p[|d|], p[|d| + 1..];
    assert p[|d|..] == [n] + r;
    ViewBelow(fs0, links, q, q, n, r);
    NothingToView(fs0, links, q + [n], r);
  }

  function Room(disk: Disk, d: Path): nat {
    if |d| > disk.maxPath then 0 else disk.maxPath + 1 - |d|
  }

  // Every state since then keeps the frame around d.
  ghost predicate States(visited: set<Fs>, since: set<Fs>, before: Fs, d: Path, src: Path) {
    forall h :: h in visited ==> h in since || Frame(before, h, d, src)
  }

  lemma StatesChild(visited: set<Fs>, middle: set<Fs>, since: set<Fs>, before: Fs, now: Fs, d: Path, n: Name, src: Path)
    requires States(middle, since, before, d, src) && States(visited, middle, now, d + [n], src)
    requires Frame(before, now, d, src) && Get(now, d) == Some(Dir)
    ensures States(visited, since, before, d, src)
  {
    forall h | h in visited ensures h in since || Frame(before, h, d, src) {
      if h !in middle {
        ChildFrame(before, now, h, d, n, src);
      }
    }
  }

  lemma StatesOpened(visited: set<Fs>, since: set<Fs>, before: Fs, d: Path, src: Path)
    requires !(src <= d) && forall h :: h in visited ==> h in since || WayOpened(before, h, d)
    ensures States(visited, since, before, d, src)
  {
    forall h | h in visited && h !in since ensures Frame(before, h, d, src) {
      WayIsFrame(before, h, d, src);
    }
  }

  lemma DirOpen(settled: bool, fs0: Fs, links: Links, q: Path, d: Path, now: Fs, root: Path, src: Path)
    requires Entry(settled, fs0, links, q, d, now, root, src) && (settled ==> Get(fs0, q) == Some(Dir))
    ensures LinkFree(now, d) && !(src <= d)
  {
    if settled {
      PassableHere(fs0, links, q, d, src);
      assert d[|d|..] == [];
      forall a | a <= d && a in now ensures !now[a].Symlink? {
        assert a == d || a < d;
      }
    } else {
      OneRoot(d, src, root);
      forall a | a <= d && a in now ensures !now[a].Symlink? {
        OneRoot(d, a, root);
      }
    }
  }

  // The source directory still lists what it listed at the beginning.
  lemma DirListed(fs0: Fs, links: Links, q: Path, d: Path, before: Fs, now: Fs, root: Path, src: Path)
    requires Ready(fs0, links, q, d, before, root, src) && Frame(before, now, d, src)
    ensures Children(now, q) == Children(fs0, q) && Get(now, q) == Get(fs0, q)
  {
    FrameThrough(fs0, before, now, root, d, src);
    SourceSeen(fs0, now, root, q, src);
    SourceListed(fs0, now, root, q, src);
  }

  lemma SortedDistinct(names: seq<Name>, k: nat)
    requires Ascending(names) && k < |names|
    ensures names[k] !in names[..k]
  {
    LessTotal(names[k], names[k]);
  }

  lemma TotalNext(fs: Fs, q: Path, names: seq<Name>, k: nat)
    requires q in fs && k < |names|
    ensures TotalOf(fs, q, names[..k + 1]) == TotalOf(fs, q, names[..k]) + TotalAt(fs, q + [names[k]])
  {
    assert names[..k + 1][..k] == names[..k];
  }

  lemma DirTotal(fs: Fs, q: Path, names: seq<Name>)
    requires Get(fs, q) == Some(Dir) && names == Sorted(Children(fs, q))
    ensures TotalOf(fs, q, names[..0]) == 0
    ensures TotalAt(fs, q) == TotalOf(fs, q, names[..|names|])
  {
    assert names[..|names|] == names;
  }

  // The first k entries have been dealt with.
  ghost predicate Going(settled: bool, fs0: Fs, links: Links, q: Path, d: Path, before: Fs, now: Fs, names: seq<Name>,
      k: nat, root: Path, src: Path) {
    && k <= |names| && Frame(before, now, d, src) && Get(now, d) == Some(Dir)
    && (links.Followed? ==> NoNewLinks(before, now)) && Entry(settled, fs0, links, q, d, before, root, src)
    && (settled ==>
          && names == Sorted(Children(fs0, q)) && Get(fs0, q) == Some(Dir)
          && Copying(fs0, links, q, d, before, now, names, k, src) && EachComplete(fs0, links, q, names[..k]))
  }

  // The entries dealt with could be laid down where they were to go.
  ghost predicate EachSuits(fs0: Fs, links: Links, q: Path, d: Path, before: Fs, names: seq<Name>, force: bool,
      maxPath: nat) {
    forall n :: n in names ==> Suits(fs0, links, q + [n], d + [n], before, force, maxPath)
  }

  // The next entry fits where the copy has come to exactly if it suited the destination at the beginning.
  lemma EntryDecides(settled: bool, fs0: Fs, links: Links, q: Path, d: Path, before: Fs, now: Fs, names: seq<Name>,
      k: nat, root: Path, src: Path, force: bool, maxPath: nat)
    requires Going(settled, fs0, links, q, d, before, now, names, k, root, src) && k < |names|
    requires names[k] !in names[..k]
    ensures settled ==>
              && (Fits(fs0, links, q + [names[k]], d + [names[k]], now, force, maxPath)
                  <==> Suits(fs0, links, q + [names[k]], d + [names[k]], before, force, maxPath))
              && (Fits(fs0, links, q, d, before, force, maxPath) ==>
                    Suits(fs0, links, q + [names[k]], d + [names[k]], before, force, maxPath))
  {
    if settled {
      var n := names[k];
      NotYetTouched(fs0, links, q, d, before, now, names, k, src);
      SuitsStill(fs0, links, q + [n], d + [n], before, now, force, maxPath);
      EntryStands(fs0, links, q + [n], d, n, now, force, maxPath);
      if Suits(fs0, links, q, d, before, force, maxPath) {
        ChildNames(fs0, q);
        assert n in names;
        SuitsEntry(fs0, links, q, d, n, before, force, maxPath);
      }
      hide Suits, Standable, Going;
    }
  }

  lemma NotYetTouched(fs0: Fs, links: Links, q: Path, d: Path, before: Fs, now: Fs, names: seq<Name>, k: nat, src: Path)
    requires Copying(fs0, links, q, d, before, now, names, k, src) && k < |names| && names[k] !in names[..k]
    ensures SameBelow(before, now, d + [names[k]])
  {
    forall p | d + [names[k]] <= p ensures Get(now, p) == Get(before, p) {
      Entered(d, names[k], p);
    }
  }

  // In a directory that is there, whatever suits has the way to it open.
  lemma EntryStands(fs0: Fs, links: Links, s: Path, d: Path, n: Name, now: Fs, force: bool, maxPath: nat)
    requires Get(now, d) == Some(Dir)
    ensures Suits(fs0, links, s, d + [n], now, force, maxPath) ==> Standable(fs0, links, s, d + [n], now)
  {
    if Suits(fs0, links, s, d + [n], now, force, maxPath) {
      SuitsHere(fs0, links, s, d + [n], now, force, maxPath);
      assert (d + [n])[..|d + [n]| - 1] == d;
    }
  }

  lemma SuitsNext(settled: bool, fs0: Fs, links: Links, q: Path, d: Path, before: Fs, names: seq<Name>, k: nat,
      force: bool, maxPath: nat)
    requires k < |names|
    requires settled ==> EachSuits(fs0, links, q, d, before, names[..k], force, maxPath)
    requires settled ==> Suits(fs0, links, q + [names[k]], d + [names[k]], before, force, maxPath)
    ensures settled ==> EachSuits(fs0, links, q, d, before, names[..k + 1], force, maxPath)
  {
    assert names[..k + 1] == names[..k] + [names[k]];
    hide Suits;
  }

  lemma DirRefused(settled: bool, fs0: Fs, links: Links, q: Path, d: Path, before: Fs, force: bool, maxPath: nat)
    requires settled ==> Get(fs0, q) == Some(Dir)
    requires !(|d| <= maxPath && Opens(before, d))
    ensures settled ==> !Fits(fs0, links, q, d, before, force, maxPath)
  {
    if settled && Fits(fs0, links, q, d, before, force, maxPath) {
      SuitsHere(fs0, links, q, d, before, force, maxPath);
      assert false;
    }
  }

  lemma DirFits(settled: bool, fs0: Fs, links: Links, q: Path, d: Path, before: Fs, names: seq<Name>, force: bool,
      maxPath: nat)
    requires settled ==> Get(fs0, q) == Some(Dir) && names == Sorted(Children(fs0, q))
    requires settled ==> EachSuits(fs0, links, q, d, before, names[..|names|], force, maxPath)
    requires |d| <= maxPath && Opens(before, d) && (force || d !in before)
    ensures settled ==> Fits(fs0, links, q, d, before, force, maxPath)
  {
    if settled {
      ChildNames(fs0, q);
      assert names[..|names|] == names;
      assert FitsAt(fs0, links, q, d, before, force, maxPath);
      SuitsDir(fs0, links, q, d, before, force, maxPath);
    }
  }

  lemma DirStill(settled: bool, fs0: Fs, links: Links, q: Path, d: Path, before: Fs, now: Fs, root: Path, src: Path)
    requires Entry(settled, fs0, links, q, d, before, root, src) && (settled ==> Get(fs0, q) == Some(Dir))
    requires WayOpened(before, now, d) && !(src <= d)
    ensures settled ==> Get(now, q) == Some(Dir)
  {
    if settled {
      WayIsFrame(before, now, d, src);
      DirListed(fs0, links, q, d, before, now, root, src);
    }
  }

  // An answer without a promise: nothing was settled, or something failed for a reason of its own.
  lemma Undecided(settled: bool, fs0: Fs, links: Links, s: Path, d: Path, before: Fs, force: bool, maxPath: nat,
      noFault: bool)
    requires settled && noFault ==> !Fits(fs0, links, s, d, before, force, maxPath)
    ensures Decided(settled, fs0, links, s, d, before, force, maxPath, false, noFault)
  {
  }

  lemma Affirmed(settled: bool, fs0: Fs, links: Links, s: Path, d: Path, before: Fs, force: bool, maxPath: nat,
      noFault: bool)
    requires settled ==> Fits(fs0, links, s, d, before, force, maxPath)
    ensures Decided(settled, fs0, links, s, d, before, force, maxPath, true, noFault)
  {
  }

  lemma DecidedParts(settled: bool, fs0: Fs, links: Links, s: Path, d: Path, before: Fs, force: bool, maxPath: nat,
      ok: bool, noFault: bool)
    requires Decided(settled, fs0, links, s, d, before, force, maxPath, ok, noFault)
    ensures settled && ok ==> Fits(fs0, links, s, d, before, force, maxPath)
    ensures settled && noFault && !ok ==> !Fits(fs0, links, s, d, before, force, maxPath)
  {
  }

  lemma GoingStarts(settled: bool, fs0: Fs, links: Links, q: Path, d: Path, before: Fs, now: Fs, names: seq<Name>,
      root: Path, src: Path)
    requires Entry(settled, fs0, links, q, d, before, root, src) && (settled ==> Get(fs0, q) == Some(Dir))
    requires WayOpened(before, now, d) && Get(now, d) == Some(Dir) && !(src <= d)
    requires names == Sorted(Children(now, q))
    ensures Going(settled, fs0, links, q, d, before, now, names, 0, root, src)
  {
    WayIsFrame(before, now, d, src);
    hide Frame;
    if settled {
      DirListed(fs0, links, q, d, before, now, root, src);
      CopyingStarts(fs0, links, q, d, before, now, names, src);
    }
  }

  lemma GoingEntry(settled: bool, fs0: Fs, links: Links, q: Path, d: Path, before: Fs, now: Fs, names: seq<Name>,
      k: nat, root: Path, src: Path)
    requires Going(settled, fs0, links, q, d, before, now, names, k, root, src) && k < |names|
    requires names[k] !in names[..k]
    ensures Entry(settled, fs0, links, q + [names[k]], d + [names[k]], now, root, src)
  {
    hide Frame, Copying, Ready, Loose;
    if settled {
      ChildReady(fs0, links, q, d, before, now, names, k, root, src);
    } else {
      FollowedLoose(links, d, before, root, src);
      ChildLoose(links, d, names[k], before, now, root, src);
    }
  }

  lemma FollowedLoose(links: Links, d: Path, now: Fs, root: Path, src: Path)
    requires Loose(links, d, now, root, src)
    ensures links.Followed?
  {
  }

  lemma GoingNext(settled: bool, fs0: Fs, links: Links, q: Path, d: Path, before: Fs, now: Fs, next: Fs,
      names: seq<Name>, k: nat, root: Path, src: Path)
    requires Going(settled, fs0, links, q, d, before, now, names, k, root, src) && k < |names|
    requires names[k] !in names[..k]
    requires Outcome(settled, fs0, links, q + [names[k]], d + [names[k]], now, next, true, src)
    ensures Going(settled, fs0, links, q, d, before, next, names, k + 1, root, src)
  {
    ChildFrame(before, now, next, d, names[k], src);
    NewLinksTrans(before, now, next);
    if settled {
      CopyingNext(fs0, links, q, d, before, now, next, names, k, src);
      NextComplete(fs0, links, q, names, k, d, now, next, src);
      hide Frame;
    } else {
      StillDir(now, next, d, names[k], src);
      hide Frame;
    }
    hide NoNewLinks;
  }

  lemma StillDir(now: Fs, next: Fs, d: Path, n: Name, src: Path)
    requires Get(now, d) == Some(Dir) && Frame(now, next, d + [n], src)
    ensures Get(next, d) == Some(Dir)
  {
    assert !(d + [n] <= d);
  }

  lemma NewLinksTrans(before: Fs, now: Fs, next: Fs)
    ensures NoNewLinks(before, now) && NoNewLinks(now, next) ==> NoNewLinks(before, next)
  {
    if NoNewLinks(before, now) && NoNewLinks(now, next) {
      forall p | p in next && next[p].Symlink? ensures Get(before, p) == Get(next, p) {
        assert Get(now, p) == Get(next, p);
      }
    }
  }

  // It may end at any entry, with or without success.
  lemma GoingFails(settled: bool, fs0: Fs, links: Links, q: Path, d: Path, before: Fs, now: Fs, next: Fs,
      names: seq<Name>, k: nat, root: Path, src: Path)
    requires Going(settled, fs0, links, q, d, before, now, names, k, root, src) && k < |names|
    requires Outcome(settled, fs0, links, q + [names[k]], d + [names[k]], now, next, false, src)
    ensures Outcome(settled, fs0, links, q, d, before, next, false, src)
  {
    ChildFrame(before, now, next, d, names[k], src);
    NewLinksTrans(before, now, next);
    hide Frame, NoNewLinks;
  }

  lemma GoingEnds(settled: bool, fs0: Fs, links: Links, q: Path, d: Path, before: Fs, now: Fs, names: seq<Name>,
      root: Path, src: Path)
    requires Going(settled, fs0, links, q, d, before, now, names, |names|, root, src)
    ensures Outcome(settled, fs0, links, q, d, before, now, true, src)
  {
    if settled {
      CopyingEnds(fs0, links, q, d, before, now, names, src);
      AllComplete(fs0, links, q, names);
    }
  }

  lemma GoingFrame(settled: bool, fs0: Fs, links: Links, q: Path, d: Path, before: Fs, now: Fs, names: seq<Name>,
      k: nat, root: Path, src: Path)
    requires Going(settled, fs0, links, q, d, before, now, names, k, root, src)
    ensures Frame(before, now, d, src) && Get(now, d) == Some(Dir)
  {
  }

  lemma OnlyOpened(settled: bool, fs0: Fs, links: Links, q: Path, d: Path, before: Fs, now: Fs, src: Path)
    requires WayOpened(before, now, d) && !(src <= d)
    ensures Outcome(settled, fs0, links, q, d, before, now, false, src)
  {
    WayIsFrame(before, now, d, src);
  }

  // Keeping links, everything is settled.
  lemma KeptSettled(settled: bool, fs0: Fs, links: Links, s: Path, d: Path, now: Fs, root: Path, src: Path)
    requires Entry(settled, fs0, links, s, d, now, root, src)
    ensures links.Kept? ==> settled
  {
  }

  method CopyDir(disk: Disk, q: Path, d: Path, opts: Options, ghost settled: bool, ghost fs0: Fs, ghost root: Path,
      ghost src: Path)
      returns (ok: bool)
    requires Entry(settled, fs0, opts.links, q, d, disk.fs, root, src) && (settled ==> Get(fs0, q) == Some(Dir))
    requires opts.force || d !in disk.fs
    modifies disk
    ensures Outcome(settled, fs0, opts.links, q, d, old(disk.fs), disk.fs, ok, src)
    ensures States(disk.visited, old(disk.visited), old(disk.fs), d, src)
    ensures ok && opts.links.Kept? ==> disk.streamed == old(disk.streamed) + TotalAt(fs0, q)
    ensures disk.faults >= old(disk.faults)
    ensures Decided(settled, fs0, opts.links, q, d, old(disk.fs), opts.force, disk.maxPath, ok,
        disk.faults == old(disk.faults))
    decreases Room(disk, d), 0, 1
  {
    KeptSettled(settled, fs0, opts.links, q, d, disk.fs, root, src);
    assert settled ==> q in fs0;
    hide *;
    ghost var before, since, bytes, failed := disk.fs, disk.visited, disk.streamed, disk.faults;
    DirOpen(settled, fs0, opts.links, q, d, before, root, src);
    ok := disk.MkdirAll(d);
    OnlyOpened(settled, fs0, opts.links, q, d, before, disk.fs, src);
    StatesOpened(disk.visited, since, before, d, src);
    DirStill(settled, fs0, opts.links, q, d, before, disk.fs, root, src);
    if !ok {
      if disk.faults == failed {
        DirRefused(settled, fs0, opts.links, q, d, before, opts.force, disk.maxPath);
      }
      Undecided(settled, fs0, opts.links, q, d, before, opts.force, disk.maxPath, disk.faults == failed);
      return;
    }
    var listed, names := disk.ReadDir(q);
    if !listed {
      Undecided(settled, fs0, opts.links, q, d, before, opts.force, disk.maxPath, disk.faults == failed);
      return false;
    }
    GoingStarts(settled, fs0, opts.links, q, d, before, disk.fs, names, root, src);
    GoingList(settled, fs0, opts.links, q, d, before, disk.fs, names, root, src);
    ok := CopyEntries(disk, q, d, names, opts, settled, fs0, root, src, before, since);
    if ok {
      DirFits(settled, fs0, opts.links, q, d, before, names, opts.force, disk.maxPath);
      Affirmed(settled, fs0, opts.links, q, d, before, opts.force, disk.maxPath, disk.faults == failed);
    } else {
      Undecided(settled, fs0, opts.links, q, d, before, opts.force, disk.maxPath, disk.faults == failed);
    }
  }

  // The loop over the entries of a directory that has been made.
  method CopyEntries(disk: Disk, q: Path, d: Path, names: seq<Name>, opts: Options, ghost settled: bool, ghost fs0: Fs,
      ghost root: Path, ghost src: Path, ghost before: Fs, ghost since: set<Fs>)
      returns (ok: bool)
    requires Going(settled, fs0, opts.links, q, d, before, disk.fs, names, 0, root, src) && Ascending(names)
    requires States(disk.visited, since, before, d, src) && |d| <= disk.maxPath && (opts.links.Kept? ==> settled)
    modifies disk
    ensures Outcome(settled, fs0, opts.links, q, d, before, disk.fs, ok, src)
    ensures States(disk.visited, since, before, d, src)
    ensures ok && opts.links.Kept? ==>
              q in fs0 && disk.streamed == old(disk.streamed) + TotalOf(fs0, q, names[..|names|])
    ensures disk.faults >= old(disk.faults)
    ensures settled && ok ==>
              names == Sorted(Children(fs0, q)) && EachSuits(fs0, opts.links, q, d, before, names[..|names|],
                opts.force, disk.maxPath)
    ensures settled && !ok && disk.faults == old(disk.faults) ==>
              !Fits(fs0, opts.links, q, d, before, opts.force, disk.maxPath)
    decreases Room(disk, d), 0, 0
  {
    hide *;
    ghost var bytes, failed := disk.streamed, disk.faults;
    NoneYet(fs0, opts.links, q, d, before, names, opts.force, disk.maxPath);
    GoingList(settled, fs0, opts.links, q, d, before, disk.fs, names, root, src);
    for k := 0 to |names|
      invariant Going(settled, fs0, opts.links, q, d, before, disk.fs, names, k, root, src)
      invariant States(disk.visited, since, before, d, src)
      invariant opts.links.Kept? ==> disk.streamed == bytes + TotalOf(fs0, q, names[..k])
      invariant disk.faults >= failed
      invariant settled ==> EachSuits(fs0, opts.links, q, d, before, names[..k], opts.force, disk.maxPath)
    {
      ghost var now, middle, failedBefore := disk.fs, disk.visited, disk.faults;
      SortedDistinct(names, k);
      GoingEntry(settled, fs0, opts.links, q, d, before, now, names, k, root, src);
      if opts.links.Kept? {
        TotalNext(fs0, q, names, k);
      }
      RoomShrinks(disk, d, names[k]);
      EntryDecides(settled, fs0, opts.links, q, d, before, now, names, k, root, src, opts.force, disk.maxPath);
      ok := CopyChild(disk, q + [names[k]], d + [names[k]], opts, settled, fs0, root, src);
      DecidedParts(settled, fs0, opts.links, q + [names[k]], d + [names[k]], now, opts.force, disk.maxPath, ok,
          disk.faults == failedBefore);
      GoingFrame(settled, fs0, opts.links, q, d, before, now, names, k, root, src);
      StatesChild(disk.visited, middle, since, before, now, d, names[k], src);
      if !ok {
        GoingFails(settled, fs0, opts.links, q, d, before, now, disk.fs, names, k, root, src);
        return;
      }
      GoingNext(settled, fs0, opts.links, q, d, before, now, disk.fs, names, k, root, src);
      SuitsNext(settled, fs0, opts.links, q, d, before, names, k, opts.force, disk.maxPath);
    }
    GoingEnds(settled, fs0, opts.links, q, d, before, disk.fs, names, root, src);
    ok := true;
  }

  lemma NoneYet(fs0: Fs, links: Links, q: Path, d: Path, before: Fs, names: seq<Name>, force: bool, maxPath: nat)
    ensures EachSuits(fs0, links, q, d, before, names[..0], force, maxPath)
  {
  }

  lemma GoingList(settled: bool, fs0: Fs, links: Links, q: Path, d: Path, before: Fs, now: Fs, names: seq<Name>,
      root: Path, src: Path)
    requires Going(settled, fs0, links, q, d, before, now, names, 0, root, src)
    ensures settled ==> q in fs0 && TotalOf(fs0, q, names[..0]) == 0
    ensures settled ==> names == Sorted(Children(fs0, q))
    ensures settled ==> TotalAt(fs0, q) == TotalOf(fs0, q, names[..|names|])
  {
    if settled {
      DirTotal(fs0, q, names);
    }
  }

  ghost predicate EachComplete(fs: Fs, links: Links, q: Path, names: seq<Name>) {
    forall n :: n in names ==> Complete(fs, links, q + [n])
  }

  lemma NextComplete(fs0: Fs, links: Links, q: Path, names: seq<Name>, k: nat, d: Path, before: Fs, after: Fs,
      src: Path)
    requires k < |names| && EachComplete(fs0, links, q, names[..k])
    requires Outcome(true, fs0, links, q + [names[k]], d + [names[k]], before, after, true, src)
    ensures EachComplete(fs0, links, q, names[..k + 1])
  {
    assert names[..k + 1] == names[..k] + [names[k]];
  }

  lemma AllComplete(fs: Fs, links: Links, q: Path, names: seq<Name>)
    requires Get(fs, q) == Some(Dir) && names == Sorted(Children(fs, q))
    requires EachComplete(fs, links, q, names[..|names|])
    ensures Complete(fs, links, q)
  {
    assert names[..|names|] == names;
    ChildNames(fs, q);
    CompleteDir(fs, links, q);
  }

  lemma RoomShrinks(disk: Disk, d: Path, n: Name)
    requires |d| <= disk.maxPath
    ensures Room(disk, d + [n]) < Room(disk, d)
  {
  }

  // One entry of a directory being copied.
  method CopyChild(disk: Disk, s: Path, d: Path, opts: Options, ghost settled: bool, ghost fs0: Fs, ghost root: Path,
      ghost src: Path)
      returns (ok: bool)
    requires Entry(settled, fs0, opts.links, s, d, disk.fs, root, src)
    modifies disk
    ensures Outcome(settled, fs0, opts.links, s, d, old(disk.fs), disk.fs, ok, src)
    ensures States(disk.visited, old(disk.visited), old(disk.fs), d, src)
    ensures ok && opts.links.Kept? ==> disk.streamed == old(disk.streamed) + TotalAt(fs0, s)
    ensures disk.faults >= old(disk.faults)
    ensures Decided(settled, fs0, opts.links, s, d, old(disk.fs), opts.force, disk.maxPath, ok,
        disk.faults == old(disk.faults))
    decreases Room(disk, d), 4
  {
    var seen, o := disk.Lstat(s);
    if settled {
      SourceSeen(fs0, disk.fs, root, s, src);
      SourceHolds(fs0, disk.fs, root, s, src);
      ChildRefused(fs0, opts.links, s, d, disk.fs, opts.force, disk.maxPath);
    }
    if !seen {
      return false;
    }
    if !opts.force && d in disk.fs {
      return false;
    }
    hide Fits, Outcome, Frame, Laid, Complete;
    ok := CopyObject(disk, s, d, o, opts, settled, fs0, root, src);
  }

  lemma SourceHolds(fs0: Fs, now: Fs, root: Path, s: Path, src: Path)
    requires Frame(fs0, now, root, src) && Still(root, src, s)
    ensures s in now <==> s in fs0
  {
    assert Still(root, src, s) ==> Get(now, s) == Get(fs0, s);
  }

  lemma ChildRefused(fs0: Fs, links: Links, s: Path, d: Path, now: Fs, force: bool, maxPath: nat)
    ensures s !in fs0 ==> !Fits(fs0, links, s, d, now, force, maxPath)
    ensures !force && d in now ==> !Fits(fs0, links, s, d, now, force, maxPath)
  {
    if Fits(fs0, links, s, d, now, force, maxPath) {
      SuitsHere(fs0, links, s, d, now, force, maxPath);
    }
  }

  // Links, directories and files each their own way.
  method CopyObject(disk: Disk, s: Path, d: Path, o: Object, opts: Options, ghost settled: bool, ghost fs0: Fs,
      ghost root: Path, ghost src: Path)
    returns (ok: bool)
    requires Entry(settled, fs0, opts.links, s, d, disk.fs, root, src) && (settled ==> Get(fs0, s) == Some(o))
    requires opts.force || d !in disk.fs
    modifies disk
    ensures Outcome(settled, fs0, opts.links, s, d, old(disk.fs), disk.fs, ok, src)
    ensures States(disk.visited, old(disk.visited), old(disk.fs), d, src)
    ensures ok && opts.links.Kept? ==> disk.streamed == old(disk.streamed) + TotalAt(fs0, s)
    ensures disk.faults >= old(disk.faults)
    ensures Decided(settled, fs0, opts.links, s, d, old(disk.fs), opts.force, disk.maxPath, ok,
        disk.faults == old(disk.faults))
    decreases Room(disk, d), 3
  {
    hide Outcome, Frame, Complete, Laid, View, Decided;
    match o
    case Symlink(text) => ok := CopySymlink(disk, s, d, text, opts, settled, fs0, root, src);
    case Dir => ok := CopyDir(disk, s, d, opts, settled, fs0, root, src);
    case File(_) =>
      FileEnters(settled, fs0, opts.links, s, d, disk.fs, root, src);
      ok := CopyFile(disk, s, d, opts, settled, fs0, root, src);
  }

  lemma FileEnters(settled: bool, fs0: Fs, links: Links, s: Path, d: Path, now: Fs, root: Path, src: Path)
    requires Entry(settled, fs0, links, s, d, now, root, src)
    requires settled ==> Get(fs0, s).Some? && fs0[s].File?
    ensures FileEntry(settled, fs0, links, s, d, now, root, src)
    ensures links.Kept? ==> settled
  {
    if settled {
      PassableHere(fs0, links, s, d, src);
    } else {
      DirOpen(false, fs0, links, s, d, now, root, src);
    }
  }

  method CopySymlink(disk: Disk, s: Path, d: Path, text: string, opts: Options, ghost settled: bool, ghost fs0: Fs,
      ghost root: Path, ghost src: Path)
    returns (ok: bool)
    requires Entry(settled, fs0, opts.links, s, d, disk.fs, root, src)
    requires settled ==> Get(fs0, s) == Some(Symlink(text))
    requires opts.force || d !in disk.fs
    modifies disk
    ensures Outcome(settled, fs0, opts.links, s, d, old(disk.fs), disk.fs, ok, src)
    ensures States(disk.visited, old(disk.visited), old(disk.fs), d, src)
    ensures ok && opts.links.Kept? ==> disk.streamed == old(disk.streamed) + TotalAt(fs0, s)
    ensures disk.faults >= old(disk.faults)
    ensures Decided(settled, fs0, opts.links, s, d, old(disk.fs), opts.force, disk.maxPath, ok,
        disk.faults == old(disk.faults))
    decreases Room(disk, d), 2
  {
    hide Outcome, Frame, Complete, Laid, View, Decided;
    if opts.links.Kept? {
      LinkEnters(settled, fs0, opts.links, s, d, disk.fs, root, src);
      ok := RecreateLink(disk, s, d, text, opts, fs0, src);
    } else {
      ok := CopyTarget(disk, s, d, opts, settled, fs0, root, src);
    }
  }

  lemma LinkEnters(settled: bool, fs0: Fs, links: Links, s: Path, d: Path, now: Fs, root: Path, src: Path)
    requires Entry(settled, fs0, links, s, d, now, root, src) && links.Kept?
    requires settled ==> Get(fs0, s).Some? && fs0[s].Symlink?
    ensures settled && SourceWhole(fs0, now, src) && MayLand(fs0, s, d, src)
    ensures forall a :: a < d && a in now ==> !now[a].Symlink?
  {
    PassableHere(fs0, links, s, d, src);
  }

  // Not following: the same link text at the destination.
  method RecreateLink(disk: Disk, s: Path, d: Path, text: string, opts: Options, ghost fs0: Fs, ghost src: Path)
      returns (ok: bool)
    requires opts.links.Kept? && Get(fs0, s) == Some(Symlink(text)) && (opts.force || d !in disk.fs)
    requires SourceWhole(fs0, disk.fs, src) && MayLand(fs0, s, d, src)
    requires forall a :: a < d && a in disk.fs ==> !disk.fs[a].Symlink?
    modifies disk
    ensures Outcome(true, fs0, opts.links, s, d, old(disk.fs), disk.fs, ok, src)
    ensures States(disk.visited, old(disk.visited), old(disk.fs), d, src)
    ensures ok ==> disk.streamed == old(disk.streamed) + TotalAt(fs0, s)
    ensures disk.faults >= old(disk.faults)
    ensures Decided(true, fs0, opts.links, s, d, old(disk.fs), opts.force, disk.maxPath, ok,
        disk.faults == old(disk.faults))
  {
    hide Frame, SourceWhole, View, Complete, Want, MayLand, Fits;
    ghost var before, since := disk.fs, disk.visited;
    OnlyThere(since, since, before, before, d, src);
    var fault := disk.Fault();
    if fault {
      return false;
    }
    var e := disk.Remove(d);
    if e == Failed {
      FileBlocked(true, fs0, opts.links, s, d, before, opts.force, disk.maxPath);
      return false;
    }
    RefusedOnSource(fs0, before, s, d, src, e);
    ghost var now := disk.fs;
    OnlyThere(disk.visited, since, before, now, d, src);
    FileFitsExactly(true, fs0, opts.links, s, d, before, now, opts.force, disk.maxPath);
    ok := disk.MakeLink(d, text);
    OnlyAtTrans(before, now, disk.visited, d);
    OnlyThere(disk.visited, since, before, disk.fs, d, src);
    if ok {
      FileLaid(fs0, opts.links, s, d, before, disk.fs);
    }
  }

  // Following: whatever the link resolves to is copied as if it had been named. Nothing is done if
  // that is not known, or if it is the destination or holds it.
  method CopyTarget(disk: Disk, s: Path, d: Path, opts: Options, ghost settled: bool, ghost fs0: Fs, ghost root: Path,
      ghost src: Path)
      returns (ok: bool)
    requires opts.links.Followed? && Entry(settled, fs0, opts.links, s, d, disk.fs, root, src)
    requires settled ==> Get(fs0, s).Some? && fs0[s].Symlink?
    requires opts.force || d !in disk.fs
    modifies disk
    ensures Outcome(settled, fs0, opts.links, s, d, old(disk.fs), disk.fs, ok, src)
    ensures States(disk.visited, old(disk.visited), old(disk.fs), d, src)
    ensures s !in opts.links.resolved ==> !ok && disk.Same()
    ensures s in opts.links.resolved && Overlaps(opts.links.resolved[s], Standing(old(disk.fs), opts.links, d)) ==>
              !ok && disk.Same()
    ensures s in opts.links.resolved && d in opts.links.resolved && d in old(disk.fs) && old(disk.fs)[d].Symlink? ==>
              (opts.links.resolved[s] == opts.links.resolved[d] ==> !ok && disk.Same())
    ensures disk.faults >= old(disk.faults)
    ensures Decided(settled, fs0, opts.links, s, d, old(disk.fs), opts.force, disk.maxPath, ok,
        disk.faults == old(disk.faults))
    decreases Room(disk, d), 1
  {
    TargetRefused(settled, fs0, opts.links, s, d, disk.fs, root, src, opts.force, disk.maxPath);
    var fault := disk.Fault();
    if fault || s !in opts.links.resolved {
      return false;
    }
    var q := opts.links.resolved[s];
    if Overlaps(q, Standing(disk.fs, opts.links, d)) {
      return false;
    }
    var seen, o := disk.Lstat(q);
    if !seen {
      return false;
    }
    ghost var before, failed := disk.fs, disk.faults;
    TargetEnters(settled, fs0, opts.links, s, q, d, before, o, root, src);
    hide Entry, FileEntry, Frame, View, Complete, Laid, Fits;
    if o == Dir {
      ok := CopyDir(disk, q, d, opts, settled, fs0, root, src);
    } else {
      ok := CopyFile(disk, q, d, opts, settled, fs0, root, src);
    }
    TargetDecided(settled, fs0, opts.links, s, q, d, before, opts.force, disk.maxPath, ok, disk.faults == failed);
    if ok && settled {
      TargetLaid(fs0, opts.links, s, q, d, before, disk.fs);
      TargetComplete(fs0, opts.links, s, q);
    }
  }

  lemma TargetRefused(settled: bool, fs0: Fs, links: Links, s: Path, d: Path, now: Fs, root: Path, src: Path,
      force: bool, maxPath: nat)
    requires links.Followed? && Entry(settled, fs0, links, s, d, now, root, src)
    requires settled ==> Get(fs0, s).Some? && fs0[s].Symlink?
    ensures settled && s !in links.resolved ==> !Fits(fs0, links, s, d, now, force, maxPath)
    ensures settled && s in links.resolved && Overlaps(links.resolved[s], Standing(now, links, d)) ==>
              !Fits(fs0, links, s, d, now, force, maxPath)
    ensures settled && s in links.resolved ==> links.resolved[s] in now
  {
    if settled {
      if s in links.resolved {
        SourceSeen(fs0, now, root, links.resolved[s], src);
      }
      if Fits(fs0, links, s, d, now, force, maxPath) {
        SuitsHere(fs0, links, s, d, now, force, maxPath);
      }
    }
  }

  lemma TargetDecided(settled: bool, fs0: Fs, links: Links, s: Path, q: Path, d: Path, before: Fs, force: bool,
      maxPath: nat, ok: bool, noFault: bool)
    requires settled ==>
               && links.Followed? && s in fs0 && Deref(fs0, links, s) == Some(q) && Deref(fs0, links, q) == Some(q)
               && !Overlaps(q, Standing(before, links, d))
               && forall r :: View(fs0, links, s, r) == View(fs0, links, q, r)
    requires Decided(settled, fs0, links, q, d, before, force, maxPath, ok, noFault)
    ensures Decided(settled, fs0, links, s, d, before, force, maxPath, ok, noFault)
  {
    if settled {
      SuitsTarget(fs0, links, s, q, d, before, force, maxPath);
      if Suits(fs0, links, q, d, before, force, maxPath) {
        SuitsHere(fs0, links, q, d, before, force, maxPath);
      }
    }
  }

  lemma TargetEnters(settled: bool, fs0: Fs, links: Links, s: Path, q: Path, d: Path, now: Fs, o: Object, root: Path,
      src: Path)
    requires links.Followed? && Entry(settled, fs0, links, s, d, now, root, src)
    requires settled ==> Get(fs0, s).Some? && fs0[s].Symlink?
    requires s in links.resolved && links.resolved[s] == q && !Overlaps(q, Standing(now, links, d))
    requires Get(now, q) == Some(o)
    ensures o == Dir ==> Entry(settled, fs0, links, q, d, now, root, src) && (settled ==> Get(fs0, q) == Some(Dir))
    ensures o != Dir ==> FileEntry(settled, fs0, links, q, d, now, root, src)
    ensures settled ==> s in fs0 && forall r :: View(fs0, links, s, r) == View(fs0, links, q, r)
    ensures settled ==> Deref(fs0, links, s) == Some(q) && Deref(fs0, links, q) == Some(q)
  {
    if settled {
      SourceSeen(fs0, now, root, q, src);
      TargetView(fs0, links, s, q, d, now);
      if o == Dir {
        TargetReady(fs0, links, s, q, d, now, root, src);
      } else {
        PassableHere(fs0, links, q, d, src);
      }
    } else {
      DirOpen(false, fs0, links, s, d, now, root, src);
    }
  }

  lemma TargetView(fs0: Fs, links: Links, s: Path, q: Path, d: Path, now: Fs)
    requires links.Followed? && s in fs0 && fs0[s].Symlink? && s in links.resolved && links.resolved[s] == q
    requires q in fs0 && !fs0[q].Symlink?
    ensures forall r :: View(fs0, links, s, r) == View(fs0, links, q, r)
    ensures NoClash(fs0, links, s, d, now) ==> NoClash(fs0, links, q, d, now)
    ensures forall src: Path :: Passable(fs0, links, s, d, src) ==> Passable(fs0, links, q, d, src)
  {
    forall r ensures View(fs0, links, s, r) == View(fs0, links, q, r) {
      ViewDeref(fs0, links, s, q, r);
    }
  }

  lemma TargetLaid(fs0: Fs, links: Links, s: Path, q: Path, d: Path, before: Fs, after: Fs)
    requires forall r :: View(fs0, links, s, r) == View(fs0, links, q, r)
    requires Laid(fs0, links, q, d, before, after)
    ensures Laid(fs0, links, s, d, before, after)
  {
  }

  lemma TargetComplete(fs: Fs, links: Links, s: Path, q: Path)
    requires forall r :: View(fs, links, s, r) == View(fs, links, q, r)
    requires s in fs && Complete(fs, links, q)
    ensures Complete(fs, links, s)
  {
    assert Met(fs, links, q, []);
    forall r | Met(fs, links, s, r) ensures View(fs, links, s, r).Some? {
      assert r != [] ==> Met(fs, links, q, r);
    }
  }

  // The overlap test keeps a followed directory apart from the whole destination.
  lemma TargetReady(fs0: Fs, links: Links, s: Path, q: Path, d: Path, now: Fs, root: Path, src: Path)
    requires links.Followed? && Ready(fs0, links, s, d, now, root, src) && NoClash(fs0, links, q, d, now)
    requires Passable(fs0, links, q, d, src)
    requires s in fs0 && fs0[s].Symlink? && s in links.resolved && links.resolved[s] == q && Get(fs0, q) == Some(Dir)
    requires !Overlaps(q, Standing(now, links, d))
    ensures Ready(fs0, links, q, d, now, root, src)
  {
    assert d[|d|..] == [] && View(fs0, links, q, []) == Some(q);
    assert !(d in now && now[d].Symlink?);
    assert q <= root && |q| == |root| ==> q == root;
    assert q <= root && |q| < |root| ==> d[|q|] == root[|q|];
  }

  // ---- Copy ----

  // fs without anything at or below d.
  ghost function Emptied(fs: Fs, d: Path): Fs { map p | p in fs && !(d <= p) :: fs[p] }

  // A directory source under a forced replacement takes over the whole destination.
  ghost predicate Replaces(fs: Fs, src: Path, opts: Options) {
    opts.force && opts.replace && Get(fs, src) == Some(Dir)
  }

  // What the source's tree is laid over.
  ghost function Base(fs: Fs, src: Path, dst: Path, opts: Options): Fs {
    if Replaces(fs, src, opts) then Emptied(fs, dst) else fs
  }

  // A source inside the destination is not refused; replacing the destination removes it first.
  lemma SourceInsideDestination(fs: Fs, now: Fs, src: Path, dst: Path)
    requires dst < src && Thinned(fs, now, dst) && forall p :: dst <= p ==> p !in now
    ensures !Overlaps(src, dst) && now == Emptied(fs, dst) && forall p :: src <= p ==> p !in now
  {
    forall p | src <= p ensures p !in now {
      assert dst == src[..|dst|] == p[..|dst|];
    }
    forall p ensures Get(now, p) == Get(Emptied(fs, dst), p) {
      assert Get(now, p) == Get(fs, p) || (dst <= p && p !in now);
    }
    SameTable(now, Emptied(fs, dst));
  }

  lemma SameTable(a: Fs, b: Fs)
    requires forall p :: Get(a, p) == Get(b, p)
    ensures a == b
  {
    assert forall p :: p in a <==> p in b by {
      forall p ensures p in a <==> p in b {
        assert Get(a, p) == Get(b, p);
      }
    }
    forall p | p in a ensures a[p] == b[p] {
      assert Get(a, p) == Get(b, p);
    }
  }

  // A source inside the destination can be copied there if it is merged and the entry that would
  // land on the source itself, if there is one, is no directory while the source is.
  ghost predicate Upward(fs: Fs, src: Path, dst: Path, opts: Options)
    requires dst <= src
  {
    && !Replaces(fs, src, opts)
    && match View(fs, opts.links, src, src[|dst|..])
       case Some(q) => Get(fs, src) == Some(Dir) && Get(fs, q) != Some(Dir)
       case None => true
  }

  // What a copy asks of its caller: the overlap test is not misled, a source inside the destination
  // does not land on itself, followed links do not lead into the destination, and no link diverts it.
  ghost predicate Copyable(fs: Fs, src: Path, dst: Path, opts: Options) {
    && (src < dst ==> !StartsWithDots(dst[|src|]))
    && (dst < src ==> Upward(fs, src, dst, opts))
    && LinksOutside(fs, opts.links, dst, src)
    && (forall a :: a < dst && a in fs ==> !fs[a].Symlink?)
    && (Replaces(fs, src, opts) || NoClash(fs, opts.links, src, dst, fs))
  }

  // What it asks if links may lead anywhere: then no link may stand at the destination at all.
  ghost predicate LooselyCopyable(fs: Fs, src: Path, dst: Path, opts: Options) {
    && opts.links.Followed? && (src < dst ==> !StartsWithDots(dst[|src|])) && !(dst < src)
    && (forall p :: p < dst && p in fs ==> !fs[p].Symlink?)
    && (Replaces(fs, src, opts) || forall p :: dst <= p && p in fs ==> !fs[p].Symlink?)
    && (forall l :: l in opts.links.resolved && opts.links.resolved[l] in fs ==> !fs[opts.links.resolved[l]].Symlink?)
  }

  lemma {:induction false} ViewPrefix(fs: Fs, links: Links, s: Path, r: Path, k: nat)
    requires View(fs, links, s, r).Some? && k <= |r|
    ensures View(fs, links, s, r[..k]).Some?
  {
    if k < |r| {
      assert r[..|r| - 1][..k] == r[..k];
      ViewPrefix(fs, links, s, r[..|r| - 1], k);
    } else {
      assert r[..k] == r;
    }
  }

  // Under these conditions a copy leaves the source's own tree alone.
  lemma CopyablePassable(fs: Fs, src: Path, dst: Path, opts: Options)
    requires Copyable(fs, src, dst, opts) && !(src <= dst)
    ensures Passable(fs, opts.links, src, dst, src)
  {
    forall r | View(fs, opts.links, src, r).Some? && src <= dst + r
      ensures MayLand(fs, View(fs, opts.links, src, r).value, dst + r, src)
    {
      OneRoot(dst + r, src, dst);
      var rel := src[|dst|..];
      assert src[..|dst|] == (dst + r)[..|dst|] == dst;
      assert rel == r[..|rel|];
      ViewPrefix(fs, opts.links, src, r, |rel|);
      UpwardLands(fs, opts.links, src, rel, r);
      assert dst + rel == src;
    }
  }

  // What has entries below it is read as a directory.
  lemma InnerDir(fs: Fs, links: Links, s: Path, r: Path, k: nat)
    requires View(fs, links, s, r).Some? && k < |r|
    ensures View(fs, links, s, r[..k]).Some? && Get(fs, View(fs, links, s, r[..k]).value) == Some(Dir)
  {
    ViewPrefix(fs, links, s, r, k + 1);
    assert r[..k + 1][..k] == r[..k];
  }

  lemma UpwardLands(fs: Fs, links: Links, src: Path, rel: Path, r: Path)
    requires View(fs, links, src, r).Some? && rel <= r && rel != [] && Get(fs, src) == Some(Dir)
    requires match View(fs, links, src, rel) case Some(q) => Get(fs, q) != Some(Dir) case None => true
    ensures r == rel && Held(fs, src)
  {
    assert r[..|rel|] == rel;
    if |r| > |rel| {
      InnerDir(fs, links, src, r, |rel|);
      assert false;
    }
    ViewPrefix(fs, links, src, r, 1);
    assert r[..1] == [r[0]] && r[..1][..0] == [];
    assert src + [r[0]] in fs;
  }

  // A finished copy has laid nothing on the source's own tree.
  lemma FinishedClear(fs0: Fs, after: Fs, links: Links, src: Path, dst: Path, base: Fs)
    requires Passable(fs0, links, src, dst, src) && SourceWhole(fs0, after, src)
    requires Laid(fs0, links, src, dst, base, after)
    ensures Clear(fs0, links, src, dst, src)
  {
    assert Get(after, src) == Get(fs0, src);
    forall r | View(fs0, links, src, r).Some? ensures !(src <= dst + r) {
      assert dst <= dst + r && (dst + r)[|dst|..] == r;
      assert Get(after, dst + r) == Want(fs0, links, src, dst, base, dst + r);
    }
  }

  // What a copy needs to succeed: source and destination are apart or the source lies inside, there
  // is something to copy, the destination is free or may be overwritten, and every entry fits.
  ghost predicate CanCopy(fs: Fs, src: Path, dst: Path, opts: Options, maxPath: nat) {
    && !(src <= dst) && (opts.force || dst !in fs)
    && Fits(fs, opts.links, src, dst, Base(fs, src, dst, opts), opts.force, maxPath)
  }

  // Nothing outside the destination and nothing in the source changes at any point, wherever links
  // lead. Where it is settled what is copied, a copy in which nothing fails for a reason of its own
  // succeeds exactly if it can.
  method Copy(disk: Disk, src: Path, dst: Path, opts: Options) returns (ok: bool)
    requires Copyable(disk.fs, src, dst, opts) || LooselyCopyable(disk.fs, src, dst, opts)
    modifies disk
    ensures Frame(old(disk.fs), disk.fs, dst, src)
    ensures States(disk.visited, old(disk.visited), old(disk.fs), dst, src)
    ensures ok && Copyable(old(disk.fs), src, dst, opts) ==>
              && Laid(old(disk.fs), opts.links, src, dst, Base(old(disk.fs), src, dst, opts), disk.fs)
              && Complete(old(disk.fs), opts.links, src) && Clear(old(disk.fs), opts.links, src, dst, src)
    ensures src <= dst || (dst in old(disk.fs) && !opts.force) ==> !ok && disk.Same()
    ensures ok && opts.links.Kept? ==> disk.streamed == old(disk.streamed) + TotalAt(old(disk.fs), src)
    ensures disk.faults >= old(disk.faults)
    ensures ok && Copyable(old(disk.fs), src, dst, opts) ==> CanCopy(old(disk.fs), src, dst, opts, disk.maxPath)
    ensures disk.faults == old(disk.faults) && Copyable(old(disk.fs), src, dst, opts) ==>
              (ok <==> CanCopy(old(disk.fs), src, dst, opts, disk.maxPath))
  {
    ghost var fs0, since, failed := disk.fs, disk.visited, disk.faults;
    CannotCopy(fs0, src, dst, opts, disk.maxPath);
    ghost var settled := Copyable(fs0, src, dst, opts);
    if Overlaps(src, dst) {
      return false;
    }
    var seen, o := disk.Lstat(src);
    if !seen {
      return false;
    }
    if !opts.force {
      if dst in disk.fs {
        return false;
      }
    } else if opts.replace && o == Dir {
      var removed := disk.RemoveAll(dst);
      ThinnedFrames(disk.visited, since, fs0, disk.fs, dst, src);
      if !removed {
        return false;
      }
    }
    ghost var now, middle, failedBefore := disk.fs, disk.visited, disk.faults;
    BaseIs(fs0, src, dst, opts, now);
    TopEntry(settled, fs0, src, dst, opts, now);
    hide *;
    ok := CopyObject(disk, src, dst, o, opts, settled, fs0, dst, src);
    CopyDecided(settled, fs0, src, dst, opts, now, disk.maxPath, ok, disk.faults == failedBefore);
    CopyDone(settled, fs0, src, dst, opts, now, disk.fs, ok);
    StatesAfter(disk.visited, middle, since, fs0, now, dst, src);
  }

  lemma CannotCopy(fs: Fs, src: Path, dst: Path, opts: Options, maxPath: nat)
    ensures src !in fs ==> !CanCopy(fs, src, dst, opts, maxPath)
    ensures Overlaps(src, dst) ==> !CanCopy(fs, src, dst, opts, maxPath)
    ensures dst in fs && !opts.force ==> !CanCopy(fs, src, dst, opts, maxPath)
  {
  }

  // The destination as it is once it has been cleared, if it is to be.
  lemma BaseIs(fs0: Fs, src: Path, dst: Path, opts: Options, now: Fs)
    requires
      if Replaces(fs0, src, opts) then Thinned(fs0, now, dst) && forall p :: dst <= p ==> p !in now else now == fs0
    ensures now == Base(fs0, src, dst, opts)
  {
    if Replaces(fs0, src, opts) {
      forall p ensures Get(now, p) == Get(Emptied(fs0, dst), p) {
        assert Get(now, p) == Get(fs0, p) || (dst <= p && p !in now);
      }
      SameTable(now, Emptied(fs0, dst));
    }
  }

  lemma CopyDecided(settled: bool, fs0: Fs, src: Path, dst: Path, opts: Options, now: Fs, maxPath: nat, ok: bool,
      noFault: bool)
    requires settled ==> !(src <= dst)
    requires now == Base(fs0, src, dst, opts) && (opts.force || dst !in fs0)
    requires Decided(settled, fs0, opts.links, src, dst, now, opts.force, maxPath, ok, noFault)
    ensures settled && ok ==> CanCopy(fs0, src, dst, opts, maxPath)
    ensures settled && noFault && CanCopy(fs0, src, dst, opts, maxPath) ==> ok
  {
    hide Fits, Base;
  }

  lemma ThinnedFrames(visited: set<Fs>, since: set<Fs>, before: Fs, now: Fs, d: Path, src: Path)
    requires forall h :: h in visited ==> h in since || Thinned(before, h, d)
    requires Thinned(before, now, d) && !(src <= d) && !(d <= src)
    ensures States(visited, since, before, d, src) && Frame(before, now, d, src)
  {
    forall h | Thinned(before, h, d) ensures Frame(before, h, d, src) {
      forall p | src <= p ensures Get(h, p) == Get(before, p) {
        OneRoot(p, src, d);
      }
    }
  }

  // The state in which the tree is laid down: the original one, or that with the destination emptied.
  lemma TopReady(fs0: Fs, src: Path, dst: Path, opts: Options, now: Fs)
    requires Copyable(fs0, src, dst, opts) && !(src <= dst)
    requires Frame(fs0, now, dst, src)
    requires if Replaces(fs0, src, opts) then forall p :: dst <= p ==> p !in now else now == fs0
    ensures Ready(fs0, opts.links, src, dst, now, dst, src)
  {
    CopyablePassable(fs0, src, dst, opts);
    forall a | a < dst && a in now ensures !now[a].Symlink? {
      assert !(dst <= a);
      assert Get(now, a) == Get(fs0, a) || Get(now, a) == Some(Dir);
    }
  }

  lemma TopEntry(settled: bool, fs0: Fs, src: Path, dst: Path, opts: Options, now: Fs)
    requires if settled then Copyable(fs0, src, dst, opts) else LooselyCopyable(fs0, src, dst, opts)
    requires !(src <= dst) && Frame(fs0, now, dst, src)
    requires
      if Replaces(fs0, src, opts) then Thinned(fs0, now, dst) && forall p :: dst <= p ==> p !in now else now == fs0
    ensures Entry(settled, fs0, opts.links, src, dst, now, dst, src)
    ensures settled ==> Passable(fs0, opts.links, src, dst, src)
    ensures opts.links.Kept? ==> settled
  {
    if settled {
      CopyablePassable(fs0, src, dst, opts);
      TopReady(fs0, src, dst, opts, now);
    } else {
      TopLoose(fs0, src, dst, opts, now);
    }
  }

  lemma TopLoose(fs0: Fs, src: Path, dst: Path, opts: Options, now: Fs)
    requires LooselyCopyable(fs0, src, dst, opts) && !(src <= dst)
    requires
      if Replaces(fs0, src, opts) then Thinned(fs0, now, dst) && forall p :: dst <= p ==> p !in now else now == fs0
    ensures Loose(opts.links, dst, now, dst, src)
  {
    assert dst <= src ==> dst == src || dst < src;
    forall p | p in now ensures p in fs0 && fs0[p] == now[p] {
      assert Get(now, p) == Get(fs0, p) || p !in now;
    }
  }

  lemma CopyDone(settled: bool, fs0: Fs, src: Path, dst: Path, opts: Options, now: Fs, after: Fs, ok: bool)
    requires Frame(fs0, now, dst, src) && Outcome(settled, fs0, opts.links, src, dst, now, after, ok, src)
    requires if Replaces(fs0, src, opts) then forall p :: dst <= p ==> p !in now else now == fs0
    requires settled ==> Passable(fs0, opts.links, src, dst, src)
    ensures Frame(fs0, after, dst, src)
    ensures settled && ok ==>
              && Laid(fs0, opts.links, src, dst, Base(fs0, src, dst, opts), after)
              && Complete(fs0, opts.links, src) && Clear(fs0, opts.links, src, dst, src)
  {
    FrameTrans(fs0, now, after, dst, src);
    if settled && ok {
      forall p | dst <= p
        ensures Get(after, p) == Want(fs0, opts.links, src, dst, Base(fs0, src, dst, opts), p)
      {
        assert Get(now, p) == Get(Base(fs0, src, dst, opts), p);
      }
      FinishedClear(fs0, after, opts.links, src, dst, Base(fs0, src, dst, opts));
    }
  }

  lemma StatesAfter(visited: set<Fs>, middle: set<Fs>, since: set<Fs>, before: Fs, now: Fs, d: Path, src: Path)
    requires States(middle, since, before, d, src) && States(visited, middle, now, d, src) && Frame(before, now, d, src)
    ensures States(visited, since, before, d, src)
  {
    forall h | h in visited ensures h in since || Frame(before, h, d, src) {
      if h !in middle {
        FrameTrans(before, now, h, d, src);
      }
    }
  }

  // ---- In terms of the two trees ----

  // Everything but the root has a directory above it.
  ghost predicate WellFormed(fs: Fs) {
    forall p :: p in fs && p != [] ==> Get(fs, p[..|p| - 1]) == Some(Dir)
  }

  lemma {:induction false} NothingBelow(fs: Fs, d: Path, p: Path)
    requires WellFormed(fs) && d < p && p in fs
    ensures d in fs && fs[d] == Dir
    ensures p[..|d| + 1] in fs
    decreases |p|
  {
    var init := p[..|p| - 1];
    assert init in fs && fs[init] == Dir;
    if |p| == |d| + 1 {
      assert init == d && p[..|d| + 1] == p;
    } else {
      assert d < init && init[..|d| + 1] == p[..|d| + 1];
      NothingBelow(fs, d, init);
    }
  }

  lemma {:induction false} ViewKept(fs: Fs, s: Path, r: Path)
    requires WellFormed(fs)
    ensures View(fs, Kept, s, r) == if s + r in fs then Some(s + r) else None
  {
    if r == [] {
      assert s + r == s;
    } else {
      var init := r[..|r| - 1];
      ViewKept(fs, s, init);
      assert s + r == s + init + [r[|r| - 1]];
      assert (s + r)[..|s + r| - 1] == s + init;
    }
  }

  // Merging keeps what only the destination has; replacing leaves exactly the source's tree.
  // Links are copied as links.
  lemma CopiedTree(fs: Fs, src: Path, dst: Path, opts: Options, after: Fs, r: Path)
    requires WellFormed(fs) && opts.links.Kept? && Laid(fs, Kept, src, dst, Base(fs, src, dst, opts), after)
    ensures Get(after, dst + r) ==
              if src + r in fs then Some(fs[src + r])
              else if opts.force && opts.replace && Get(fs, src) == Some(Dir) then None
              else Get(fs, dst + r)
  {
    ViewKept(fs, src, r);
    assert (dst + r)[|dst|..] == r;
  }

  // Two paths leading to the same place are nested.
  lemma OneRoot(p: Path, a: Path, b: Path)
    ensures a <= p && b <= p ==> a <= b || b <= a
  {
    if a <= p && b <= p {
      assert a == p[..|a|] && b == p[..|b|];
    }
  }

  // Keeping links, in a file system as there are: which copies can succeed, entry by entry.
  lemma CanCopyExactly(fs: Fs, src: Path, dst: Path, opts: Options, maxPath: nat)
    requires WellFormed(fs) && opts.links.Kept?
    ensures var base := Base(fs, src, dst, opts);
            CanCopy(fs, src, dst, opts, maxPath) <==>
              && src in fs && !(src <= dst) && (opts.force || dst !in fs)
              && (if fs[src] == Dir then Opens(base, dst) else dst != [] && Get(base, dst[..|dst| - 1]) == Some(Dir))
              && (forall r :: src + r in fs ==>
                    |dst + r| <= maxPath && MakesWay(base, dst + r, fs[src + r], opts.force))
  {
    var base := Base(fs, src, dst, opts);
    SuitsKept(fs, src, dst, base, opts.force, maxPath);
    hide Base, Suits, Opens, WellFormed, MakesWay;
  }

  lemma SuitsKept(fs: Fs, s: Path, d: Path, now: Fs, force: bool, maxPath: nat)
    requires WellFormed(fs)
    ensures Suits(fs, Kept, s, d, now, force, maxPath) <==>
              s in fs && forall r :: s + r in fs ==> |d + r| <= maxPath && MakesWay(now, d + r, fs[s + r], force)
  {
    forall r ensures EntryAt(fs, Kept, s, r) == if s + r in fs then Some(s + r) else None {
      EntryKept(fs, s, r);
    }
    hide EntryAt, WellFormed, MakesWay;
    if Suits(fs, Kept, s, d, now, force, maxPath) {
      forall r | s + r in fs ensures |d + r| <= maxPath && MakesWay(now, d + r, fs[s + r], force) {
        assert EntryAt(fs, Kept, s, r) == Some(s + r);
      }
    }
  }

  lemma EntryKept(fs: Fs, s: Path, r: Path)
    requires WellFormed(fs)
    ensures EntryAt(fs, Kept, s, r) == if s + r in fs then Some(s + r) else None
  {
    if r == [] {
      assert s + r == s;
    } else {
      var init := r[..|r| - 1];
      ViewKept(fs, s, init);
      assert s + r == s + init + [r[|r| - 1]];
      assert (s + r)[..|s + r| - 1] == s + init;
    }
  }

  // A forced copy takes the place of a file that is there.
  lemma FileOverFile(fresher: Data, stale: Data, maxPath: nat)
    requires maxPath > 0
    ensures var fs: Fs := map[[] := Dir, ["s"] := File(fresher), ["d"] := File(stale)];
            var opts := Options(true, false, Kept);
            Copyable(fs, ["s"], ["d"], opts) && CanCopy(fs, ["s"], ["d"], opts, maxPath)
  {
    var fs: Fs := map[[] := Dir, ["s"] := File(fresher), ["d"] := File(stale)];
    var opts := Options(true, false, Kept);
    var src: Path, dst: Path := ["s"], ["d"];
    assert src[0][0] != dst[0][0];
    assert !(src <= dst) && !(dst <= src);
    CanCopyExactly(fs, ["s"], ["d"], opts, maxPath);
    assert ["d"][..0] == [];
    forall r | ["s"] + r in fs ensures r == [] {
      assert |["s"] + r| == 1 + |r|;
    }
    forall p | p in fs ensures !fs[p].Symlink? {
    }
    assert forall n :: |["d"] + [n]| == 2;
  }
}
