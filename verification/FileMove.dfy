// Moving, with and without following links, and adding up what a copy will stream.
module FileMove {
  import opened Wrappers
  import opened Sorting
  import opened FileTree
  import opened FileDisk
  import opened FileFits
  import opened FileCopy

  datatype RenameResult = Renamed | CrossDevice | Occupied | Refused

  // fs with the tree at src taken to dst.
  ghost predicate TreeMoved(before: Fs, after: Fs, src: Path, dst: Path) {
    forall p :: Get(after, p) ==
      if dst <= p then Get(before, src + p[|dst|..]) else if src <= p then None else Get(before, p)
  }

  // What rename(2) asks for where no directory is in the way: a place for the new name, and no file
  // in the place of a directory.
  predicate Renamable(fs: Fs, src: Path, dst: Path, maxPath: nat) {
    && dst != [] && |dst| <= maxPath && Get(fs, dst[..|dst| - 1]) == Some(Dir)
    && (dst in fs && fs[dst] != Dir ==> Get(fs, src) != Some(Dir))
    && !exists p :: p in fs && |p| == |dst| + 1 && dst <= p
  }

  // rename(2): atomic; an existing directory is replaced at most when it is empty, and then only if
  // the system does that; another file system is beyond its reach.
  method Rename(disk: Disk, src: Path, dst: Path) returns (r: RenameResult)
    requires !(src <= dst)
    modifies disk
    ensures r != Renamed ==> disk.Same()
    ensures r == Renamed ==> src in old(disk.fs) && TreeMoved(old(disk.fs), disk.fs, src, dst)
    ensures r == Renamed ==> forall p :: dst < p && |p| == |dst| + 1 ==> p !in old(disk.fs)
    ensures r == Renamed ==> disk.visited == old(disk.visited) + {disk.fs} && disk.streamed == old(disk.streamed)
    ensures disk.faults >= old(disk.faults)
    ensures disk.faults == old(disk.faults) && src in old(disk.fs) ==>
              if Get(old(disk.fs), dst) == Some(Dir) then r != Refused
              else r != Occupied && (Renamable(old(disk.fs), src, dst, disk.maxPath) ==> r != Refused)
  {
    var fault := disk.Fault();
    var cross: bool, onto: bool := *, *;
    if fault || src !in disk.fs {
      return Refused;
    } else if cross {
      return CrossDevice;
    } else if dst in disk.fs && disk.fs[dst] == Dir {
      if !onto || disk.fs[src] != Dir || exists p :: p in disk.fs && |p| == |dst| + 1 && dst <= p {
        return Occupied;
      }
    } else if !Renamable(disk.fs, src, dst, disk.maxPath) {
      return Refused;
    }
    MovedTreeIs(disk.fs, src, dst);
    disk.fs := MovedTree(disk.fs, src, dst);
    disk.visited := disk.visited + {disk.fs};
    r := Renamed;
  }

  function MovedTree(fs: Fs, src: Path, dst: Path): Fs {
    (map p | p in fs && !(src <= p) && !(dst <= p) :: fs[p])
      + (map p | p in Arrivals(fs, src, dst) :: fs[src + p[|dst|..]])
  }

  lemma MovedTreeIs(fs: Fs, src: Path, dst: Path)
    ensures TreeMoved(fs, MovedTree(fs, src, dst), src, dst)
  {
  }

  // Where the entries of the tree at src will stand.
  function Arrivals(fs: Fs, src: Path, dst: Path): (a: set<Path>)
    ensures forall p :: p in a <==> dst <= p && src + p[|dst|..] in fs
  {
    var a := set q | q in fs && src <= q :: dst + q[|src|..];
    assert forall p :: p in a <==> dst <= p && src + p[|dst|..] in fs by {
      forall p ensures p in a <==> dst <= p && src + p[|dst|..] in fs {
        if p in a {
          var q :| q in fs && src <= q && p == dst + q[|src|..];
          assert p[|dst|..] == q[|src|..] && q == src + q[|src|..];
        }
        if dst <= p && src + p[|dst|..] in fs {
          var q := src + p[|dst|..];
          assert q[|src|..] == p[|dst|..] && p == dst + p[|dst|..];
        }
      }
    }
    a
  }

  // ---- Nothing is lost on the way ----

  // Every entry of the source's tree can be read and stands at the destination.
  ghost predicate DestinationWhole(fs0: Fs, h: Fs, links: Links, src: Path, dst: Path) {
    Complete(fs0, links, src) && forall r :: Arrived(fs0, h, links, src, dst, r)
  }

  predicate Arrived(fs0: Fs, h: Fs, links: Links, src: Path, dst: Path, r: Path) {
    match View(fs0, links, src, r)
    case Some(q) => Get(h, dst + r) == Get(fs0, q)
    case None => true
  }

  // Nothing outside the two trees is removed or changed.
  ghost predicate OthersKept(fs0: Fs, h: Fs, src: Path, dst: Path) {
    forall p :: !(src <= p) && !(dst <= p) ==>
      Get(h, p) == Get(fs0, p) || (p <= dst && Get(fs0, p) == None && Get(h, p) == Some(Dir))
  }

  // What must be true of every state a move passes through.
  ghost predicate Safe(fs0: Fs, h: Fs, links: Links, src: Path, dst: Path) {
    && OthersKept(fs0, h, src, dst)
    && (SourceWhole(fs0, h, src) || DestinationWhole(fs0, h, links, src, dst))
  }

  ghost predicate AllSafe(visited: set<Fs>, since: set<Fs>, fs0: Fs, links: Links, src: Path, dst: Path) {
    forall h :: h in visited ==> h in since || Safe(fs0, h, links, src, dst)
  }

  lemma FrameSafe(fs0: Fs, h: Fs, links: Links, src: Path, dst: Path)
    requires Frame(fs0, h, dst, src)
    ensures Safe(fs0, h, links, src, dst) && SourceWhole(fs0, h, src)
  {
  }

  lemma StatesSafe(visited: set<Fs>, since: set<Fs>, fs0: Fs, links: Links, src: Path, dst: Path)
    requires States(visited, since, fs0, dst, src)
    ensures AllSafe(visited, since, fs0, links, src, dst)
  {
    forall h | h in visited && h !in since ensures Safe(fs0, h, links, src, dst) {
      FrameSafe(fs0, h, links, src, dst);
    }
  }

  lemma RenamedSafe(fs0: Fs, now: Fs, h: Fs, src: Path, dst: Path)
    requires Frame(fs0, now, dst, src) && src in now && TreeMoved(now, h, src, dst) && !(src <= dst) && !(dst <= src)
    ensures Safe(fs0, h, Kept, src, dst)
    ensures DestinationWhole(fs0, h, Kept, src, dst)
    ensures forall p :: src <= p ==> p !in h
  {
    forall p | src <= p ensures p !in h {
      OneRoot(p, src, dst);
      assert Get(h, p) == None;
    }
    assert Get(now, src) == Get(fs0, src);
    KeptComplete(fs0, src);
    forall r ensures Arrived(fs0, h, Kept, src, dst, r) {
      KeptView(fs0, src, r);
      assert Get(now, src + r) == Get(fs0, src + r);
      assert dst <= dst + r && (dst + r)[|dst|..] == r;
      assert Get(h, dst + r) == Get(now, src + r);
    }
  }

  // Without following links the view of a tree is the tree.
  lemma {:induction false} KeptView(fs: Fs, s: Path, r: Path)
    ensures match View(fs, Kept, s, r) case Some(q) => q == s + r && q in fs case None => true
  {
    if r == [] {
      assert s + r == s;
    } else {
      KeptView(fs, s, r[..|r| - 1]);
      assert s + r == s + r[..|r| - 1] + [r[|r| - 1]];
    }
  }

  lemma KeptComplete(fs: Fs, s: Path)
    requires s in fs
    ensures Complete(fs, Kept, s)
  {
  }

  // Once the copy is complete, taking the source away entry by entry is safe.
  lemma RemovalSafe(fs0: Fs, now: Fs, h: Fs, links: Links, src: Path, dst: Path)
    requires Frame(fs0, now, dst, src) && DestinationWhole(fs0, now, links, src, dst)
    requires Thinned(now, h, src) && Clear(fs0, links, src, dst, src)
    ensures Safe(fs0, h, links, src, dst) && DestinationWhole(fs0, h, links, src, dst)
  {
    forall r ensures Arrived(fs0, h, links, src, dst, r) {
      assert Arrived(fs0, now, links, src, dst, r);
    }
  }

  lemma LaidIsWhole(fs0: Fs, links: Links, src: Path, dst: Path, base: Fs, now: Fs)
    requires Laid(fs0, links, src, dst, base, now) && Complete(fs0, links, src)
    ensures DestinationWhole(fs0, now, links, src, dst)
  {
    forall r ensures Arrived(fs0, now, links, src, dst, r) {
      assert (dst + r)[|dst|..] == r;
      assert Get(now, dst + r) == Want(fs0, links, src, dst, base, dst + r);
    }
  }

  lemma RemovalStates(visited: set<Fs>, middle: set<Fs>, since: set<Fs>, fs0: Fs, now: Fs, links: Links,
        src: Path, dst: Path)
    requires AllSafe(middle, since, fs0, links, src, dst)
    requires forall h :: h in visited ==> h in middle || Thinned(now, h, src)
    requires Frame(fs0, now, dst, src) && DestinationWhole(fs0, now, links, src, dst)
    requires Clear(fs0, links, src, dst, src)
    ensures AllSafe(visited, since, fs0, links, src, dst)
  {
    forall h | h in visited && h !in since ensures Safe(fs0, h, links, src, dst) {
      if h !in middle {
        RemovalSafe(fs0, now, h, links, src, dst);
      }
    }
  }

  // The copy has landed; what is left of the move is taking the source away.
  ghost predicate Landed(fs0: Fs, now: Fs, links: Links, src: Path, dst: Path, visited: set<Fs>, since: set<Fs>) {
    && Clear(fs0, links, src, dst, src) && Frame(fs0, now, dst, src)
    && DestinationWhole(fs0, now, links, src, dst) && AllSafe(visited, since, fs0, links, src, dst)
  }

  lemma LandedByCopy(fs0: Fs, now: Fs, src: Path, dst: Path, opts: Options, visited: set<Fs>, since: set<Fs>)
    requires Clear(fs0, opts.links, src, dst, src)
    requires Frame(fs0, now, dst, src) && Complete(fs0, opts.links, src) && States(visited, since, fs0, dst, src)
    requires Laid(fs0, opts.links, src, dst, Base(fs0, src, dst, opts), now)
    ensures Landed(fs0, now, opts.links, src, dst, visited, since)
  {
    StatesSafe(visited, since, fs0, opts.links, src, dst);
    LaidIsWhole(fs0, opts.links, src, dst, Base(fs0, src, dst, opts), now);
  }

  lemma LandedSafe(fs0: Fs, now: Fs, links: Links, src: Path, dst: Path, visited: set<Fs>, since: set<Fs>)
    requires Landed(fs0, now, links, src, dst, visited, since)
    ensures Safe(fs0, now, links, src, dst) && DestinationWhole(fs0, now, links, src, dst)
    ensures AllSafe(visited, since, fs0, links, src, dst)
  {
    FrameSafe(fs0, now, links, src, dst);
  }

  // The last step of both moves.
  method RemoveSource(disk: Disk, src: Path, dst: Path, links: Links, ghost fs0: Fs, ghost since: set<Fs>)
    returns (ok: bool)
    requires Landed(fs0, disk.fs, links, src, dst, disk.visited, since)
    modifies disk
    ensures AllSafe(disk.visited, since, fs0, links, src, dst)
    ensures Safe(fs0, disk.fs, links, src, dst) && DestinationWhole(fs0, disk.fs, links, src, dst)
    ensures ok ==> forall p :: src <= p ==> p !in disk.fs
    ensures OnlyBelow(old(disk.fs), disk.fs, src)
    ensures disk.streamed == old(disk.streamed)
    ensures disk.faults >= old(disk.faults) && (disk.faults == old(disk.faults) && src in old(disk.fs) ==> ok)
  {
    ghost var now, middle := disk.fs, disk.visited;
    LandedParts(fs0, now, links, src, dst, middle, since);
    hide *;
    ok := disk.RemoveAll(src);
    ThinnedOnly(now, disk.fs, src);
    RemovalSafe(fs0, now, disk.fs, links, src, dst);
    RemovalStates(disk.visited, middle, since, fs0, now, links, src, dst);
  }

  ghost predicate OnlyBelow(before: Fs, after: Fs, src: Path) {
    forall p :: !(src <= p) ==> Get(after, p) == Get(before, p)
  }

  lemma ThinnedOnly(before: Fs, after: Fs, src: Path)
    requires Thinned(before, after, src)
    ensures OnlyBelow(before, after, src)
  {
  }

  // ---- Move ----

  // What a successful move has done: the source is gone, the destination is as a copy would have left it.
  ghost predicate Moved(fs0: Fs, h: Fs, src: Path, dst: Path, opts: Options) {
    && (forall p :: src <= p ==> p !in h)
    && Laid(fs0, opts.links, src, dst, Emptied(Base(fs0, src, dst, opts), src), h)
    && DestinationWhole(fs0, h, opts.links, src, dst)
    && OthersKept(fs0, h, src, dst)
  }

  // Just before the tree is moved: the destination may have been emptied to be replaced.
  ghost predicate Cleared(fs0: Fs, now: Fs, src: Path, dst: Path, opts: Options) {
    && !(src <= dst) && Frame(fs0, now, dst, src) && (opts.force || dst !in fs0)
    && (now == fs0 || (Replaces(fs0, src, opts) && !(dst <= src) && forall p :: dst <= p ==> p !in now))
  }

  // What both moves promise whichever step fails.
  ghost predicate MoveOutcome(fs0: Fs, h: Fs, src: Path, dst: Path, opts: Options, ok: bool,
        visited: set<Fs>, since: set<Fs>) {
    && AllSafe(visited, since, fs0, opts.links, src, dst) && Safe(fs0, h, opts.links, src, dst)
    && (ok ==> Moved(fs0, h, src, dst, opts))
  }

  lemma NothingDone(fs: Fs, src: Path, dst: Path, opts: Options, visited: set<Fs>)
    ensures MoveOutcome(fs, fs, src, dst, opts, false, visited, visited)
  {
  }

  lemma GaveUp(fs0: Fs, now: Fs, src: Path, dst: Path, opts: Options, visited: set<Fs>, since: set<Fs>)
    requires Frame(fs0, now, dst, src) && States(visited, since, fs0, dst, src)
    ensures MoveOutcome(fs0, now, src, dst, opts, false, visited, since)
  {
    FrameSafe(fs0, now, opts.links, src, dst);
    StatesSafe(visited, since, fs0, opts.links, src, dst);
  }

  // A destination that could be renamed onto has nothing below it that a copy would have kept.
  lemma RenamedLaid(fs0: Fs, now: Fs, h: Fs, src: Path, dst: Path, opts: Options)
    requires WellFormed(fs0) && Cleared(fs0, now, src, dst, opts) && opts.links.Kept? && !(dst <= src)
    requires src in now && TreeMoved(now, h, src, dst)
    requires forall p :: dst < p && |p| == |dst| + 1 ==> p !in now
    ensures Laid(fs0, Kept, src, dst, Base(fs0, src, dst, opts), h)
  {
    ClearedParts(fs0, now, src, dst, opts);
    forall p | dst <= p ensures Get(h, p) == Want(fs0, Kept, src, dst, Base(fs0, src, dst, opts), p) {
      RenamedAt(fs0, now, h, src, dst, opts, p);
    }
  }

  lemma RenamedAt(fs0: Fs, now: Fs, h: Fs, src: Path, dst: Path, opts: Options, p: Path)
    requires WellFormed(fs0) && Cleared(fs0, now, src, dst, opts) && SourceWhole(fs0, now, src)
    requires src in now && TreeMoved(now, h, src, dst) && dst <= p
    requires forall c :: dst < c && |c| == |dst| + 1 ==> c !in now
    ensures Get(h, p) == Want(fs0, Kept, src, dst, Base(fs0, src, dst, opts), p)
  {
    hide View, WellFormed, Cleared, Base, Replaces;
    var r := p[|dst|..];
    ViewKept(fs0, src, r);
    assert Get(h, p) == Get(now, src + r) == Get(fs0, src + r);
    if src + r !in fs0 {
      assert Get(now, src) == Get(fs0, src);
      assert r == [] ==> src + r == src;
      NotKeptBelow(fs0, now, src, dst, opts, p);
    }
  }

  lemma NotKeptBelow(fs0: Fs, now: Fs, src: Path, dst: Path, opts: Options, p: Path)
    requires WellFormed(fs0) && Cleared(fs0, now, src, dst, opts) && dst < p
    requires forall c :: dst < c && |c| == |dst| + 1 ==> c !in now
    ensures p !in Base(fs0, src, dst, opts)
  {
    assert p[..|dst| + 1][..|dst|] == p[..|dst|];
    if p in fs0 && !Replaces(fs0, src, opts) {
      NothingBelow(fs0, dst, p);
      assert false;
    }
  }

  lemma MovedByRename(fs0: Fs, now: Fs, h: Fs, src: Path, dst: Path, opts: Options,
      middle: set<Fs>, visited: set<Fs>, since: set<Fs>)
    requires WellFormed(fs0) && Cleared(fs0, now, src, dst, opts) && opts.links.Kept?
    requires src in now && TreeMoved(now, h, src, dst)
    requires forall p :: dst < p && |p| == |dst| + 1 ==> p !in now
    requires States(middle, since, fs0, dst, src) && visited == middle + {h}
    ensures MoveOutcome(fs0, h, src, dst, opts, true, visited, since)
  {
    NotIntoParent(fs0, now, src, dst, opts);
    RenamedSafe(fs0, now, h, src, dst);
    RenamedLaid(fs0, now, h, src, dst, opts);
    StatesSafe(middle, since, fs0, Kept, src, dst);
    ApartClear(fs0, Kept, src, dst);
    LaidWithout(fs0, src, dst, opts, h);
  }

  lemma ApartClear(fs: Fs, links: Links, src: Path, dst: Path)
    requires !(src <= dst) && !(dst <= src)
    ensures Clear(fs, links, src, dst, src)
  {
    forall r: Path ensures !(src <= dst + r) {
      OneRoot(dst + r, src, dst);
    }
  }

  // No directory above the source can be renamed onto: it holds something.
  lemma NotIntoParent(fs0: Fs, now: Fs, src: Path, dst: Path, opts: Options)
    requires WellFormed(fs0) && Cleared(fs0, now, src, dst, opts) && src in now
    requires forall p :: dst < p && |p| == |dst| + 1 ==> p !in now
    ensures !(dst <= src)
  {
    if dst <= src {
      var c := src[..|dst| + 1];
      assert dst < c && |c| == |dst| + 1;
      NothingBelow(fs0, dst, src);
      assert false;
    }
  }

  // What is laid down does not need the source to stay.
  lemma LaidWithout(fs0: Fs, src: Path, dst: Path, opts: Options, h: Fs)
    requires Laid(fs0, opts.links, src, dst, Base(fs0, src, dst, opts), h)
    requires Clear(fs0, opts.links, src, dst, src) && forall p :: src <= p ==> p !in h
    ensures Laid(fs0, opts.links, src, dst, Emptied(Base(fs0, src, dst, opts), src), h)
  {
    ghost var base := Base(fs0, src, dst, opts);
    forall p | dst <= p ensures Get(h, p) == Want(fs0, opts.links, src, dst, Emptied(base, src), p) {
      assert dst + p[|dst|..] == p;
      assert Get(h, p) == Want(fs0, opts.links, src, dst, base, p);
    }
  }

  // The options of the copy a move falls back to: the decision to overwrite has been made.
  function Forced(opts: Options): Options { opts.(force := true) }

  lemma FallbackCopyable(fs0: Fs, now: Fs, src: Path, dst: Path, opts: Options)
    requires WellFormed(fs0) && Copyable(fs0, src, dst, opts) && Cleared(fs0, now, src, dst, opts) && opts.links.Kept?
    ensures Copyable(now, src, dst, Forced(opts))
  {
    assert Get(now, src) == Get(fs0, src);
    if dst < src {
      SameView(fs0, now, src, src[|dst|..]);
      if src in fs0 {
        NothingBelow(fs0, dst, src);
      }
    }
    forall a | a < dst && a in now ensures !now[a].Symlink? {
      assert !(dst <= a);
      assert Get(now, a) == Get(fs0, a) || Get(now, a) == Some(Dir);
    }
  }

  lemma {:induction false} SameView(fs0: Fs, now: Fs, src: Path, r: Path)
    requires SourceWhole(fs0, now, src)
    ensures View(now, Kept, src, r) == View(fs0, Kept, src, r)
    ensures match View(fs0, Kept, src, r) case Some(q) => Get(now, q) == Get(fs0, q) case None => true
  {
    KeptView(fs0, src, r);
    assert Get(now, src + r) == Get(fs0, src + r);
    if r == [] {
      assert Get(now, src) == Get(fs0, src);
    } else {
      var init, n := r[..|r| - 1], r[|r| - 1];
      SameView(fs0, now, src, init);
      KeptView(fs0, src, init);
      assert src + r == src + init + [n];
    }
  }

  lemma FallbackLaid(fs0: Fs, now: Fs, after: Fs, src: Path, dst: Path, opts: Options)
    requires WellFormed(fs0) && Cleared(fs0, now, src, dst, opts) && opts.links.Kept?
    requires Laid(now, Kept, src, dst, Base(now, src, dst, Forced(opts)), after)
    ensures Laid(fs0, Kept, src, dst, Base(fs0, src, dst, opts), after)
  {
    FrameSafe(fs0, now, Kept, src, dst);
    forall p | dst <= p ensures Get(after, p) == Want(fs0, Kept, src, dst, Base(fs0, src, dst, opts), p) {
      var r := p[|dst|..];
      SameView(fs0, now, src, r);
      assert Get(after, p) == Want(now, Kept, src, dst, Base(now, src, dst, Forced(opts)), p);
      SameBase(fs0, now, src, dst, opts, p);
    }
  }

  lemma SameBase(fs0: Fs, now: Fs, src: Path, dst: Path, opts: Options, p: Path)
    requires WellFormed(fs0) && Cleared(fs0, now, src, dst, opts) && dst <= p
    ensures Get(Base(now, src, dst, Forced(opts)), p) == Get(Base(fs0, src, dst, opts), p)
  {
    assert Get(now, src) == Get(fs0, src);
    if !opts.force && p in fs0 {
      if p != dst {
        NothingBelow(fs0, dst, p);
      }
      assert false;
    }
  }

  // What could be copied at first can be copied now that the destination has been cleared.
  lemma FallbackCan(fs0: Fs, now: Fs, src: Path, dst: Path, opts: Options, maxPath: nat)
    requires WellFormed(fs0) && Cleared(fs0, now, src, dst, opts) && opts.links.Kept?
    ensures now == Base(fs0, src, dst, opts) && CanCopy(fs0, src, dst, opts, maxPath) ==>
              CanCopy(now, src, dst, Forced(opts), maxPath)
  {
    if now == Base(fs0, src, dst, opts) && CanCopy(fs0, src, dst, opts, maxPath) {
      ClearedParts(fs0, now, src, dst, opts);
      ClearedAlready(fs0, now, src, dst, opts);
      SuitsSame(fs0, now, src, dst, now, opts.force, maxPath);
      assert Get(now, src) == Get(fs0, src);
      hide WellFormed, Cleared, Base, Suits, SourceWhole, Frame;
    }
  }

  lemma ClearedAlready(fs0: Fs, now: Fs, src: Path, dst: Path, opts: Options)
    requires WellFormed(fs0) && Cleared(fs0, now, src, dst, opts) && now == Base(fs0, src, dst, opts)
    ensures Base(now, src, dst, Forced(opts)) == now
  {
    assert Get(now, src) == Get(fs0, src);
    if Replaces(now, src, Forced(opts)) {
      forall p | dst <= p ensures p !in now {
        if !opts.force && p in fs0 && p != dst {
          NothingBelow(fs0, dst, p);
        }
      }
    }
  }

  // Allowing what is there to be overwritten makes nothing harder.
  lemma SuitsSame(fs0: Fs, now: Fs, src: Path, dst: Path, base: Fs, force: bool, maxPath: nat)
    requires SourceWhole(fs0, now, src) && Suits(fs0, Kept, src, dst, base, force, maxPath)
    ensures Suits(now, Kept, src, dst, base, true, maxPath)
  {
    assert Get(now, src) == Get(fs0, src);
    forall r | EntryAt(now, Kept, src, r).Some?
      ensures var x := EntryAt(now, Kept, src, r).value;
              x in now && FitsAt(now, Kept, x, dst + r, base, true, maxPath)
    {
      SameEntry(fs0, now, src, r);
      var x := EntryAt(now, Kept, src, r).value;
      assert FitsAt(fs0, Kept, x, dst + r, base, force, maxPath);
    }
  }

  lemma SameEntry(fs0: Fs, now: Fs, src: Path, r: Path)
    requires SourceWhole(fs0, now, src)
    ensures EntryAt(now, Kept, src, r) == EntryAt(fs0, Kept, src, r)
    ensures match EntryAt(fs0, Kept, src, r) case Some(x) => Get(now, x) == Get(fs0, x) case None => true
  {
    assert Get(now, src) == Get(fs0, src);
    if r != [] {
      var init, n := r[..|r| - 1], r[|r| - 1];
      SameView(fs0, now, src, init);
      KeptView(fs0, src, init);
      assert src + r == src + init + [n];
      assert Get(now, src + r) == Get(fs0, src + r);
    }
  }

  // The source is still there when the copy has landed.
  lemma StillToTake(fs0: Fs, landed: Fs, src: Path, dst: Path, opts: Options, maxPath: nat)
    requires Frame(fs0, landed, dst, src)
    ensures CanCopy(fs0, src, dst, opts, maxPath) ==> src in landed
  {
    assert Get(landed, src) == Get(fs0, src);
  }

  // Across file systems, or into a directory that is not empty: copy, then remove the source.
  method CopyAcross(disk: Disk, src: Path, dst: Path, opts: Options, ghost fs0: Fs, ghost since: set<Fs>)
    returns (ok: bool)
    requires WellFormed(fs0) && opts.links.Kept? && Copyable(fs0, src, dst, opts)
    requires Cleared(fs0, disk.fs, src, dst, opts) && States(disk.visited, since, fs0, dst, src)
    modifies disk
    ensures MoveOutcome(fs0, disk.fs, src, dst, opts, ok, disk.visited, since)
    ensures ok ==> disk.streamed == old(disk.streamed) + TotalAt(fs0, src)
    ensures disk.faults >= old(disk.faults)
    ensures disk.faults == old(disk.faults) && old(disk.fs) == Base(fs0, src, dst, opts) ==>
              (CanCopy(fs0, src, dst, opts, disk.maxPath) ==> ok)
  {
    ghost var now, middle, failed := disk.fs, disk.visited, disk.faults;
    FallbackCopyable(fs0, now, src, dst, opts);
    FallbackCan(fs0, now, src, dst, opts, disk.maxPath);
    ClearedParts(fs0, now, src, dst, opts);
    SameTotal(fs0, now, src);
    hide *;
    ok := Copy(disk, src, dst, Forced(opts));
    FrameTrans(fs0, now, disk.fs, dst, src);
    StatesAfter(disk.visited, middle, since, fs0, now, dst, src);
    if !ok {
      GaveUp(fs0, disk.fs, src, dst, opts, disk.visited, since);
      return;
    }
    ForcedKept(opts);
    FallbackLaid(fs0, now, disk.fs, src, dst, opts);
    CompleteBefore(fs0, now, src);
    ClearBefore(fs0, now, src, dst);
    LandedByCopy(fs0, disk.fs, src, dst, opts, disk.visited, since);
    ghost var landed := disk.fs;
    LandedParts(fs0, landed, opts.links, src, dst, disk.visited, since);
    StillToTake(fs0, landed, src, dst, opts, disk.maxPath);
    ok := RemoveSource(disk, src, dst, opts.links, fs0, since);
    MovedByCopy(fs0, landed, disk.fs, src, dst, opts, ok, disk.visited, since);
  }

  lemma ForcedKept(opts: Options)
    ensures Forced(opts).links == opts.links
  {
  }

  lemma ClearedParts(fs0: Fs, now: Fs, src: Path, dst: Path, opts: Options)
    requires Cleared(fs0, now, src, dst, opts)
    ensures !(src <= dst) && Frame(fs0, now, dst, src) && SourceWhole(fs0, now, src)
  {
    FrameSafe(fs0, now, Kept, src, dst);
  }

  lemma CompleteBefore(fs0: Fs, now: Fs, src: Path)
    requires Complete(now, Kept, src) && SourceWhole(fs0, now, src)
    ensures Complete(fs0, Kept, src)
  {
    assert Get(now, src) == Get(fs0, src);
    KeptComplete(fs0, src);
  }

  lemma ClearBefore(fs0: Fs, now: Fs, src: Path, dst: Path)
    requires Clear(now, Kept, src, dst, src) && SourceWhole(fs0, now, src)
    ensures Clear(fs0, Kept, src, dst, src)
  {
    forall r | View(fs0, Kept, src, r).Some? ensures !(src <= dst + r) {
      SameView(fs0, now, src, r);
    }
  }

  lemma MovedByCopy(fs0: Fs, landed: Fs, h: Fs, src: Path, dst: Path, opts: Options, ok: bool,
        visited: set<Fs>, since: set<Fs>)
    requires Laid(fs0, opts.links, src, dst, Base(fs0, src, dst, opts), landed) && OnlyBelow(landed, h, src)
    requires Clear(fs0, opts.links, src, dst, src)
    requires Safe(fs0, h, opts.links, src, dst) && DestinationWhole(fs0, h, opts.links, src, dst)
    requires AllSafe(visited, since, fs0, opts.links, src, dst)
    requires ok ==> forall p :: src <= p ==> p !in h
    ensures MoveOutcome(fs0, h, src, dst, opts, ok, visited, since)
  {
    if ok {
      ghost var base := Base(fs0, src, dst, opts);
      forall p | dst <= p ensures Get(h, p) == Want(fs0, opts.links, src, dst, Emptied(base, src), p) {
        assert dst + p[|dst|..] == p;
        assert Get(landed, p) == Want(fs0, opts.links, src, dst, base, p);
      }
    }
  }

  // The tree's bytes are the same as long as the tree is.
  lemma {:induction false} SameTotal(a: Fs, b: Fs, p: Path)
    requires SourceWhole(a, b, p)
    ensures TotalAt(b, p) == TotalAt(a, p)
    decreases Below(a, p), 1, 0
  {
    hide *;
    SameChildren(a, b, p);
    TotalHere(a, p);
    TotalHere(b, p);
    if Get(a, p) == Some(Dir) {
      SameTotalOf(a, b, p, Sorted(Children(a, p)));
    }
  }

  function Size(o: Option<Object>): nat {
    if o.Some? && o.value.File? then |o.value.data| else 0
  }

  lemma TotalHere(fs: Fs, p: Path)
    ensures Get(fs, p) != Some(Dir) ==> TotalAt(fs, p) == Size(Get(fs, p))
    ensures Get(fs, p) == Some(Dir) ==> p in fs && TotalAt(fs, p) == TotalOf(fs, p, Sorted(Children(fs, p)))
  {
    hide Sorted, Children;
  }

  lemma SameChildren(a: Fs, b: Fs, p: Path)
    requires SourceWhole(a, b, p)
    ensures Get(b, p) == Get(a, p) && Children(b, p) == Children(a, p)
  {
    ChildNames(a, p);
    ChildNames(b, p);
    hide Children;
    forall n ensures p + [n] in a <==> p + [n] in b {
      assert Get(b, p + [n]) == Get(a, p + [n]);
    }
  }

  lemma {:induction false} SameTotalOf(a: Fs, b: Fs, p: Path, names: seq<Name>)
    requires SourceWhole(a, b, p) && p in a && p in b
    ensures TotalOf(b, p, names) == TotalOf(a, p, names)
    decreases Below(a, p), 0, |names|
  {
    if names != [] {
      var n := names[|names| - 1];
      ChildBelow(a, p, n);
      SameTotalOf(a, b, p, names[..|names| - 1]);
      WholeBelow(a, b, p, n);
      hide Children, Below, SourceWhole;
      SameTotal(a, b, p + [n]);
    }
  }

  lemma WholeBelow(a: Fs, b: Fs, p: Path, n: Name)
    requires SourceWhole(a, b, p)
    ensures SourceWhole(a, b, p + [n])
  {
    forall q | p + [n] <= q ensures Get(b, q) == Get(a, q) {
      Entered(p, n, q);
    }
  }

  // What a move needs to succeed, whether by the fast path or by the fallback: a copy that could
  // succeed, and either a place for the new name or a directory to merge into.
  ghost predicate CanMove(fs: Fs, src: Path, dst: Path, opts: Options, maxPath: nat) {
    var base := Base(fs, src, dst, opts);
    && CanCopy(fs, src, dst, opts, maxPath)
    && if Get(base, dst) == Some(Dir) then !opts.replace
       else dst != [] && Get(base, dst[..|dst| - 1]) == Some(Dir)
  }

  lemma CanMoveParts(fs: Fs, src: Path, dst: Path, opts: Options, maxPath: nat)
    ensures CanMove(fs, src, dst, opts, maxPath) ==>
              && src in fs && !Overlaps(src, dst) && (opts.force || dst !in fs) && CanCopy(fs, src, dst, opts, maxPath)
  {
  }

  // Then the rename does not refuse, and answers Occupied only if the directory is to be merged into.
  lemma CanMoveRenames(fs: Fs, now: Fs, src: Path, dst: Path, opts: Options, maxPath: nat)
    requires CanMove(fs, src, dst, opts, maxPath) && now == Base(fs, src, dst, opts)
    requires Get(now, src) == Get(fs, src) && WellFormed(fs)
    ensures if Get(now, dst) == Some(Dir) then !opts.replace else Renamable(now, src, dst, maxPath)
    ensures src in now
  {
    SuitsHere(fs, opts.links, src, dst, now, opts.force, maxPath);
    forall p | p in now && |p| == |dst| + 1 && dst <= p ensures Get(now, dst) == Some(Dir) {
      NothingBelow(fs, dst, p);
    }
  }

  // Links are moved as links. The fast path and the fallback leave the same tree behind.
  method Move(disk: Disk, src: Path, dst: Path, opts: Options) returns (ok: bool)
    requires WellFormed(disk.fs) && opts.links.Kept? && Copyable(disk.fs, src, dst, opts)
    modifies disk
    ensures MoveOutcome(old(disk.fs), disk.fs, src, dst, opts, ok, disk.visited, old(disk.visited))
    ensures src <= dst || (dst in old(disk.fs) && !opts.force) ==> !ok && disk.Same()
    ensures dst < src && src + src[|dst|..] in old(disk.fs) ==> !ok
    ensures ok ==>
              || disk.streamed == old(disk.streamed)
              || disk.streamed == old(disk.streamed) + TotalAt(old(disk.fs), src)
    ensures disk.faults >= old(disk.faults)
    ensures disk.faults == old(disk.faults) && CanMove(old(disk.fs), src, dst, opts, disk.maxPath) ==> ok
  {
    ghost var fs0, since := disk.fs, disk.visited;
    CanMoveParts(fs0, src, dst, opts, disk.maxPath);
    if Overlaps(src, dst) || (!opts.force && dst in disk.fs) {
      NothingDone(fs0, src, dst, opts, since);
      return false;
    }
    var cleared := ClearDestination(disk, src, dst, opts);
    if !cleared {
      GaveUp(fs0, disk.fs, src, dst, opts, disk.visited, since);
      return false;
    }
    ghost var now, middle := disk.fs, disk.visited;
    ClearedParts(fs0, now, src, dst, opts);
    assert Get(now, src) == Get(fs0, src);
    hide *;
    if now == Base(fs0, src, dst, opts) && CanMove(fs0, src, dst, opts, disk.maxPath) {
      CanMoveRenames(fs0, now, src, dst, opts, disk.maxPath);
    }
    var r := Rename(disk, src, dst);
    if r == Renamed {
      MovedByRename(fs0, now, disk.fs, src, dst, opts, middle, disk.visited, since);
      NeverOntoItself(fs0, disk.fs, src, dst, opts, true, disk.visited, since);
      return true;
    }
    if r == CrossDevice || (r == Occupied && !opts.replace) {
      ok := CopyAcross(disk, src, dst, opts, fs0, since);
      NeverOntoItself(fs0, disk.fs, src, dst, opts, ok, disk.visited, since);
    } else {
      GaveUp(fs0, disk.fs, src, dst, opts, disk.visited, since);
      ok := false;
    }
  }

  // ---- A source inside the destination ----

  // The source is gone, and yet all it held has arrived.
  ghost predicate MovedWhole(fs: Fs, h: Fs, src: Path, dst: Path) {
    (forall p :: src <= p ==> p !in h) && DestinationWhole(fs, h, Kept, src, dst)
  }

  // A move up into a directory the tree lies in: where the path that leads from that directory to
  // the tree leads on, inside the tree, to a directory, Move promises nothing, and no run of it that
  // reports success keeps the promise. In every other case Move keeps it, but cannot succeed
  // unless nothing stands there: what stands there would have to land on the tree itself.
  lemma MovedUpExactly(fs: Fs, src: Path, dst: Path, opts: Options)
    requires WellFormed(fs) && opts.links.Kept? && src in fs && dst < src && !Replaces(fs, src, opts)
    ensures Upward(fs, src, dst, opts) <==> Get(fs, src + src[|dst|..]) != Some(Dir)
    ensures (exists h :: MovedWhole(fs, h, src, dst)) <==> src + src[|dst|..] !in fs
    ensures src + src[|dst|..] in fs ==>
              forall h, visited, since :: !MoveOutcome(fs, h, src, dst, opts, true, visited, since)
  {
    UpwardExactly(fs, src, dst, opts);
    hide Replaces, Upward, WellFormed, DestinationWhole, Laid, View;
    forall h | MovedWhole(fs, h, src, dst) ensures src + src[|dst|..] !in fs {
      LandsOnItself(fs, h, src, dst);
    }
    if src + src[|dst|..] !in fs {
      TakenUp(fs, src, dst);
    }
    forall h: Fs, visited: set<Fs>, since: set<Fs> | MoveOutcome(fs, h, src, dst, opts, true, visited, since)
      ensures MovedWhole(fs, h, src, dst)
    {
    }
  }

  lemma NeverOntoItself(fs: Fs, h: Fs, src: Path, dst: Path, opts: Options, ok: bool, visited: set<Fs>, since: set<Fs>)
    requires WellFormed(fs) && opts.links.Kept? && MoveOutcome(fs, h, src, dst, opts, ok, visited, since)
    ensures dst < src && src + src[|dst|..] in fs ==> !ok
  {
    if ok && dst < src {
      LandsOnItself(fs, h, src, dst);
    }
  }

  lemma UpwardExactly(fs: Fs, src: Path, dst: Path, opts: Options)
    requires WellFormed(fs) && opts.links.Kept? && src in fs && dst < src && !Replaces(fs, src, opts)
    ensures Upward(fs, src, dst, opts) <==> Get(fs, src + src[|dst|..]) != Some(Dir)
  {
    var rel := src[|dst|..];
    ViewKept(fs, src, rel);
    hide View;
    if src + rel in fs {
      NothingBelow(fs, src, src + rel);
    }
  }

  lemma LandsOnItself(fs: Fs, h: Fs, src: Path, dst: Path)
    requires WellFormed(fs) && dst < src && MovedWhole(fs, h, src, dst)
    ensures src + src[|dst|..] !in fs
  {
    hide WellFormed, View, Complete;
    var rel := src[|dst|..];
    assert dst + rel == src;
    ViewKept(fs, src, rel);
    assert Arrived(fs, h, Kept, src, dst, rel);
  }

  lemma TakenUp(fs: Fs, src: Path, dst: Path)
    requires WellFormed(fs) && src in fs && dst < src && src + src[|dst|..] !in fs
    ensures exists h :: MovedWhole(fs, h, src, dst)
  {
    var h: Fs := map p | p in Arrivals(fs, src, dst) :: fs[src + p[|dst|..]];
    NoArrivalInside(fs, src, dst);
    KeptComplete(fs, src);
    hide WellFormed, Complete;
    forall r ensures Arrived(fs, h, Kept, src, dst, r) {
      KeptView(fs, src, r);
      assert (dst + r)[|dst|..] == r;
    }
    assert MovedWhole(fs, h, src, dst);
  }

  lemma NoArrivalInside(fs: Fs, src: Path, dst: Path)
    requires WellFormed(fs) && dst < src && src + src[|dst|..] !in fs
    ensures forall p :: src <= p ==> p !in Arrivals(fs, src, dst)
  {
    var rel := src[|dst|..];
    forall p | src <= p ensures p !in Arrivals(fs, src, dst) {
      var r := p[|dst|..];
      assert r[..|rel|] == rel;
      ViewKept(fs, src, r);
      ViewKept(fs, src, rel);
      if src + r in fs && dst <= p {
        ViewPrefix(fs, Kept, src, r, |rel|);
        assert false;
      }
    }
  }

  // A directory about to be replaced by a directory is removed first.
  method ClearDestination(disk: Disk, src: Path, dst: Path, opts: Options) returns (ok: bool)
    requires !(src <= dst) && (opts.force || dst !in disk.fs) && (Replaces(disk.fs, src, opts) ==> !(dst < src))
    modifies disk
    ensures Frame(old(disk.fs), disk.fs, dst, src) && States(disk.visited, old(disk.visited), old(disk.fs), dst, src)
    ensures ok ==> Cleared(old(disk.fs), disk.fs, src, dst, opts)
    ensures disk.streamed == old(disk.streamed)
    ensures disk.faults >= old(disk.faults)
    ensures disk.faults == old(disk.faults) && src in old(disk.fs) ==>
              ok && disk.fs == Base(old(disk.fs), src, dst, opts)
  {
    if opts.force && opts.replace {
      var seen, o := disk.Lstat(src);
      if seen && o == Dir {
        ok := disk.RemoveAll(dst);
        ThinnedFrames(disk.visited, old(disk.visited), old(disk.fs), disk.fs, dst, src);
        if ok {
          BaseIs(old(disk.fs), src, dst, opts, disk.fs);
        }
        return;
      }
    }
    ok := true;
  }

  // ---- MoveFollowingSymlinks ----

  // Copies what the links lead to; the links themselves go, what they lead to stays.
  method MoveFollowingSymlinks(disk: Disk, src: Path, dst: Path, opts: Options) returns (ok: bool)
    requires WellFormed(disk.fs) && opts.links.Followed? && Copyable(disk.fs, src, dst, opts)
    modifies disk
    ensures MoveOutcome(old(disk.fs), disk.fs, src, dst, opts, ok, disk.visited, old(disk.visited))
    ensures src <= dst || (dst in old(disk.fs) && !opts.force) ==> !ok && disk.Same()
    ensures disk.faults >= old(disk.faults)
    ensures disk.faults == old(disk.faults) ==> (ok <==> CanCopy(old(disk.fs), src, dst, opts, disk.maxPath))
  {
    ghost var fs0, since := disk.fs, disk.visited;
    ok := Copy(disk, src, dst, opts);
    if !ok {
      CopyFailed(fs0, disk.fs, src, dst, opts, disk.visited, since);
      return;
    }
    LandedByCopy(fs0, disk.fs, src, dst, opts, disk.visited, since);
    ghost var landed := disk.fs;
    StillToTake(fs0, landed, src, dst, opts, disk.maxPath);
    ok := TakeAway(disk, src, dst, opts.links, fs0, since);
    MovedByCopy(fs0, landed, disk.fs, src, dst, opts, ok, disk.visited, since);
  }

  lemma CopyFailed(fs0: Fs, now: Fs, src: Path, dst: Path, opts: Options, visited: set<Fs>, since: set<Fs>)
    requires Copyable(fs0, src, dst, opts) && Frame(fs0, now, dst, src) && States(visited, since, fs0, dst, src)
    requires src <= dst ==> now == fs0 && visited == since
    ensures MoveOutcome(fs0, now, src, dst, opts, false, visited, since)
  {
    if src <= dst {
      NothingDone(fs0, src, dst, opts, visited);
    } else {
      GaveUp(fs0, now, src, dst, opts, visited, since);
    }
  }

  // The source itself, by its own name: a link is unlinked, anything else removed with all it holds.
  method TakeAway(disk: Disk, src: Path, dst: Path, links: Links, ghost fs0: Fs, ghost since: set<Fs>)
    returns (ok: bool)
    requires WellFormed(fs0) && Landed(fs0, disk.fs, links, src, dst, disk.visited, since)
    modifies disk
    ensures AllSafe(disk.visited, since, fs0, links, src, dst)
    ensures Safe(fs0, disk.fs, links, src, dst) && DestinationWhole(fs0, disk.fs, links, src, dst)
    ensures ok ==> forall p :: src <= p ==> p !in disk.fs
    ensures OnlyBelow(old(disk.fs), disk.fs, src)
    ensures disk.streamed == old(disk.streamed)
    ensures disk.faults >= old(disk.faults) && (disk.faults == old(disk.faults) && src in old(disk.fs) ==> ok)
  {
    ghost var now, middle := disk.fs, disk.visited;
    LandedSafe(fs0, now, links, src, dst, middle, since);
    LandedParts(fs0, now, links, src, dst, middle, since);
    var seen, o := disk.Lstat(src);
    if !seen {
      return false;
    }
    if !o.Symlink? {
      ok := RemoveSource(disk, src, dst, links, fs0, since);
      return;
    }
    var e := disk.Remove(src);
    LinkAlone(fs0, now, src, dst);
    Unlinked(now, disk.fs, src, e);
    assert disk.streamed == old(disk.streamed);
    hide *;
    ThinnedOnly(now, disk.fs, src);
    RemovalSafe(fs0, now, disk.fs, links, src, dst);
    UnlinkedStates(now, disk.fs, src, middle, disk.visited, e);
    RemovalStates(disk.visited, middle, since, fs0, now, links, src, dst);
    ok := e == Done;
  }

  lemma LinkAlone(fs0: Fs, now: Fs, src: Path, dst: Path)
    requires WellFormed(fs0) && Frame(fs0, now, dst, src)
    requires src in now && now[src] != Dir
    ensures forall p :: src < p ==> p !in now
  {
    forall p | src < p ensures p !in now {
      assert Get(now, src) == Get(fs0, src) && Get(now, p) == Get(fs0, p);
      if p in fs0 {
        NothingBelow(fs0, src, p);
        assert false;
      }
    }
  }

  lemma Unlinked(now: Fs, after: Fs, src: Path, e: Errno)
    requires after == if e == Done then now - {src} else now
    ensures Thinned(now, after, src)
    ensures e == Done && (forall p :: src < p ==> p !in now) ==> forall p :: src <= p ==> p !in after
  {
    assert forall p :: p in after && src <= p ==> p == src || src < p;
  }

  lemma UnlinkedStates(now: Fs, after: Fs, src: Path, middle: set<Fs>, visited: set<Fs>, e: Errno)
    requires Thinned(now, after, src)
    requires visited == if e == Done then middle + {after} else middle
    ensures forall h :: h in visited ==> h in middle || Thinned(now, h, src)
  {
  }

  lemma LandedParts(fs0: Fs, now: Fs, links: Links, src: Path, dst: Path, visited: set<Fs>, since: set<Fs>)
    requires Landed(fs0, now, links, src, dst, visited, since)
    ensures Clear(fs0, links, src, dst, src) && Frame(fs0, now, dst, src)
    ensures DestinationWhole(fs0, now, links, src, dst) && AllSafe(visited, since, fs0, links, src, dst)
  {
  }
}
