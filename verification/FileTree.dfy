// A file system as a table of paths, and what copying one subtree over another makes of it.
module FileTree {
  import opened Wrappers
  import opened Sorting

  type Name = string
  type Path = seq<Name>     // the components of an absolute, clean path
  type Data = string
  datatype Object = File(data: Data) | Symlink(text: string) | Dir
  type Fs = map<Path, Object>
  function Get(fs: Fs, p: Path): Option<Object> { if p in fs then Some(fs[p]) else None }

  ghost function Children(fs: Fs, p: Path): set<Name> {
    set q | q in fs && |q| == |p| + 1 && p <= q :: q[|p|]
  }

  // ---- Overlap ----

  predicate StartsWithDots(c: Name) { |c| >= 2 && c[0] == '.' && c[1] == '.' }

  // The relative path from src to dst does not begin with "..": dst is src or lies in it.
  predicate Overlaps(src: Path, dst: Path) {
    src <= dst && (|src| < |dst| ==> !StartsWithDots(dst[|src|]))
  }

  lemma DotsExactly(c: Name)
    ensures StartsWithDots(c) <==> exists rest :: c == ".." + rest
  {
    if StartsWithDots(c) {
      assert c == ".." + c[2..];
    }
  }

  // The test answers wrongly exactly when the step from src towards dst begins with two dots.
  lemma OverlapsExactly(src: Path, dst: Path)
    ensures (Overlaps(src, dst) <==> src <= dst) <==> !(src < dst && StartsWithDots(dst[|src|]))
    ensures (Overlaps(src, dst) <==> src <= dst || dst <= src) <==>
              !(dst < src) && !(src < dst && StartsWithDots(dst[|src|]))
  {
  }

  // "/a/..b" lies in "/a", but is not recognised as such.
  lemma OverlapMissed()
    ensures ["a"] <= ["a", "..b"] && !Overlaps(["a"], ["a", "..b"])
  {
  }

  // ---- What a copy reads: the tree at s, links followed or not ----

  // How links are treated: not followed, or resolved to what EvalSymlinks finds behind each.
  datatype Links = Kept | Followed(resolved: map<Path, Path>)

  // The path actually read for p.
  function Deref(fs: Fs, links: Links, p: Path): Option<Path> {
    if p !in fs then None
    else if !fs[p].Symlink? || links.Kept? then Some(p)
    else if p in links.resolved then Some(links.resolved[p])
    else None
  }

  // The path read for relative path r under s, or none if the tree at s has no such entry.
  function View(fs: Fs, links: Links, s: Path, r: Path): Option<Path> {
    if r == [] then Deref(fs, links, s)
    else
      match View(fs, links, s, r[..|r| - 1])
      case Some(q) => if q in fs && fs[q] == Dir then Deref(fs, links, q + [r[|r| - 1]]) else None
      case None => None
  }

  lemma {:induction false} ViewBelow(fs: Fs, links: Links, s: Path, q: Path, n: Name, r: Path)
    requires Deref(fs, links, s) == Some(q) && q in fs && fs[q] == Dir
    ensures View(fs, links, s, [n] + r) == View(fs, links, q + [n], r)
  {
    var nr := [n] + r;
    if r == [] {
      assert nr[..|nr| - 1] == [];
    } else {
      assert nr[..|nr| - 1] == [n] + r[..|r| - 1];
      ViewBelow(fs, links, s, q, n, r[..|r| - 1]);
    }
  }

  lemma {:induction false} ViewOfLeaf(fs: Fs, links: Links, s: Path, n: Name, r: Path)
    requires match Deref(fs, links, s) case Some(q) => q in fs ==> fs[q] != Dir case None => true
    ensures View(fs, links, s, [n] + r) == None
  {
    var nr := [n] + r;
    if r == [] {
      assert nr[..|nr| - 1] == [];
    } else {
      assert nr[..|nr| - 1] == [n] + r[..|r| - 1];
      ViewOfLeaf(fs, links, s, n, r[..|r| - 1]);
    }
  }

  // The walk of the tree at s comes to an entry at r: it is listed by the directory read for its parent.
  predicate Met(fs: Fs, links: Links, s: Path, r: Path) {
    if r == [] then s in fs
    else
      match View(fs, links, s, r[..|r| - 1])
      case Some(q) => Get(fs, q) == Some(Dir) && q + [r[|r| - 1]] in fs
      case None => false
  }

  // Every entry met can be read: no link among them leads nowhere.
  ghost predicate Complete(fs: Fs, links: Links, s: Path) {
    s in fs && forall r :: Met(fs, links, s, r) ==> View(fs, links, s, r).Some?
  }

  lemma MetBelow(fs: Fs, links: Links, s: Path, q: Path, n: Name, r: Path)
    requires Deref(fs, links, s) == Some(q) && Get(fs, q) == Some(Dir)
    ensures Met(fs, links, s, [n] + r) == Met(fs, links, q + [n], r)
  {
    var nr := [n] + r;
    if r == [] {
      assert nr[..|nr| - 1] == [];
    } else {
      assert nr[..|nr| - 1] == [n] + r[..|r| - 1];
      ViewBelow(fs, links, s, q, n, r[..|r| - 1]);
    }
  }

  // A directory whose entries are all complete is complete.
  lemma CompleteDir(fs: Fs, links: Links, q: Path)
    requires Get(fs, q) == Some(Dir)
    requires forall n :: q + [n] in fs ==> Complete(fs, links, q + [n])
    ensures Complete(fs, links, q)
  {
    forall r | Met(fs, links, q, r) ensures View(fs, links, q, r).Some? {
      if r != [] {
        var n, below := r[0], r[1..];
        assert r == [n] + below;
        MetBelow(fs, links, q, q, n, below);
        ViewBelow(fs, links, q, q, n, below);
        if q + [n] !in fs {
          NothingToView(fs, links, q + [n], if below == [] then [] else below[..|below| - 1]);
        }
      }
    }
  }

  lemma CompleteLeaf(fs: Fs, links: Links, s: Path)
    requires s in fs && fs[s] != Dir && Deref(fs, links, s) == Some(s)
    ensures Complete(fs, links, s)
  {
    forall r | r != [] ensures !Met(fs, links, s, r) {
      var init := r[..|r| - 1];
      if init != [] {
        assert init == [init[0]] + init[1..];
        ViewOfLeaf(fs, links, s, init[0], init[1..]);
      }
    }
  }

  lemma {:induction false} NothingToView(fs: Fs, links: Links, s: Path, r: Path)
    requires s !in fs
    ensures View(fs, links, s, r) == None
  {
    if r != [] {
      NothingToView(fs, links, s, r[..|r| - 1]);
    }
  }

  // What stands at p once the tree at s has been laid over d: the source's entry where it has
  // one, otherwise what was there before.
  function Want(fs: Fs, links: Links, s: Path, d: Path, before: Fs, p: Path): Option<Object>
    requires d <= p
  {
    match View(fs, links, s, p[|d|..])
    case Some(q) => Get(fs, q)
    case None => Get(before, p)
  }

  // after is before with the tree at s laid over d, everywhere at and below d.
  ghost predicate Laid(fs: Fs, links: Links, s: Path, d: Path, before: Fs, after: Fs) {
    forall p :: d <= p ==> Get(after, p) == Want(fs, links, s, d, before, p)
  }

  // The tree at src is as it was in fs0.
  ghost predicate SourceWhole(fs0: Fs, h: Fs, src: Path) {
    forall p :: src <= p ==> Get(h, p) == Get(fs0, p)
  }

  // The tree at src is untouched, and outside d nothing changes, except that missing directories on
  // the way to d may appear.
  ghost predicate Frame(before: Fs, after: Fs, d: Path, src: Path) {
    && SourceWhole(before, after, src)
    && forall p :: !(d <= p) ==>
         Get(after, p) == Get(before, p) || (p <= d && Get(before, p) == None && Get(after, p) == Some(Dir))
  }

  lemma FrameTrans(a: Fs, b: Fs, c: Fs, d: Path, src: Path)
    requires Frame(a, b, d, src) && Frame(b, c, d, src)
    ensures Frame(a, c, d, src)
  {
  }

  // ---- Conditions under which paths mean what they say ----

  // No link stands at p or on the way to it.
  ghost predicate LinkFree(fs: Fs, p: Path) {
    forall a :: a <= p && a in fs ==> !fs[a].Symlink?
  }

  // Links resolve to real objects, none of them in the destination unless in the source itself, and
  // none whose overlap with the destination would be missed.
  ghost predicate LinksOutside(fs: Fs, links: Links, root: Path, src: Path) {
    links.Followed? ==>
      forall l :: l in links.resolved ==>
        var q := links.resolved[l];
        && q in fs && !fs[q].Symlink?
        && (src <= q || (!(root <= q) && (q < root ==> !StartsWithDots(root[|q|]))))
  }

  // No link stands where the source has a directory.
  ghost predicate NoClash(fs: Fs, links: Links, s: Path, d: Path, now: Fs) {
    forall p :: d <= p && p in now && now[p].Symlink? ==>
      match View(fs, links, s, p[|d|..])
      case Some(q) => Get(fs, q) != Some(Dir)
      case None => true
  }

  // What is laid over d from the tree at s stays out of the tree at src.
  ghost predicate Clear(fs: Fs, links: Links, s: Path, d: Path, src: Path) {
    forall r :: View(fs, links, s, r).Some? ==> !(src <= d + r)
  }

  // The tree at src is a directory that holds something.
  ghost predicate Held(fs: Fs, src: Path) {
    Get(fs, src) == Some(Dir) && exists n :: src + [n] in fs
  }

  // What stands at q may be laid down at p without touching the tree at src: off that tree, or on a
  // directory that refuses to make place for it.
  ghost predicate MayLand(fs: Fs, q: Path, p: Path, src: Path) {
    !(src <= p) || (p == src && Held(fs, src) && Get(fs, q) != Some(Dir))
  }

  ghost predicate Passable(fs: Fs, links: Links, s: Path, d: Path, src: Path) {
    forall r ::
      match View(fs, links, s, r)
      case Some(q) => MayLand(fs, q, d + r, src)
      case None => true
  }

  // A path that a copy into root leaves alone: in the source's tree, or apart from root.
  predicate Still(root: Path, src: Path, p: Path) {
    src <= p || (!(root <= p) && !(p <= root))
  }

  // ---- Sizes ----

  ghost function Below(fs: Fs, p: Path): set<Path> { set q | q in fs && p <= q }

  // The bytes of every regular file of the tree at p, links counting nothing.
  ghost function TotalAt(fs: Fs, p: Path): nat
    decreases Below(fs, p), 1, 0
  {
    if p !in fs then 0
    else
      match fs[p]
      case File(data) => |data|
      case Symlink(_) => 0
      case Dir => TotalOf(fs, p, Sorted(Children(fs, p)))
  }

  ghost function TotalOf(fs: Fs, p: Path, names: seq<Name>): nat
    requires p in fs
    decreases Below(fs, p), 0, |names|
  {
    if names == [] then 0
    else
      ChildBelow(fs, p, names[|names| - 1]);
      TotalOf(fs, p, names[..|names| - 1]) + TotalAt(fs, p + [names[|names| - 1]])
  }

  lemma ChildBelow(fs: Fs, p: Path, n: Name)
    requires p in fs
    ensures Below(fs, p + [n]) < Below(fs, p)
  {
    assert p in Below(fs, p) && p !in Below(fs, p + [n]);
    forall q | q in Below(fs, p + [n]) ensures q in Below(fs, p) {
      assert p == (p + [n])[..|p|] == q[..|p|];
    }
  }
}
