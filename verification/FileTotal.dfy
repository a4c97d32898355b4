// The estimate shown before a paste: how many bytes a copy that keeps links will stream.
module FileTotal {
  import opened Wrappers
  import opened Sorting
  import opened FileTree
  import opened FileCopy

  // A context may be cancelled at any time, and stays so.
  class Context {
    var cancelled: bool

    constructor ()
      ensures !cancelled
    {
      cancelled := false;
    }

    method Err() returns (stop: bool)
      modifies this
      ensures stop == cancelled && (old(cancelled) ==> cancelled)
    {
      var now: bool := *;
      cancelled := cancelled || now;
      stop := cancelled;
    }
  }

  // The bytes of the tree at p, counting nothing for what cannot be read.
  ghost function SeenAt(fs: Fs, unreadable: set<Path>, p: Path): nat
    decreases Below(fs, p), 1, 0
  {
    if p !in fs || p in unreadable then 0
    else
      match fs[p]
      case File(data) => |data|
      case Symlink(_) => 0
      case Dir => SeenOf(fs, unreadable, p, Sorted(Children(fs, p)))
  }

  ghost function SeenOf(fs: Fs, unreadable: set<Path>, p: Path, names: seq<Name>): nat
    requires p in fs
    decreases Below(fs, p), 0, |names|
  {
    if names == [] then 0
    else
      ChildBelow(fs, p, names[|names| - 1]);
      SeenOf(fs, unreadable, p, names[..|names| - 1]) + SeenAt(fs, unreadable, p + [names[|names| - 1]])
  }

  ghost function SeenSum(fs: Fs, unreadable: set<Path>, paths: seq<Path>): nat {
    if paths == [] then 0
    else SeenSum(fs, unreadable, paths[..|paths| - 1]) + SeenAt(fs, unreadable, paths[|paths| - 1])
  }

  lemma SeenNext(fs: Fs, unreadable: set<Path>, p: Path, names: seq<Name>, k: nat)
    requires p in fs && k < |names|
    ensures SeenOf(fs, unreadable, p, names[..k + 1])
         == SeenOf(fs, unreadable, p, names[..k]) + SeenAt(fs, unreadable, p + [names[k]])
  {
    assert names[..k + 1][..k] == names[..k];
  }

  lemma {:induction false} SeenGrows(fs: Fs, unreadable: set<Path>, p: Path, names: seq<Name>, k: nat)
    requires p in fs && k <= |names|
    ensures SeenOf(fs, unreadable, p, names[..k]) <= SeenOf(fs, unreadable, p, names)
    decreases |names| - k
  {
    if k < |names| {
      SeenNext(fs, unreadable, p, names, k);
      SeenGrows(fs, unreadable, p, names, k + 1);
    } else {
      assert names[..k] == names;
    }
  }

  lemma {:induction false} SumGrows(fs: Fs, unreadable: set<Path>, paths: seq<Path>, k: nat)
    requires k <= |paths|
    ensures SeenSum(fs, unreadable, paths[..k]) <= SeenSum(fs, unreadable, paths)
    decreases |paths| - k
  {
    if k < |paths| {
      assert paths[..k + 1][..k] == paths[..k];
      SumGrows(fs, unreadable, paths, k + 1);
    } else {
      assert paths[..k] == paths;
    }
  }

  // The scan of one path: a cancelled one stops early, with what it has.
  method TotalBytesOne(ctx: Context, fs: Fs, unreadable: set<Path>, p: Path) returns (total: nat)
    modifies ctx
    ensures old(ctx.cancelled) ==> ctx.cancelled
    ensures total <= SeenAt(fs, unreadable, p)
    ensures !ctx.cancelled ==> total == SeenAt(fs, unreadable, p)
    decreases Below(fs, p)
  {
    if p !in fs || p in unreadable {
      return 0;
    }
    match fs[p]
    case File(data) => total := |data|;
    case Symlink(_) => total := 0;
    case Dir =>
      var names := SortNames(set q | q in fs && |q| == |p| + 1 && p <= q :: q[|p|]);
      total := 0;
      for k := 0 to |names|
        invariant old(ctx.cancelled) ==> ctx.cancelled
        invariant total <= SeenOf(fs, unreadable, p, names[..k])
        invariant !ctx.cancelled ==> total == SeenOf(fs, unreadable, p, names[..k])
      {
        var stop := ctx.Err();
        if stop {
          SeenGrows(fs, unreadable, p, names, k);
          return;
        }
        ChildBelow(fs, p, names[k]);
        var bytes := TotalBytesOne(ctx, fs, unreadable, p + [names[k]]);
        SeenNext(fs, unreadable, p, names, k);
        total := total + bytes;
      }
      assert names[..|names|] == names;
  }

  method TotalBytes(ctx: Context, fs: Fs, unreadable: set<Path>, paths: seq<Path>) returns (total: nat)
    modifies ctx
    ensures total <= SeenSum(fs, unreadable, paths)
    ensures !ctx.cancelled ==> total == SeenSum(fs, unreadable, paths)
  {
    total := 0;
    for k := 0 to |paths|
      invariant total <= SeenSum(fs, unreadable, paths[..k])
      invariant !ctx.cancelled ==> total == SeenSum(fs, unreadable, paths[..k])
    {
      var stop := ctx.Err();
      if stop {
        SumGrows(fs, unreadable, paths, k);
        return;
      }
      var bytes := TotalBytesOne(ctx, fs, unreadable, paths[k]);
      assert paths[..k + 1][..k] == paths[..k];
      total := total + bytes;
    }
    assert paths[..|paths|] == paths;
  }

  // ---- Against what a copy streams ----

  // No entry at or below p that holds bytes is unreadable.
  ghost predicate HidesNothing(fs: Fs, unreadable: set<Path>, p: Path) {
    forall q :: q in unreadable && p <= q ==> TotalAt(fs, q) == 0
  }

  // The estimate is at most what a copy of the tree streams, and exactly that unless an entry
  // that holds bytes cannot be read.
  lemma {:induction false} EstimateExactly(fs: Fs, unreadable: set<Path>, p: Path)
    requires WellFormed(fs)
    ensures SeenAt(fs, unreadable, p) <= TotalAt(fs, p)
    ensures SeenAt(fs, unreadable, p) == TotalAt(fs, p) <==> HidesNothing(fs, unreadable, p)
    decreases Below(fs, p), 1, 0
  {
    if p in unreadable {
      UnreadableHides(fs, unreadable, p);
    } else if Get(fs, p) == Some(Dir) {
      var names := Sorted(Children(fs, p));
      ChildNames(fs, p);
      DirSums(fs, unreadable, p, names);
      DirHides(fs, unreadable, p, names);
      hide *;
      EstimateOf(fs, unreadable, p, names);
    } else {
      LeafHides(fs, unreadable, p);
    }
  }

  lemma UnreadableHides(fs: Fs, unreadable: set<Path>, p: Path)
    requires WellFormed(fs) && p in unreadable
    ensures SeenAt(fs, unreadable, p) == 0
    ensures TotalAt(fs, p) == 0 <==> HidesNothing(fs, unreadable, p)
  {
    hide TotalAt;
    forall q | q in unreadable && p <= q ensures TotalAt(fs, q) <= TotalAt(fs, p) {
      TotalShrinks(fs, p, q);
    }
  }

  lemma LeafHides(fs: Fs, unreadable: set<Path>, p: Path)
    requires WellFormed(fs) && p !in unreadable && Get(fs, p) != Some(Dir)
    ensures SeenAt(fs, unreadable, p) == TotalAt(fs, p) && HidesNothing(fs, unreadable, p)
  {
    LeafSame(fs, unreadable, p);
    hide TotalAt, SeenAt;
    forall q | q in unreadable && p <= q ensures TotalAt(fs, q) == 0 {
      LeafTotal(fs, p, q);
    }
  }

  lemma LeafSame(fs: Fs, unreadable: set<Path>, p: Path)
    requires p !in unreadable && Get(fs, p) != Some(Dir)
    ensures SeenAt(fs, unreadable, p) == TotalAt(fs, p)
  {
  }

  lemma DirSums(fs: Fs, unreadable: set<Path>, p: Path, names: seq<Name>)
    requires Get(fs, p) == Some(Dir) && names == Sorted(Children(fs, p)) && p !in unreadable
    ensures TotalAt(fs, p) == TotalOf(fs, p, names) && SeenAt(fs, unreadable, p) == SeenOf(fs, unreadable, p, names)
  {
  }

  // A tree below another streams no more than it.
  lemma {:induction false} TotalShrinks(fs: Fs, p: Path, q: Path)
    requires WellFormed(fs) && p <= q
    ensures TotalAt(fs, q) <= TotalAt(fs, p)
    decreases |q| - |p|
  {
    if p != q && q in fs {
      var n := q[|p|];
      assert q[..|p| + 1] == p + [n];
      NothingBelow(fs, p, q);
      ChildNames(fs, p);
      TotalShrinks(fs, p + [n], q);
      PartOfTotal(fs, p, Sorted(Children(fs, p)), n);
    } else if p != q {
      assert TotalAt(fs, q) == 0;
    }
  }

  lemma {:induction false} PartOfTotal(fs: Fs, p: Path, names: seq<Name>, n: Name)
    requires p in fs && n in names
    ensures TotalAt(fs, p + [n]) <= TotalOf(fs, p, names)
    decreases |names|
  {
    if names[|names| - 1] != n {
      assert n in names[..|names| - 1];
      PartOfTotal(fs, p, names[..|names| - 1], n);
    }
  }

  lemma LeafTotal(fs: Fs, p: Path, q: Path)
    requires WellFormed(fs) && Get(fs, p) != Some(Dir) && p <= q && p != q
    ensures TotalAt(fs, q) == 0
  {
    if q in fs {
      NothingBelow(fs, p, q);
    }
  }

  ghost predicate EachHidesNothing(fs: Fs, unreadable: set<Path>, p: Path, names: seq<Name>) {
    forall n :: n in names ==> HidesNothing(fs, unreadable, p + [n])
  }

  lemma {:induction false} EstimateOf(fs: Fs, unreadable: set<Path>, p: Path, names: seq<Name>)
    requires WellFormed(fs) && p in fs
    ensures SeenOf(fs, unreadable, p, names) <= TotalOf(fs, p, names)
    ensures SeenOf(fs, unreadable, p, names) == TotalOf(fs, p, names) <==> EachHidesNothing(fs, unreadable, p, names)
    decreases Below(fs, p), 0, |names|
  {
    if names != [] {
      var k := |names| - 1;
      ChildBelow(fs, p, names[k]);
      assert names[..k + 1] == names;
      TotalNext(fs, p, names, k);
      SeenNext(fs, unreadable, p, names, k);
      LastHides(fs, unreadable, p, names);
      hide *;
      EstimateOf(fs, unreadable, p, names[..k]);
      EstimateExactly(fs, unreadable, p + [names[k]]);
    }
  }

  lemma LastHides(fs: Fs, unreadable: set<Path>, p: Path, names: seq<Name>)
    requires names != []
    ensures EachHidesNothing(fs, unreadable, p, names)
       <==>
         && EachHidesNothing(fs, unreadable, p, names[..|names| - 1])
         && HidesNothing(fs, unreadable, p + [names[|names| - 1]])
  {
    assert names == names[..|names| - 1] + [names[|names| - 1]];
  }

  lemma DirHides(fs: Fs, unreadable: set<Path>, p: Path, names: seq<Name>)
    requires WellFormed(fs) && Get(fs, p) == Some(Dir) && p !in unreadable
    requires forall n :: n in names <==> p + [n] in fs
    ensures HidesNothing(fs, unreadable, p) <==> EachHidesNothing(fs, unreadable, p, names)
  {
    hide TotalAt;
    if HidesNothing(fs, unreadable, p) {
      forall n, q | q in unreadable && p + [n] <= q ensures TotalAt(fs, q) == 0 {
        Entered(p, n, q);
      }
    }
    if EachHidesNothing(fs, unreadable, p, names) {
      forall q | q in unreadable && p <= q ensures TotalAt(fs, q) == 0 {
        assert |q| == |p| ==> q == p;
        HiddenBelow(fs, unreadable, p, q, names);
      }
    }
  }

  lemma HiddenBelow(fs: Fs, unreadable: set<Path>, p: Path, q: Path, names: seq<Name>)
    requires WellFormed(fs) && p < q && q in unreadable
    requires forall n :: n in names <==> p + [n] in fs
    requires EachHidesNothing(fs, unreadable, p, names)
    ensures TotalAt(fs, q) == 0
  {
    if q in fs {
      assert q[..|p| + 1] == p + [q[|p|]];
      NothingBelow(fs, p, q);
      hide TotalAt;
      assert HidesNothing(fs, unreadable, p + [q[|p|]]);
    }
  }
}
