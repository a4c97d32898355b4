// The primitive file operations. Each may fail for reasons of its own at any time.
module FileDisk {
  import opened Wrappers
  import opened Sorting
  import opened FileTree

  datatype Errno = Done | NotExist | Failed

  // Nothing but p differs.
  ghost predicate OnlyAt(before: Fs, after: Fs, p: Path) {
    forall q :: q != p ==> Get(after, q) == Get(before, q)
  }

  // Some of what stood at and below p is gone; nothing else differs.
  ghost predicate Thinned(before: Fs, after: Fs, p: Path) {
    forall q :: Get(after, q) == Get(before, q) || (p <= q && q !in after)
  }

  // Missing directories at p and on the way to it may have appeared; nothing else differs.
  ghost predicate WayOpened(before: Fs, after: Fs, p: Path) {
    forall q :: Get(after, q) == Get(before, q) || (q <= p && q !in before && Get(after, q) == Some(Dir))
  }

  // The parent directory is there and p is not.
  predicate Creatable(fs: Fs, p: Path, maxPath: nat) {
    0 < |p| <= maxPath && p !in fs && Get(fs, p[..|p| - 1]) == Some(Dir)
  }

  // p is a directory, or the lowest thing that exists on the way to it is one.
  predicate Opens(fs: Fs, p: Path)
    decreases |p|
  {
    if p in fs then fs[p] == Dir else p != [] && Opens(fs, p[..|p| - 1])
  }

  class Disk {
    var fs: Fs
    var streamed: nat            // bytes of file content copied so far
    const maxPath: nat           // paths with more components are refused
    ghost var visited: set<Fs>   // every state the disk has been in
    ghost var faults: nat        // how many operations have failed for reasons of their own

    // What one primitive operation may do: go to the state next, or nothing.
    twostate predicate Became(next: Fs)
      reads this
    {
      fs == next && visited == old(visited) + {next}
    }

    twostate predicate Same()
      reads this
    {
      fs == old(fs) && visited == old(visited) && streamed == old(streamed)
    }

    constructor (maxPath: nat, files: Fs)
      ensures fs == files && visited == {files} && streamed == 0 && faults == 0 && this.maxPath == maxPath
    {
      this.maxPath := maxPath;
      fs, streamed, visited, faults := files, 0, {files}, 0;
    }

    // Any operation may fail for a reason of its own, which is counted.
    method Fault() returns (fault: bool)
      modifies this`faults
      ensures faults == old(faults) + if fault then 1 else 0
    {
      fault := *;
      faults := faults + if fault then 1 else 0;
    }

    method Put(p: Path, o: Object)
      modifies this
      ensures Became(old(fs)[p := o]) && streamed == old(streamed) && faults == old(faults)
    {
      fs := fs[p := o];
      visited := visited + {fs};
    }

    // unlink or rmdir: a directory must be empty.
    method Remove(p: Path) returns (e: Errno)
      modifies this
      ensures e == NotExist ==> p !in old(fs) && Same()
      ensures e == Failed ==> Same()
      ensures e == Done ==> p in old(fs) && Became(old(fs) - {p}) && streamed == old(streamed)
      ensures e == Done && old(fs)[p] == Dir ==> forall n :: p + [n] !in old(fs)
      ensures faults >= old(faults)
      ensures e == Failed && faults == old(faults) ==> Get(old(fs), p) == Some(Dir) && exists n :: p + [n] in old(fs)
    {
      var fault := Fault();
      if fault {
        return Failed;
      } else if p !in fs {
        return NotExist;
      } else if fs[p] == Dir && exists q :: q in fs && |q| == |p| + 1 && p <= q {
        ghost var q :| q in fs && |q| == |p| + 1 && p <= q;
        assert q == p + [q[|p|]];
        return Failed;
      }
      assert fs[p] == Dir ==> forall n :: p + [n] !in fs by {
        assert forall n :: p <= p + [n];
      }
      fs := fs - {p};
      visited := visited + {fs};
      e := Done;
    }

    // Removes everything at and below p, one entry after another in any order; may stop halfway.
    method RemoveAll(p: Path) returns (ok: bool)
      modifies this
      ensures streamed == old(streamed)
      ensures Thinned(old(fs), fs, p)
      ensures ok ==> forall q :: p <= q ==> q !in fs
      ensures forall h :: h in visited ==> h in old(visited) || Thinned(old(fs), h, p)
      ensures faults >= old(faults) && (faults == old(faults) ==> ok)
    {
      var rest := set q | q in fs && p <= q;
      while rest != {}
        invariant Thinned(old(fs), fs, p)
        invariant forall q :: q in fs && p <= q ==> q in rest
        invariant forall q :: q in rest ==> p <= q
        invariant streamed == old(streamed)
        invariant forall h :: h in visited ==> h in old(visited) || Thinned(old(fs), h, p)
        invariant faults == old(faults)
        decreases |rest|
      {
        var fault := Fault();
        if fault {
          return false;
        }
        var q :| q in rest;
        rest := rest - {q};
        fs := fs - {q};
        visited := visited + {fs};
      }
      ok := true;
    }

    // Creates p and whatever is missing on the way to it.
    method MkdirAll(p: Path) returns (ok: bool)
      requires LinkFree(fs, p)
      modifies this
      ensures streamed == old(streamed)
      ensures WayOpened(old(fs), fs, p)
      ensures ok ==> |p| <= maxPath && Get(fs, p) == Some(Dir) && Opens(old(fs), p)
      ensures forall h :: h in visited ==> h in old(visited) || WayOpened(old(fs), h, p)
      ensures faults >= old(faults)
      ensures faults == old(faults) && |p| <= maxPath && Opens(old(fs), p) ==> ok
      decreases |p|
    {
      if |p| > maxPath {
        return false;
      }
      if p in fs {
        return fs[p] == Dir;
      }
      if |p| == 0 {
        return false;
      }
      ok := MkdirAll(p[..|p| - 1]);
      if !ok {
        return;
      }
      var fault := Fault();
      if fault || p in fs {
        return false;
      }
      fs := fs[p := Dir];
      visited := visited + {fs};
    }

    // Sorted, as directory listings are.
    method ReadDir(p: Path) returns (ok: bool, names: seq<Name>)
      modifies this`faults
      ensures ok ==> Get(fs, p) == Some(Dir) && names == Sorted(Children(fs, p))
      ensures faults >= old(faults) && (faults == old(faults) && Get(fs, p) == Some(Dir) ==> ok)
    {
      var fault := Fault();
      if fault || p !in fs || fs[p] != Dir {
        return false, [];
      }
      names := SortNames(set q | q in fs && |q| == |p| + 1 && p <= q :: q[|p|]);
      ok := true;
    }

    method Lstat(p: Path) returns (ok: bool, o: Object)
      modifies this`faults
      ensures ok ==> Get(fs, p) == Some(o)
      ensures faults >= old(faults) && (faults == old(faults) && p in fs ==> ok)
    {
      var fault := Fault();
      if fault || p !in fs {
        return false, Dir;
      }
      ok, o := true, fs[p];
    }

    // Creates p as a new file and streams data into it; a failure may leave any part of it.
    method WriteNew(p: Path, data: Data) returns (ok: bool)
      requires forall a :: a < p && a in fs ==> !fs[a].Symlink?
      modifies this
      ensures OnlyAt(old(fs), fs, p)
      ensures ok ==> Get(fs, p) == Some(File(data)) && p !in old(fs) && streamed == old(streamed) + |data|
      ensures p in old(fs) ==> !ok && Same()
      ensures p !in old(fs) && p in fs ==> fs[p].File?
      ensures forall h :: h in visited ==> h in old(visited) || OnlyAt(old(fs), h, p)
      ensures ok ==> Creatable(old(fs), p, maxPath)
      ensures faults >= old(faults) && (faults == old(faults) && Creatable(old(fs), p, maxPath) ==> ok)
    {
      var fault := Fault();
      if fault || !Creatable(fs, p, maxPath) {
        return false;
      }
      Put(p, File([]));
      var n := 0;
      while n < |data|
        invariant n <= |data| && Get(fs, p) == Some(File(data[..n])) && streamed == old(streamed) + n
        invariant OnlyAt(old(fs), fs, p)
        invariant forall h :: h in visited ==> h in old(visited) || OnlyAt(old(fs), h, p)
        invariant faults == old(faults)
      {
        fault := Fault();
        if fault {
          // A cancelled copy takes its partial file away again; any other failure leaves it.
          var cancelled: bool := *;
          if cancelled {
            var _ := Remove(p);
          }
          return false;
        }
        var chunk: nat :| 0 < chunk <= |data| - n;
        n := n + chunk;
        streamed := streamed + chunk;
        Put(p, File(data[..n]));
      }
      assert data[..n] == data;
      fault := Fault();
      ok := !fault;
    }

    method MakeLink(p: Path, text: string) returns (ok: bool)
      requires forall a :: a < p && a in fs ==> !fs[a].Symlink?
      modifies this
      ensures streamed == old(streamed)
      ensures OnlyAt(old(fs), fs, p)
      ensures ok ==> Get(fs, p) == Some(Symlink(text))
      ensures p in old(fs) ==> !ok && Same()
      ensures forall h :: h in visited ==> h in old(visited) || OnlyAt(old(fs), h, p)
      ensures ok ==> Creatable(old(fs), p, maxPath)
      ensures faults >= old(faults) && (faults == old(faults) && Creatable(old(fs), p, maxPath) ==> ok)
    {
      var fault := Fault();
      if fault || !Creatable(fs, p, maxPath) {
        return false;
      }
      Put(p, Symlink(text));
      ok := true;
    }
  }
}
