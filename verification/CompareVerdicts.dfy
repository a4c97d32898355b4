// What an entry of a comparison says about the two trees, and that none is missing.
module CompareVerdicts {
  import opened Wrappers
  import opened Sorting
  import opened CompareTrees

  // What stands at a path below a directory.
  function At(n: Node, path: seq<string>): Option<Node> {
    if path == [] then Some(n)
    else if n.DirNode? && path[0] in n.entries then At(n.entries[path[0]], path[1..])
    else None
  }

  function PathText(rel: string, path: seq<string>): string
    decreases |path|
  {
    if path == [] then rel else PathText(Join(rel, path[0]), path[1..])
  }

  predicate Open(x: Option<Node>) { x.Some? && x.value.DirNode? && x.value.readable }

  // Both sides have directories that can be listed all the way to path.
  ghost predicate Walked(a: Node, b: Node, path: seq<string>) {
    forall k :: 0 <= k < |path| ==> Open(At(a, path[..k])) && Open(At(b, path[..k]))
  }

  // What the verdict must be for what stands at the same path on the two sides.
  predicate Tells(x: Option<Node>, y: Option<Node>, mode: Mode, v: Verdict) {
    && (x.Some? || y.Some?)
    && (v == OnlyInA <==> y.None?)
    && (v == OnlyInB <==> x.None?)
    && (x.Some? && y.Some? ==> TellsBoth(x.value, y.value, mode, v))
  }

  predicate TellsBoth(x: Node, y: Node, mode: Mode, v: Verdict) {
    if x.DirNode? && y.DirNode? then v == Errored && !(x.readable && y.readable)
    else if x.FileNode? && y.FileNode? then
      && (v == Differs <==>
            x.size != y.size || (mode == Hash && x.digest != NoDigest && y.digest != NoDigest && x.digest != y.digest))
      && (v == Uncertain <==> x.size == y.size && mode == Quick && x.modTime != y.modTime)
      && (v == Errored <==> x.size == y.size && mode == Hash && (x.digest == NoDigest || y.digest == NoDigest))
    else v == Differs
  }

  // What the other fields must be. Two directories are only ever reported because one of them could
  // not be listed; of anything else the entry gives both sides' sizes and times, 0 for a missing side.
  predicate Shows(x: Option<Node>, y: Option<Node>, e: Entry) {
    if x.Some? && y.Some? && x.value.DirNode? && y.value.DirNode? then
      && e.isDir && e.sizeA == e.sizeB == 0 && e.modTimeA == e.modTimeB == 0 && e.note == ""
      && e.err == (if x.value.readable then FaultB else FaultA)
    else
      && e.sizeA == (if x.Some? then x.value.size else 0) && e.modTimeA == (if x.Some? then x.value.modTime else 0)
      && e.sizeB == (if y.Some? then y.value.size else 0) && e.modTimeB == (if y.Some? then y.value.modTime else 0)
      && (e.isDir <==> (x.Some? && y.None? && x.value.DirNode?) || (x.None? && y.Some? && y.value.DirNode?))
      && (e.note == "file vs. directory" <==> x.Some? && y.Some? && x.value.DirNode? != y.value.DirNode?)
      && (e.note == "file vs. directory" || e.note == "")
      && (e.err != NoFault <==> e.verdict == Errored)
      && (e.err == FaultA ==> x.Some? && x.value.FileNode? && x.value.digest == NoDigest)
      && (e.err == FaultB ==> y.Some? && y.value.FileNode? && y.value.digest == NoDigest)
      && (e.err == FaultB ==> x.Some? && x.value.FileNode? && x.value.digest != NoDigest)
  }

  // An entry for the path, with the verdict and everything else that is due.
  ghost predicate Due(e: Entry, rel: string, a: Node, b: Node, mode: Mode, path: seq<string>) {
    && e.relPath == PathText(rel, path) && Walked(a, b, path)
    && Tells(At(a, path), At(b, path), mode, e.verdict) && Shows(At(a, path), At(b, path), e)
  }

  lemma DueBelow(e: Entry, rel: string, a: Node, b: Node, mode: Mode, name: string, path: seq<string>)
    requires a.DirNode? && b.DirNode? && a.readable && b.readable && name in a.entries && name in b.entries
    requires Due(e, Join(rel, name), a.entries[name], b.entries[name], mode, path)
    ensures Due(e, rel, a, b, mode, [name] + path)
  {
    var all := [name] + path;
    assert all[1..] == path;
    forall k | 0 <= k < |all| ensures Open(At(a, all[..k])) && Open(At(b, all[..k])) {
      if k > 0 {
        assert all[..k] == [name] + path[..k - 1];
        assert all[..k][1..] == path[..k - 1];
      }
    }
  }

  lemma DueHere(e: Entry, rel: string, a: Node, b: Node, mode: Mode, name: string)
    requires a.DirNode? && b.DirNode? && a.readable && b.readable && (name in a.entries || name in b.entries)
    requires !(name in a.entries && name in b.entries && a.entries[name].DirNode? && b.entries[name].DirNode?)
    requires WalkName(rel, a, b, mode, name) == [e]
    ensures Due(e, rel, a, b, mode, [name])
  {
    var path := [name];
    assert path[..0] == [] && path[1..] == [];
    assert At(a, path) == if name in a.entries then Some(a.entries[name]) else None;
    assert At(b, path) == if name in b.entries then Some(b.entries[name]) else None;
  }

  // The order of a walk: a directory's entries by name, each with all that lies below it.
  predicate PathBefore(p: seq<string>, q: seq<string>)
    decreases |p|
  {
    q != [] && (p == [] || Less(p[0], q[0]) || (p[0] == q[0] && PathBefore(p[1..], q[1..])))
  }

  // Entry by entry: each is due for a path of its own, and the paths come in order.
  ghost predicate InOrder(entries: seq<Entry>, rel: string, a: Node, b: Node, mode: Mode, paths: seq<seq<string>>) {
    && |paths| == |entries|
    && (forall i :: 0 <= i < |entries| ==> Due(entries[i], rel, a, b, mode, paths[i]))
    && (forall i, j :: 0 <= i < j < |paths| ==> PathBefore(paths[i], paths[j]))
  }

  lemma {:induction false} EntriesInOrder(rel: string, a: Node, b: Node, mode: Mode) returns (paths: seq<seq<string>>)
    requires a.DirNode? && b.DirNode?
    ensures InOrder(WalkDir(rel, a, b, mode), rel, a, b, mode, paths)
    decreases a, b, 1, 0
  {
    if !a.readable || !b.readable {
      paths := [[]];
    } else {
      var names := Sorted(a.entries.Keys + b.entries.Keys);
      paths := NamesInOrder(rel, a, b, mode, names);
    }
  }

  lemma {:induction false} NamesInOrder(rel: string, a: Node, b: Node, mode: Mode, names: seq<string>)
    returns (paths: seq<seq<string>>)
    requires a.DirNode? && b.DirNode? && a.readable && b.readable && Ascending(names)
    requires forall n :: n in names ==> n in a.entries || n in b.entries
    ensures InOrder(WalkNames(rel, a, b, mode, names), rel, a, b, mode, paths)
    ensures forall i :: 0 <= i < |paths| ==> paths[i] != [] && paths[i][0] in names
    decreases a, b, 0, |names|
  {
    hide Due, WalkDir, WalkName;
    paths := [];
    if names != [] {
      var init, name := names[..|names| - 1], names[|names| - 1];
      assert name in names;
      assert forall n :: n in init ==> n in names;
      var before := NamesInOrder(rel, a, b, mode, init);
      var more := NameInOrder(rel, a, b, mode, name);
      paths := before + more;
      assert forall n :: n in init ==> Less(n, name);
    }
  }

  lemma {:induction false} NameInOrder(rel: string, a: Node, b: Node, mode: Mode, name: string)
    returns (paths: seq<seq<string>>)
    requires a.DirNode? && b.DirNode? && a.readable && b.readable && (name in a.entries || name in b.entries)
    ensures InOrder(WalkName(rel, a, b, mode, name), rel, a, b, mode, paths)
    ensures forall i :: 0 <= i < |paths| ==> paths[i] != [] && paths[i][0] == name
    decreases a, b, 0, 0
  {
    hide Due, WalkDir;
    if name in a.entries && name in b.entries && a.entries[name].DirNode? && b.entries[name].DirNode? {
      var below := EntriesInOrder(Join(rel, name), a.entries[name], b.entries[name], mode);
      paths := seq(|below|, i requires 0 <= i < |below| => [name] + below[i]);
      var entries := WalkName(rel, a, b, mode, name);
      forall i | 0 <= i < |entries| ensures Due(entries[i], rel, a, b, mode, paths[i]) {
        DueBelow(entries[i], rel, a, b, mode, name, below[i]);
      }
      forall i, j | 0 <= i < j < |paths| ensures PathBefore(paths[i], paths[j]) {
        assert PathBefore(below[i], below[j]) && paths[i][1..] == below[i] && paths[j][1..] == below[j];
      }
    } else {
      var e := WalkName(rel, a, b, mode, name)[0];
      assert WalkName(rel, a, b, mode, name) == [e];
      DueHere(e, rel, a, b, mode, name);
      paths := [[name]];
    }
  }

  // Every entry is due.
  lemma EveryEntryDue(rel: string, a: Node, b: Node, mode: Mode, e: Entry) returns (path: seq<string>)
    requires a.DirNode? && b.DirNode? && e in WalkDir(rel, a, b, mode)
    ensures Due(e, rel, a, b, mode, path)
  {
    var paths := EntriesInOrder(rel, a, b, mode);
    var i :| 0 <= i < |WalkDir(rel, a, b, mode)| && WalkDir(rel, a, b, mode)[i] == e;
    path := paths[i];
  }

  // The text of a path: its names with slashes in between.
  lemma {:induction false} PathTextSpelled(rel: string, path: seq<string>, name: string)
    ensures PathText(rel, []) == rel
    ensures var above := PathText(rel, path);
            PathText(rel, path + [name]) == if above == "" then name else above + "/" + name
    decreases |path|
  {
    var all := path + [name];
    if path == [] {
      assert all[1..] == [];
    } else {
      assert all[0] == path[0] && all[1..] == path[1..] + [name];
      PathTextSpelled(Join(rel, path[0]), path[1..], name);
    }
  }

  // A path that must be reported: reached through directories on both sides, present on at least
  // one, and not a directory that both sides can list.
  ghost predicate Reportable(a: Node, b: Node, path: seq<string>) {
    && Walked(a, b, path) && (At(a, path).Some? || At(b, path).Some?)
    && !(Open(At(a, path)) && Open(At(b, path)))
  }

  // Every such path has its entry.
  lemma {:induction false} EveryPathReported(rel: string, a: Node, b: Node, mode: Mode, path: seq<string>)
    returns (e: Entry)
    requires a.DirNode? && b.DirNode? && Reportable(a, b, path)
    ensures e in WalkDir(rel, a, b, mode) && Due(e, rel, a, b, mode, path)
    decreases |path|
  {
    if path == [] {
      WalkUnreadable(rel, a, b, mode);
      e := WalkDir(rel, a, b, mode)[0];
    } else {
      var name := path[0];
      assert path[..0] == [] && Open(At(a, path[..0])) && Open(At(b, path[..0]));
      assert name in a.entries || name in b.entries;
      var names := Sorted(a.entries.Keys + b.entries.Keys);
      if name in a.entries && name in b.entries && a.entries[name].DirNode? && b.entries[name].DirNode? {
        ReportableBelow(a, b, path);
        e := EveryPathReported(Join(rel, name), a.entries[name], b.entries[name], mode, path[1..]);
        DueBelow(e, rel, a, b, mode, name, path[1..]);
        assert [name] + path[1..] == path;
      } else {
        AtDepthOne(a, b, path);
        e := WalkName(rel, a, b, mode, name)[0];
        assert WalkName(rel, a, b, mode, name) == [e];
        DueHere(e, rel, a, b, mode, name);
      }
      hide WalkNames, Due;
      InNames(rel, a, b, mode, names, name, e);
    }
  }

  lemma ReportableBelow(a: Node, b: Node, path: seq<string>)
    requires a.DirNode? && b.DirNode? && path != [] && Reportable(a, b, path)
    requires path[0] in a.entries && path[0] in b.entries
    ensures Reportable(a.entries[path[0]], b.entries[path[0]], path[1..])
  {
    var rest := path[1..];
    forall k | 0 <= k < |rest|
      ensures Open(At(a.entries[path[0]], rest[..k])) && Open(At(b.entries[path[0]], rest[..k]))
    {
      assert path[..k + 1][1..] == rest[..k];
    }
  }

  // A path whose first name is not a directory on both sides goes no further.
  lemma AtDepthOne(a: Node, b: Node, path: seq<string>)
    requires a.DirNode? && b.DirNode? && path != [] && Walked(a, b, path)
    requires !(path[0] in a.entries && path[0] in b.entries && a.entries[path[0]].DirNode?
        && b.entries[path[0]].DirNode?)
    ensures path == [path[0]]
  {
    var one, name := path[..1], path[0];
    assert one[0] == name && one[1..] == [];
    assert At(a, one) == if name in a.entries then Some(a.entries[name]) else None;
    assert At(b, one) == if name in b.entries then Some(b.entries[name]) else None;
    assert |path| > 1 ==> Open(At(a, one)) && Open(At(b, one));
  }

  lemma {:induction false} InNames(rel: string, a: Node, b: Node, mode: Mode, names: seq<string>,
        name: string, e: Entry)
    requires a.DirNode? && b.DirNode? && name in names
    requires forall n :: n in names ==> n in a.entries || n in b.entries
    requires e in WalkName(rel, a, b, mode, name)
    ensures e in WalkNames(rel, a, b, mode, names)
    decreases |names|
  {
    hide WalkName;
    var init := names[..|names| - 1];
    if names[|names| - 1] != name {
      assert names == init + [names[|names| - 1]];
      InNames(rel, a, b, mode, init, name, e);
    }
  }
}
