// Comparing two directory trees in lock step.
module CompareTrees {
  import opened Sorting

  // A file with its size, time and digest (none if it cannot be read), or a directory.
  datatype Digest = NoDigest | Digest(text: string)
  datatype Node =
    | FileNode(size: int, modTime: int, digest: Digest)
    | DirNode(size: int, modTime: int, readable: bool, entries: map<string, Node>)

  datatype Verdict = Identical | Differs | Uncertain | OnlyInA | OnlyInB | Errored
  datatype Mode = Quick | Hash
  datatype Fault = NoFault | FaultA | FaultB

  datatype Entry = Entry(relPath: string, isDir: bool, verdict: Verdict, sizeA: int, sizeB: int,
                         modTimeA: int, modTimeB: int, note: string, err: Fault)

  datatype Stats = Stats(identical: nat, differs: nat, uncertain: nat, onlyInA: nat, onlyInB: nat, errored: nat)

  // ---- What a comparison reports ----

  function CompareFile(rel: string, a: Node, b: Node, mode: Mode): Entry
    requires a.FileNode? && b.FileNode?
  {
    var e := Entry(rel, false, Identical, a.size, b.size, a.modTime, b.modTime, "", NoFault);
    if a.size != b.size then e.(verdict := Differs)
    else if mode == Quick then e.(verdict := if a.modTime == b.modTime then Identical else Uncertain)
    else if a.digest == NoDigest then e.(verdict := Errored, err := FaultA)
    else if b.digest == NoDigest then e.(verdict := Errored, err := FaultB)
    else e.(verdict := if a.digest == b.digest then Identical else Differs)
  }

  function OneSided(rel: string, v: Verdict, n: Node): Entry {
    if v == OnlyInA then Entry(rel, n.DirNode?, v, n.size, 0, n.modTime, 0, "", NoFault)
    else Entry(rel, n.DirNode?, v, 0, n.size, 0, n.modTime, "", NoFault)
  }

  const FILE_VS_DIRECTORY := "file vs. directory"

  function Join(rel: string, name: string): string {
    if rel != "" then rel + "/" + name else name
  }

  ghost function WalkDir(rel: string, a: Node, b: Node, mode: Mode): seq<Entry>
    requires a.DirNode? && b.DirNode?
    decreases a, b, 1, 0
  {
    if !a.readable || !b.readable then
      [Entry(rel, true, Errored, 0, 0, 0, 0, "", if !a.readable then FaultA else FaultB)]
    else WalkNames(rel, a, b, mode, Sorted(a.entries.Keys + b.entries.Keys))
  }

  ghost function WalkNames(rel: string, a: Node, b: Node, mode: Mode, names: seq<string>): seq<Entry>
    requires a.DirNode? && b.DirNode?
    requires forall n :: n in names ==> n in a.entries || n in b.entries
    decreases a, b, 0, |names|
  {
    if names == [] then []
    else
      WalkNames(rel, a, b, mode, names[..|names| - 1]) + WalkName(rel, a, b, mode, names[|names| - 1])
  }

  ghost function WalkName(rel: string, a: Node, b: Node, mode: Mode, name: string): seq<Entry>
    requires a.DirNode? && b.DirNode? && (name in a.entries || name in b.entries)
    decreases a, b, 0, 0
  {
    var path := Join(rel, name);
    if name !in b.entries then [OneSided(path, OnlyInA, a.entries[name])]
    else if name !in a.entries then [OneSided(path, OnlyInB, b.entries[name])]
    else
      var x, y := a.entries[name], b.entries[name];
      if x.DirNode? != y.DirNode? then
        [Entry(path, false, Differs, x.size, y.size, x.modTime, y.modTime, FILE_VS_DIRECTORY, NoFault)]
      else if x.DirNode? then WalkDir(path, x, y, mode)
      else [CompareFile(path, x, y, mode)]
  }

  lemma AppendTwice(x: seq<Entry>, y: seq<Entry>, z: seq<Entry>)
    ensures x + y + z == x + (y + z)
  {
  }

  lemma WalkUnreadable(rel: string, a: Node, b: Node, mode: Mode)
    requires a.DirNode? && b.DirNode? && (!a.readable || !b.readable)
    ensures WalkDir(rel, a, b, mode)
        == [Entry(rel, true, Errored, 0, 0, 0, 0, "", if !a.readable then FaultA else FaultB)]
  {
  }

  lemma WalkNames0(rel: string, a: Node, b: Node, mode: Mode, names: seq<string>)
    requires a.DirNode? && b.DirNode? && a.readable && b.readable
    requires names == Sorted(a.entries.Keys + b.entries.Keys)
    ensures forall n :: n in names ==> n in a.entries || n in b.entries
    ensures WalkNames(rel, a, b, mode, names[..0]) == []
    ensures WalkDir(rel, a, b, mode) == WalkNames(rel, a, b, mode, names)
  {
  }

  lemma WalkNamesNext(rel: string, a: Node, b: Node, mode: Mode, names: seq<string>, i: nat)
    requires a.DirNode? && b.DirNode? && i < |names|
    requires forall n :: n in names ==> n in a.entries || n in b.entries
    ensures names[i] in names
    ensures WalkNames(rel, a, b, mode, names[..i + 1]) ==
              WalkNames(rel, a, b, mode, names[..i]) + WalkName(rel, a, b, mode, names[i])
  {
    assert names[..i + 1][..i] == names[..i];
  }

  function Tally(s: Stats, v: Verdict): Stats {
    match v
    case Identical => s.(identical := s.identical + 1)
    case Differs => s.(differs := s.differs + 1)
    case Uncertain => s.(uncertain := s.uncertain + 1)
    case OnlyInA => s.(onlyInA := s.onlyInA + 1)
    case OnlyInB => s.(onlyInB := s.onlyInB + 1)
    case Errored => s.(errored := s.errored + 1)
  }

  // How many entries carry the verdict v.
  function Count(entries: seq<Entry>, v: Verdict): nat {
    if entries == [] then 0
    else Count(entries[..|entries| - 1], v) + if entries[|entries| - 1].verdict == v then 1 else 0
  }

  ghost predicate Histogram(s: Stats, entries: seq<Entry>) {
    && s.identical == Count(entries, Identical) && s.differs == Count(entries, Differs)
    && s.uncertain == Count(entries, Uncertain) && s.onlyInA == Count(entries, OnlyInA)
    && s.onlyInB == Count(entries, OnlyInB) && s.errored == Count(entries, Errored)
  }

  // ---- The walk as it runs ----

  class Walker {
    var entries: seq<Entry>
    var stats: Stats
    var count: nat

    ghost predicate Valid() reads this { Histogram(stats, entries) && count == |entries| }

    constructor ()
      ensures Valid() && entries == []
    {
      entries, stats, count := [], Stats(0, 0, 0, 0, 0, 0), 0;
    }

    method Report(e: Entry)
      requires Valid()
      modifies this
      ensures Valid() && entries == old(entries) + [e]
    {
      entries := entries + [e];
      stats := Tally(stats, e.verdict);
      count := count + 1;
    }

    method WalkInto(rel: string, a: Node, b: Node, mode: Mode)
      requires Valid() && a.DirNode? && b.DirNode?
      modifies this
      ensures Valid() && entries == old(entries) + WalkDir(rel, a, b, mode)
      decreases a, b, 1
    {
      hide *;
      if !a.readable || !b.readable {
        WalkUnreadable(rel, a, b, mode);
        Report(Entry(rel, true, Errored, 0, 0, 0, 0, "", if !a.readable then FaultA else FaultB));
        return;
      }
      var names := UnionSorted(a.entries.Keys, b.entries.Keys);
      WalkNames0(rel, a, b, mode, names);
      ghost var start, done: seq<Entry> := entries, [];
      for i := 0 to |names|
        invariant Valid() && entries == start + done
        invariant done == WalkNames(rel, a, b, mode, names[..i])
      {
        WalkNamesNext(rel, a, b, mode, names, i);
        ghost var more := WalkName(rel, a, b, mode, names[i]);
        WalkOne(rel, a, b, mode, names[i]);
        AppendTwice(start, done, more);
        done := done + more;
      }
      assert names[..|names|] == names;
    }

    method WalkOne(rel: string, a: Node, b: Node, mode: Mode, name: string)
      requires Valid() && a.DirNode? && b.DirNode? && (name in a.entries || name in b.entries)
      modifies this
      ensures Valid() && entries == old(entries) + WalkName(rel, a, b, mode, name)
      decreases a, b, 0
    {
      var path := name;
      if rel != "" {
        path := rel + "/" + name;
      }
      if name in a.entries && name !in b.entries {
        Report(OneSided(path, OnlyInA, a.entries[name]));
      } else if name !in a.entries {
        Report(OneSided(path, OnlyInB, b.entries[name]));
      } else {
        var x, y := a.entries[name], b.entries[name];
        if x.DirNode? != y.DirNode? {
          Report(Entry(path, false, Differs, x.size, y.size, x.modTime, y.modTime, FILE_VS_DIRECTORY, NoFault));
        } else if x.DirNode? {
          WalkInto(path, x, y, mode);
        } else {
          Report(CompareFile(path, x, y, mode));
        }
      }
    }
  }

  method UnionSorted(a: set<string>, b: set<string>) returns (names: seq<string>)
    ensures names == Sorted(a + b)
  {
    names := SortNames(a + b);
  }

  // The roots are given; the statistics are always the histogram of what is reported.
  method Walk(a: Node, b: Node, mode: Mode) returns (entries: seq<Entry>, stats: Stats)
    requires a.DirNode? && b.DirNode?
    ensures entries == WalkDir("", a, b, mode) && Histogram(stats, entries)
  {
    var w := new Walker();
    w.WalkInto("", a, b, mode);
    entries, stats := w.entries, w.stats;
    assert [] + WalkDir("", a, b, mode) == WalkDir("", a, b, mode);
  }

  // ---- Identical throughout ----

  // Every directory can be listed and every digest taken.
  ghost predicate NoReadErrors(n: Node) {
    match n
    case FileNode(_, _, d) => d != NoDigest
    case DirNode(_, _, readable, entries) => readable && forall name :: name in entries ==> NoReadErrors(entries[name])
  }

  // The same names, kinds, sizes and digests throughout; times and directory sizes do not matter.
  ghost predicate SameTree(a: Node, b: Node) {
    match a
    case FileNode(size, _, d) => b.FileNode? && size == b.size && d == b.digest
    case DirNode(_, _, _, entries) =>
      b.DirNode? && entries.Keys == b.entries.Keys &&
      forall name :: name in entries && name in b.entries ==> SameTree(entries[name], b.entries[name])
  }

  ghost predicate AllIdentical(entries: seq<Entry>) {
    forall e :: e in entries ==> e.verdict == Identical
  }

  lemma {:induction false} IdenticalIffSame(rel: string, a: Node, b: Node)
    requires a.DirNode? && b.DirNode? && NoReadErrors(a) && NoReadErrors(b)
    ensures AllIdentical(WalkDir(rel, a, b, Hash)) <==> SameTree(a, b)
    decreases a, b, 1, 0
  {
    var names := Sorted(a.entries.Keys + b.entries.Keys);
    NamesIdentical(rel, a, b, names);
    if forall n :: n in names ==> SameUnder(a, b, n) {
      assert a.entries.Keys == b.entries.Keys by {
        forall n | n in a.entries.Keys + b.entries.Keys ensures n in a.entries && n in b.entries {
          assert SameUnder(a, b, n);
        }
      }
      assert SameTree(a, b) by {
        forall n | n in a.entries && n in b.entries ensures SameTree(a.entries[n], b.entries[n]) {
          assert SameUnder(a, b, n);
        }
      }
    }
  }

  ghost predicate SameUnder(a: Node, b: Node, name: string)
    requires a.DirNode? && b.DirNode?
  {
    name in a.entries && name in b.entries && SameTree(a.entries[name], b.entries[name])
  }

  lemma {:induction false} NamesIdentical(rel: string, a: Node, b: Node, names: seq<string>)
    requires a.DirNode? && b.DirNode? && NoReadErrors(a) && NoReadErrors(b)
    requires forall n :: n in names ==> n in a.entries || n in b.entries
    ensures AllIdentical(WalkNames(rel, a, b, Hash, names)) <==> forall n :: n in names ==> SameUnder(a, b, n)
    decreases a, b, 0, |names|
  {
    if names != [] {
      var init, last := names[..|names| - 1], names[|names| - 1];
      NamesIdentical(rel, a, b, init);
      NameIdentical(rel, a, b, last);
      assert names == init + [last];
      var x, y := WalkNames(rel, a, b, Hash, init), WalkName(rel, a, b, Hash, last);
      assert AllIdentical(x + y) <==> AllIdentical(x) && AllIdentical(y);
    }
  }

  lemma {:induction false} NameIdentical(rel: string, a: Node, b: Node, name: string)
    requires a.DirNode? && b.DirNode? && NoReadErrors(a) && NoReadErrors(b)
    requires name in a.entries || name in b.entries
    ensures AllIdentical(WalkName(rel, a, b, Hash, name)) <==> SameUnder(a, b, name)
    decreases a, b, 0, 0
  {
    if name in a.entries && name in b.entries {
      var x, y := a.entries[name], b.entries[name];
      if x.DirNode? && y.DirNode? {
        IdenticalIffSame(Join(rel, name), x, y);
      } else {
        var e := WalkName(rel, a, b, Hash, name)[0];
        assert WalkName(rel, a, b, Hash, name) == [e];
      }
    } else {
      var e := WalkName(rel, a, b, Hash, name)[0];
      assert WalkName(rel, a, b, Hash, name) == [e];
    }
  }

  // ---- Swapping the arguments ----

  function SwapVerdict(v: Verdict): Verdict {
    if v == OnlyInA then OnlyInB else if v == OnlyInB then OnlyInA else v
  }

  function SwapFault(f: Fault): Fault {
    if f == FaultA then FaultB else if f == FaultB then FaultA else f
  }

  // The same entry seen from the other side.
  function SwapEntry(e: Entry): Entry {
    Entry(e.relPath, e.isDir, SwapVerdict(e.verdict), e.sizeB, e.sizeA, e.modTimeB, e.modTimeA, e.note,
        SwapFault(e.err))
  }

  function Swapped(es: seq<Entry>): (r: seq<Entry>)
    ensures |r| == |es| && forall i :: 0 <= i < |es| ==> r[i] == SwapEntry(es[i])
  {
    seq(|es|, i requires 0 <= i < |es| => SwapEntry(es[i]))
  }

  // Equal but for which side's failure is the one reported.
  ghost predicate Alike(x: seq<Entry>, y: seq<Entry>) {
    |x| == |y| && forall i :: 0 <= i < |x| ==> x[i].(err := NoFault) == y[i].(err := NoFault)
  }

  // Nowhere do both sides fail on the same path.
  ghost predicate NoDoubleFault(a: Node, b: Node, mode: Mode) {
    match a
    case FileNode(size, _, d) =>
      b.FileNode? && mode == Hash && size == b.size ==> d != NoDigest || b.digest != NoDigest
    case DirNode(_, _, readable, entries) =>
      b.DirNode? ==>
        (readable || b.readable) &&
        (readable && b.readable ==>
           forall name :: name in entries && name in b.entries ==> NoDoubleFault(entries[name], b.entries[name], mode))
  }

  // Swapping the two trees yields the same paths in the same order with the two sides exchanged;
  // to the last field exactly when no path fails on both sides.
  lemma {:induction false} SwapWalk(rel: string, a: Node, b: Node, mode: Mode)
    requires a.DirNode? && b.DirNode?
    ensures Alike(WalkDir(rel, b, a, mode), Swapped(WalkDir(rel, a, b, mode)))
    ensures WalkDir(rel, b, a, mode) == Swapped(WalkDir(rel, a, b, mode)) <==> NoDoubleFault(a, b, mode)
    decreases a, b, 1, 0
  {
    if !a.readable || !b.readable {
      var x, y := WalkDir(rel, b, a, mode), WalkDir(rel, a, b, mode);
      assert x == [x[0]] && Swapped(y) == [SwapEntry(y[0])];
    } else {
      assert a.entries.Keys + b.entries.Keys == b.entries.Keys + a.entries.Keys;
      SwapNames(rel, a, b, mode, Sorted(a.entries.Keys + b.entries.Keys));
      SwapNamesAll(a, b, mode);
    }
  }

  ghost predicate NoDoubleUnder(a: Node, b: Node, mode: Mode, name: string)
    requires a.DirNode? && b.DirNode?
  {
    name in a.entries && name in b.entries ==> NoDoubleFault(a.entries[name], b.entries[name], mode)
  }

  lemma SwapNamesAll(a: Node, b: Node, mode: Mode)
    requires a.DirNode? && b.DirNode? && a.readable && b.readable
    ensures NoDoubleFault(a, b, mode) <==>
              forall n :: n in Sorted(a.entries.Keys + b.entries.Keys) ==> NoDoubleUnder(a, b, mode, n)
  {
    if forall n :: n in Sorted(a.entries.Keys + b.entries.Keys) ==> NoDoubleUnder(a, b, mode, n) {
      forall n | n in a.entries && n in b.entries ensures NoDoubleFault(a.entries[n], b.entries[n], mode) {
        assert NoDoubleUnder(a, b, mode, n);
      }
    }
  }

  lemma {:induction false} SwapNames(rel: string, a: Node, b: Node, mode: Mode, names: seq<string>)
    requires a.DirNode? && b.DirNode?
    requires forall n :: n in names ==> n in a.entries || n in b.entries
    ensures Alike(WalkNames(rel, b, a, mode, names), Swapped(WalkNames(rel, a, b, mode, names)))
    ensures WalkNames(rel, b, a, mode, names) == Swapped(WalkNames(rel, a, b, mode, names)) <==>
              forall n :: n in names ==> NoDoubleUnder(a, b, mode, n)
    decreases a, b, 0, |names|
  {
    if names != [] {
      var init, last := names[..|names| - 1], names[|names| - 1];
      assert names == init + [last];
      SwapNames(rel, a, b, mode, init);
      SwapName(rel, a, b, mode, last);
      SwapConcat(WalkNames(rel, b, a, mode, init), WalkName(rel, b, a, mode, last),
                 WalkNames(rel, a, b, mode, init), WalkName(rel, a, b, mode, last));
    }
  }

  lemma SwapConcat(x: seq<Entry>, y: seq<Entry>, u: seq<Entry>, v: seq<Entry>)
    requires Alike(x, Swapped(u)) && Alike(y, Swapped(v))
    ensures Alike(x + y, Swapped(u + v))
    ensures x + y == Swapped(u + v) <==> x == Swapped(u) && y == Swapped(v)
  {
    SwappedParts(u, v);
    hide Swapped, Alike;
    AlikeParts(x, y, Swapped(u), Swapped(v));
    SamePairs(x, y, Swapped(u), Swapped(v));
  }

  lemma SwappedParts(u: seq<Entry>, v: seq<Entry>)
    ensures Swapped(u + v) == Swapped(u) + Swapped(v)
  {
    hide SwapEntry;
  }

  lemma AlikeParts(x: seq<Entry>, y: seq<Entry>, u: seq<Entry>, v: seq<Entry>)
    requires Alike(x, u) && Alike(y, v)
    ensures Alike(x + y, u + v) && |x| == |u|
  {
  }

  lemma SamePairs<T>(x: seq<T>, y: seq<T>, u: seq<T>, v: seq<T>)
    requires |x| == |u|
    ensures x + y == u + v <==> x == u && y == v
  {
    assert (x + y)[..|x|] == x && (x + y)[|x|..] == y;
    assert (u + v)[..|u|] == u && (u + v)[|u|..] == v;
  }

  lemma {:induction false} SwapName(rel: string, a: Node, b: Node, mode: Mode, name: string)
    requires a.DirNode? && b.DirNode? && (name in a.entries || name in b.entries)
    ensures Alike(WalkName(rel, b, a, mode, name), Swapped(WalkName(rel, a, b, mode, name)))
    ensures WalkName(rel, b, a, mode, name) == Swapped(WalkName(rel, a, b, mode, name))
        <==> NoDoubleUnder(a, b, mode, name)
    decreases a, b, 0, 0
  {
    if name in a.entries && name in b.entries && a.entries[name].DirNode? && b.entries[name].DirNode? {
      SwapWalk(Join(rel, name), a.entries[name], b.entries[name], mode);
    } else {
      SwapLeaf(rel, a, b, mode, name);
    }
  }

  lemma SwapLeaf(rel: string, a: Node, b: Node, mode: Mode, name: string)
    requires a.DirNode? && b.DirNode? && (name in a.entries || name in b.entries)
    requires !(name in a.entries && name in b.entries && a.entries[name].DirNode? && b.entries[name].DirNode?)
    ensures Alike(WalkName(rel, b, a, mode, name), Swapped(WalkName(rel, a, b, mode, name)))
    ensures WalkName(rel, b, a, mode, name) == Swapped(WalkName(rel, a, b, mode, name))
        <==> NoDoubleUnder(a, b, mode, name)
  {
    var x, y := WalkName(rel, b, a, mode, name), WalkName(rel, a, b, mode, name);
    assert x == [x[0]] && Swapped(y) == [SwapEntry(y[0])];
  }

  // Two directories that can both not be listed: each comparison blames its own first side.
  lemma BothSidesFail(size: int, time: int, mode: Mode)
    ensures var d := DirNode(size, time, false, map[]);
            && !NoDoubleFault(d, d, mode)
            && WalkDir("", d, d, mode) == [Entry("", true, Errored, 0, 0, 0, 0, "", FaultA)]
            && Swapped(WalkDir("", d, d, mode)) == [Entry("", true, Errored, 0, 0, 0, 0, "", FaultB)]
  {
  }
}
