// The file system a batch rename works on, and what one rename and a run of renames do to it.
module Rename {
  import opened Wrappers

  // A full path, split the way filepath.Dir and filepath.Base split it.
  datatype Path = Path(dir: string, name: string)

  datatype Change = Change(from: Path, to: Path)

  // What stands under a name; a folder's whole tree moves with it.
  datatype Content = File(data: string) | Folder(tree: string)
  type Fs = map<Path, Content>

  function Sources(cs: seq<Change>): set<Path> { set c | c in cs :: c.from }

  function Targets(cs: seq<Change>): set<Path> { set c | c in cs :: c.to }

  ghost predicate DistinctSources(cs: seq<Change>) {
    forall i, j :: 0 <= i < j < |cs| ==> cs[i].from != cs[j].from
  }

  ghost predicate DistinctTargets(cs: seq<Change>) {
    forall i, j :: 0 <= i < j < |cs| ==> cs[i].to != cs[j].to
  }

  // What os.Rename leaves behind when it succeeds: the destination, if occupied, is replaced.
  function Moved(fs: Fs, c: Change): Fs
    requires c.from in fs
  {
    Without(fs, c.from)[c.to := fs[c.from]]
  }

  function Without(fs: Fs, p: Path): (g: Fs)
    ensures g.Keys == fs.Keys - {p}
    ensures forall q :: q in g ==> g[q] == fs[q]
  {
    fs - {p}
  }

  // A run in which every step must find its source present and its destination free.
  ghost function Run(fs: Fs, steps: seq<Change>): Option<Fs> {
    if steps == [] then Some(fs)
    else
      match Run(fs, steps[..|steps| - 1])
      case None => None
      case Some(g) =>
        var c := steps[|steps| - 1];
        if c.from in g && c.to !in g then Some(Moved(g, c)) else None
  }

  lemma {:induction false} RunAppend(fs: Fs, a: seq<Change>, b: seq<Change>)
    requires Run(fs, a).Some?
    ensures Run(fs, a + b) == Run(Run(fs, a).value, b)
  {
    if b == [] {
      assert a + b == a;
    } else {
      RunAppend(fs, a, b[..|b| - 1]);
      assert (a + b)[..|a + b| - 1] == a + b[..|b| - 1];
    }
  }

  // All of cs at once: every source's content moves to its target, everything else stays.
  ghost function Simultaneous(fs: Fs, cs: seq<Change>): Fs
    requires Sources(cs) <= fs.Keys
  {
    map p | p in (fs.Keys - Sources(cs)) + Targets(cs) ::
      if p in Targets(cs) then fs[Claimant(cs, p).from] else fs[p]
  }

  ghost function Claimant(cs: seq<Change>, p: Path): (c: Change)
    requires p in Targets(cs)
    ensures c in cs && c.to == p
  {
    var c :| c in cs && c.to == p; c
  }

  // Each step starts from an original name, and lands on a name free at that moment.
  ghost predicate Serial(fs: Fs, steps: seq<Change>) {
    && Sources(steps) <= fs.Keys
    && DistinctSources(steps) && DistinctTargets(steps)
    && (forall k :: 0 <= k < |steps| ==> steps[k].from !in Targets(steps[..k]))
    && (forall k :: 0 <= k < |steps| ==> steps[k].to !in fs || steps[k].to in Sources(steps[..k]))
  }

  // Running a serial list one by one is renaming it simultaneously.
  lemma {:induction false} SerialRun(fs: Fs, steps: seq<Change>)
    requires Serial(fs, steps)
    ensures Run(fs, steps) == Some(Simultaneous(fs, steps))
  {
    hide *;
    if steps == [] {
      NoSteps(fs);
    } else {
      var n := |steps| - 1;
      SerialInit(fs, steps);
      SerialRun(fs, steps[..n]);
      MovedSimultaneous(fs, steps[..n], steps[n]);
      assert steps == steps[..n] + [steps[n]];
      RunLast(fs, steps);
    }
  }

  lemma NoSteps(fs: Fs)
    ensures Run(fs, []) == Some(fs) && Simultaneous(fs, []) == fs
  {
  }

  lemma RunLast(fs: Fs, steps: seq<Change>)
    requires steps != [] && Run(fs, steps[..|steps| - 1]).Some?
    ensures var g, c := Run(fs, steps[..|steps| - 1]).value, steps[|steps| - 1];
            Run(fs, steps) == if c.from in g && c.to !in g then Some(Moved(g, c)) else None
  {
    hide Moved;
  }

  lemma SerialInit(fs: Fs, steps: seq<Change>)
    requires Serial(fs, steps) && steps != []
    ensures Serial(fs, steps[..|steps| - 1])
    ensures steps[|steps| - 1].from !in Sources(steps[..|steps| - 1])
    ensures steps[|steps| - 1].to !in Targets(steps[..|steps| - 1])
    ensures Sources(steps[..|steps| - 1]) <= fs.Keys && DistinctTargets(steps[..|steps| - 1])
    ensures var init, c := steps[..|steps| - 1], steps[|steps| - 1];
            && c.from in fs && c.from !in Targets(init) && (c.to !in fs || c.to in Sources(init))
  {
    var n := |steps| - 1;
    assert steps[n] in steps;
    forall k | 0 <= k < n ensures steps[..n][..k] == steps[..k] && steps[..n][k] == steps[k] {}
    assert forall c :: c in steps[..n] ==> c in steps;
  }

  // One more change, starting from an original name and landing on a free one.
  lemma MovedSimultaneous(fs: Fs, init: seq<Change>, c: Change)
    requires Sources(init) <= fs.Keys && DistinctTargets(init)
    requires c.from in fs && c.from !in Sources(init) && c.from !in Targets(init)
    requires c.to !in Targets(init) && (c.to !in fs || c.to in Sources(init))
    ensures Sources(init + [c]) <= fs.Keys
    ensures c.from in Simultaneous(fs, init) && c.to !in Simultaneous(fs, init)
    ensures Moved(Simultaneous(fs, init), c) == Simultaneous(fs, init + [c])
  {
    var steps := init + [c];
    assert forall d :: d in steps <==> d in init || d == c;
    assert Sources(steps) == Sources(init) + {c.from};
    assert Targets(steps) == Targets(init) + {c.to};
    assert Moved(Simultaneous(fs, init), c).Keys == Simultaneous(fs, steps).Keys;
    forall p | p in Simultaneous(fs, steps)
      ensures Moved(Simultaneous(fs, init), c)[p] == Simultaneous(fs, steps)[p]
    {
      if p in Targets(init) {
        UniqueClaimant(init, p);
        assert Claimant(steps, p) == Claimant(init, p);
      }
    }
  }

  lemma UniqueClaimant(cs: seq<Change>, p: Path)
    requires DistinctTargets(cs)
    ensures forall c :: c in cs && c.to == p ==> c == Claimant(cs, p)
  {
  }

  // The contents present, with multiplicity, whatever they are called.
  ghost function Contents(fs: Fs): multiset<Content>
    decreases |fs|
  {
    if fs == map[] then multiset{}
    else
      var p := SomePath(fs);
      multiset{fs[p]} + Contents(Without(fs, p))
  }

  ghost function SomePath(fs: Fs): (p: Path)
    requires fs != map[]
    ensures p in fs
  {
    var p :| p in fs; p
  }

  lemma WithoutTwice(fs: Fs, p: Path, q: Path)
    ensures Without(Without(fs, q), p) == Without(Without(fs, p), q)
  {
  }

  lemma AddTwice(rest: multiset<Content>, a: Content, b: Content)
    ensures multiset{a} + (multiset{b} + rest) == multiset{b} + (multiset{a} + rest)
  {
  }

  lemma {:induction false} ContentsRemove(fs: Fs, p: Path)
    requires p in fs
    ensures Contents(fs) == multiset{fs[p]} + Contents(Without(fs, p))
    decreases |fs|
  {
    var q := SomePath(fs);
    if q != p {
      ContentsRemove(Without(fs, q), p);
      ContentsRemove(Without(fs, p), q);
      WithoutTwice(fs, p, q);
      AddTwice(Contents(Without(Without(fs, p), q)), fs[p], fs[q]);
    }
  }

  lemma {:induction false} ContentsSize(fs: Fs)
    ensures |Contents(fs)| == |fs|
    decreases |fs|
  {
    if fs != map[] {
      ContentsSize(Without(fs, SomePath(fs)));
    }
  }

  lemma MovedSize(fs: Fs, c: Change)
    requires c.from in fs
    ensures |Moved(fs, c)| == if c.to in fs && c.to != c.from then |fs| - 1 else |fs|
  {
    assert Moved(fs, c).Keys == fs.Keys - {c.from} + {c.to};
  }

  lemma MovedWithout(fs: Fs, c: Change)
    requires c.from in fs && c.to !in fs
    ensures Without(Moved(fs, c), c.to) == Without(fs, c.from)
    ensures Without(fs, c.from)[c.from := fs[c.from]] == fs
  {
  }

  lemma MovedToFree(fs: Fs, c: Change)
    requires c.from in fs && c.to !in fs
    ensures Contents(Moved(fs, c)) == Contents(fs)
    ensures Moved(Moved(fs, c), Change(c.to, c.from)) == fs
  {
    var g := Moved(fs, c);
    ContentsRemove(fs, c.from);
    ContentsRemove(g, c.to);
    MovedWithout(fs, c);
  }
}
