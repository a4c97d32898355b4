// The Merkle root of a source index: a level-by-level hash tree that pairs a last odd node with itself.
module Merkle {
  import opened Sorting

  type Byte = x: int | 0 <= x < 256
  type Bytes = seq<Byte>
  type Bytes32 = d: Bytes | |d| == 32 witness seq(32, _ => 0)
  datatype Digest = Digest(bytes: Bytes32)

  function Concat(a: Bytes, b: Bytes): Bytes { a + b }

  // sha is the file's own digest as 64 hexadecimal characters.
  type HexDigest = s: Bytes | |s| == 64 witness seq(64, _ => 48)
  datatype File = File(path: Bytes, sha: HexDigest)

  function LeafInput(f: File): Bytes { f.path + [0] + f.sha }

  lemma LeafInputInjective(f: File, g: File)
    requires LeafInput(f) == LeafInput(g)
    ensures f == g
  {
    var a, b := LeafInput(f), LeafInput(g);
    assert f.path == a[..|a| - 65] && f.sha == a[|a| - 64..];
    assert g.path == b[..|b| - 65] && g.sha == b[|b| - 64..];
  }

  // ---- The tree ----

  function Leaves(h: Bytes -> Digest, files: seq<File>): (level: seq<Digest>)
    ensures |level| == |files|
  {
    seq(|files|, i requires 0 <= i < |files| => h(LeafInput(files[i])))
  }

  // What is hashed into node i of the next level: the i-th pair, or the last node twice.
  function NodeInput(level: seq<Digest>, i: nat): (input: Bytes)
    requires 2 * i < |level|
    ensures |input| == 64
  {
    Concat(level[2 * i].bytes, level[if 2 * i + 1 < |level| then 2 * i + 1 else 2 * i].bytes)
  }

  function NextLevel(h: Bytes -> Digest, level: seq<Digest>): (next: seq<Digest>)
    ensures |next| == (|level| + 1) / 2
  {
    seq((|level| + 1) / 2, i requires 0 <= i < (|level| + 1) / 2 => h(NodeInput(level, i)))
  }

  function RootOf(h: Bytes -> Digest, level: seq<Digest>): Digest
    requires level != []
    decreases |level|
  {
    if |level| == 1 then level[0] else RootOf(h, NextLevel(h, level))
  }

  function HexDigit(n: int): char
    requires 0 <= n < 16
  {
    "0123456789abcdef"[n]
  }

  function Hex(d: Bytes): (s: string)
    ensures |s| == 2 * |d|
    ensures forall i :: 0 <= i < |d| ==> s[2 * i] == HexDigit(d[i] / 16) && s[2 * i + 1] == HexDigit(d[i] % 16)
  {
    if d == [] then ""
    else Hex(d[..|d| - 1]) + [HexDigit(d[|d| - 1] / 16), HexDigit(d[|d| - 1] % 16)]
  }

  lemma HexInjective(a: Bytes, b: Bytes)
    requires Hex(a) == Hex(b)
    ensures a == b
  {
    forall i | 0 <= i < |a| ensures a[i] == b[i] {
      assert HexDigit(a[i] / 16) == HexDigit(b[i] / 16) && HexDigit(a[i] % 16) == HexDigit(b[i] % 16);
      HexDigitInjective(a[i] / 16, b[i] / 16);
      HexDigitInjective(a[i] % 16, b[i] % 16);
    }
  }

  lemma HexDigitInjective(m: int, n: int)
    requires 0 <= m < 16 && 0 <= n < 16 && HexDigit(m) == HexDigit(n)
    ensures m == n
  {
  }

  function TopDigest(h: Bytes -> Digest, files: seq<File>): Digest {
    if files == [] then h([]) else RootOf(h, Leaves(h, files))
  }

  function RootText(h: Bytes -> Digest, files: seq<File>): string {
    Hex(TopDigest(h, files).bytes)
  }

  method MerkleRoot(h: Bytes -> Digest, files: seq<File>) returns (root: string)
    ensures root == RootText(h, files)
  {
    if |files| == 0 {
      return Hex(h([]).bytes);
    }
    var level: seq<Digest> := [];
    for i := 0 to |files|
      invariant level == Leaves(h, files)[..i]
    {
      assert Leaves(h, files)[..i + 1] == Leaves(h, files)[..i] + [h(LeafInput(files[i]))];
      level := level + [h(files[i].path + [0] + files[i].sha)];
    }
    assert level == Leaves(h, files);
    while |level| > 1
      invariant level != [] && RootOf(h, level) == RootOf(h, Leaves(h, files))
      decreases |level|
    {
      var next: seq<Digest> := [];
      var i := 0;
      while i < |level|
        invariant 0 <= i <= |level| + 1 && i % 2 == 0
        invariant |next| == i / 2 && next == NextLevel(h, level)[..i / 2]
      {
        assert NextLevel(h, level)[..i / 2 + 1] == NextLevel(h, level)[..i / 2] + [h(NodeInput(level, i / 2))];
        var right := level[i];
        if i + 1 < |level| {
          right := level[i + 1];
        }
        next := next + [h(Concat(level[i].bytes, right.bytes))];
        i := i + 2;
      }
      assert next == NextLevel(h, level);
      level := next;
    }
    return Hex(level[0].bytes);
  }

  // The root of nothing, of one file, of two and of three, written out.
  lemma RootSpelled(h: Bytes -> Digest, f: File, g: File, k: File)
    ensures RootText(h, []) == Hex(h([]).bytes)
    ensures RootText(h, [f]) == Hex(h(f.path + [0] + f.sha).bytes)
    ensures var a, b, c := h(f.path + [0] + f.sha), h(g.path + [0] + g.sha), h(k.path + [0] + k.sha);
            && RootText(h, [f, g]) == Hex(h(a.bytes + b.bytes).bytes)
            && RootText(h, [f, g, k]) == Hex(h(h(a.bytes + b.bytes).bytes + h(c.bytes + c.bytes).bytes).bytes)
  {
    var a, b, c := h(f.path + [0] + f.sha), h(g.path + [0] + g.sha), h(k.path + [0] + k.sha);
    LeavesSpelled(h, f, g, k);
    assert [f][0..1] == [f];
    LevelSpelled(h, a, b, c);
    var ab, cc := h(a.bytes + b.bytes), h(c.bytes + c.bytes);
    LevelSpelled(h, ab, cc, c);
    hide Leaves, NextLevel, Hex;
    assert RootOf(h, [a, b]) == RootOf(h, [ab]);
    assert RootOf(h, [a, b, c]) == RootOf(h, [ab, cc]);
    assert RootOf(h, [ab, cc]) == RootOf(h, [h(ab.bytes + cc.bytes)]);
  }

  lemma LeavesSpelled(h: Bytes -> Digest, f: File, g: File, k: File)
    ensures var a, b, c := h(f.path + [0] + f.sha), h(g.path + [0] + g.sha), h(k.path + [0] + k.sha);
            Leaves(h, [f]) == [a] && Leaves(h, [f, g]) == [a, b] && Leaves(h, [f, g, k]) == [a, b, c]
  {
    var two, three := Leaves(h, [f, g]), Leaves(h, [f, g, k]);
    assert Leaves(h, [f])[0] == h(LeafInput(f)) && two[0] == h(LeafInput(f)) && two[1] == h(LeafInput(g));
    assert three[0] == h(LeafInput(f)) && three[1] == h(LeafInput(g)) && three[2] == h(LeafInput(k));
  }

  lemma LevelSpelled(h: Bytes -> Digest, a: Digest, b: Digest, c: Digest)
    ensures NextLevel(h, [a, b]) == [h(a.bytes + b.bytes)]
    ensures NextLevel(h, [a, b, c]) == [h(a.bytes + b.bytes), h(c.bytes + c.bytes)]
  {
    var two, three := [a, b], [a, b, c];
    assert NodeInput(two, 0) == a.bytes + b.bytes && NextLevel(h, two)[0] == h(NodeInput(two, 0));
    assert NodeInput(three, 0) == a.bytes + b.bytes && NodeInput(three, 1) == c.bytes + c.bytes;
    assert NextLevel(h, three)[0] == h(NodeInput(three, 0)) && NextLevel(h, three)[1] == h(NodeInput(three, 1));
  }

  // The root of two full halves is the hash of the left root followed by the right one.
  lemma {:induction false} HalvesRoot(h: Bytes -> Digest, left: seq<Digest>, right: seq<Digest>, k: nat)
    requires |left| == |right| == Pow2(k) && left != []
    ensures RootOf(h, left + right) == h(RootOf(h, left).bytes + RootOf(h, right).bytes)
    decreases k
  {
    var both := left + right;
    if k == 0 {
      assert both == [left[0], right[0]];
      LevelSpelled(h, left[0], right[0], right[0]);
    } else {
      HalvesNext(h, left, right);
      HalvesRoot(h, NextLevel(h, left), NextLevel(h, right), k - 1);
      hide NextLevel;
    }
  }

  lemma HalvesNext(h: Bytes -> Digest, left: seq<Digest>, right: seq<Digest>)
    requires |left| % 2 == 0
    ensures NextLevel(h, left + right) == NextLevel(h, left) + NextLevel(h, right)
  {
    var both, n := left + right, |left| / 2;
    forall i | 0 <= i < (|both| + 1) / 2
      ensures NodeInput(both, i) == if i < n then NodeInput(left, i) else NodeInput(right, i - n)
    {
    }
  }

  // Two digits a byte, the higher one first.
  lemma HexSpelled(b: Byte, rest: Bytes)
    ensures Hex([]) == "" && Hex([b]) == ["0123456789abcdef"[b / 16], "0123456789abcdef"[b % 16]]
    ensures Hex(rest + [b]) == Hex(rest) + Hex([b])
  {
    assert (rest + [b])[..|rest|] == rest && [b][..0] == [];
  }

  // ---- Every byte string the computation hashes ----

  ghost function NodeInputs(h: Bytes -> Digest, level: seq<Digest>): set<Bytes>
    decreases |level|
  {
    if |level| <= 1 then {}
    else (set i | 0 <= i < (|level| + 1) / 2 :: NodeInput(level, i)) + NodeInputs(h, NextLevel(h, level))
  }

  ghost function Inputs(h: Bytes -> Digest, files: seq<File>): set<Bytes> {
    if files == [] then {[]}
    else (set f | f in files :: LeafInput(f)) + NodeInputs(h, Leaves(h, files))
  }

  // Two different inputs, one from each side, with one digest.
  ghost predicate Collide(h: Bytes -> Digest, a: set<Bytes>, b: set<Bytes>) {
    exists x, y :: x in a && y in b && x != y && h(x) == h(y)
  }

  // ---- What the odd-node rule makes of a list ----

  function Depth(n: nat): nat {
    if n <= 1 then 0 else 1 + Depth((n + 1) / 2)
  }

  function Pow2(d: nat): nat { if d == 0 then 1 else 2 * Pow2(d - 1) }

  // The original position standing at position k of the padded list.
  function Origin(n: nat, k: nat): (o: nat)
    requires n > 0
    ensures o < n
  {
    if n == 1 then 0
    else
      var o := 2 * Origin((n + 1) / 2, k / 2) + k % 2;
      if o < n then o else n - 1
  }

  lemma {:induction false} OriginSelf(n: nat, k: nat)
    requires k < n
    ensures Origin(n, k) == k
  {
    if n > 1 {
      OriginSelf((n + 1) / 2, k / 2);
    }
  }

  lemma {:induction false} DepthCovers(n: nat)
    ensures n <= Pow2(Depth(n))
  {
    if n > 1 {
      DepthCovers((n + 1) / 2);
    }
  }

  // The tree over a and the tree over b have the same shape and the same padded leaves.
  ghost predicate SamePadding<T(!new)>(a: seq<T>, b: seq<T>)
    requires a != [] && b != []
  {
    && Depth(|a|) == Depth(|b|)
    && forall k: nat :: k < Pow2(Depth(|a|)) ==> a[Origin(|a|, k)] == b[Origin(|b|, k)]
  }

  // Node p of the next padded level is the hash of padded nodes 2p and 2p+1.
  lemma PaddedNext(h: Bytes -> Digest, level: seq<Digest>, p: nat)
    requires |level| > 1
    ensures var n, q := |level|, Origin((|level| + 1) / 2, p);
            NodeInput(level, q) == Concat(level[Origin(n, 2 * p)].bytes, level[Origin(n, 2 * p + 1)].bytes)
    ensures NextLevel(h, level)[Origin((|level| + 1) / 2, p)] == h(NodeInput(level, Origin((|level| + 1) / 2, p)))
  {
    assert (2 * p) / 2 == p && (2 * p + 1) / 2 == p;
  }

  lemma {:induction false} RootsAgree(h: Bytes -> Digest, a: seq<Digest>, b: seq<Digest>)
    requires a != [] && b != [] && Depth(|a|) == Depth(|b|)
    requires RootOf(h, a) == RootOf(h, b)
    ensures SamePadding(a, b) || Collide(h, NodeInputs(h, a), NodeInputs(h, b))
    decreases |a|
  {
    if |a| > 1 {
      var a', b' := NextLevel(h, a), NextLevel(h, b);
      RootsAgree(h, a', b');
      if !Collide(h, NodeInputs(h, a), NodeInputs(h, b)) {
        FewerInputs(h, a, b);
        LevelAgrees(h, a, b);
      }
    }
  }

  lemma FewerInputs(h: Bytes -> Digest, a: seq<Digest>, b: seq<Digest>)
    requires |a| > 1 && |b| > 1 && !Collide(h, NodeInputs(h, a), NodeInputs(h, b))
    ensures !Collide(h, NodeInputs(h, NextLevel(h, a)), NodeInputs(h, NextLevel(h, b)))
  {
    assert NodeInputs(h, NextLevel(h, a)) <= NodeInputs(h, a);
    assert NodeInputs(h, NextLevel(h, b)) <= NodeInputs(h, b);
  }

  lemma LevelAgrees(h: Bytes -> Digest, a: seq<Digest>, b: seq<Digest>)
    requires |a| > 1 && |b| > 1 && !Collide(h, NodeInputs(h, a), NodeInputs(h, b))
    requires SamePadding(NextLevel(h, a), NextLevel(h, b))
    ensures SamePadding(a, b)
  {
    hide Collide, NodeInputs, Origin, NextLevel;
    var a', b' := NextLevel(h, a), NextLevel(h, b);
    var half := Pow2(Depth(|a'|));
    assert Pow2(Depth(|a|)) == 2 * half;
    forall k: nat | k < 2 * half ensures a[Origin(|a|, k)] == b[Origin(|b|, k)] {
      var p := k / 2;
      assert p < half;
      assert a'[Origin(|a'|, p)] == b'[Origin(|b'|, p)];
      PairsAgree(h, a, b, p);
      assert k == 2 * p || k == 2 * p + 1;
    }
  }

  lemma PairsAgree(h: Bytes -> Digest, a: seq<Digest>, b: seq<Digest>, p: nat)
    requires |a| > 1 && |b| > 1 && !Collide(h, NodeInputs(h, a), NodeInputs(h, b))
    requires NextLevel(h, a)[Origin((|a| + 1) / 2, p)] == NextLevel(h, b)[Origin((|b| + 1) / 2, p)]
    ensures a[Origin(|a|, 2 * p)] == b[Origin(|b|, 2 * p)]
    ensures a[Origin(|a|, 2 * p + 1)] == b[Origin(|b|, 2 * p + 1)]
  {
    PaddedNext(h, a, p);
    PaddedNext(h, b, p);
    var x, y := NodeInput(a, Origin((|a| + 1) / 2, p)), NodeInput(b, Origin((|b| + 1) / 2, p));
    assert x in NodeInputs(h, a) && y in NodeInputs(h, b);
    assert x == y;
    assert x[..32] == a[Origin(|a|, 2 * p)].bytes && y[..32] == b[Origin(|b|, 2 * p)].bytes;
    assert x[32..] == a[Origin(|a|, 2 * p + 1)].bytes && y[32..] == b[Origin(|b|, 2 * p + 1)].bytes;
  }

  lemma {:induction false} PaddingDecidesRoot(h: Bytes -> Digest, a: seq<Digest>, b: seq<Digest>)
    requires a != [] && b != [] && SamePadding(a, b)
    ensures RootOf(h, a) == RootOf(h, b)
    decreases |a|
  {
    if |a| == 1 {
      assert a[Origin(1, 0)] == b[Origin(|b|, 0)];
    } else {
      var a', b' := NextLevel(h, a), NextLevel(h, b);
      forall p: nat | p < Pow2(Depth(|a'|)) ensures a'[Origin(|a'|, p)] == b'[Origin(|b'|, p)] {
        PaddedNext(h, a, p);
        PaddedNext(h, b, p);
        assert 2 * p + 1 < Pow2(Depth(|a|));
      }
      PaddingDecidesRoot(h, a', b');
    }
  }

  // ---- Trees of different depths ----

  // A tree at least as deep as d, cut down to depth d.
  lemma {:induction false} CutDown(h: Bytes -> Digest, level: seq<Digest>, d: nat) returns (cut: seq<Digest>)
    requires level != [] && Depth(|level|) > d
    ensures cut != [] && Depth(|cut|) == d && RootOf(h, cut) == RootOf(h, level)
    ensures NodeInputs(h, cut) <= NodeInputs(h, level)
    ensures exists x :: x in NodeInputs(h, level) && |x| == 64 && cut[0] == h(x)
    decreases |level|
  {
    cut := NextLevel(h, level);
    if Depth(|level|) == d + 1 {
      assert NodeInput(level, 0) in NodeInputs(h, level);
    } else {
      cut := CutDown(h, cut, d);
    }
  }

  // A shallower tree's leaf cannot pass for a deeper tree's node: their inputs differ in length.
  lemma DepthsDiffer(h: Bytes -> Digest, f: seq<File>, g: seq<File>)
    requires f != [] && g != [] && Depth(|f|) < Depth(|g|)
    requires RootOf(h, Leaves(h, f)) == RootOf(h, Leaves(h, g))
    ensures Collide(h, Inputs(h, f), Inputs(h, g))
  {
    var a := Leaves(h, f);
    var cut := CutDown(h, Leaves(h, g), Depth(|f|));
    RootsAgree(h, a, cut);
    if SamePadding(a, cut) {
      DepthCovers(|a|);
      OriginSelf(|a|, 0);
      OriginSelf(|cut|, 0);
      assert a[Origin(|a|, 0)] == cut[Origin(|cut|, 0)];
      var x, y :| x == LeafInput(f[0]) && y in NodeInputs(h, Leaves(h, g)) && |y| == 64 && cut[0] == h(y);
      assert x in Inputs(h, f) && y in Inputs(h, g) && x != y && h(x) == h(y);
    }
  }

  // ---- The roots of two file lists ----

  ghost predicate SameTree(f: seq<File>, g: seq<File>) {
    if f == [] || g == [] then f == g else SamePadding(f, g)
  }

  lemma LeavesAgree(h: Bytes -> Digest, f: seq<File>, g: seq<File>)
    requires f != [] && g != [] && SamePadding(Leaves(h, f), Leaves(h, g))
    ensures SamePadding(f, g) || Collide(h, Inputs(h, f), Inputs(h, g))
  {
    if !Collide(h, Inputs(h, f), Inputs(h, g)) {
      forall k: nat | k < Pow2(Depth(|f|)) ensures f[Origin(|f|, k)] == g[Origin(|g|, k)] {
        var x, y := f[Origin(|f|, k)], g[Origin(|g|, k)];
        assert Leaves(h, f)[Origin(|f|, k)] == Leaves(h, g)[Origin(|g|, k)];
        assert LeafInput(x) in Inputs(h, f) && LeafInput(y) in Inputs(h, g);
        LeafInputInjective(x, y);
      }
    }
  }

  // Two lists have one root exactly when they pad to the same tree; otherwise two of the byte
  // strings actually hashed on the way, one from each side, have the same digest.
  lemma RootsExactly(h: Bytes -> Digest, f: seq<File>, g: seq<File>)
    ensures SameTree(f, g) ==> RootText(h, f) == RootText(h, g)
    ensures RootText(h, f) == RootText(h, g) ==> SameTree(f, g) || Collide(h, Inputs(h, f), Inputs(h, g))
  {
    if SameTree(f, g) && f != [] {
      PaddingOfLeaves(h, f, g);
      PaddingDecidesRoot(h, Leaves(h, f), Leaves(h, g));
    }
    if RootText(h, f) == RootText(h, g) {
      HexInjective(TopDigest(h, f).bytes, TopDigest(h, g).bytes);
      EqualRoots(h, f, g);
    }
  }

  lemma PaddingOfLeaves(h: Bytes -> Digest, f: seq<File>, g: seq<File>)
    requires f != [] && g != [] && SamePadding(f, g)
    ensures SamePadding(Leaves(h, f), Leaves(h, g))
  {
    forall k: nat | k < Pow2(Depth(|f|))
      ensures Leaves(h, f)[Origin(|f|, k)] == Leaves(h, g)[Origin(|g|, k)]
    {
      assert f[Origin(|f|, k)] == g[Origin(|g|, k)];
    }
  }

  lemma EqualRoots(h: Bytes -> Digest, f: seq<File>, g: seq<File>)
    requires TopDigest(h, f) == TopDigest(h, g)
    ensures SameTree(f, g) || Collide(h, Inputs(h, f), Inputs(h, g))
  {
    if f == [] && g != [] {
      EmptyAgainst(h, g);
    } else if f != [] && g == [] {
      EmptyAgainst(h, f);
      CollideSwap(h, Inputs(h, g), Inputs(h, f));
    } else if f != [] && g != [] {
      if Depth(|f|) < Depth(|g|) {
        DepthsDiffer(h, f, g);
      } else if Depth(|g|) < Depth(|f|) {
        DepthsDiffer(h, g, f);
        CollideSwap(h, Inputs(h, g), Inputs(h, f));
      } else {
        RootsAgree(h, Leaves(h, f), Leaves(h, g));
        if SamePadding(Leaves(h, f), Leaves(h, g)) {
          LeavesAgree(h, f, g);
        }
      }
    }
  }

  lemma CollideSwap(h: Bytes -> Digest, a: set<Bytes>, b: set<Bytes>)
    requires Collide(h, a, b)
    ensures Collide(h, b, a)
  {
    var x, y :| x in a && y in b && x != y && h(x) == h(y);
    assert y in b && x in a && y != x && h(y) == h(x);
  }

  // The digest of no files at all against that of some.
  lemma EmptyAgainst(h: Bytes -> Digest, g: seq<File>)
    requires g != [] && h([]) == RootOf(h, Leaves(h, g))
    ensures Collide(h, Inputs(h, []), Inputs(h, g))
  {
    var y;
    if |g| == 1 {
      y := LeafInput(g[0]);
    } else {
      y := LastInput(h, Leaves(h, g));
    }
    assert [] in Inputs(h, []) && y in Inputs(h, g) && [] != y && h([]) == h(y);
  }

  lemma {:induction false} LastInput(h: Bytes -> Digest, level: seq<Digest>) returns (y: Bytes)
    requires |level| > 1
    ensures y in NodeInputs(h, level) && |y| == 64 && RootOf(h, level) == h(y)
    decreases |level|
  {
    if |level| == 2 {
      y := NodeInput(level, 0);
      assert y in NodeInputs(h, level);
    } else {
      y := LastInput(h, NextLevel(h, level));
    }
  }

  // ---- Lists without repetition ----

  ghost predicate NoRepeats<T>(s: seq<T>) {
    forall i, j :: 0 <= i < j < |s| ==> s[i] != s[j]
  }

  lemma PaddingDecidesList(f: seq<File>, g: seq<File>)
    requires SameTree(f, g) && NoRepeats(f) && NoRepeats(g)
    ensures f == g
  {
    if f != [] && g != [] {
      if |f| < |g| {
        ShorterRepeats(f, g);
      } else if |g| < |f| {
        assert SamePadding(g, f);
        ShorterRepeats(g, f);
      }
      DepthCovers(|f|);
      forall k | 0 <= k < |f| ensures f[k] == g[k] {
        OriginSelf(|f|, k);
        OriginSelf(|g|, k);
        assert f[Origin(|f|, k)] == g[Origin(|g|, k)];
      }
    }
  }

  lemma ShorterRepeats(f: seq<File>, g: seq<File>)
    requires f != [] && |f| < |g| && SamePadding(f, g)
    ensures !NoRepeats(g)
  {
    var n := |f|;
    var o := Origin(n, n);
    DepthCovers(|g|);
    OriginSelf(n, o);
    OriginSelf(|g|, o);
    OriginSelf(|g|, n);
    assert g[n] == f[o];
    assert f[Origin(n, o)] == g[Origin(|g|, o)];
  }

  // The tamper evidence an index relies on: one root, one list of files, or a collision at hand.
  lemma RootDeterminesFiles(h: Bytes -> Digest, f: seq<File>, g: seq<File>)
    requires NoRepeats(f) && NoRepeats(g) && RootText(h, f) == RootText(h, g)
    ensures f == g || Collide(h, Inputs(h, f), Inputs(h, g))
  {
    RootsExactly(h, f, g);
    if SameTree(f, g) {
      PaddingDecidesList(f, g);
    }
  }

  // A path as text, one character for each byte.
  function Text(path: Bytes): string { seq(|path|, i requires 0 <= i < |path| => path[i] as char) }

  // Bytewise order of paths, the order the index sorts its files in before taking the root.
  ghost predicate SortedByPath(files: seq<File>) {
    forall i, j :: 0 <= i < j < |files| ==> Less(Text(files[i].path), Text(files[j].path))
  }

  lemma SortedRootDeterminesFiles(h: Bytes -> Digest, f: seq<File>, g: seq<File>)
    requires SortedByPath(f) && SortedByPath(g) && RootText(h, f) == RootText(h, g)
    ensures f == g || Collide(h, Inputs(h, f), Inputs(h, g))
  {
    forall a: string { LessTotal(a, a); }
    RootDeterminesFiles(h, f, g);
  }

  // Without that order the root does not determine the list: after an odd number of files, a
  // repetition of the last one is invisible.
  lemma RepeatedLastFile(h: Bytes -> Digest, files: seq<File>)
    requires |files| % 2 == 1 && |files| > 1
    ensures RootText(h, files) == RootText(h, files + [files[|files| - 1]])
  {
    var a, b := Leaves(h, files), Leaves(h, files + [files[|files| - 1]]);
    forall i | 0 <= i < (|a| + 1) / 2 ensures NodeInput(a, i) == NodeInput(b, i) {
      assert a[2 * i] == b[2 * i];
    }
    assert NextLevel(h, a) == NextLevel(h, b);
  }
}
