// Path labels: carrying them along when a path is moved, in whatever order the map is visited.
module Labels {
  type Path = string
  type Table = map<Path, int>

  const MAX_LABEL_ID := 9

  // p is root itself or lies below it.
  predicate Under(p: Path, root: Path) {
    p == root || Below(p, root)
  }

  predicate Below(p: Path, root: Path) { root + "/" <= p }

  predicate Disjoint(a: Path, b: Path) { !Under(a, b) && !Under(b, a) }

  // The same relative position under another root.
  function Rebase(p: Path, from: Path, to: Path): Path
    requires Under(p, from)
  {
    to + p[|from|..]
  }

  // A path is under a root when it is the root or goes on behind a slash; rebasing exchanges the root.
  lemma UnderExactly(p: Path, root: Path, to: Path)
    ensures Under(p, root) <==> p == root || exists rest :: p == root + "/" + rest
    ensures Rebase(root, root, to) == to
    ensures forall rest :: Under(root + "/" + rest, root) && Rebase(root + "/" + rest, root, to) == to + "/" + rest
  {
    if Below(p, root) {
      assert p == root + "/" + p[|root| + 1..];
    }
    forall rest ensures Under(root + "/" + rest, root) && Rebase(root + "/" + rest, root, to) == to + "/" + rest {
      var q := root + "/" + rest;
      assert q[|root|..] == "/" + rest;
    }
  }

  lemma UnderBoth(p: Path, a: Path, b: Path)
    requires Under(p, a) && Under(p, b)
    ensures !Disjoint(a, b)
  {
    assert p[..|a|] == a && p[..|b|] == b;
    if |a| < |b| {
      assert b[|a|] == p[|a|] == '/' && b[..|a|] == a;
      assert a + "/" == b[..|a| + 1];
    } else if |b| < |a| {
      assert a[|b|] == p[|b|] == '/' && a[..|b|] == b;
      assert b + "/" == a[..|b| + 1];
    }
  }

  lemma RebaseBack(p: Path, from: Path, to: Path)
    requires Under(p, from)
    ensures Under(Rebase(p, from, to), to) && Rebase(Rebase(p, from, to), to, from) == p
    ensures Below(p, from) <==> Below(Rebase(p, from, to), to)
    ensures forall via :: Rebase(Rebase(p, from, to), to, via) == Rebase(p, from, via)
  {
    var q := Rebase(p, from, to);
    assert q[|to|..] == p[|from|..];
    assert p == from + p[|from|..];
    if Below(p, from) {
      assert p[|from|..][0] == '/';
      assert to + "/" == q[..|to| + 1];
    }
    if Below(q, to) {
      assert q[|to|] == '/' == p[|from|];
      assert from + "/" == p[..|from| + 1];
    }
  }

  lemma RebaseAll(s: set<Path>, from: Path, to: Path)
    requires forall p :: p in s ==> Under(p, from)
    ensures forall p :: p in s ==> Under(Rebase(p, from, to), to) && Rebase(Rebase(p, from, to), to, from) == p
  {
    forall p | p in s { RebaseBack(p, from, to); }
  }

  function Images(s: set<Path>, from: Path, to: Path): set<Path>
    requires forall p :: p in s ==> Under(p, from)
  {
    set p | p in s :: Rebase(p, from, to)
  }

  // p is where something in s ends up.
  predicate Landed(p: Path, s: set<Path>, from: Path, to: Path) {
    Under(p, to) && Rebase(p, to, from) in s
  }

  // The labels once everything in s has moved from old to new.
  function Shift(labels: Table, s: set<Path>, from: Path, to: Path): Table
    requires s <= labels.Keys && forall p :: p in s ==> Under(p, from)
  {
    RebaseAll(s, from, to);
    map p | p in (labels.Keys - s) + Images(s, from, to) ::
      if Landed(p, s, from, to) then labels[Rebase(p, to, from)] else labels[p]
  }

  function KeysUnder(labels: Table, root: Path): set<Path> { set p | p in labels && Under(p, root) }

  // Every label at or below from carried to the same place under to.
  function Rehomed(labels: Table, from: Path, to: Path): Table { Shift(labels, KeysUnder(labels, from), from, to) }

  // No label at or below from is carried to a place at or below from.
  ghost predicate LandsApart(labels: Table, from: Path, to: Path) {
    forall p :: p in KeysUnder(labels, from) ==> !Under(Rebase(p, from, to), from)
  }

  lemma DisjointLandsApart(labels: Table, from: Path, to: Path)
    requires Disjoint(from, to)
    ensures LandsApart(labels, from, to)
  {
    forall p | p in KeysUnder(labels, from) ensures !Under(Rebase(p, from, to), from) {
      RebaseBack(p, from, to);
      if Under(Rebase(p, from, to), from) {
        UnderBoth(Rebase(p, from, to), from, to);
      }
    }
  }

  lemma ImagesApart(labels: Table, s: set<Path>, from: Path, to: Path)
    requires LandsApart(labels, from, to) && s <= KeysUnder(labels, from)
    ensures forall r :: r in Images(s, from, to) ==> !Under(r, from)
    ensures forall r :: Landed(r, s, from, to) ==> !Under(r, from)
  {
    hide Under;
    forall r | Landed(r, s, from, to) ensures !Under(r, from) {
      RebaseBack(r, to, from);
    }
  }

  // One more label moved.
  lemma ShiftOne(labels: Table, s: set<Path>, p: Path, from: Path, to: Path)
    requires LandsApart(labels, from, to) && s <= KeysUnder(labels, from)
    requires p in labels && Under(p, from) && p !in s
    ensures var t := Shift(labels, s, from, to);
            && p in t && t[p] == labels[p]
            && (t - {p})[Rebase(p, from, to) := t[p]] == Shift(labels, s + {p}, from, to)
  {
    hide Under, Rebase, KeysUnder;
    assert p in KeysUnder(labels, from) by { KeyUnder(labels, from, p); }
    ImagesApart(labels, s, from, to);
    ShiftKeys(labels, s, p, from, to);
    ShiftValues(labels, s, p, from, to);
  }

  lemma KeyUnder(labels: Table, root: Path, p: Path)
    ensures p in KeysUnder(labels, root) <==> p in labels && Under(p, root)
  {
  }

  lemma ShiftKeys(labels: Table, s: set<Path>, p: Path, from: Path, to: Path)
    requires s + {p} <= KeysUnder(labels, from) && p !in s
    requires forall r :: r in Images(s, from, to) ==> !Under(r, from)
    ensures p in Shift(labels, s, from, to)
    ensures (Shift(labels, s, from, to).Keys - {p}) + {Rebase(p, from, to)} == Shift(labels, s + {p}, from, to).Keys
  {
    assert p in labels && Under(p, from) by { KeyUnder(labels, from, p); }
    hide Under, Rebase, KeysUnder;
    assert Images(s + {p}, from, to) == Images(s, from, to) + {Rebase(p, from, to)};
    assert p !in Images(s, from, to);
    RebaseAll(s, from, to);
    RebaseAll(s + {p}, from, to);
  }

  lemma ShiftValues(labels: Table, s: set<Path>, p: Path, from: Path, to: Path)
    requires s + {p} <= KeysUnder(labels, from) && p !in s
    requires forall r :: Landed(r, s, from, to) ==> !Under(r, from)
    ensures p in Shift(labels, s, from, to) ==> Shift(labels, s, from, to)[p] == labels[p]
    ensures forall r :: r in Shift(labels, s + {p}, from, to) ==>
              Shift(labels, s + {p}, from, to)[r] ==
                if r == Rebase(p, from, to) then labels[p]
                else if r in Shift(labels, s, from, to) then Shift(labels, s, from, to)[r]
                else Shift(labels, s + {p}, from, to)[r]
  {
    assert p in labels && Under(p, from) by { KeyUnder(labels, from, p); }
    hide Under, Rebase, KeysUnder;
    RebaseBack(p, from, to);
    forall r | Under(r, to) && Rebase(r, to, from) == p ensures r == Rebase(p, from, to) {
      RebaseBack(r, to, from);
    }
    forall r ensures Landed(r, s + {p}, from, to) <==> Landed(r, s, from, to) || r == Rebase(p, from, to) {
    }
  }

  class Store {
    var labels: Table

    method Get(path: Path) returns (id: int)
      ensures id == Label(labels, path)
    {
      id := if path in labels then labels[path] else 0;
    }

    // 0 clears; an id out of range changes nothing.
    method SetMany(paths: seq<Path>, id: int) returns (ok: bool)
      modifies this
      ensures ok <==> paths == [] || 0 <= id <= 9
      ensures !ok ==> labels == old(labels)
      ensures ok ==> labels == Assigned(old(labels), paths, id)
    {
      if |paths| == 0 {
        return true;
      }
      if id < 0 || id > MAX_LABEL_ID {
        return false;
      }
      for i := 0 to |paths|
        invariant labels == Assigned(old(labels), paths[..i], id)
      {
        var p := paths[i];
        assert forall q :: q in paths[..i + 1] <==> q in paths[..i] || q == p;
        if id == 0 {
          labels := labels - {p};
        } else {
          labels := labels[p := id];
        }
      }
      assert paths[..|paths|] == paths;
      ok := true;
    }

    // Deletes a key and puts its id back under another one.
    method MoveKey(p: Path, q: Path)
      requires p in labels
      modifies this
      ensures labels == (old(labels) - {p})[q := old(labels)[p]]
    {
      var id := labels[p];
      labels := labels - {p};
      labels := labels[q := id];
    }

    // Moves the labels at and below oldPath while ranging over the table that is being changed:
    // keys come in any order, a key put in on the way may or may not come, a removed one does not.
    method Rehome(oldPath: Path, newPath: Path) returns (changed: bool)
      modifies this
      ensures oldPath == newPath ==> labels == old(labels) && !changed
      ensures oldPath != newPath ==> Outcome(old(labels), labels, oldPath, newPath)
      ensures oldPath != newPath ==> (changed <==> KeysUnder(old(labels), oldPath) != {})
      ensures oldPath != newPath && LandsApart(old(labels), oldPath, newPath) ==>
                labels == Rehomed(old(labels), oldPath, newPath)
    {
      if oldPath == newPath {
        return false;
      }
      changed := false;
      ghost var start, order := labels, [];
      if oldPath in labels {
        MoveKey(oldPath, newPath);
        changed := true;
      }
      var due, seen: set<Path> := labels.Keys, {};
      var budget: nat := *;   // how many keys put in on the way will come
      BeginRange(start, labels, oldPath, newPath);
      ghost var first := Begin(start, oldPath, newPath);
      hide *;
      while due != {} || budget > 0
        invariant Ranging(first, order, Range(labels, due, seen), oldPath, newPath)
        invariant changed <==> oldPath in start || SomeMoved(order, oldPath)
        decreases |due| + budget
      {
        RangingOpen(first, order, Range(labels, due, seen), oldPath, newPath);
        var candidates := if budget > 0 then labels.Keys - seen else due;
        if candidates == {} {
          break;
        }
        var p :| p in candidates;
        if p !in due {
          budget := budget - 1;
        }
        Smaller(due, p);
        RangingNext(first, order, Range(labels, due, seen), p, oldPath, newPath);
        due, order := due - {p}, order + [p];
        if !(oldPath + "/" <= p) {
          seen := seen + {p};
          continue;
        }
        MoveKey(p, newPath + "/" + p[|oldPath| + 1..]);
        changed := true;
      }
      RangingOpen(first, order, Range(labels, due, seen), oldPath, newPath);
      RangingEnds(start, order, Range(labels, due, seen), oldPath, newPath);
      OutcomeIs(start, labels, oldPath, newPath);
    }

    method Delete(path: Path) returns (changed: bool)
      modifies this
      ensures labels == old(labels) - KeysUnder(old(labels), path)
      ensures changed <==> KeysUnder(old(labels), path) != {}
    {
      ghost var start, gone := labels, if path in labels then {path} else {};
      DeleteStarts(labels, path);
      hide *;
      changed := path in labels;
      labels := labels - {path};
      var rest := labels.Keys;
      while rest != {}
        invariant DeleteState(start, labels, gone, rest, path)
        invariant changed <==> gone != {}
        decreases |rest|
      {
        var p :| p in rest;
        DeleteStep(start, labels, gone, rest, path, p);
        rest := rest - {p};
        if path + "/" <= p {
          labels := labels - {p};
          gone := gone + {p};
          changed := true;
        }
      }
      DeleteEnds(start, labels, gone, path);
    }
  }

  // gone has been deleted; what is still to be deleted has not been visited.
  ghost predicate DeleteState(start: Table, labels: Table, gone: set<Path>, rest: set<Path>, path: Path) {
    && gone <= KeysUnder(start, path) && labels == start - gone
    && KeysUnder(start, path) - gone <= rest <= labels.Keys
    && (path in start ==> path in gone)
  }

  lemma DeleteStarts(start: Table, path: Path)
    ensures var gone := if path in start then {path} else {};
            DeleteState(start, start - {path}, gone, (start - {path}).Keys, path)
  {
  }

  lemma DeleteStep(start: Table, labels: Table, gone: set<Path>, rest: set<Path>, path: Path, p: Path)
    requires DeleteState(start, labels, gone, rest, path) && p in rest
    ensures path + "/" <= p ==> DeleteState(start, labels - {p}, gone + {p}, rest - {p}, path)
    ensures !(path + "/" <= p) ==> DeleteState(start, labels, gone, rest - {p}, path)
    ensures |rest - {p}| < |rest|
  {
    if path + "/" <= p {
      assert p in KeysUnder(start, path);
      assert start - gone - {p} == start - (gone + {p});
    } else {
      assert p !in KeysUnder(start, path) - gone;
    }
  }

  lemma DeleteEnds(start: Table, labels: Table, gone: set<Path>, path: Path)
    requires DeleteState(start, labels, gone, {}, path)
    ensures labels == start - KeysUnder(start, path) && gone == KeysUnder(start, path)
  {
    var all := KeysUnder(start, path);
    hide KeysUnder;
    forall p | p in all ensures p in gone {
      assert p !in all - gone;
    }
    assert gone == all;
  }

  function Assigned(labels: Table, paths: seq<Path>, id: int): Table {
    var touched := set p | p in paths;
    if id == 0 then labels - touched
    else map p | p in labels.Keys + touched :: if p in paths then id else labels[p]
  }

  // ---- Ranging over a table that changes ----

  // The table, the keys of the beginning that have still to come, and the present keys that have come.
  datatype Range = Range(labels: Table, due: set<Path>, seen: set<Path>)

  function Carried(labels: Table, p: Path, q: Path): Table
    requires p in labels
  {
    (labels - {p})[q := labels[p]]
  }

  // The label at from itself is moved before the range begins.
  function Begin(start: Table, from: Path, to: Path): Range {
    var labels := if from in start then Carried(start, from, to) else start;
    Range(labels, labels.Keys, {})
  }

  function NewKey(p: Path, from: Path, to: Path): Path
    requires from + "/" <= p
  {
    to + "/" + p[|from| + 1..]
  }

  // One key comes: it is carried over if it lies below from.
  function Visit(r: Range, p: Path, from: Path, to: Path): Range
    requires p in r.labels
  {
    if from + "/" <= p then Range(Carried(r.labels, p, NewKey(p, from, to)), r.due - {p}, r.seen)
    else Range(r.labels, r.due - {p}, r.seen + {p})
  }

  // Only keys that are in the table come, and none again while it stays there.
  predicate Legal(r: Range, order: seq<Path>, from: Path, to: Path)
    decreases |order|
  {
    order != [] ==> order[0] in r.labels.Keys - r.seen && Legal(Visit(r, order[0], from, to), order[1..], from, to)
  }

  function After(r: Range, order: seq<Path>, from: Path, to: Path): Range
    requires Legal(r, order, from, to)
    decreases |order|
  {
    if order == [] then r else After(Visit(r, order[0], from, to), order[1..], from, to)
  }

  // A table that one of the orders can end in; every key of the beginning has come.
  ghost predicate Outcome(start: Table, result: Table, from: Path, to: Path) {
    exists order :: Legal(Begin(start, from, to), order, from, to)
                 && After(Begin(start, from, to), order, from, to).due == {}
                 && After(Begin(start, from, to), order, from, to).labels == result
  }

  // The loop of Rehome has come from first to now by the given order.
  ghost predicate Ranging(first: Range, order: seq<Path>, now: Range, from: Path, to: Path) {
    && Legal(first, order, from, to) && After(first, order, from, to) == now
    && now.due <= now.labels.Keys - now.seen
  }

  ghost predicate SomeMoved(order: seq<Path>, from: Path) { exists p :: p in order && from + "/" <= p }

  lemma BeginRange(start: Table, labels: Table, from: Path, to: Path)
    requires labels == if from in start then Carried(start, from, to) else start
    ensures Ranging(Begin(start, from, to), [], Range(labels, labels.Keys, {}), from, to)
    ensures !SomeMoved([], from)
  {
  }

  lemma RangingOpen(first: Range, order: seq<Path>, now: Range, from: Path, to: Path)
    requires Ranging(first, order, now, from, to)
    ensures now.due <= now.labels.Keys - now.seen
  {
  }

  lemma Smaller(due: set<Path>, p: Path)
    ensures p in due ==> |due - {p}| < |due|
    ensures p !in due ==> due - {p} == due
  {
  }

  lemma {:induction false} AfterOneMore(r: Range, order: seq<Path>, p: Path, from: Path, to: Path)
    requires Legal(r, order, from, to) && p in After(r, order, from, to).labels.Keys - After(r, order, from, to).seen
    ensures Legal(r, order + [p], from, to)
    ensures After(r, order + [p], from, to) == Visit(After(r, order, from, to), p, from, to)
    decreases |order|
  {
    hide Visit;
    if order == [] {
      assert [p][1..] == [] && [] + [p] == [p];
    } else {
      assert (order + [p])[1..] == order[1..] + [p];
      AfterOneMore(Visit(r, order[0], from, to), order[1..], p, from, to);
    }
  }

  lemma RangingNext(first: Range, order: seq<Path>, now: Range, p: Path, from: Path, to: Path)
    requires Ranging(first, order, now, from, to) && p in now.labels.Keys - now.seen
    ensures from + "/" <= p ==>
              Ranging(first, order + [p],
                  Range(Carried(now.labels, p, to + "/" + p[|from| + 1..]), now.due - {p}, now.seen), from, to)
    ensures !(from + "/" <= p) ==>
              Ranging(first, order + [p], Range(now.labels, now.due - {p}, now.seen + {p}), from, to)
    ensures from + "/" <= p ==> |p| > |from| && SomeMoved(order + [p], from)
    ensures !(from + "/" <= p) ==> (SomeMoved(order + [p], from) <==> SomeMoved(order, from))
  {
    hide Legal, After;
    AfterOneMore(first, order, p, from, to);
    assert p in order + [p];
    assert forall q :: q in order + [p] <==> q in order || q == p;
  }

  lemma RangingEnds(start: Table, order: seq<Path>, now: Range, from: Path, to: Path)
    requires Ranging(Begin(start, from, to), order, now, from, to) && now.due == {} && from != to
    ensures Outcome(start, now.labels, from, to)
    ensures KeysUnder(start, from) != {} <==> from in start || SomeMoved(order, from)
  {
    var first := Begin(start, from, to);
    hide Legal, After;
    if from !in start {
      if p :| p in KeysUnder(start, from) {
        AllDueCame(first, order, from, to, p);
      }
      if SomeMoved(order, from) {
        var p :| p in order && from + "/" <= p;
        NothingToMove(first, order, from, to, p);
        assert p in KeysUnder(start, from) || KeysUnder(start, from) != {};
      }
    } else {
      assert from in KeysUnder(start, from);
    }
  }

  lemma {:induction false} AllDueCame(r: Range, order: seq<Path>, from: Path, to: Path, p: Path)
    requires Legal(r, order, from, to) && p in r.due
    ensures p in After(r, order, from, to).due || p in order
    decreases |order|
  {
    if order != [] && p != order[0] {
      AllDueCame(Visit(r, order[0], from, to), order[1..], from, to, p);
    }
  }

  // Where no key lies at or below from, none is carried over.
  lemma {:induction false} NothingToMove(r: Range, order: seq<Path>, from: Path, to: Path, p: Path)
    requires Legal(r, order, from, to) && p in order && from + "/" <= p
    ensures KeysUnder(r.labels, from) != {}
    decreases |order|
  {
    if from + "/" <= order[0] {
      assert order[0] in KeysUnder(r.labels, from);
    } else {
      assert order == [order[0]] + order[1..];
      NothingToMove(Visit(r, order[0], from, to), order[1..], from, to, p);
    }
  }

  // ---- Every order ends in the same table, or some order leaves labels behind ----

  // moved has been carried over; what is still to be carried over is there and has still to come.
  ghost predicate Sweep(start: Table, r: Range, moved: set<Path>, from: Path, to: Path) {
    && LandsApart(start, from, to) && moved <= KeysUnder(start, from) && r.labels == Shift(start, moved, from, to)
    && (from in start ==> from in moved)
    && (forall p :: p in KeysUnder(start, from) - moved ==> p in r.labels && p in r.due)
  }

  lemma SweepBegins(start: Table, from: Path, to: Path)
    requires LandsApart(start, from, to)
    ensures Sweep(start, Begin(start, from, to), if from in start then {from} else {}, from, to)
  {
    if from in start {
      ShiftOne(start, {}, from, from, to);
      assert Rebase(from, from, to) == to && {} + {from} == {from};
      assert Shift(start, {}, from, to) == start;
    } else {
      assert Shift(start, {}, from, to) == start;
    }
  }

  lemma BelowIsUnder(p: Path, from: Path, to: Path)
    requires from + "/" <= p
    ensures Under(p, from) && p != from && Rebase(p, from, to) == NewKey(p, from, to)
  {
    assert p[|from|..] == "/" + p[|from| + 1..];
    assert to + ("/" + p[|from| + 1..]) == to + "/" + p[|from| + 1..];
  }

  lemma SweepMoves(start: Table, r: Range, moved: set<Path>, p: Path, from: Path, to: Path)
    requires Sweep(start, r, moved, from, to) && p in r.labels && from + "/" <= p
    ensures Sweep(start, Visit(r, p, from, to), moved + {p}, from, to)
  {
    hide Under, Rebase, Shift, NewKey, Landed;
    BelowIsUnder(p, from, to);
    StillToMove(start, moved, p, from, to);
    ShiftOne(start, moved, p, from, to);
    KeyUnder(start, from, p);
  }

  lemma SweepSkips(start: Table, r: Range, moved: set<Path>, p: Path, from: Path, to: Path)
    requires Sweep(start, r, moved, from, to) && p in r.labels && !(from + "/" <= p)
    ensures Sweep(start, Visit(r, p, from, to), moved, from, to)
  {
    hide Rebase, Shift;
    assert p !in KeysUnder(start, from) - moved;
  }

  // A key at or below from that is there has not been carried over yet.
  lemma StillToMove(labels: Table, moved: set<Path>, p: Path, from: Path, to: Path)
    requires LandsApart(labels, from, to) && moved <= KeysUnder(labels, from)
    requires p in Shift(labels, moved, from, to) && Under(p, from)
    ensures p in KeysUnder(labels, from) - moved
  {
    hide Under, Rebase;
    RebaseAll(moved, from, to);
    ImagesApart(labels, moved, from, to);
    KeyUnder(labels, from, p);
  }

  lemma {:induction false} SweepAll(start: Table, r: Range, moved: set<Path>, order: seq<Path>, from: Path, to: Path)
    requires Sweep(start, r, moved, from, to) && Legal(r, order, from, to) && After(r, order, from, to).due == {}
    ensures After(r, order, from, to).labels == Rehomed(start, from, to)
    decreases |order|
  {
    hide Visit, LandsApart, Shift;
    if order == [] {
      SweepEnds(start, r, moved, from, to);
    } else {
      hide Sweep;
      if from + "/" <= order[0] {
        SweepMoves(start, r, moved, order[0], from, to);
        SweepAll(start, Visit(r, order[0], from, to), moved + {order[0]}, order[1..], from, to);
      } else {
        SweepSkips(start, r, moved, order[0], from, to);
        SweepAll(start, Visit(r, order[0], from, to), moved, order[1..], from, to);
      }
    }
  }

  lemma SweepEnds(start: Table, r: Range, moved: set<Path>, from: Path, to: Path)
    requires Sweep(start, r, moved, from, to) && r.due == {}
    ensures r.labels == Rehomed(start, from, to)
  {
    hide KeysUnder, Shift, LandsApart;
    var all := KeysUnder(start, from);
    forall p | p in all ensures p in moved {
      assert p !in all - moved;
    }
    assert moved == all;
  }

  lemma OutcomeIs(start: Table, result: Table, from: Path, to: Path)
    requires Outcome(start, result, from, to)
    ensures LandsApart(start, from, to) ==> result == Rehomed(start, from, to)
  {
    if LandsApart(start, from, to) {
      hide Legal, After, Begin, Sweep, Rehomed, LandsApart;
      var first := Begin(start, from, to);
      var order :| Legal(first, order, from, to) && After(first, order, from, to).due == {}
                && After(first, order, from, to).labels == result;
      SweepBegins(start, from, to);
      SweepAll(start, first, if from in start then {from} else {}, order, from, to);
    }
  }

  // What has still to come can come, and leaves a key alone that need not.
  lemma {:induction false} FinishKeeping(r: Range, q: Path, from: Path, to: Path) returns (order: seq<Path>)
    requires r.due <= r.labels.Keys - r.seen && q in r.labels && q !in r.due
    ensures Legal(r, order, from, to) && After(r, order, from, to).due == {}
    ensures q in After(r, order, from, to).labels
    decreases |r.due|
  {
    if r.due == {} {
      order := [];
    } else {
      var p :| p in r.due;
      Smaller(r.due, p);
      var rest := FinishKeeping(Visit(r, p, from, to), q, from, to);
      order := [p] + rest;
      assert order[1..] == rest;
    }
  }

  // A key that lands at or below from can stay there.
  lemma StaysBehind(r: Range, p: Path, from: Path, to: Path) returns (order: seq<Path>)
    requires r.due == r.labels.Keys && r.seen == {} && from != to
    requires p in r.labels && from + "/" <= p && Under(Rebase(p, from, to), from)
    ensures Legal(r, order, from, to) && After(r, order, from, to).due == {}
    ensures KeysUnder(After(r, order, from, to).labels, from) != {}
  {
    var q := Rebase(p, from, to);
    BelowIsUnder(p, from, to);
    OtherPlace(p, from, to);
    hide Under, Rebase, NewKey;
    var r1 := if q in r.labels then Visit(r, q, from, to) else r;
    var r2 := Visit(r1, p, from, to);
    var rest := FinishKeeping(r2, q, from, to);
    order := if q in r.labels then [q] + ([p] + rest) else [p] + rest;
    assert ([p] + rest)[1..] == rest;
    assert ([q] + ([p] + rest))[1..] == [p] + rest;
    KeyUnder(After(r, order, from, to).labels, from, q);
  }

  lemma OtherPlace(p: Path, from: Path, to: Path)
    requires Under(p, from) && from != to
    ensures Rebase(p, from, to) != p
  {
    var q := Rebase(p, from, to);
    assert |q| == |to| + |p| - |from| && q[..|to|] == to;
    assert p[..|from|] == from;
  }

  // Whatever the order, nothing is left at or below from, and the labels stand in their new
  // places: exactly when no label lands at or below from. Otherwise some order leaves one behind.
  lemma RehomeExactly(start: Table, from: Path, to: Path)
    requires from != to
    ensures (forall r :: Outcome(start, r, from, to) ==> KeysUnder(r, from) == {}) <==> LandsApart(start, from, to)
    ensures LandsApart(start, from, to) ==> forall r :: Outcome(start, r, from, to) ==> r == Rehomed(start, from, to)
    ensures exists r :: Outcome(start, r, from, to)
  {
    hide Legal, After, KeysUnder, Shift;
    if LandsApart(start, from, to) {
      hide Outcome, LandsApart;
      forall r | Outcome(start, r, from, to) ensures r == Rehomed(start, from, to) && KeysUnder(r, from) == {} {
        OutcomeIs(start, r, from, to);
        RehomedExactly(start, from, to);
      }
      OutcomeExists(start, from, to);
    } else {
      var r := BadOutcome(start, from, to);
    }
  }

  lemma OutcomeExists(start: Table, from: Path, to: Path)
    ensures exists r :: Outcome(start, r, from, to)
  {
    var first := Begin(start, from, to);
    var order := Finish(first, from, to);
    assert Outcome(start, After(first, order, from, to).labels, from, to);
  }

  lemma {:induction false} Finish(r: Range, from: Path, to: Path) returns (order: seq<Path>)
    requires r.due <= r.labels.Keys - r.seen
    ensures Legal(r, order, from, to) && After(r, order, from, to).due == {}
    decreases |r.due|
  {
    if r.due == {} {
      order := [];
    } else {
      var p :| p in r.due;
      Smaller(r.due, p);
      var rest := Finish(Visit(r, p, from, to), from, to);
      order := [p] + rest;
      assert order[1..] == rest;
    }
  }

  lemma BadOutcome(start: Table, from: Path, to: Path) returns (r: Table)
    requires from != to && !LandsApart(start, from, to)
    ensures Outcome(start, r, from, to) && KeysUnder(r, from) != {}
  {
    var p :| p in KeysUnder(start, from) && Under(Rebase(p, from, to), from);
    var first := Begin(start, from, to);
    var p1 := if p == from then to else p;
    LandsAgain(start, p, from, to);
    var order := StaysBehind(first, p1, from, to);
    r := After(first, order, from, to).labels;
  }

  // The label at from is in its new place when the range begins; if that lies below from, it
  // will land below from once more.
  lemma LandsAgain(start: Table, p: Path, from: Path, to: Path)
    requires from != to && p in KeysUnder(start, from) && Under(Rebase(p, from, to), from)
    ensures var p1 := if p == from then to else p;
            p1 in Begin(start, from, to).labels && from + "/" <= p1 && Under(Rebase(p1, from, to), from)
  {
    if p == from {
      assert Rebase(p, from, to) == to;
      assert from + "/" <= to;
      assert (to + to[|from|..])[..|from| + 1] == to[..|from| + 1] == from + "/";
    }
  }

  // Two orders, one of which loses a label: the outer one first carries 2 over to where 1 stands,
  // and then that label on.
  lemma OrderMatters()
    ensures var start: Table := map["/a/b/x" := 1, "/a/b/b/x" := 2];
            && Outcome(start, map["/a/x" := 1, "/a/b/x" := 2], "/a/b", "/a")
            && Outcome(start, map["/a/x" := 2], "/a/b", "/a")
  {
    var from, to := "/a/b", "/a";
    var x, bx: Path := "/a/b/x", "/a/b/b/x";
    var start: Table := map[x := 1, bx := 2];
    var first := Begin(start, from, to);
    assert first == Range(start, {x, bx}, {});
    assert NewKey(x, from, to) == "/a/x" && NewKey(bx, from, to) == x;
    var a := Visit(first, x, from, to);
    assert a == Range(map[bx := 2, "/a/x" := 1], {bx}, {});
    var b := Visit(a, bx, from, to);
    assert b == Range(map["/a/x" := 1, x := 2], {}, {});
    TwoVisits(first, x, bx, from, to);
    var c := Visit(first, bx, from, to);
    assert c == Range(map[x := 2], {x}, {});
    var d := Visit(c, x, from, to);
    assert d == Range(map["/a/x" := 2], {}, {});
    TwoVisits(first, bx, x, from, to);
  }

  lemma TwoVisits(r: Range, p: Path, q: Path, from: Path, to: Path)
    requires p in r.labels.Keys - r.seen
    requires q in Visit(r, p, from, to).labels.Keys - Visit(r, p, from, to).seen
    ensures Legal(r, [p, q], from, to)
    ensures After(r, [p, q], from, to) == Visit(Visit(r, p, from, to), q, from, to)
  {
    hide Visit;
    AfterOneMore(r, [], p, from, to);
    assert [] + [p] == [p];
    AfterOneMore(r, [p], q, from, to);
    assert [p] + [q] == [p, q];
  }

  // ---- What a rehoming does to the table ----

  // Nothing is left at or below from; every old label stands in its new place; every other
  // label that is not overwritten there is as it was; and nothing else appears.
  lemma RehomedExactly(labels: Table, from: Path, to: Path)
    requires LandsApart(labels, from, to)
    ensures KeysUnder(Rehomed(labels, from, to), from) == {}
    ensures forall p :: p in labels && Under(p, from) ==>
              Rebase(p, from, to) in Rehomed(labels, from, to)
                  && Rehomed(labels, from, to)[Rebase(p, from, to)] == labels[p]
    ensures forall p :: p !in KeysUnder(labels, from) && !Landed(p, KeysUnder(labels, from), from, to) ==>
              (p in Rehomed(labels, from, to) <==> p in labels) &&
              (p in labels ==> Rehomed(labels, from, to)[p] == labels[p])
  {
    var s := KeysUnder(labels, from);
    RebaseAll(s, from, to);
    ImagesApart(labels, s, from, to);
    hide Rebase;
    forall p | Under(p, from) ensures p !in Rehomed(labels, from, to) {
      KeyUnder(labels, from, p);
    }
  }

  // What Get returns at a path.
  function Label(labels: Table, p: Path): int { if p in labels then labels[p] else 0 }

  // What Get returns at every path after an assignment: 0 clears.
  lemma LabelAssigned(labels: Table, paths: seq<Path>, id: int, p: Path)
    ensures Label(Assigned(labels, paths, id), p) == if p in paths then id else Label(labels, p)
  {
  }

  // What Get returns at every path after a rehoming.
  lemma LabelAfter(labels: Table, from: Path, to: Path, p: Path)
    requires LandsApart(labels, from, to)
    ensures Label(Rehomed(labels, from, to), p) ==
              if Under(p, from) then 0
              else if Under(p, to) && Rebase(p, to, from) in labels then labels[Rebase(p, to, from)]
              else Label(labels, p)
  {
    hide Rehomed, Shift, Rebase;
    RehomedExactly(labels, from, to);
    if Under(p, to) {
      RebaseBack(p, to, from);
    }
    assert p !in KeysUnder(Rehomed(labels, from, to), from);
    if Under(p, to) && Rebase(p, to, from) in labels {
      KeyUnder(labels, from, Rebase(p, to, from));
    }
  }

  lemma KeyAfter(labels: Table, from: Path, to: Path, p: Path)
    requires LandsApart(labels, from, to)
    ensures p in Rehomed(labels, from, to) <==>
              !Under(p, from) && (p in labels || (Under(p, to) && Rebase(p, to, from) in labels))
  {
    hide Rehomed, Shift, Rebase;
    RehomedExactly(labels, from, to);
    if Under(p, to) {
      RebaseBack(p, to, from);
    }
    assert p !in KeysUnder(Rehomed(labels, from, to), from);
    if Under(p, to) && Rebase(p, to, from) in labels {
      KeyUnder(labels, from, Rebase(p, to, from));
    }
  }

  // There and back again is the identity exactly when the place visited carried no labels.
  lemma RoundTrip(labels: Table, from: Path, to: Path)
    requires Disjoint(from, to)
    ensures Rehomed(Rehomed(labels, from, to), to, from) == labels <==> KeysUnder(labels, to) == {}
  {
    DisjointLandsApart(Rehomed(labels, from, to), to, from);
    var there := Rehomed(labels, from, to);
    var back := Rehomed(there, to, from);
    if KeysUnder(labels, to) == {} {
      forall p ensures (p in back <==> p in labels) && Label(back, p) == Label(labels, p) {
        RoundTripAt(labels, from, to, p);
      }
      assert back.Keys == labels.Keys;
      forall p | p in labels ensures back[p] == labels[p] {
        assert Label(back, p) == Label(labels, p);
      }
    } else {
      var p :| p in KeysUnder(labels, to);
      KeyAfter(there, to, from, p);
    }
  }

  lemma RoundTripAt(labels: Table, from: Path, to: Path, p: Path)
    requires Disjoint(from, to) && KeysUnder(labels, to) == {}
    ensures var back := Rehomed(Rehomed(labels, from, to), to, from);
            (p in back <==> p in labels) && Label(back, p) == Label(labels, p)
  {
    var there := Rehomed(labels, from, to);
    DisjointLandsApart(labels, from, to);
    DisjointLandsApart(there, to, from);
    KeyAfter(there, to, from, p);
    LabelAfter(there, to, from, p);
    KeyAfter(labels, from, to, p);
    LabelAfter(labels, from, to, p);
    assert Under(p, to) ==> p !in labels by { assert p in labels && Under(p, to) ==> p in KeysUnder(labels, to); }
    if Under(p, from) {
      if Under(p, to) { UnderBoth(p, from, to); }
      var q := Rebase(p, from, to);
      RebaseBack(p, from, to);
      KeyAfter(labels, from, to, q);
      LabelAfter(labels, from, to, q);
      if Under(q, from) { UnderBoth(q, from, to); }
      assert q in labels ==> q in KeysUnder(labels, to);
    }
    hide Rehomed, Rebase, Under;
  }

  // Two moves in a row are one move, when the stop in between carried no labels.
  lemma RehomeComposes(labels: Table, a: Path, b: Path, c: Path)
    requires Disjoint(a, b) && Disjoint(b, c) && Disjoint(a, c) && KeysUnder(labels, b) == {}
    ensures Rehomed(Rehomed(labels, a, b), b, c) == Rehomed(labels, a, c)
  {
    var twice, once := Rehomed(Rehomed(labels, a, b), b, c), Rehomed(labels, a, c);
    forall p ensures (p in twice <==> p in once) && Label(twice, p) == Label(once, p) {
      ComposesAt(labels, a, b, c, p);
    }
    assert twice.Keys == once.Keys;
    forall p | p in once ensures twice[p] == once[p] {
      assert Label(twice, p) == Label(once, p);
    }
  }

  lemma ComposesAt(labels: Table, a: Path, b: Path, c: Path, p: Path)
    requires Disjoint(a, b) && Disjoint(b, c) && Disjoint(a, c) && KeysUnder(labels, b) == {}
    ensures var twice, once := Rehomed(Rehomed(labels, a, b), b, c), Rehomed(labels, a, c);
            (p in twice <==> p in once) && Label(twice, p) == Label(once, p)
  {
    var there := Rehomed(labels, a, b);
    DisjointLandsApart(labels, a, b);
    DisjointLandsApart(labels, a, c);
    DisjointLandsApart(there, b, c);
    KeyAfter(there, b, c, p);
    LabelAfter(there, b, c, p);
    KeyAfter(labels, a, b, p);
    LabelAfter(labels, a, b, p);
    KeyAfter(labels, a, c, p);
    LabelAfter(labels, a, c, p);
    assert forall q :: q in labels && Under(q, b) ==> q in KeysUnder(labels, b);
    if Under(p, a) && Under(p, b) { UnderBoth(p, a, b); }
    if Under(p, c) {
      if Under(p, b) { UnderBoth(p, b, c); }
      var q := Rebase(p, c, b);
      RebaseBack(p, c, b);
      KeyAfter(labels, a, b, q);
      LabelAfter(labels, a, b, q);
      if Under(q, a) { UnderBoth(q, a, b); }
      assert Rebase(q, b, a) == Rebase(p, c, a);
    }
    hide Rehomed, Rebase, Under;
  }
}
