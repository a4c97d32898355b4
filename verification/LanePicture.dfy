// What one row of the commit graph shows, column by column.
module LanePicture {
  import opened LaneSpec

  datatype Glyph = NoGlyph | Pass | Node | Horizontal | ForkRight | ForkLeft | JoinRight | JoinLeft
  datatype Cell = Cell(glyph: Glyph, lane: int)

  const EMPTY := Cell(NoGlyph, -1)

  // Exactly one node, in the commit's own column and with its own lane id.
  ghost predicate OneNode(cells: seq<Cell>, col: nat, id: int) {
    && col < |cells| && cells[col] == Cell(Node, id)
    && (forall i :: 0 <= i < |cells| && cells[i].glyph == Node ==> i == col)
  }

  // Every lane in use has something drawn in its column.
  ghost predicate Covers(cells: seq<Cell>, lanes: seq<Lane>) {
    |cells| == |lanes| && forall i :: 0 <= i < |lanes| && lanes[i].hash != "" ==> cells[i].glyph != NoGlyph
  }

  function Corner(from: nat, col: nat, join: bool): Glyph {
    if join && from > col then JoinRight
    else if join && from < col then JoinLeft
    else if !join && from > col then ForkRight
    else ForkLeft
  }

  predicate Between(i: nat, from: nat, col: nat) {
    (if from < col then from else col) < i < (if from < col then col else from)
  }

  // The cells with one more corner drawn: the bend at from, a horizontal run over what is plain in between.
  function Drawn(cells: seq<Cell>, from: nat, col: nat, lane: int, join: bool): (r: seq<Cell>)
    requires from < |cells| && col < |cells|
    ensures |r| == |cells|
  {
    seq(|cells|, i requires 0 <= i < |cells| =>
      if i == from then Cell(Corner(from, col, join), lane)
      else if Between(i, from, col) && (cells[i].glyph == NoGlyph || cells[i].glyph == Pass) then Cell(Horizontal, lane)
      else cells[i])
  }

  lemma DrawnKeeps(cells: seq<Cell>, from: nat, col: nat, lane: int, join: bool, id: int)
    requires from < |cells| && from != col && OneNode(cells, col, id)
    ensures OneNode(Drawn(cells, from, col, lane, join), col, id)
    ensures forall i :: 0 <= i < |cells| && (cells[i].glyph != NoGlyph || i == from) ==>
              Drawn(cells, from, col, lane, join)[i].glyph != NoGlyph
  {
    var r := Drawn(cells, from, col, lane, join);
    forall i | 0 <= i < |r| && i != col ensures r[i].glyph != Node {
      assert cells[i].glyph != Node;
    }
    assert r[col] == cells[col];
  }

  // ---- The whole row ----

  // The row before any corner is drawn: the commit's node, and every lane in use passing through.
  function Plain(lanes: seq<Lane>, col: nat): seq<Cell> {
    seq(|lanes|, i requires 0 <= i < |lanes| =>
      if i == col then Cell(Node, lanes[i].id)
      else if lanes[i].hash != "" then Cell(Pass, lanes[i].id)
      else EMPTY)
  }

  // Columns opened later in the row start empty.
  function Padded(plain: seq<Cell>, n: nat): (r: seq<Cell>)
    ensures |r| >= |plain|
  {
    if n <= |plain| then plain else plain + seq(n - |plain|, _ => EMPTY)
  }

  ghost predicate Crossed(corners: map<nat, Cell>, col: nat, i: nat) {
    exists j :: j in corners && Between(i, j, col)
  }

  // What column i shows: its corner if it has one; a horizontal run exactly if it lies between the
  // node and a corner; otherwise what was there.
  ghost predicate Shows(cell: Cell, was: Cell, corners: map<nat, Cell>, col: nat, i: nat) {
    if i == col then cell == was
    else if i in corners then cell == corners[i]
    else if Crossed(corners, col, i) then cell.glyph == Horizontal
    else cell == was
  }

  ghost predicate Picture(cells: seq<Cell>, plain: seq<Cell>, corners: map<nat, Cell>, col: nat) {
    && |cells| <= |plain|
    && (forall i :: 0 <= i < |cells| ==> Shows(cells[i], plain[i], corners, col, i))
  }

  ghost predicate Quiet(plain: seq<Cell>, col: nat) {
    forall i :: 0 <= i < |plain| && i != col ==> plain[i].glyph == NoGlyph || plain[i].glyph == Pass
  }

  ghost predicate Bends(corners: map<nat, Cell>) {
    forall j :: j in corners ==> corners[j].glyph in {ForkRight, ForkLeft, JoinRight, JoinLeft}
  }

  lemma PictureStarts(plain: seq<Cell>, col: nat)
    ensures Picture(plain, plain, map[], col) && Bends(map[])
  {
  }

  lemma PictureGrows(cells: seq<Cell>, plain: seq<Cell>, corners: map<nat, Cell>, from: nat, col: nat,
        lane: int, join: bool)
    requires Picture(cells, plain, corners, col) && Quiet(plain, col)
    requires from < |cells| && col < |cells| && from != col && Bends(corners)
    ensures Picture(Drawn(cells, from, col, lane, join), plain, corners[from := Cell(Corner(from, col, join), lane)],
        col)
    ensures Bends(corners[from := Cell(Corner(from, col, join), lane)])
  {
    var r, more := Drawn(cells, from, col, lane, join), corners[from := Cell(Corner(from, col, join), lane)];
    forall i | 0 <= i < |r| ensures Shows(r[i], plain[i], more, col, i) {
      CrossedGrows(corners, from, more[from], col, i);
      assert Shows(cells[i], plain[i], corners, col, i);
    }
  }

  lemma CrossedGrows(corners: map<nat, Cell>, from: nat, cell: Cell, col: nat, i: nat)
    ensures Crossed(corners[from := cell], col, i) <==> Crossed(corners, col, i) || Between(i, from, col)
  {
    if Between(i, from, col) {
      assert from in corners[from := cell];
    }
    if Crossed(corners, col, i) {
      var j :| j in corners && Between(i, j, col);
      assert j in corners[from := cell];
    }
  }

  // Opening a column at the right end.
  lemma PictureWidens(cells: seq<Cell>, plain: seq<Cell>, corners: map<nat, Cell>, col: nat)
    requires Picture(cells, plain, corners, col) && |cells| == |plain| && col < |cells|
    requires forall j :: j in corners ==> j < |cells|
    ensures Picture(cells + [EMPTY], plain + [EMPTY], corners, col)
  {
    var n := |cells|;
    assert !Crossed(corners, col, n);
  }

  lemma PictureCut(cells: seq<Cell>, plain: seq<Cell>, corners: map<nat, Cell>, col: nat, n: nat)
    requires Picture(cells, plain, corners, col) && n <= |cells|
    ensures Picture(cells[..n], plain, corners, col)
  {
  }

  // ---- The corners of a row ----

  // Every other lane waiting for the commit bends into the node.
  function Joins(lanes: seq<Lane>, col: nat, hash: string): map<nat, Cell> {
    map j: nat | j < |lanes| && j != col && lanes[j].hash == hash :: Cell(Corner(j, col, true), lanes[j].id)
  }

  // The column of the lane that a further parent gets.
  function ForkColumn(st: State, col: nat, p: string): (j: nat)
    requires col < |st.lanes|
    ensures j != col && j < |OpenFork(st, col, p).lanes| && OpenFork(st, col, p).lanes[j].hash == p
  {
    var j := FirstIndex(st.lanes, p);
    if j >= 0 && j != col then j else NewLane(st, col, p).col
  }

  function ForkCell(st: State, col: nat, p: string): Cell
    requires col < |st.lanes|
  {
    var j := ForkColumn(st, col, p);
    Cell(Corner(j, col, false), OpenFork(st, col, p).lanes[j].id)
  }

  // The corners so far, and those of the further parents over them: a column freed by a join may
  // be taken by a fork in the same row.
  function Forks(corners: map<nat, Cell>, st: State, col: nat, parents: seq<string>): map<nat, Cell>
    requires col < |st.lanes|
  {
    if parents == [] then corners
    else
      var init, p := parents[..|parents| - 1], parents[|parents| - 1];
      var r := OpenForks(st, col, init);
      Forks(corners, st, col, init)[ForkColumn(r, col, p) := ForkCell(r, col, p)]
  }

  function Corners(st: State, c: Commit): map<nat, Cell> {
    var s := Seat(st, c.hash);
    var joins := Joins(s.st.lanes, s.col, c.hash);
    if c.parents == [] then joins
    else
      var closed := CloseOthers(s.st.lanes, s.col, c.hash);
      Forks(joins, State(closed[s.col := Lane(c.parents[0], closed[s.col].id)], s.st.nextID), s.col, c.parents[1..])
  }

  // Every further parent's lane bends off from the node, in the lane's own colour.
  lemma {:induction false} EveryForkShown(corners: map<nat, Cell>, st: State, col: nat, parents: seq<string>, p: string)
    requires col < |st.lanes| && st.lanes[col].hash != "" && (forall q :: q in parents ==> q != "") && p in parents
    ensures ForkShown(Forks(corners, st, col, parents), OpenForks(st, col, parents), col, p)
    decreases |parents|
  {
    hide *;
    var init, q := parents[..|parents| - 1], parents[|parents| - 1];
    assert parents == init + [q] && q in parents;
    forall x | x in init ensures x != "" {
      assert x in parents;
    }
    var before := OpenForks(st, col, init);
    OpenForksKeep(st, col, init);
    OpenForkKeeps(before, col, q);
    LastFork(corners, st, col, parents);
    if p != q {
      EveryForkShown(corners, st, col, init, p);
      ForkKept(Forks(corners, st, col, init), before, col, p, q);
    }
  }

  lemma LastFork(corners: map<nat, Cell>, st: State, col: nat, parents: seq<string>)
    requires col < |st.lanes| && parents != []
    ensures var init, q := parents[..|parents| - 1], parents[|parents| - 1];
            var before := OpenForks(st, col, init);
            && OpenForks(st, col, parents) == OpenFork(before, col, q)
            && Forks(corners, st, col, parents)
                == Forks(corners, st, col, init)[ForkColumn(before, col, q) := ForkCell(before, col, q)]
            && ForkShown(Forks(corners, st, col, parents), OpenForks(st, col, parents), col, q)
  {
    var init, q := parents[..|parents| - 1], parents[|parents| - 1];
    var before := OpenForks(st, col, init);
    hide OpenFork;
    assert ForkedTo(Forks(corners, st, col, parents), OpenForks(st, col, parents), col, q, ForkColumn(before, col, q));
  }

  lemma ForkKept(corners: map<nat, Cell>, st: State, col: nat, p: string, q: string)
    requires col < |st.lanes| && p != "" && p != q && ForkShown(corners, st, col, p)
    requires forall k :: 0 <= k < |st.lanes| && st.lanes[k].hash != "" ==> OpenFork(st, col, q).lanes[k] == st.lanes[k]
    ensures ForkShown(corners[ForkColumn(st, col, q) := ForkCell(st, col, q)], OpenFork(st, col, q), col, p)
  {
    var j :| ForkedTo(corners, st, col, p, j);
    hide OpenFork, ForkCell;
    assert j != ForkColumn(st, col, q);
    assert ForkedTo(corners[ForkColumn(st, col, q) := ForkCell(st, col, q)], OpenFork(st, col, q), col, p, j);
  }

  ghost predicate ForkShown(corners: map<nat, Cell>, st: State, col: nat, p: string) {
    exists j :: ForkedTo(corners, st, col, p, j)
  }

  ghost predicate ForkedTo(corners: map<nat, Cell>, st: State, col: nat, p: string, j: nat) {
    j in corners && j < |st.lanes| && st.lanes[j].hash == p && corners[j] == Cell(Corner(j, col, false), st.lanes[j].id)
  }

  // No corner is anything else: it is one of those before, or leads to the lane of a further parent.
  lemma {:induction false} ForksMean(corners: map<nat, Cell>, st: State, col: nat, parents: seq<string>, j: nat)
    requires col < |st.lanes| && st.lanes[col].hash != "" && (forall q :: q in parents ==> q != "")
    requires j in Forks(corners, st, col, parents)
    ensures var forks := Forks(corners, st, col, parents);
            || (j in corners && forks[j] == corners[j])
            || exists p :: p in parents && ForkedTo(forks, OpenForks(st, col, parents), col, p, j)
    decreases |parents|
  {
    hide *;
    if parents == [] {
      NoForks(corners, st, col);
    } else {
      var init, q := parents[..|parents| - 1], parents[|parents| - 1];
      assert parents == init + [q] && q in parents;
      forall x | x in init ensures x != "" {
        assert x in parents;
      }
      var before := OpenForks(st, col, init);
      OpenForksKeep(st, col, init);
      OpenForkKeeps(before, col, q);
      LastFork(corners, st, col, parents);
      LastForkedTo(corners, st, col, parents);
      if j != ForkColumn(before, col, q) {
        ForksMean(corners, st, col, init, j);
        if p :| p in init && ForkedTo(Forks(corners, st, col, init), before, col, p, j) {
          assert p in parents && p != "";
          StillForkedTo(Forks(corners, st, col, init), before, col, p, q, j);
        }
      }
    }
  }

  lemma NoForks(corners: map<nat, Cell>, st: State, col: nat)
    requires col < |st.lanes|
    ensures Forks(corners, st, col, []) == corners
  {
  }

  lemma LastForkedTo(corners: map<nat, Cell>, st: State, col: nat, parents: seq<string>)
    requires col < |st.lanes| && parents != []
    ensures var init, q := parents[..|parents| - 1], parents[|parents| - 1];
            ForkedTo(Forks(corners, st, col, parents), OpenForks(st, col, parents), col, q,
              ForkColumn(OpenForks(st, col, init), col, q))
  {
    hide OpenFork;
  }

  lemma StillForkedTo(corners: map<nat, Cell>, st: State, col: nat, p: string, q: string, j: nat)
    requires col < |st.lanes| && p != "" && ForkedTo(corners, st, col, p, j) && j != ForkColumn(st, col, q)
    requires forall k :: 0 <= k < |st.lanes| && st.lanes[k].hash != "" ==> OpenFork(st, col, q).lanes[k] == st.lanes[k]
    ensures ForkedTo(corners[ForkColumn(st, col, q) := ForkCell(st, col, q)], OpenFork(st, col, q), col, p, j)
  {
    hide OpenFork, ForkCell, ForkColumn;
  }

  // A lane that ends here shows its join, unless a fork has taken its column in the same row.
  lemma {:induction false} EveryJoinShown(corners: map<nat, Cell>, st: State, col: nat, parents: seq<string>, j: nat)
    requires col < |st.lanes| && j in corners
    ensures j in Forks(corners, st, col, parents)
    ensures Forks(corners, st, col, parents)[j] == corners[j] ||
              Forks(corners, st, col, parents)[j].glyph == Corner(j, col, false)
  {
    if parents != [] {
      EveryJoinShown(corners, st, col, parents[..|parents| - 1], j);
    }
  }
}
