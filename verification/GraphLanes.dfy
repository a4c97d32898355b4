// Laying a commit log out in lanes, row by row, and drawing each row's cells.
module GraphLanes {
  import opened LaneSpec
  import opened LanePicture

  datatype Row = Row(commit: Commit, column: nat, cells: seq<Cell>)

  const MAX_GRAPH_LANES: nat := 8

  method DrawCorner(cells: array<Cell>, from: nat, col: nat, lane: int, join: bool)
    requires from < cells.Length && col < cells.Length
    modifies cells
    ensures cells[..] == Drawn(old(cells[..]), from, col, lane, join)
    ensures from > col ==> cells[from] == Cell(if join then JoinRight else ForkRight, lane)
    ensures from < col ==> cells[from] == Cell(if join then JoinLeft else ForkLeft, lane)
  {
    var lo, hi := col, from;
    if from < col {
      lo, hi := from, col;
    }
    var i := lo + 1;
    while i < hi
      invariant lo < i && (i <= hi || i == lo + 1)
      invariant forall k :: 0 <= k < cells.Length && !(lo < k < i && k < hi) ==> cells[k] == old(cells[k])
      invariant forall k :: lo < k < i && k < hi ==>
        cells[k] == if old(cells[k]).glyph == NoGlyph || old(cells[k]).glyph == Pass
                    then Cell(Horizontal, lane) else old(cells[k])
    {
      if cells[i].glyph == NoGlyph || cells[i].glyph == Pass {
        cells[i] := Cell(Horizontal, lane);
      }
      i := i + 1;
    }
    if join && from > col {
      cells[from] := Cell(JoinRight, lane);
    } else if join && from < col {
      cells[from] := Cell(JoinLeft, lane);
    } else if !join && from > col {
      cells[from] := Cell(ForkRight, lane);
    } else {
      cells[from] := Cell(ForkLeft, lane);
    }
    forall k | 0 <= k < cells.Length
      ensures cells[k] == Drawn(old(cells[..]), from, col, lane, join)[k]
    {
      assert old(cells[..])[k] == old(cells[k]);
    }
  }

  // Drops trailing empty columns, then everything past the cap, never the node itself.
  method TrimCells(cells: array<Cell>, col: nat) returns (trimmed: seq<Cell>)
    requires col < cells.Length
    ensures col < |trimmed| <= cells.Length && trimmed == cells[..|trimmed|]
    ensures |trimmed| <= MAX_GRAPH_LANES || col >= MAX_GRAPH_LANES || |trimmed| == col + 1
    ensures forall i :: |trimmed| <= i < cells.Length && cells[i].glyph != NoGlyph ==> i >= MAX_GRAPH_LANES > col
    ensures |trimmed| == col + 1 || trimmed[|trimmed| - 1].glyph != NoGlyph || |trimmed| == MAX_GRAPH_LANES
  {
    var last := col;
    var i := cells.Length - 1;
    while i > last
      invariant last == col && col <= i < cells.Length
      invariant forall k :: i < k < cells.Length ==> cells[k].glyph == NoGlyph
    {
      if cells[i].glyph != NoGlyph {
        last := i;
        break;
      }
      i := i - 1;
    }
    trimmed := cells[..last + 1];
    if |trimmed| > MAX_GRAPH_LANES && col < MAX_GRAPH_LANES {
      trimmed := trimmed[..MAX_GRAPH_LANES];
    }
  }

  method IndexOf(lanes: seq<Lane>, hash: string) returns (j: int)
    ensures j == FirstIndex(lanes, hash)
  {
    for i := 0 to |lanes|
      invariant forall k :: 0 <= k < i ==> lanes[k].hash != hash
    {
      if lanes[i].hash == hash {
        return i;
      }
    }
    return -1;
  }

  // Every lane waiting for this commit, left to right.
  method Matches(lanes: seq<Lane>, hash: string) returns (matches: seq<nat>)
    ensures forall j :: j in matches <==> 0 <= j < |lanes| && lanes[j].hash == hash
    ensures forall a, b :: 0 <= a < b < |matches| ==> matches[a] < matches[b]
  {
    matches := [];
    for i := 0 to |lanes|
      invariant forall j :: j in matches <==> 0 <= j < i && lanes[j].hash == hash
      invariant forall a :: 0 <= a < |matches| ==> matches[a] < i
      invariant forall a, b :: 0 <= a < b < |matches| ==> matches[a] < matches[b]
    {
      if lanes[i].hash == hash {
        matches := matches + [i];
      }
    }
  }

  method BaseCells(lanes: seq<Lane>, col: nat) returns (cells: array<Cell>)
    requires col < |lanes|
    ensures fresh(cells) && cells[..] == Plain(lanes, col)
    ensures OneNode(cells[..], col, lanes[col].id) && Covers(cells[..], lanes)
  {
    cells := new Cell[|lanes|](i requires 0 <= i < |lanes| =>
      if i == col then Cell(Node, lanes[i].id)
      else if lanes[i].hash != "" then Cell(Pass, lanes[i].id)
      else EMPTY);
  }

  // The cells show the corners drawn so far, and no corner lies outside them.
  ghost predicate Drawing(cells: seq<Cell>, plain: seq<Cell>, corners: map<nat, Cell>, col: nat) {
    && |cells| == |plain| && col < |cells| && Quiet(plain, col) && Bends(corners)
    && (forall j :: j in corners ==> j < |cells|)
    && Picture(cells, plain, corners, col)
  }

  // Columns that showed something still do, and so does one more.
  ghost predicate StillDrawn(before: seq<Cell>, after: seq<Cell>, from: nat) {
    && |after| == |before|
    && forall i :: 0 <= i < |before| && (before[i].glyph != NoGlyph || i == from) ==> after[i].glyph != NoGlyph
  }

  // One more corner in a row being drawn.
  method Bend(cells: array<Cell>, from: nat, col: nat, lane: int, join: bool, ghost plain: seq<Cell>,
        ghost corners: map<nat, Cell>, ghost id: int)
    requires from < cells.Length && from != col && OneNode(cells[..], col, id)
        && Drawing(cells[..], plain, corners, col)
    modifies cells
    ensures OneNode(cells[..], col, id) && StillDrawn(old(cells[..]), cells[..], from)
    ensures Drawing(cells[..], plain, corners[from := Cell(Corner(from, col, join), lane)], col)
  {
    DrawnKeeps(cells[..], from, col, lane, join, id);
    PictureGrows(cells[..], plain, corners, from, col, lane, join);
    hide Picture, OneNode, Drawn, Bends, Quiet;
    DrawCorner(cells, from, col, lane, join);
  }

  lemma CoversStill(before: seq<Cell>, after: seq<Cell>, from: nat, lanes: seq<Lane>, lane: Lane)
    requires Covers(before, lanes) && StillDrawn(before, after, from) && from < |lanes|
    ensures Covers(after, lanes[from := lane])
  {
  }

  // Closes every match but the first, drawing each one's join into col.
  method CloseJoins(lanes: seq<Lane>, matches: seq<nat>, col: nat, cells: array<Cell>, ghost hash: string)
    returns (lanes': seq<Lane>)
    requires col < |lanes| == cells.Length
    requires matches != [] ==> matches[0] == col
    requires forall j :: 0 <= j < |lanes| && j != col ==> (j in matches <==> lanes[j].hash == hash)
    requires forall j :: j in matches ==> j < |lanes|
    requires forall a, b :: 0 <= a < b < |matches| ==> matches[a] < matches[b]
    requires OneNode(cells[..], col, lanes[col].id) && Covers(cells[..], lanes) && cells[..] == Plain(lanes, col)
    modifies cells
    ensures lanes' == CloseOthers(lanes, col, hash)
    ensures OneNode(cells[..], col, lanes[col].id) && Covers(cells[..], lanes')
    ensures Drawing(cells[..], Plain(lanes, col), Joins(lanes, col, hash), col)
  {
    hide OneNode, Covers, Drawing, Plain, Corner, Joins, StillDrawn, ClosedSoFar, JoinsSoFar, CloseOthers;
    lanes' := lanes;
    ghost var plain := Plain(lanes, col);
    DrawingStarts(lanes, col);
    NoJoins(lanes, matches, col, hash);
    if |matches| > 1 {
      ghost var corners: map<nat, Cell> := map[];
      CloseStarts(lanes, matches, col);
      for m := 1 to |matches|
        invariant ClosedSoFar(lanes, lanes', matches[..m], col)
        invariant Drawing(cells[..], plain, corners, col)
        invariant JoinsSoFar(corners, lanes, matches[..m], col)
        invariant OneNode(cells[..], col, lanes[col].id) && Covers(cells[..], lanes')
      {
        var j := matches[m];
        assert j in matches && matches[0] < matches[m] && j !in matches[..m];
        CloseNext(corners, lanes, lanes', matches[..m], col, j);
        ghost var before := cells[..];
        Bend(cells, j, col, lanes'[j].id, true, plain, corners, lanes[col].id);
        CoversStill(before, cells[..], j, lanes', FREE);
        corners := corners[j := Cell(Corner(j, col, true), lanes'[j].id)];
        lanes' := lanes'[j := FREE];
        assert matches[..m + 1] == matches[..m] + [j];
      }
      assert matches[..|matches|] == matches;
      CloseComplete(corners, lanes, lanes', matches, col, hash);
    }
  }

  // The corners of the matches passed so far.
  ghost predicate JoinsSoFar(corners: map<nat, Cell>, lanes: seq<Lane>, passed: seq<nat>, col: nat)
  {
    && (forall j :: j in corners <==> j in passed && j != col)
    && (forall j :: j in corners ==> j < |lanes| && corners[j] == Cell(Corner(j, col, true), lanes[j].id))
  }

  ghost predicate ClosedSoFar(lanes: seq<Lane>, lanes': seq<Lane>, passed: seq<nat>, col: nat) {
    |lanes'| == |lanes| && forall j :: 0 <= j < |lanes| ==> lanes'[j] == if j != col && j in passed then FREE
        else lanes[j]
  }

  lemma CloseStarts(lanes: seq<Lane>, matches: seq<nat>, col: nat)
    requires matches != [] && matches[0] == col
    ensures ClosedSoFar(lanes, lanes, matches[..1], col) && JoinsSoFar(map[], lanes, matches[..1], col)
  {
    assert matches[..1] == [col];
  }

  lemma CloseNext(corners: map<nat, Cell>, lanes: seq<Lane>, lanes': seq<Lane>, passed: seq<nat>, col: nat, j: nat)
    requires ClosedSoFar(lanes, lanes', passed, col) && JoinsSoFar(corners, lanes, passed, col)
    requires j < |lanes| && j != col && j !in passed
    ensures |lanes'| == |lanes| && lanes'[j] == lanes[j]
    ensures ClosedSoFar(lanes, lanes'[j := FREE], passed + [j], col)
    ensures JoinsSoFar(corners[j := Cell(Corner(j, col, true), lanes[j].id)], lanes, passed + [j], col)
  {
  }

  lemma CloseComplete(corners: map<nat, Cell>, lanes: seq<Lane>, lanes': seq<Lane>, matches: seq<nat>,
        col: nat, hash: string)
    requires forall j :: 0 <= j < |lanes| && j != col ==> (j in matches <==> lanes[j].hash == hash)
    requires ClosedSoFar(lanes, lanes', matches, col) && JoinsSoFar(corners, lanes, matches, col)
    requires forall j :: j in matches ==> j < |lanes|
    ensures corners == Joins(lanes, col, hash) && lanes' == CloseOthers(lanes, col, hash)
  {
  }

  lemma DrawingStarts(lanes: seq<Lane>, col: nat)
    requires col < |lanes|
    ensures Drawing(Plain(lanes, col), Plain(lanes, col), map[], col)
  {
    PictureStarts(Plain(lanes, col), col);
  }

  lemma NoJoins(lanes: seq<Lane>, matches: seq<nat>, col: nat, hash: string)
    requires matches != [] ==> matches[0] == col
    requires forall j :: 0 <= j < |lanes| && j != col ==> (j in matches <==> lanes[j].hash == hash)
    ensures |matches| <= 1 ==> Joins(lanes, col, hash) == map[] && CloseOthers(lanes, col, hash) == lanes
  {
    if |matches| == 1 {
      assert matches == [col];
    }
  }

  // Draws the forks to the further parents, opening lanes (and columns) where needed.
  method OpenForkCells(st: State, col: nat, parents: seq<string>, cells: array<Cell>, ghost id: int,
      ghost plain: seq<Cell>, ghost corners: map<nat, Cell>)
    returns (st': State, cells': array<Cell>)
    requires col < |st.lanes| == cells.Length
    requires OneNode(cells[..], col, id) && Covers(cells[..], st.lanes)
    requires Drawing(cells[..], plain, corners, col)
    modifies cells
    ensures st' == OpenForks(st, col, parents)
    ensures fresh(cells') || cells' == cells
    ensures OneNode(cells'[..], col, id) && Covers(cells'[..], st'.lanes)
    ensures Drawing(cells'[..], Padded(plain, |st'.lanes|), Forks(corners, st, col, parents), col)
  {
    hide *;
    ForksBegin(st, col, cells[..], plain, corners, parents);
    st', cells' := st, cells;
    for k := 0 to |parents|
      invariant st' == OpenForks(st, col, parents[..k])
      invariant Drawing(cells'[..], Padded(plain, |st'.lanes|), Forks(corners, st, col, parents[..k]), col)
      invariant fresh(cells') || cells' == cells
      invariant OneNode(cells'[..], col, id) && Covers(cells'[..], st'.lanes)
    {
      ForksNext(corners, st, col, parents, k);
      CoversAll(cells'[..], st'.lanes);
      PaddedTwice(plain, |st'.lanes|, |OpenFork(st', col, parents[k]).lanes|);
      st', cells' := OneFork(st', col, parents[k], cells', id, Padded(plain, |st'.lanes|),
          Forks(corners, st, col, parents[..k]));
    }
    assert parents[..|parents|] == parents;
  }

  lemma ForksBegin(st: State, col: nat, cells: seq<Cell>, plain: seq<Cell>, corners: map<nat, Cell>,
      parents: seq<string>)
    requires col < |st.lanes| == |cells| && Drawing(cells, plain, corners, col)
    ensures OpenForks(st, col, parents[..0]) == st && Forks(corners, st, col, parents[..0]) == corners
    ensures Padded(plain, |st.lanes|) == plain
  {
  }

  lemma ForksNext(corners: map<nat, Cell>, st: State, col: nat, parents: seq<string>, k: nat)
    requires col < |st.lanes| && k < |parents|
    ensures var r := OpenForks(st, col, parents[..k]);
            && col < |r.lanes|
            && OpenForks(st, col, parents[..k + 1]) == OpenFork(r, col, parents[k])
            && Forks(corners, st, col, parents[..k + 1]) == Forks(corners, st, col, parents[..k])[
                 ForkColumn(r, col, parents[k]) := ForkCell(r, col, parents[k])]
  {
    assert parents[..k + 1][..k] == parents[..k];
    hide OpenFork, ForkColumn, ForkCell;
  }

  lemma CoversAll(cells: seq<Cell>, lanes: seq<Lane>)
    requires Covers(cells, lanes)
    ensures |cells| == |lanes|
  {
  }

  lemma PaddedTwice(plain: seq<Cell>, m: nat, n: nat)
    requires m <= n
    ensures Padded(Padded(plain, m), n) == Padded(plain, n)
    ensures n == m + 1 && m >= |plain| ==> Padded(plain, n) == Padded(plain, m) + [EMPTY]
  {
  }

  method OneFork(st: State, col: nat, p: string, cells: array<Cell>, ghost id: int,
      ghost plain: seq<Cell>, ghost corners: map<nat, Cell>)
    returns (st': State, cells': array<Cell>)
    requires col < |st.lanes| == cells.Length
    requires OneNode(cells[..], col, id) && Covers(cells[..], st.lanes)
    requires Drawing(cells[..], plain, corners, col)
    modifies cells
    ensures st' == OpenFork(st, col, p)
    ensures fresh(cells') || cells' == cells
    ensures OneNode(cells'[..], col, id) && Covers(cells'[..], st'.lanes)
    ensures Drawing(cells'[..], Padded(plain, |st'.lanes|), corners[ForkColumn(st, col, p) := ForkCell(st, col, p)],
        col)
  {
    var j := IndexOf(st.lanes, p);
    if j >= 0 && j != col {
      ReusedColumn(st, col, p, j, plain);
      hide OneNode, Covers, Drawing, Corner, StillDrawn, Padded, OpenFork, ForkColumn, ForkCell, FirstIndex;
      ghost var before := cells[..];
      Bend(cells, j, col, st.lanes[j].id, false, plain, corners, id);
      CoversStill(before, cells[..], j, st.lanes, st.lanes[j]);
      assert st.lanes[j := st.lanes[j]] == st.lanes;
      st', cells' := st, cells;
    } else {
      st', cells' := NewFork(st, col, p, cells, id, plain, corners);
    }
  }

  lemma ReusedColumn(st: State, col: nat, p: string, j: nat, plain: seq<Cell>)
    requires col < |st.lanes| == |plain| && FirstIndex(st.lanes, p) == j != col
    ensures OpenFork(st, col, p) == st && ForkColumn(st, col, p) == j < |st.lanes|
    ensures ForkCell(st, col, p) == Cell(Corner(j, col, false), st.lanes[j].id)
    ensures Padded(plain, |st.lanes|) == plain
  {
  }

  // The columns of the row, one more of them if no free one can be used.
  method NewFork(st: State, col: nat, p: string, cells: array<Cell>, ghost id: int, ghost plain: seq<Cell>,
        ghost corners: map<nat, Cell>)
    returns (st': State, cells': array<Cell>)
    requires col < |st.lanes| == cells.Length
    requires FirstIndex(st.lanes, p) == -1 || FirstIndex(st.lanes, p) == col
    requires OneNode(cells[..], col, id) && Covers(cells[..], st.lanes)
    requires Drawing(cells[..], plain, corners, col)
    modifies cells
    ensures st' == OpenFork(st, col, p)
    ensures fresh(cells') || cells' == cells
    ensures OneNode(cells'[..], col, id) && Covers(cells'[..], st'.lanes)
    ensures Drawing(cells'[..], Padded(plain, |st'.lanes|), corners[ForkColumn(st, col, p) := ForkCell(st, col, p)],
        col)
  {
    var target := IndexOf(st.lanes, "");
    NewColumn(st, col, p, plain);
    var lanes := st.lanes;
    cells' := cells;
    ghost var wide := plain;
    hide OneNode, Covers, Drawing, Corner, StillDrawn, Padded, OpenFork, ForkColumn, ForkCell, FirstIndex;
    if target == -1 || target == col {
      target := |lanes|;
      lanes := lanes + [FREE];
      cells' := AppendCell(cells, EMPTY);
      Widened(cells[..], plain, corners, col, id, st.lanes);
      wide := plain + [EMPTY];
    }
    ghost var before := cells'[..];
    Bend(cells', target, col, st.nextID, false, wide, corners, id);
    CoversStill(before, cells'[..], target, lanes, Lane(p, st.nextID));
    lanes := lanes[target := Lane(p, st.nextID)];
    st' := State(lanes, st.nextID + 1);
  }

  lemma NewColumn(st: State, col: nat, p: string, plain: seq<Cell>)
    requires col < |st.lanes| == |plain|
    requires FirstIndex(st.lanes, p) == -1 || FirstIndex(st.lanes, p) == col
    ensures var e := FirstIndex(st.lanes, "");
            var widen := e == -1 || e == col;
            var j := if widen then |st.lanes| else e;
            var lanes := if widen then st.lanes + [FREE] else st.lanes;
            && OpenFork(st, col, p) == State(lanes[j := Lane(p, st.nextID)], st.nextID + 1)
            && ForkColumn(st, col, p) == j && ForkCell(st, col, p) == Cell(Corner(j, col, false), st.nextID)
            && Padded(plain, |lanes|) == if widen then plain + [EMPTY] else plain
  {
    var e := FirstIndex(st.lanes, "");
    var lane := Lane(p, st.nextID);
    if e == -1 || e == col {
      assert (st.lanes + [FREE])[|st.lanes| := lane] == st.lanes + [lane];
    }
  }

  lemma Widened(cells: seq<Cell>, plain: seq<Cell>, corners: map<nat, Cell>, col: nat, id: int, lanes: seq<Lane>)
    requires OneNode(cells, col, id) && Covers(cells, lanes) && Drawing(cells, plain, corners, col)
    ensures OneNode(cells + [EMPTY], col, id) && Covers(cells + [EMPTY], lanes + [FREE])
    ensures Drawing(cells + [EMPTY], plain + [EMPTY], corners, col)
    ensures |cells| == |lanes|
  {
    PictureWidens(cells, plain, corners, col);
  }

  method AppendCell(cells: array<Cell>, cell: Cell) returns (r: array<Cell>)
    ensures fresh(r) && r[..] == cells[..] + [cell]
  {
    r := new Cell[cells.Length + 1](i requires 0 <= i <= cells.Length reads cells =>
      if i < cells.Length then cells[i] else cell);
  }

  // What one row shows: its commit's node once, in the commit's column, with the lane's id; and
  // every lane still in use below it, unless the row was cut off at the cap.
  ghost predicate RowFor(commits: seq<Commit>, k: nat, row: Row)
    requires k < |commits|
  {
    && row.commit == commits[k]
    && row.column == ColumnAt(commits, k)
    && OneNode(row.cells, row.column, NodeIdAt(commits, k))
    && ShowsLanes(row, StateAt(commits, k + 1).lanes) && Capped(row)
    && ShowsCorners(row, StateAt(commits, k), commits[k])
  }

  // Column by column: corners where lanes join and fork, runs leading to them, lanes passing by.
  ghost predicate ShowsCorners(row: Row, st: State, c: Commit) {
    Picture(row.cells, Padded(Plain(Seat(st, c.hash).st.lanes, row.column), |Step(st, c).lanes|), Corners(st, c),
        row.column)
  }

  // No row is wider than eight columns, unless its own commit stands further right; then it ends there
  // or with something drawn.
  ghost predicate Capped(row: Row) {
    row.column < |row.cells| && (row.column < 8 ==> |row.cells| <= 8)
      && (|row.cells| == row.column + 1 || row.cells[|row.cells| - 1].glyph != NoGlyph || |row.cells| == 8)
  }

  ghost predicate ShowsLanes(row: Row, lanes: seq<Lane>) {
    forall i :: 0 <= i < |lanes| && lanes[i].hash != "" ==>
      if i < |row.cells| then row.cells[i].glyph != NoGlyph else i >= MAX_GRAPH_LANES > row.column
  }

  method CommitLanes(commits: seq<Commit>) returns (rows: seq<Row>)
    ensures |rows| == |commits|
    ensures forall k :: 0 <= k < |commits| ==> RowFor(commits, k, rows[k])
  {
    hide *;
    rows := [];
    var st := State([], 0);
    StartsEmpty(commits);
    for k := 0 to |commits|
      invariant st == StateAt(commits, k)
      invariant |rows| == k && forall l :: 0 <= l < k ==> RowFor(commits, l, rows[l])
    {
      var row;
      row, st := LayRow(st, commits[k]);
      RowLaid(commits, k, row);
      rows := rows + [row];
    }
  }

  lemma StartsEmpty(commits: seq<Commit>)
    ensures StateAt(commits, 0) == State([], 0)
  {
  }

  ghost predicate Laid(st: State, c: Commit, row: Row) {
    var s := Seat(st, c.hash);
    && row.commit == c && row.column == s.col
    && OneNode(row.cells, s.col, s.st.lanes[s.col].id)
    && ShowsLanes(row, Step(st, c).lanes) && Capped(row)
    && ShowsCorners(row, st, c)
  }

  lemma RowLaid(commits: seq<Commit>, k: nat, row: Row)
    requires k < |commits| && Laid(StateAt(commits, k), commits[k], row)
    ensures RowFor(commits, k, row)
    ensures StateAt(commits, k + 1) == Step(StateAt(commits, k), commits[k])
  {
  }

  // One row of the loop: seat the commit, close the lanes that meet here, hand the lane on, fork.
  method LayRow(st: State, c: Commit) returns (row: Row, st': State)
    ensures st' == Step(st, c)
    ensures Laid(st, c, row)
  {
    var matches := Matches(st.lanes, c.hash);
    var col, seated := SeatCommit(st, c.hash, matches);
    hide OneNode, Covers, Drawing, Plain, Joins, Forks, OpenForks, CloseOthers, Padded, Seat, FirstIndex;
    ghost var id, plain, joins := seated.lanes[col].id, Plain(seated.lanes, col), Joins(seated.lanes, col, c.hash);
    var cells := BaseCells(seated.lanes, col);
    var lanes := CloseJoins(seated.lanes, matches, col, cells, c.hash);
    if |c.parents| == 0 {
      ClosedOff(lanes, col, cells[..], plain);
      lanes := lanes[col := FREE];
      st' := State(lanes, seated.nextID);
    } else {
      HandedOver(lanes, col, c.parents[0], cells[..]);
      lanes := lanes[col := Lane(c.parents[0], lanes[col].id)];
      st', cells := OpenForkCells(State(lanes, seated.nextID), col, c.parents[1..], cells, id, plain, joins);
    }
    DrawingWhole(cells[..], Padded(plain, |st'.lanes|), Corners(st, c), col);
    ghost var whole := cells[..];
    var trimmed := TrimCells(cells, col);
    row := Row(c, col, trimmed);
    RowCut(whole, trimmed, col, id, st, c);
  }

  lemma ClosedOff(lanes: seq<Lane>, col: nat, cells: seq<Cell>, plain: seq<Cell>)
    requires Covers(cells, lanes) && col < |lanes| == |plain|
    ensures Covers(cells, lanes[col := FREE]) && Padded(plain, |lanes|) == plain
  {
  }

  lemma HandedOver(lanes: seq<Lane>, col: nat, p: string, cells: seq<Cell>)
    requires col < |lanes| && Covers(cells, lanes) && OneNode(cells, col, lanes[col].id)
    ensures Covers(cells, lanes[col := Lane(p, lanes[col].id)])
  {
  }

  lemma DrawingWhole(cells: seq<Cell>, plain: seq<Cell>, corners: map<nat, Cell>, col: nat)
    requires Drawing(cells, plain, corners, col)
    ensures Picture(cells, plain, corners, col) && col < |cells| == |plain|
  {
  }

  // Cutting the row short keeps what it shows.
  lemma RowCut(whole: seq<Cell>, trimmed: seq<Cell>, col: nat, id: int, st: State, c: Commit)
    requires col == Seat(st, c.hash).col && id == Seat(st, c.hash).st.lanes[col].id
    requires OneNode(whole, col, id) && Covers(whole, Step(st, c).lanes)
    requires Picture(whole, Padded(Plain(Seat(st, c.hash).st.lanes, col), |Step(st, c).lanes|), Corners(st, c), col)
    requires col < |trimmed| <= |whole| && trimmed == whole[..|trimmed|]
    requires forall i :: |trimmed| <= i < |whole| && whole[i].glyph != NoGlyph ==> i >= MAX_GRAPH_LANES > col
    requires |trimmed| <= MAX_GRAPH_LANES || col >= MAX_GRAPH_LANES || |trimmed| == col + 1
    requires |trimmed| == col + 1 || trimmed[|trimmed| - 1].glyph != NoGlyph || |trimmed| == MAX_GRAPH_LANES
    ensures Laid(st, c, Row(c, col, trimmed))
  {
    hide Step, Corners, Padded, Plain, Seat;
    PictureCut(whole, Padded(Plain(Seat(st, c.hash).st.lanes, col), |Step(st, c).lanes|), Corners(st, c), col,
        |trimmed|);
    hide Picture;
    assert OneNode(trimmed, col, id);
  }

  method SeatCommit(st: State, hash: string, matches: seq<nat>) returns (col: nat, st': State)
    requires forall j :: j in matches <==> 0 <= j < |st.lanes| && st.lanes[j].hash == hash
    requires forall a, b :: 0 <= a < b < |matches| ==> matches[a] < matches[b]
    ensures Seated(col, st') == Seat(st, hash)
    ensures matches != [] ==> matches[0] == col && st' == st
    ensures forall j :: 0 <= j < |st'.lanes| && j != col ==> (j in matches <==> st'.lanes[j].hash == hash)
  {
    ghost var f := FirstIndex(st.lanes, hash);
    if |matches| > 0 {
      col, st' := matches[0], st;
      assert matches[0] in matches;
      assert f in matches;
      return;
    }
    assert f == -1 by { assert f >= 0 ==> f in matches; }
    var lanes := st.lanes;
    var e := IndexOf(lanes, "");
    if e == -1 {
      col := |lanes|;
      lanes := lanes + [FREE];
    } else {
      col := e;
    }
    st' := State(lanes[col := Lane(hash, st.nextID)], st.nextID + 1);
  }

  // Every further parent of a merge is shown by a fork: the bend stands in the column of the lane
  // that waits for the parent from here on, and carries that lane's id.
  lemma MergeShown(commits: seq<Commit>, k: nat, row: Row, p: string) returns (j: nat)
    requires k < |commits| && Named(commits[k]) && RowFor(commits, k, row)
    requires commits[k].parents != [] && p in commits[k].parents[1..]
    ensures var lanes := StateAt(commits, k + 1).lanes;
            && j < |lanes| && lanes[j].hash == p && j != row.column < |row.cells|
            && (row.column < j < |row.cells| ==> row.cells[j] == Cell(ForkRight, lanes[j].id))
            && (j < row.column ==> row.cells[j] == Cell(ForkLeft, lanes[j].id))
  {
    var st, c := StateAt(commits, k), commits[k];
    hide StateAt, Picture, Padded, Plain, OpenForks, Forks, Joins, Seat, CloseOthers, RowFor;
    RowParts(commits, k, row);
    var s := Seat(st, c.hash);
    var closed := CloseOthers(s.st.lanes, s.col, c.hash);
    var handed := State(closed[s.col := Lane(c.parents[0], closed[s.col].id)], s.st.nextID);
    var joins := Joins(s.st.lanes, s.col, c.hash);
    forall q | q in c.parents[1..] ensures q != "" {
      assert q in c.parents;
    }
    assert c.parents[0] in c.parents;
    EveryForkShown(joins, handed, s.col, c.parents[1..], p);
    j :| ForkedTo(Corners(st, c), Step(st, c), s.col, p, j);
    CornersApart(st, c);
    CornerSeen(row, st, c, j);
  }

  // Every lane that ends at a commit is shown by its join, unless a fork of the same row has
  // taken over its column.
  lemma JoinShown(commits: seq<Commit>, k: nat, row: Row, j: nat)
    requires k < |commits| && RowFor(commits, k, row)
    requires var lanes := Seat(StateAt(commits, k), commits[k].hash).st.lanes;
             j < |lanes| && lanes[j].hash == commits[k].hash && j != row.column && j < |row.cells|
    ensures var lane := Seat(StateAt(commits, k), commits[k].hash).st.lanes[j];
            && (j > row.column ==> row.cells[j] == Cell(JoinRight, lane.id) || row.cells[j].glyph == ForkRight)
            && (j < row.column ==> row.cells[j] == Cell(JoinLeft, lane.id) || row.cells[j].glyph == ForkLeft)
  {
    var st, c := StateAt(commits, k), commits[k];
    hide StateAt, Picture, Padded, Plain, OpenForks, Forks, Seat, CloseOthers, RowFor;
    RowParts(commits, k, row);
    var s := Seat(st, c.hash);
    var joins := Joins(s.st.lanes, s.col, c.hash);
    assert j in joins;
    if c.parents != [] {
      var closed := CloseOthers(s.st.lanes, s.col, c.hash);
      EveryJoinShown(joins, State(closed[s.col := Lane(c.parents[0], closed[s.col].id)], s.st.nextID), s.col,
          c.parents[1..], j);
    }
    CornerSeen(row, st, c, j);
  }

  // What each glyph of a row says, beside the node: a join, that the lane of that column waited for the
  // commit and ends; a fork, that it waits for a further parent from here on; a plain pass, that it goes by.
  lemma GlyphMeans(commits: seq<Commit>, k: nat, row: Row, j: nat)
    requires k < |commits| && Named(commits[k]) && RowFor(commits, k, row) && j < |row.cells| && j != row.column
    ensures var before, after := Seat(StateAt(commits, k), commits[k].hash).st.lanes, StateAt(commits, k + 1).lanes;
            var cell := row.cells[j];
            && cell.glyph != Node
            && (cell.glyph in {JoinRight, ForkRight} ==> j > row.column)
            && (cell.glyph in {JoinLeft, ForkLeft} ==> j < row.column)
            && (cell.glyph in {JoinRight, JoinLeft} ==>
                  j < |before| && before[j].hash == commits[k].hash && cell.lane == before[j].id)
            && (cell.glyph in {ForkRight, ForkLeft} ==>
                  && commits[k].parents != [] && j < |after| && cell.lane == after[j].id
                  && after[j].hash in commits[k].parents[1..])
            && (cell.glyph == Pass ==> j < |before| && before[j].hash != "" && cell.lane == before[j].id)
            && (cell.glyph == NoGlyph ==> cell.lane == -1 && (j < |before| ==> before[j].hash == ""))
  {
    var st, c := StateAt(commits, k), commits[k];
    hide StateAt, Picture, OpenForks, Forks, Corners, Joins, Seat, CloseOthers, RowFor, Step;
    RowParts(commits, k, row);
    var lanes := Seat(st, c.hash).st.lanes;
    CellShown(row, st, c, j);
    if j in Corners(st, c) {
      CornerMeans(st, c, j);
    }
  }

  lemma CellShown(row: Row, st: State, c: Commit, j: nat)
    requires ShowsCorners(row, st, c) && j < |row.cells| && j != row.column
    ensures j in Corners(st, c) ==> row.cells[j] == Corners(st, c)[j]
    ensures j !in Corners(st, c) ==>
              var lanes := Seat(st, c.hash).st.lanes;
              || row.cells[j].glyph == Horizontal
              || row.cells[j] == if j < |lanes| && lanes[j].hash != "" then Cell(Pass, lanes[j].id) else EMPTY
  {
    hide Corners, Seat, Step, Crossed;
    var lanes := Seat(st, c.hash).st.lanes;
    assert Shows(row.cells[j], Padded(Plain(lanes, row.column), |Step(st, c).lanes|)[j], Corners(st, c), row.column, j);
  }

  // A corner is the join of a lane that waited for the commit, or the fork to a further parent's lane.
  lemma CornerMeans(st: State, c: Commit, j: nat)
    requires Named(c) && j in Corners(st, c)
    ensures var col, before, after := Seat(st, c.hash).col, Seat(st, c.hash).st.lanes, Step(st, c).lanes;
            var cell := Corners(st, c)[j];
            && j != col
            && ((&& cell.glyph == (if j > col then JoinRight else JoinLeft)
                 && j < |before| && before[j].hash == c.hash && cell.lane == before[j].id)
                || (&& cell.glyph == (if j > col then ForkRight else ForkLeft)
                    && c.parents != [] && j < |after| && cell.lane == after[j].id && after[j].hash in c.parents[1..]))
  {
    CornersApart(st, c);
    var s := Seat(st, c.hash);
    if c.parents != [] {
      var closed := CloseOthers(s.st.lanes, s.col, c.hash);
      var handed := State(closed[s.col := Lane(c.parents[0], closed[s.col].id)], s.st.nextID);
      forall q | q in c.parents[1..] ensures q != "" {
        assert q in c.parents;
      }
      assert c.parents[0] in c.parents;
      hide Seat, CloseOthers, OpenForks, Forks;
      ForksMean(Joins(s.st.lanes, s.col, c.hash), handed, s.col, c.parents[1..], j);
    }
  }

  lemma RowParts(commits: seq<Commit>, k: nat, row: Row)
    requires k < |commits| && RowFor(commits, k, row)
    ensures row.column == Seat(StateAt(commits, k), commits[k].hash).col
    ensures ShowsCorners(row, StateAt(commits, k), commits[k])
    ensures StateAt(commits, k + 1) == Step(StateAt(commits, k), commits[k])
  {
  }

  lemma CornerSeen(row: Row, st: State, c: Commit, j: nat)
    requires ShowsCorners(row, st, c) && j in Corners(st, c) && j != row.column
    ensures j < |row.cells| ==> row.cells[j] == Corners(st, c)[j]
  {
    hide Corners, Plain, Padded, Seat, Step;
  }

  lemma CornersApart(st: State, c: Commit)
    ensures Seat(st, c.hash).col !in Corners(st, c)
  {
    var s := Seat(st, c.hash);
    hide Seat, CloseOthers;
    if c.parents != [] {
      var closed := CloseOthers(s.st.lanes, s.col, c.hash);
      ForksApart(Joins(s.st.lanes, s.col, c.hash),
          State(closed[s.col := Lane(c.parents[0], closed[s.col].id)], s.st.nextID), s.col, c.parents[1..]);
    }
  }

  lemma {:induction false} ForksApart(corners: map<nat, Cell>, st: State, col: nat, parents: seq<string>)
    requires col < |st.lanes| && col !in corners
    ensures col !in Forks(corners, st, col, parents)
  {
    if parents != [] {
      ForksApart(corners, st, col, parents[..|parents| - 1]);
    }
  }
}
