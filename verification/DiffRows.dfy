// The rows of a side-by-side diff, built from the operations of a hunk.
module DiffRows {
  datatype OpKind = Equal | Delete | Insert
  datatype Op = Op(kind: OpKind, text: string)

  datatype RowKind = Same | Changed | OnlyLeft | OnlyRight | Gap

  // A side without a line has an empty text and number 0.
  datatype Row = Row(left: string, leftNo: int, right: string, rightNo: int, kind: RowKind)

  const GAP_ROW := Row("", 0, "", 0, Gap)

  // ---- What the rows must show ----

  // The lines of one side, with their numbers.
  type Column = seq<(int, string)>

  function LeftColumn(rows: seq<Row>): Column {
    if rows == [] then []
    else if rows[0].kind.OnlyRight? || rows[0].kind.Gap? then LeftColumn(rows[1..])
    else [(rows[0].leftNo, rows[0].left)] + LeftColumn(rows[1..])
  }

  function RightColumn(rows: seq<Row>): Column {
    if rows == [] then []
    else if rows[0].kind.OnlyLeft? || rows[0].kind.Gap? then RightColumn(rows[1..])
    else [(rows[0].rightNo, rows[0].right)] + RightColumn(rows[1..])
  }

  // The texts of the operations other than those of one kind.
  function Without(ops: seq<Op>, kind: OpKind): seq<string> {
    if ops == [] then []
    else if ops[0].kind == kind then Without(ops[1..], kind)
    else [ops[0].text] + Without(ops[1..], kind)
  }

  function OldSide(ops: seq<Op>): seq<string> { Without(ops, Insert) }

  function NewSide(ops: seq<Op>): seq<string> { Without(ops, Delete) }

  // Lines numbered from after + 1.
  function Numbered(texts: seq<string>, after: int): Column {
    if texts == [] then [] else [(after + 1, texts[0])] + Numbered(texts[1..], after + 1)
  }

  // ---- The rows ----

  function Run(ops: seq<Op>, kind: OpKind): (n: nat)
    ensures n <= |ops| && (forall k :: 0 <= k < n ==> ops[k].kind == kind)
    ensures n < |ops| ==> ops[n].kind != kind
  {
    if ops == [] || ops[0].kind != kind then 0 else 1 + Run(ops[1..], kind)
  }

  function ChangedRow(dels: seq<Op>, ins: seq<Op>, i: nat, leftNo: int, rightNo: int): Row
    requires i < |dels| || i < |ins|
  {
    if i < |dels| && i < |ins| then Row(dels[i].text, leftNo + i + 1, ins[i].text, rightNo + i + 1, Changed)
    else if i < |dels| then Row(dels[i].text, leftNo + i + 1, "", 0, OnlyLeft)
    else Row("", 0, ins[i].text, rightNo + i + 1, OnlyRight)
  }

  // The i-th deletion stands beside the i-th insertion; a side that has no line left is blank.
  predicate Beside(row: Row, dels: seq<Op>, ins: seq<Op>, i: nat, leftNo: int, rightNo: int) {
    && row.left == (if i < |dels| then dels[i].text else "") && row.leftNo == (if i < |dels| then leftNo + i + 1 else 0)
    && row.right == (if i < |ins| then ins[i].text else "") && row.rightNo == (if i < |ins| then rightNo + i + 1 else 0)
    && (row.kind == Changed <==> i < |dels| && i < |ins|)
    && (row.kind == OnlyLeft <==> i < |dels| && i >= |ins|)
    && (row.kind == OnlyRight <==> i >= |dels| && i < |ins|)
  }

  function Longer(dels: seq<Op>, ins: seq<Op>): nat { if |ins| > |dels| then |ins| else |dels| }

  function ChangedRows(dels: seq<Op>, ins: seq<Op>, leftNo: int, rightNo: int): seq<Row> {
    seq(Longer(dels, ins), i requires 0 <= i < Longer(dels, ins) => ChangedRow(dels, ins, i, leftNo, rightNo))
  }

  function EqualRow(text: string, leftNo: int, rightNo: int): Row { Row(text, leftNo + 1, text, rightNo + 1, Same) }

  // The run of operations of one kind at the front, and what follows it.
  function TakeWhile(ops: seq<Op>, kind: OpKind): seq<Op> { ops[..Run(ops, kind)] }

  function DropWhile(ops: seq<Op>, kind: OpKind): seq<Op> { ops[Run(ops, kind)..] }

  // An edit is a run of deletions followed by a run of insertions.
  function Dels(ops: seq<Op>): seq<Op> { TakeWhile(ops, Delete) }

  function Ins(ops: seq<Op>): seq<Op> { TakeWhile(DropWhile(ops, Delete), Insert) }

  function AfterEdit(ops: seq<Op>): (rest: seq<Op>)
    ensures |rest| <= |ops| && (ops != [] && ops[0].kind != Equal ==> |rest| < |ops|)
  {
    assert ops != [] && ops[0].kind != Equal && Run(ops, Delete) == 0 ==> ops[0].kind == Insert;
    DropWhile(DropWhile(ops, Delete), Insert)
  }

  function Rows(ops: seq<Op>, leftNo: int, rightNo: int): seq<Row>
    decreases |ops|
  {
    if ops == [] then []
    else if ops[0].kind == Equal then [EqualRow(ops[0].text, leftNo, rightNo)] + Rows(ops[1..], leftNo + 1, rightNo + 1)
    else
      ChangedRows(Dels(ops), Ins(ops), leftNo, rightNo)
          + Rows(AfterEdit(ops), leftNo + |Dels(ops)|, rightNo + |Ins(ops)|)
  }

  // ---- The loops that build them ----

  method TakeRun(ops: seq<Op>, start: nat, kind: OpKind) returns (run: seq<Op>)
    requires start <= |ops|
    ensures run == TakeWhile(ops[start..], kind)
    ensures start + |run| <= |ops| && ops[start + |run|..] == DropWhile(ops[start..], kind)
  {
    var i := start;
    while i < |ops| && ops[i].kind == kind
      invariant start <= i <= |ops|
      invariant forall k :: start <= k < i ==> ops[k].kind == kind
    {
      i := i + 1;
    }
    RunIs(ops[start..], kind, i - start);
    run := ops[start..i];
  }

  lemma {:induction false} RunIs(ops: seq<Op>, kind: OpKind, n: nat)
    requires n <= |ops| && (forall k :: 0 <= k < n ==> ops[k].kind == kind) && (n < |ops| ==> ops[n].kind != kind)
    ensures Run(ops, kind) == n
  {
    if n > 0 {
      assert ops[0].kind == kind;
      RunIs(ops[1..], kind, n - 1);
    }
  }

  method PairUpChangedRun(dels: seq<Op>, ins: seq<Op>, leftNo: int, rightNo: int)
    returns (rows: seq<Row>, l: int, r: int)
    ensures rows == ChangedRows(dels, ins, leftNo, rightNo)
    ensures |rows| == (if |dels| < |ins| then |ins| else |dels|)
    ensures forall i :: 0 <= i < |rows| ==> Beside(rows[i], dels, ins, i, leftNo, rightNo)
    ensures l == leftNo + |dels| && r == rightNo + |ins|
  {
    rows, l, r := [], leftNo, rightNo;
    var n := |dels|;
    if |ins| > n {
      n := |ins|;
    }
    for i := 0 to n
      invariant |rows| == i && forall k :: 0 <= k < i ==> rows[k] == ChangedRow(dels, ins, k, leftNo, rightNo)
      invariant l == leftNo + (if i < |dels| then i else |dels|)
      invariant r == rightNo + (if i < |ins| then i else |ins|)
    {
      if i < |dels| && i < |ins| {
        l, r := l + 1, r + 1;
        rows := rows + [Row(dels[i].text, l, ins[i].text, r, Changed)];
      } else if i < |dels| {
        l := l + 1;
        rows := rows + [Row(dels[i].text, l, "", 0, OnlyLeft)];
      } else {
        r := r + 1;
        rows := rows + [Row("", 0, ins[i].text, r, OnlyRight)];
      }
    }
  }

  // The rows already built, followed by those of the rest, are the rows of all; and the numbers
  // reached are those of the lines passed.
  ghost predicate Pairing(ops: seq<Op>, leftNo: int, rightNo: int, rows: seq<Row>, rest: seq<Op>, l: int, r: int) {
    && Rows(ops, leftNo, rightNo) == rows + Rows(rest, l, r)
    && l + |OldSide(rest)| == leftNo + |OldSide(ops)|
    && r + |NewSide(rest)| == rightNo + |NewSide(ops)|
  }

  lemma PairingStarts(ops: seq<Op>, leftNo: int, rightNo: int)
    ensures Pairing(ops, leftNo, rightNo, [], ops, leftNo, rightNo)
  {
  }

  lemma PairingEnds(ops: seq<Op>, leftNo: int, rightNo: int, rows: seq<Row>, l: int, r: int)
    requires Pairing(ops, leftNo, rightNo, rows, [], l, r)
    ensures rows == Rows(ops, leftNo, rightNo)
    ensures l == leftNo + |OldSide(ops)| && r == rightNo + |NewSide(ops)|
  {
  }

  lemma PairingEqual(ops: seq<Op>, leftNo: int, rightNo: int, rows: seq<Row>, rest: seq<Op>, l: int, r: int)
    requires Pairing(ops, leftNo, rightNo, rows, rest, l, r) && rest != [] && rest[0].kind == Equal
    ensures Pairing(ops, leftNo, rightNo, rows + [EqualRow(rest[0].text, l, r)], rest[1..], l + 1, r + 1)
  {
    hide *;
    PairingParts(ops, leftNo, rightNo, rows, rest, l, r);
    EqualFirst(rest, l, r);
    var row, more := [EqualRow(rest[0].text, l, r)], Rows(rest[1..], l + 1, r + 1);
    assert rows + (row + more) == rows + row + more;
    MakePairing(ops, leftNo, rightNo, rows + row, rest[1..], l + 1, r + 1);
  }

  lemma PairingEdit(ops: seq<Op>, leftNo: int, rightNo: int, rows: seq<Row>, rest: seq<Op>, l: int, r: int)
    requires Pairing(ops, leftNo, rightNo, rows, rest, l, r) && rest != [] && rest[0].kind != Equal
    ensures Pairing(ops, leftNo, rightNo, rows + ChangedRows(Dels(rest), Ins(rest), l, r), AfterEdit(rest),
        l + |Dels(rest)|, r + |Ins(rest)|)
  {
    hide *;
    EditFirst(rest, l, r);
    TextCount(Dels(rest));
    TextCount(Ins(rest));
    PairingParts(ops, leftNo, rightNo, rows, rest, l, r);
    var edit, more := ChangedRows(Dels(rest), Ins(rest), l, r),
        Rows(AfterEdit(rest), l + |Dels(rest)|, r + |Ins(rest)|);
    assert rows + (edit + more) == rows + edit + more;
    MakePairing(ops, leftNo, rightNo, rows + edit, AfterEdit(rest), l + |Dels(rest)|, r + |Ins(rest)|);
  }

  lemma PairingParts(ops: seq<Op>, leftNo: int, rightNo: int, rows: seq<Row>, rest: seq<Op>, l: int, r: int)
    requires Pairing(ops, leftNo, rightNo, rows, rest, l, r)
    ensures Rows(ops, leftNo, rightNo) == rows + Rows(rest, l, r)
    ensures l + |OldSide(rest)| == leftNo + |OldSide(ops)| && r + |NewSide(rest)| == rightNo + |NewSide(ops)|
  {
  }

  lemma MakePairing(ops: seq<Op>, leftNo: int, rightNo: int, rows: seq<Row>, rest: seq<Op>, l: int, r: int)
    requires Rows(ops, leftNo, rightNo) == rows + Rows(rest, l, r)
    requires l + |OldSide(rest)| == leftNo + |OldSide(ops)| && r + |NewSide(rest)| == rightNo + |NewSide(ops)|
    ensures Pairing(ops, leftNo, rightNo, rows, rest, l, r)
  {
  }

  method PairUpLines(ops: seq<Op>, leftNo: int, rightNo: int) returns (rows: seq<Row>, l: int, r: int)
    ensures rows == Rows(ops, leftNo, rightNo)
    ensures l == leftNo + |OldSide(ops)| && r == rightNo + |NewSide(ops)|
  {
    hide Pairing, Rows, Without, OldSide, NewSide, Run, TakeWhile, DropWhile, ChangedRows, ChangedRow;
    rows, l, r := [], leftNo, rightNo;
    PairingStarts(ops, leftNo, rightNo);
    assert ops[0..] == ops;
    var i := 0;
    while i < |ops|
      invariant i <= |ops|
      invariant Pairing(ops, leftNo, rightNo, rows, ops[i..], l, r)
    {
      ghost var rest := ops[i..];
      if ops[i].kind == Equal {
        PairingEqual(ops, leftNo, rightNo, rows, rest, l, r);
        l, r := l + 1, r + 1;
        rows := rows + [Row(ops[i].text, l, ops[i].text, r, Same)];
        i := i + 1;
        assert ops[i..] == rest[1..];
      } else {
        PairingEdit(ops, leftNo, rightNo, rows, rest, l, r);
        var dels := TakeRun(ops, i, Delete);
        var ins := TakeRun(ops, i + |dels|, Insert);
        i := i + |dels| + |ins|;
        var edit: seq<Row>;
        edit, l, r := PairUpChangedRun(dels, ins, l, r);
        rows := rows + edit;
        assert ops[i..] == AfterEdit(rest);
      }
    }
    assert ops[i..] == [];
    PairingEnds(ops, leftNo, rightNo, rows, l, r);
  }

  lemma EqualFirst(ops: seq<Op>, leftNo: int, rightNo: int)
    requires ops != [] && ops[0].kind == Equal
    ensures Rows(ops, leftNo, rightNo) == [EqualRow(ops[0].text, leftNo, rightNo)]
        + Rows(ops[1..], leftNo + 1, rightNo + 1)
    ensures OldSide(ops) == [ops[0].text] + OldSide(ops[1..]) && NewSide(ops) == [ops[0].text] + NewSide(ops[1..])
  {
  }

  ghost predicate AllOf(ops: seq<Op>, kind: OpKind) { forall k :: 0 <= k < |ops| ==> ops[k].kind == kind }

  lemma EditParts(ops: seq<Op>)
    ensures ops == Dels(ops) + (Ins(ops) + AfterEdit(ops))
    ensures AllOf(Dels(ops), Delete) && AllOf(Ins(ops), Insert)
  {
    hide Run;
    var after := DropWhile(ops, Delete);
    assert ops == Dels(ops) + after;
    assert after == Ins(ops) + AfterEdit(ops);
  }

  lemma EditRows(ops: seq<Op>, leftNo: int, rightNo: int)
    requires ops != [] && ops[0].kind != Equal
    ensures Rows(ops, leftNo, rightNo)
         == ChangedRows(Dels(ops), Ins(ops), leftNo, rightNo)
             + Rows(AfterEdit(ops), leftNo + |Dels(ops)|, rightNo + |Ins(ops)|)
    ensures |AfterEdit(ops)| < |ops|
  {
  }

  // What an edit at the front contributes.
  lemma EditFirst(ops: seq<Op>, leftNo: int, rightNo: int)
    requires ops != [] && ops[0].kind != Equal
    ensures Rows(ops, leftNo, rightNo)
         == ChangedRows(Dels(ops), Ins(ops), leftNo, rightNo)
             + Rows(AfterEdit(ops), leftNo + |Dels(ops)|, rightNo + |Ins(ops)|)
    ensures OldSide(ops) == Texts(Dels(ops)) + OldSide(AfterEdit(ops))
    ensures NewSide(ops) == Texts(Ins(ops)) + NewSide(AfterEdit(ops))
    ensures |AfterEdit(ops)| < |ops|
  {
    EditRows(ops, leftNo, rightNo);
    hide Rows, Run, Dels, Ins, AfterEdit, Without, Texts;
    EditParts(ops);
    SidesOfRun(Dels(ops), Ins(ops) + AfterEdit(ops), Delete);
    SidesOfRun(Ins(ops), AfterEdit(ops), Insert);
  }

  function Texts(ops: seq<Op>): seq<string> { seq(|ops|, i requires 0 <= i < |ops| => ops[i].text) }

  lemma {:induction false} SidesOfRun(run: seq<Op>, rest: seq<Op>, kind: OpKind)
    requires AllOf(run, kind)
    ensures Without(run + rest, kind) == Without(rest, kind)
    ensures forall other :: other != kind ==> Without(run + rest, other) == Texts(run) + Without(rest, other)
  {
    if run == [] {
      assert run + rest == rest;
    } else {
      assert (run + rest)[1..] == run[1..] + rest;
      SidesOfRun(run[1..], rest, kind);
      assert Texts(run) == [run[0].text] + Texts(run[1..]);
    }
  }

  // ---- The columns ----

  lemma ColumnsOfParts(a: seq<Row>, b: seq<Row>)
    ensures LeftColumn(a + b) == LeftColumn(a) + LeftColumn(b)
    ensures RightColumn(a + b) == RightColumn(a) + RightColumn(b)
  {
    LeftOfParts(a, b);
    RightOfParts(a, b);
  }

  lemma {:induction false} LeftOfParts(a: seq<Row>, b: seq<Row>)
    ensures LeftColumn(a + b) == LeftColumn(a) + LeftColumn(b)
  {
    if a == [] {
      assert a + b == b;
    } else {
      assert (a + b)[1..] == a[1..] + b;
      LeftOfParts(a[1..], b);
    }
  }

  lemma {:induction false} RightOfParts(a: seq<Row>, b: seq<Row>)
    ensures RightColumn(a + b) == RightColumn(a) + RightColumn(b)
  {
    if a == [] {
      assert a + b == b;
    } else {
      assert (a + b)[1..] == a[1..] + b;
      RightOfParts(a[1..], b);
    }
  }

  lemma {:induction false} NumberedParts(a: seq<string>, b: seq<string>, after: int)
    ensures Numbered(a + b, after) == Numbered(a, after) + Numbered(b, after + |a|)
  {
    if a == [] {
      assert a + b == b;
    } else {
      assert (a + b)[1..] == a[1..] + b;
      NumberedParts(a[1..], b, after + 1);
    }
  }

  lemma {:induction false} ColumnsOfEdit(dels: seq<Op>, ins: seq<Op>, leftNo: int, rightNo: int)
    ensures LeftColumn(ChangedRows(dels, ins, leftNo, rightNo)) == Numbered(Texts(dels), leftNo)
    ensures RightColumn(ChangedRows(dels, ins, leftNo, rightNo)) == Numbered(Texts(ins), rightNo)
    decreases |dels| + |ins|
  {
    var rows := ChangedRows(dels, ins, leftNo, rightNo);
    if dels != [] || ins != [] {
      var dels1, ins1 := if dels == [] then [] else dels[1..], if ins == [] then [] else ins[1..];
      var rest := ChangedRows(dels1, ins1, if dels == [] then leftNo else leftNo + 1,
          if ins == [] then rightNo else rightNo + 1);
      assert rows[1..] == rest;
      ColumnsOfEdit(dels1, ins1, if dels == [] then leftNo else leftNo + 1, if ins == [] then rightNo else rightNo + 1);
      assert dels != [] ==> Texts(dels)[1..] == Texts(dels1);
      assert ins != [] ==> Texts(ins)[1..] == Texts(ins1);
    }
  }

  // Read down, the left column is the old side of the hunk and the right column the new side:
  // every line once, in order, numbered consecutively.
  lemma {:induction false} Columns(ops: seq<Op>, leftNo: int, rightNo: int)
    ensures LeftColumn(Rows(ops, leftNo, rightNo)) == Numbered(OldSide(ops), leftNo)
    ensures RightColumn(Rows(ops, leftNo, rightNo)) == Numbered(NewSide(ops), rightNo)
    decreases |ops|
  {
    hide *;
    if ops == [] {
      NoLines(leftNo, rightNo);
    } else if ops[0].kind == Equal {
      EqualFirst(ops, leftNo, rightNo);
      Columns(ops[1..], leftNo + 1, rightNo + 1);
      ColumnsOfParts([EqualRow(ops[0].text, leftNo, rightNo)], Rows(ops[1..], leftNo + 1, rightNo + 1));
      EqualColumns(ops[0].text, leftNo, rightNo);
      NumberedParts([ops[0].text], OldSide(ops[1..]), leftNo);
      NumberedParts([ops[0].text], NewSide(ops[1..]), rightNo);
    } else {
      var dels, ins, after := Dels(ops), Ins(ops), AfterEdit(ops);
      EditFirst(ops, leftNo, rightNo);
      ColumnsOfEdit(dels, ins, leftNo, rightNo);
      ColumnsOfParts(ChangedRows(dels, ins, leftNo, rightNo), Rows(after, leftNo + |dels|, rightNo + |ins|));
      Columns(after, leftNo + |dels|, rightNo + |ins|);
      TextCount(dels);
      TextCount(ins);
      NumberedParts(Texts(dels), OldSide(after), leftNo);
      NumberedParts(Texts(ins), NewSide(after), rightNo);
    }
  }

  lemma NoLines(leftNo: int, rightNo: int)
    ensures Rows([], leftNo, rightNo) == [] && Kept([]) == [] && Unchanged([]) == [] && GapFree([])
    ensures LeftColumn([]) == Numbered(OldSide([]), leftNo) && RightColumn([]) == Numbered(NewSide([]), rightNo)
  {
  }

  lemma EqualColumns(text: string, leftNo: int, rightNo: int)
    ensures var row := EqualRow(text, leftNo, rightNo);
            && LeftColumn([row]) == Numbered([text], leftNo) && RightColumn([row]) == Numbered([text], rightNo)
            && Unchanged([row]) == [text] && Kept([Op(Equal, text)]) == [text] && GapFree([row])
  {
    assert [EqualRow(text, leftNo, rightNo)][1..] == [] && [text][1..] == [];
  }

  lemma TextCount(ops: seq<Op>)
    ensures |Texts(ops)| == |ops|
  {
  }

  // ---- Which lines stand side by side ----

  // Unchanged lines stand in rows of their own, both sides alike, and every such row is one.
  function Unchanged(rows: seq<Row>): seq<string> {
    if rows == [] then []
    else (if rows[0].kind.Same? then [rows[0].left] else []) + Unchanged(rows[1..])
  }

  function Kept(ops: seq<Op>): seq<string> {
    if ops == [] then []
    else (if ops[0].kind.Equal? then [ops[0].text] else []) + Kept(ops[1..])
  }

  lemma {:induction false} UnchangedOfParts(a: seq<Row>, b: seq<Row>)
    ensures Unchanged(a + b) == Unchanged(a) + Unchanged(b)
  {
    if a == [] {
      assert a + b == b;
    } else {
      assert (a + b)[1..] == a[1..] + b;
      UnchangedOfParts(a[1..], b);
    }
  }

  lemma {:induction false} KeptOfParts(a: seq<Op>, b: seq<Op>)
    ensures Kept(a + b) == Kept(a) + Kept(b)
  {
    if a == [] {
      assert a + b == b;
    } else {
      assert (a + b)[1..] == a[1..] + b;
      KeptOfParts(a[1..], b);
    }
  }

  lemma {:induction false} NoneUnchanged(rows: seq<Row>)
    requires forall k :: 0 <= k < |rows| ==> !rows[k].kind.Same?
    ensures Unchanged(rows) == []
  {
    if rows != [] {
      NoneUnchanged(rows[1..]);
    }
  }

  lemma {:induction false} NoneKept(ops: seq<Op>)
    requires forall k :: 0 <= k < |ops| ==> !ops[k].kind.Equal?
    ensures Kept(ops) == []
  {
    if ops != [] {
      NoneKept(ops[1..]);
    }
  }

  lemma {:induction false} UnchangedExactly(ops: seq<Op>, leftNo: int, rightNo: int)
    ensures Unchanged(Rows(ops, leftNo, rightNo)) == Kept(ops)
    decreases |ops|
  {
    hide *;
    if ops == [] {
      NoLines(leftNo, rightNo);
    } else if ops[0].kind == Equal {
      EqualFirst(ops, leftNo, rightNo);
      UnchangedExactly(ops[1..], leftNo + 1, rightNo + 1);
      UnchangedOfParts([EqualRow(ops[0].text, leftNo, rightNo)], Rows(ops[1..], leftNo + 1, rightNo + 1));
      EqualColumns(ops[0].text, leftNo, rightNo);
      assert ops == [Op(Equal, ops[0].text)] + ops[1..];
      KeptOfParts([Op(Equal, ops[0].text)], ops[1..]);
    } else {
      var dels, ins, after := Dels(ops), Ins(ops), AfterEdit(ops);
      EditFirst(ops, leftNo, rightNo);
      EditParts(ops);
      EditUnchanged(dels, ins, leftNo, rightNo);
      UnchangedOfParts(ChangedRows(dels, ins, leftNo, rightNo), Rows(after, leftNo + |dels|, rightNo + |ins|));
      KeptOfParts(dels, ins + after);
      KeptOfParts(ins, after);
      UnchangedExactly(after, leftNo + |dels|, rightNo + |ins|);
    }
  }

  lemma EditUnchanged(dels: seq<Op>, ins: seq<Op>, leftNo: int, rightNo: int)
    requires AllOf(dels, Delete) && AllOf(ins, Insert)
    ensures Unchanged(ChangedRows(dels, ins, leftNo, rightNo)) == [] && Kept(dels) == [] && Kept(ins) == []
  {
    NoneUnchanged(ChangedRows(dels, ins, leftNo, rightNo));
    NoneKept(dels);
    NoneKept(ins);
  }

  // No row of a hunk is a gap, and a hunk with lines has rows.
  ghost predicate GapFree(rows: seq<Row>) { forall k :: 0 <= k < |rows| ==> rows[k].kind != Gap }

  lemma {:induction false} NoGaps(ops: seq<Op>, leftNo: int, rightNo: int)
    ensures GapFree(Rows(ops, leftNo, rightNo))
    ensures ops != [] ==> Rows(ops, leftNo, rightNo) != []
    decreases |ops|
  {
    hide *;
    if ops == [] {
      NoLines(leftNo, rightNo);
    } else if ops[0].kind == Equal {
      EqualFirst(ops, leftNo, rightNo);
      EqualColumns(ops[0].text, leftNo, rightNo);
      NoGaps(ops[1..], leftNo + 1, rightNo + 1);
      JoinGapFree([EqualRow(ops[0].text, leftNo, rightNo)], Rows(ops[1..], leftNo + 1, rightNo + 1));
    } else {
      var dels, ins, after := Dels(ops), Ins(ops), AfterEdit(ops);
      EditRows(ops, leftNo, rightNo);
      EditGapFree(dels, ins, leftNo, rightNo);
      EditParts(ops);
      assert dels == [] && ins == [] ==> ops == after;
      NoGaps(after, leftNo + |dels|, rightNo + |ins|);
      JoinGapFree(ChangedRows(dels, ins, leftNo, rightNo), Rows(after, leftNo + |dels|, rightNo + |ins|));
    }
  }

  lemma EditGapFree(dels: seq<Op>, ins: seq<Op>, leftNo: int, rightNo: int)
    ensures GapFree(ChangedRows(dels, ins, leftNo, rightNo))
    ensures dels != [] || ins != [] ==> ChangedRows(dels, ins, leftNo, rightNo) != []
  {
  }

  lemma JoinGapFree(a: seq<Row>, b: seq<Row>)
    ensures GapFree(a) && GapFree(b) <==> GapFree(a + b)
  {
    if GapFree(a + b) {
      assert forall k :: 0 <= k < |a| ==> a[k] == (a + b)[k];
      assert forall k :: 0 <= k < |b| ==> b[k] == (a + b)[|a| + k];
    }
  }

  // The rows of one edit, a run of deletions followed by a run of insertions, wherever it stands.
  lemma EditPaired(dels: seq<Op>, ins: seq<Op>, rest: seq<Op>, leftNo: int, rightNo: int)
    requires (forall k :: 0 <= k < |dels| ==> dels[k].kind == Delete)
    requires (forall k :: 0 <= k < |ins| ==> ins[k].kind == Insert) && |dels| + |ins| > 0
    requires rest != [] ==> rest[0].kind == Equal || (rest[0].kind == Delete && ins != [])
    ensures var n := if |dels| < |ins| then |ins| else |dels|;
            var rows := Rows(dels + ins + rest, leftNo, rightNo);
            && |rows| >= n && rows[n..] == Rows(rest, leftNo + |dels|, rightNo + |ins|)
            && (forall i :: 0 <= i < n ==> Beside(rows[i], dels, ins, i, leftNo, rightNo))
  {
    hide *;
    EditOf(dels, ins, rest);
    PairedEdit(dels + ins + rest, dels, ins, rest, leftNo, rightNo);
  }

  lemma PairedEdit(ops: seq<Op>, dels: seq<Op>, ins: seq<Op>, rest: seq<Op>, leftNo: int, rightNo: int)
    requires ops != [] && ops[0].kind != Equal && Dels(ops) == dels && Ins(ops) == ins && AfterEdit(ops) == rest
    ensures var n := if |dels| < |ins| then |ins| else |dels|;
            var rows := Rows(ops, leftNo, rightNo);
            && |rows| >= n && rows[n..] == Rows(rest, leftNo + |dels|, rightNo + |ins|)
            && (forall i :: 0 <= i < n ==> Beside(rows[i], dels, ins, i, leftNo, rightNo))
  {
    hide *;
    EditFirst(ops, leftNo, rightNo);
    ChangedBeside(dels, ins, leftNo, rightNo);
  }

  lemma EditOf(dels: seq<Op>, ins: seq<Op>, rest: seq<Op>)
    requires (forall k :: 0 <= k < |dels| ==> dels[k].kind == Delete)
    requires (forall k :: 0 <= k < |ins| ==> ins[k].kind == Insert) && |dels| + |ins| > 0
    requires rest != [] ==> rest[0].kind == Equal || (rest[0].kind == Delete && ins != [])
    ensures var ops := dels + ins + rest;
            ops[0].kind != Equal && Dels(ops) == dels && Ins(ops) == ins && AfterEdit(ops) == rest
  {
    var ops := dels + ins + rest;
    hide Run;
    RunIs(ops, Delete, |dels|);
    assert ops[|dels|..] == ins + rest;
    RunIs(ins + rest, Insert, |ins|);
    assert (ins + rest)[..|ins|] == ins && (ins + rest)[|ins|..] == rest;
    assert ops[..|dels|] == dels;
  }

  lemma ChangedBeside(dels: seq<Op>, ins: seq<Op>, leftNo: int, rightNo: int)
    ensures var rows := ChangedRows(dels, ins, leftNo, rightNo);
            && |rows| == (if |dels| < |ins| then |ins| else |dels|)
            && forall i :: 0 <= i < |rows| ==> Beside(rows[i], dels, ins, i, leftNo, rightNo)
  {
  }

  // An unchanged line stands on both sides of its row.
  lemma EqualPaired(text: string, rest: seq<Op>, leftNo: int, rightNo: int)
    ensures Rows([Op(Equal, text)] + rest, leftNo, rightNo)
         == [Row(text, leftNo + 1, text, rightNo + 1, Same)] + Rows(rest, leftNo + 1, rightNo + 1)
  {
    assert ([Op(Equal, text)] + rest)[1..] == rest;
  }
}
