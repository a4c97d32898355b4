// Reading a unified diff, file by file and hunk by hunk, into side-by-side rows.
module DiffParse {
  import opened Wrappers
  import opened TextLines
  import opened DiffRows
  import opened DiffText

  datatype FileDiff = FileDiff(path: string, rows: seq<Row>)

  // The current file is the last one; without files there is none.
  datatype State = State(files: seq<FileDiff>, leftNo: int, rightNo: int, hunk: seq<Op>, inHunk: bool)

  const START := State([], 0, 0, [], false)

  // Rows following rows already there, a gap between the two.
  function Joined(rows: seq<Row>, more: seq<Row>): seq<Row> {
    if more == [] then rows else if rows == [] then more else rows + [GAP_ROW] + more
  }

  function Last(files: seq<FileDiff>): FileDiff
    requires files != []
  {
    files[|files| - 1]
  }

  function WithRows(files: seq<FileDiff>, rows: seq<Row>): seq<FileDiff>
    requires files != []
  {
    files[|files| - 1 := Last(files).(rows := rows)]
  }

  function Flush(s: State): State {
    if s.files == [] || s.hunk == [] then s
    else
      State(WithRows(s.files, Joined(Last(s.files).rows, Rows(s.hunk, s.leftNo, s.rightNo))),
            s.leftNo + |OldSide(s.hunk)|, s.rightNo + |NewSide(s.hunk)|, [], s.inHunk)
  }

  lemma FlushIs(s: State)
    requires s.files != [] && s.hunk != []
    ensures var cur := s.files[|s.files| - 1];
            var rows := if |cur.rows| > 0 then cur.rows + [GAP_ROW] else cur.rows;
            Flush(s) == State(s.files[|s.files| - 1 := FileDiff(cur.path, rows + Rows(s.hunk, s.leftNo, s.rightNo))],
                              s.leftNo + |OldSide(s.hunk)|, s.rightNo + |NewSide(s.hunk)|, [], s.inHunk)
  {
    NoGaps(s.hunk, s.leftNo, s.rightNo);
    hide Rows, OldSide, NewSide;
    assert [] + Rows(s.hunk, s.leftNo, s.rightNo) == Rows(s.hunk, s.leftNo, s.rightNo);
  }

  function Step(s: State, line: string): State {
    match HeaderPath(line)
    case Some(path) => var t := Flush(s); State(t.files + [FileDiff(path, [])], t.leftNo, t.rightNo, t.hunk, false)
    case None =>
      match HunkStart(line)
      case Some(start) =>
        var t := Flush(s);
        State(if t.files == [] then [FileDiff("", [])] else t.files, start.0 - 1, start.1 - 1, t.hunk, true)
      case None =>
        if !s.inHunk then s
        else
          match ReadOp(line)
          case Some(op) => s.(hunk := s.hunk + [op])
          case None => s
  }

  function After(s: State, lines: seq<string>): State {
    if lines == [] then s else Step(After(s, lines[..|lines| - 1]), lines[|lines| - 1])
  }

  function Parsed(diff: string): seq<FileDiff> { Flush(After(START, Split(diff))).files }

  // ---- The line loop ----

  class Reader {
    var files: seq<FileDiff>
    var leftNo: int
    var rightNo: int
    var hunk: seq<Op>
    var inHunk: bool

    ghost function Now(): State
      reads this
    {
      State(files, leftNo, rightNo, hunk, inHunk)
    }

    constructor ()
      ensures Now() == START
    {
      files, leftNo, rightNo, hunk, inHunk := [], 0, 0, [], false;
    }

    method FlushHunk()
      modifies this
      ensures Now() == Flush(old(Now()))
    {
      if files == [] || hunk == [] {
        return;
      }
      hide Flush, Joined, WithRows, Last, Rows, OldSide, NewSide;
      FlushIs(Now());
      var cur := files[|files| - 1];
      var rows := cur.rows;
      if |rows| > 0 {
        rows := rows + [GAP_ROW];
      }
      var more: seq<Row>;
      more, leftNo, rightNo := PairUpLines(hunk, leftNo, rightNo);
      files := files[|files| - 1 := FileDiff(cur.path, rows + more)];
      hunk := [];
    }

    method ReadLine(line: string)
      modifies this
      ensures Now() == Step(old(Now()), line)
    {
      hide Flush, HeaderPath, HunkStart;
      var header := HeaderPath(line);
      if header.Some? {
        FlushHunk();
        inHunk := false;
        files := files + [FileDiff(header.value, [])];
        return;
      }
      var start := HunkStart(line);
      if start.Some? {
        FlushHunk();
        if files == [] {
          files := [FileDiff("", [])];
        }
        leftNo, rightNo := start.value.0, start.value.1;
        leftNo, rightNo := leftNo - 1, rightNo - 1;
        inHunk := true;
        return;
      }
      if !inHunk {
        return;
      }
      if line != "" && line[0] == '-' {
        hunk := hunk + [Op(Delete, line[1..])];
      } else if line != "" && line[0] == '+' {
        hunk := hunk + [Op(Insert, line[1..])];
      } else if line != "" && line[0] == ' ' {
        hunk := hunk + [Op(Equal, line[1..])];
      }
    }
  }

  lemma AfterNext(s: State, lines: seq<string>, k: nat)
    requires k < |lines|
    ensures After(s, lines[..k + 1]) == Step(After(s, lines[..k]), lines[k])
    ensures After(s, lines[..0]) == s
  {
    assert lines[..k + 1][..k] == lines[..k];
  }

  method ParseUnifiedDiff(diff: string) returns (files: seq<FileDiff>)
    ensures files == Parsed(diff)
  {
    hide Step, Flush, Split;
    var reader := new Reader();
    var lines := Split(diff);
    for k := 0 to |lines|
      invariant reader.Now() == After(START, lines[..k])
    {
      AfterNext(START, lines, k);
      reader.ReadLine(lines[k]);
    }
    assert lines[..|lines|] == lines;
    reader.FlushHunk();
    files := reader.files;
  }

  lemma {:induction false} AfterParts(s: State, a: seq<string>, b: seq<string>)
    ensures After(s, a + b) == After(After(s, a), b)
  {
    hide Step;
    if b == [] {
      assert a + b == a;
    } else {
      assert (a + b)[..|a + b| - 1] == a + b[..|b| - 1];
      AfterParts(s, a, b[..|b| - 1]);
    }
  }

  // ---- Gaps ----

  // The stretches of rows between gaps.
  function Stretches(rows: seq<Row>): (parts: seq<seq<Row>>)
    ensures parts != []
  {
    if rows == [] then [[]]
    else
      var before := Stretches(rows[..|rows| - 1]);
      var row := rows[|rows| - 1];
      if row.kind.Gap? then before + [[]] else before[|before| - 1 := before[|before| - 1] + [row]]
  }

  lemma {:induction false} StretchesGrow(rows: seq<Row>, more: seq<Row>)
    requires GapFree(more)
    ensures var before := Stretches(rows); Stretches(rows + more) == before[|before| - 1 := before[|before| - 1] + more]
  {
    var before := Stretches(rows);
    if more == [] {
      assert rows + more == rows && before[|before| - 1] + more == before[|before| - 1];
    } else {
      var init, row := more[..|more| - 1], more[|more| - 1];
      assert (rows + more)[..|rows + more| - 1] == rows + init;
      StretchesGrow(rows, init);
      assert before[|before| - 1] + more == before[|before| - 1] + init + [row];
    }
  }

  // Joining puts exactly one gap between what was there and what is added.
  lemma JoinedStretches(rows: seq<Row>, more: seq<Row>)
    requires GapFree(more) && more != []
    ensures Stretches(Joined(rows, more)) == if rows == [] then [more] else Stretches(rows) + [more]
  {
    if rows == [] {
      StretchesGrow([], more);
      assert [] + more == more;
    } else {
      var gapped := rows + [GAP_ROW];
      assert gapped[..|gapped| - 1] == rows;
      assert Stretches(gapped) == Stretches(rows) + [[]];
      StretchesGrow(gapped, more);
      assert [] + more == more;
    }
  }

  // No gap at either end, and never two in a row.
  ghost predicate WellGapped(rows: seq<Row>) {
    rows != [] ==> forall part :: part in Stretches(rows) ==> part != []
  }

  ghost predicate AllWellGapped(s: State) { forall f :: f in s.files ==> WellGapped(f.rows) }

  lemma FlushWellGapped(s: State)
    requires AllWellGapped(s)
    ensures AllWellGapped(Flush(s))
  {
    if s.files != [] && s.hunk != [] {
      var more := Rows(s.hunk, s.leftNo, s.rightNo);
      NoGaps(s.hunk, s.leftNo, s.rightNo);
      hide Rows, Stretches;
      JoinedStretches(Last(s.files).rows, more);
    }
  }

  lemma StepWellGapped(s: State, line: string)
    requires AllWellGapped(s)
    ensures AllWellGapped(Step(s, line))
  {
    FlushWellGapped(s);
    hide Flush, HeaderPath, HunkStart, ReadOp, Stretches;
  }

  lemma {:induction false} AfterWellGapped(lines: seq<string>)
    ensures AllWellGapped(After(START, lines))
  {
    hide Step, WellGapped;
    if lines != [] {
      AfterWellGapped(lines[..|lines| - 1]);
      StepWellGapped(After(START, lines[..|lines| - 1]), lines[|lines| - 1]);
    }
  }

  // Whatever the text, gaps stand between rows only, one at a time.
  lemma AnyTextWellGapped(diff: string)
    ensures forall f :: f in Parsed(diff) ==> WellGapped(f.rows)
    ensures GAP_ROW == Row("", 0, "", 0, Gap)
  {
    AfterWellGapped(Split(diff));
    FlushWellGapped(After(START, Split(diff)));
    hide *;
    AllFiles(diff);
  }

  lemma AllFiles(diff: string)
    ensures AllWellGapped(Flush(After(START, Split(diff)))) ==> forall f :: f in Parsed(diff) ==> WellGapped(f.rows)
  {
    hide WellGapped, Flush, After, Split;
  }

  // ---- A diff as it is written ----

  // A note is a line such as the one reporting that the file does not end in a line break.
  datatype BodyLine = Content(op: Op) | Note(text: string)

  datatype Hunk = Hunk(left: nat, leftCount: Option<nat>, right: nat, rightCount: Option<nat>, context: string,
      body: seq<BodyLine>)

  // extras: what stands between a file's header and its first hunk.
  datatype FileText = FileText(oldPath: string, path: string, extras: seq<string>, hunks: seq<Hunk>)

  datatype Document = Document(preamble: seq<string>, files: seq<FileText>)

  function BodyText(b: BodyLine): string {
    match b
    case Content(op) => OpLine(op)
    case Note(text) => "\\" + text
  }

  function BodyLines(body: seq<BodyLine>): seq<string> {
    if body == [] then [] else BodyLines(body[..|body| - 1]) + [BodyText(body[|body| - 1])]
  }

  function OpsOf(body: seq<BodyLine>): seq<Op> {
    if body == [] then []
    else
      match body[|body| - 1]
      case Content(op) => OpsOf(body[..|body| - 1]) + [op]
      case Note(_) => OpsOf(body[..|body| - 1])
  }

  function HunkLines(h: Hunk): seq<string> {
    [HunkHeader(h.left, h.leftCount, h.right, h.rightCount, h.context)] + BodyLines(h.body)
  }

  function AllHunkLines(hunks: seq<Hunk>): seq<string> {
    if hunks == [] then [] else AllHunkLines(hunks[..|hunks| - 1]) + HunkLines(hunks[|hunks| - 1])
  }

  function FileLines(f: FileText): seq<string> {
    [FileHeader(f.oldPath, f.path)] + f.extras + AllHunkLines(f.hunks)
  }

  function AllFileLines(files: seq<FileText>): seq<string> {
    if files == [] then [] else AllFileLines(files[..|files| - 1]) + FileLines(files[|files| - 1])
  }

  function DocumentLines(d: Document): seq<string> { d.preamble + AllFileLines(d.files) }

  function Render(d: Document): string { Unlines(DocumentLines(d)) }

  ghost predicate AllPlain(lines: seq<string>) { forall l :: l in lines ==> Plain(l) }

  // Nothing outside the headers looks like one, and no part holds a line break.
  ghost predicate Writable(d: Document) {
    && AllPlain(d.preamble) && (forall f :: f in d.files ==> AllPlain(f.extras))
    && (forall l :: l in DocumentLines(d) ==> OneLine(l))
  }

  // ---- What reading it must give ----

  function HunkRows(h: Hunk): seq<Row> { Rows(OpsOf(h.body), h.left - 1, h.right - 1) }

  function FileRows(hunks: seq<Hunk>): seq<Row> {
    if hunks == [] then [] else Joined(FileRows(hunks[..|hunks| - 1]), HunkRows(hunks[|hunks| - 1]))
  }

  function PathRead(f: FileText): string {
    HeaderPathExactly(f.oldPath, f.path);
    HeaderPath(FileHeader(f.oldPath, f.path)).value
  }

  function FilesRead(files: seq<FileText>): seq<FileDiff> {
    if files == [] then []
    else
      var f := files[|files| - 1];
      FilesRead(files[..|files| - 1]) + [FileDiff(PathRead(f), FileRows(f.hunks))]
  }

  // Without a file there is no hunk being read.
  ghost predicate Sane(s: State) { s.files == [] ==> s.hunk == [] && !s.inHunk }

  // Reading has come to the given files, the hunk being read included.
  ghost predicate Holds(s: State, files: seq<FileDiff>) { Sane(s) && Flush(s).files == files }

  lemma FlushClears(s: State)
    requires Sane(s)
    ensures Flush(s).hunk == []
    ensures s.files == [] <==> Flush(s).files == []
  {
    hide Rows;
  }

  lemma ReadHeader(s: State, files: seq<FileDiff>, f: FileText)
    requires Holds(s, files)
    ensures var t := Step(s, FileHeader(f.oldPath, f.path));
            Holds(t, files + [FileDiff(PathRead(f), [])]) && !t.inHunk && t.hunk == []
  {
    HeaderPathExactly(f.oldPath, f.path);
    FlushClears(s);
    hide HeaderPath, HunkStart, FileHeader, Rows;
  }

  lemma {:induction false} ReadPlain(s: State, lines: seq<string>)
    requires !s.inHunk && AllPlain(lines)
    ensures After(s, lines) == s
  {
    hide HeaderPath, HunkStart;
    if lines != [] {
      var init, line := lines[..|lines| - 1], lines[|lines| - 1];
      assert lines == init + [line];
      ReadPlain(s, init);
      assert Plain(line);
    }
  }

  lemma ReadBodyLine(s: State, b: BodyLine)
    requires s.inHunk
    ensures Step(s, BodyText(b)) == match b case Content(op) => s.(hunk := s.hunk + [op]) case Note(_) => s
  {
    match b {
      case Content(op) => OpLineReads(op);
      case Note(text) => PlainByFirst("\\" + text);
    }
    hide HeaderPath, HunkStart, OpLine;
  }

  lemma {:induction false} ReadBody(s: State, body: seq<BodyLine>)
    requires s.inHunk && s.hunk == []
    ensures After(s, BodyLines(body)) == s.(hunk := OpsOf(body))
  {
    hide Step, BodyText;
    if body != [] {
      var init, b := body[..|body| - 1], body[|body| - 1];
      var lines := BodyLines(body);
      assert lines[..|lines| - 1] == BodyLines(init);
      ReadBody(s, init);
      ReadBodyLine(s.(hunk := OpsOf(init)), b);
    }
  }

  lemma ReadHunkHeader(s: State, files: seq<FileDiff>, h: Hunk)
    requires Holds(s, files) && files != []
    ensures Step(s, HunkHeader(h.left, h.leftCount, h.right, h.rightCount, h.context))
        == State(files, h.left - 1, h.right - 1, [], true)
  {
    hide HeaderPath, HunkStart, HunkHeader, Flush, ReadOp;
    var line := HunkHeader(h.left, h.leftCount, h.right, h.rightCount, h.context);
    HunkHeaderReads(h.left, h.leftCount, h.right, h.rightCount, h.context);
    HeadersApart(line);
    FlushClears(s);
  }

  // A hunk adds its rows to the last file.
  lemma ReadHunk(s: State, files: seq<FileDiff>, h: Hunk)
    requires Holds(s, files) && files != []
    ensures Holds(After(s, HunkLines(h)), WithRows(files, Joined(Last(files).rows, HunkRows(h))))
  {
    hide *;
    var line := HunkHeader(h.left, h.leftCount, h.right, h.rightCount, h.context);
    var t := State(files, h.left - 1, h.right - 1, [], true);
    ReadHunkHeader(s, files, h);
    SplitHunk(h);
    AfterParts(s, [line], BodyLines(h.body));
    AfterOne(s, line);
    ReadBody(t, h.body);
    HunkFlushed(files, h);
  }

  lemma SplitHunk(h: Hunk)
    ensures HunkLines(h) == [HunkHeader(h.left, h.leftCount, h.right, h.rightCount, h.context)] + BodyLines(h.body)
  {
  }

  lemma AfterOne(s: State, line: string)
    ensures After(s, [line]) == Step(s, line)
  {
    hide Step;
    assert [line][..0] == [];
  }

  lemma HunkFlushed(files: seq<FileDiff>, h: Hunk)
    requires files != []
    ensures Holds(State(files, h.left - 1, h.right - 1, [], true).(hunk := OpsOf(h.body)),
        WithRows(files, Joined(Last(files).rows, HunkRows(h))))
  {
    var ops := OpsOf(h.body);
    hide OpsOf;
    if ops == [] {
      NoLines(h.left - 1, h.right - 1);
      assert HunkRows(h) == [];
    }
    hide Rows;
  }

  lemma {:induction false} ReadHunks(s: State, files: seq<FileDiff>, path: string, hunks: seq<Hunk>)
    requires Holds(s, files + [FileDiff(path, [])])
    ensures Holds(After(s, AllHunkLines(hunks)), files + [FileDiff(path, FileRows(hunks))])
  {
    hide Holds, Joined, HunkRows, HunkLines, Step;
    if hunks != [] {
      var init, h := hunks[..|hunks| - 1], hunks[|hunks| - 1];
      ReadHunks(s, files, path, init);
      AfterParts(s, AllHunkLines(init), HunkLines(h));
      ReadHunk(After(s, AllHunkLines(init)), files + [FileDiff(path, FileRows(init))], h);
      assert WithRows(files + [FileDiff(path, FileRows(init))], FileRows(hunks))
          == files + [FileDiff(path, FileRows(hunks))];
    }
  }

  lemma ReadFile(s: State, files: seq<FileDiff>, f: FileText)
    requires Holds(s, files) && AllPlain(f.extras)
    ensures Holds(After(s, FileLines(f)), files + [FileDiff(PathRead(f), FileRows(f.hunks))])
  {
    hide *;
    var header := FileHeader(f.oldPath, f.path);
    SplitFile(f);
    AfterParts(s, [header] + f.extras, AllHunkLines(f.hunks));
    AfterParts(s, [header], f.extras);
    AfterOne(s, header);
    ReadHeader(s, files, f);
    ReadPlain(Step(s, header), f.extras);
    ReadHunks(Step(s, header), files, PathRead(f), f.hunks);
  }

  lemma SplitFile(f: FileText)
    ensures FileLines(f) == [FileHeader(f.oldPath, f.path)] + f.extras + AllHunkLines(f.hunks)
  {
  }

  lemma {:induction false} ReadFiles(s: State, files: seq<FileText>)
    requires Holds(s, []) && forall f :: f in files ==> AllPlain(f.extras)
    ensures Holds(After(s, AllFileLines(files)), FilesRead(files))
  {
    hide Holds, AllPlain, FileLines, Step, PathRead, FileRows;
    if files != [] {
      var init, f := files[..|files| - 1], files[|files| - 1];
      assert files == init + [f];
      ReadFiles(s, init);
      AfterParts(s, AllFileLines(init), FileLines(f));
      ReadFile(After(s, AllFileLines(init)), FilesRead(init), f);
    }
  }

  lemma BlankSkipped(s: State)
    ensures Step(s, "") == s
  {
    PlainByFirst("");
    hide HeaderPath, HunkStart;
  }

  lemma RenderSplits(lines: seq<string>, s: State)
    requires forall l :: l in lines ==> OneLine(l)
    ensures After(s, Split(Unlines(lines))) == After(s, lines)
  {
    hide Step, Split;
    BlankSkipped(s);
    BlankSkipped(After(s, lines));
    AfterOne(s, "");
    AfterOne(After(s, lines), "");
    AfterParts(s, lines, [""]);
    if lines == [] {
      NothingSplits();
      AfterParts(s, [""], [""]);
      assert [""] + [""] == ["", ""];
    } else {
      SplitJoined(lines);
    }
  }

  lemma NothingSplits()
    ensures Split(Unlines([])) == ["", ""]
  {
    SplitFirst("", "");
    assert Unlines([]) == "" + "\n" + "";
  }

  // Reading a rendered diff recovers every file with the rows of every hunk.
  lemma ReadsRendered(d: Document)
    requires Writable(d)
    ensures Parsed(Render(d)) == FilesRead(d.files)
  {
    hide Step, AllPlain, FilesRead, PathRead, AllFileLines, Split, Unlines;
    RenderSplits(DocumentLines(d), START);
    AfterParts(START, d.preamble, AllFileLines(d.files));
    ReadPlain(START, d.preamble);
    ReadFiles(START, d.files);
  }

  function Faithful(files: seq<FileText>): seq<FileDiff> {
    if files == [] then []
    else
      var f := files[|files| - 1];
      Faithful(files[..|files| - 1]) + [FileDiff(f.path, FileRows(f.hunks))]
  }

  lemma {:induction false} FaithfulExactly(files: seq<FileText>)
    ensures |FilesRead(files)| == |files| == |Faithful(files)|
    ensures FilesRead(files) == Faithful(files) <==> forall f :: f in files ==> !HasMark(f.path)
  {
    hide HeaderPath, HasMark, FileRows;
    if files != [] {
      var init, f := files[..|files| - 1], files[|files| - 1];
      assert files == init + [f];
      FaithfulExactly(init);
      HeaderPathExactly(f.oldPath, f.path);
      assert FilesRead(files)[..|init|] == FilesRead(init) && Faithful(files)[..|init|] == Faithful(init);
      assert FilesRead(files)[|init|] == Faithful(files)[|init|] <==> !HasMark(f.path);
    }
  }

  // The names are recovered too exactly when none holds " b/".
  lemma RoundTripExactly(d: Document)
    requires Writable(d)
    ensures Parsed(Render(d)) == Faithful(d.files) <==> forall f :: f in d.files ==> !HasMark(f.path)
  {
    ReadsRendered(d);
    FaithfulExactly(d.files);
  }

  // The rows of the hunks that have lines.
  function RowsOfEach(hunks: seq<Hunk>): seq<seq<Row>> {
    if hunks == [] then []
    else
      var init, h := RowsOfEach(hunks[..|hunks| - 1]), hunks[|hunks| - 1];
      if OpsOf(h.body) == [] then init else init + [HunkRows(h)]
  }

  // Between consecutive hunks that have lines there is exactly one gap, and no other.
  lemma {:induction false} GapsExactly(hunks: seq<Hunk>)
    ensures FileRows(hunks) == [] <==> RowsOfEach(hunks) == []
    ensures FileRows(hunks) != [] ==> Stretches(FileRows(hunks)) == RowsOfEach(hunks)
  {
    hide Stretches, Rows, OpsOf;
    if hunks != [] {
      var init, h := hunks[..|hunks| - 1], hunks[|hunks| - 1];
      GapsExactly(init);
      NoGaps(OpsOf(h.body), h.left - 1, h.right - 1);
      if OpsOf(h.body) == [] {
        NoLines(h.left - 1, h.right - 1);
      } else {
        JoinedStretches(FileRows(init), HunkRows(h));
      }
    }
  }

  // The columns of a file are those of its hunks, one after another.
  function OldColumn(hunks: seq<Hunk>): Column {
    if hunks == [] then []
    else
      var h := hunks[|hunks| - 1];
      OldColumn(hunks[..|hunks| - 1]) + Numbered(OldSide(OpsOf(h.body)), h.left - 1)
  }

  function NewColumn(hunks: seq<Hunk>): Column {
    if hunks == [] then []
    else
      var h := hunks[|hunks| - 1];
      NewColumn(hunks[..|hunks| - 1]) + Numbered(NewSide(OpsOf(h.body)), h.right - 1)
  }

  lemma JoinedColumns(rows: seq<Row>, more: seq<Row>)
    ensures LeftColumn(Joined(rows, more)) == LeftColumn(rows) + LeftColumn(more)
    ensures RightColumn(Joined(rows, more)) == RightColumn(rows) + RightColumn(more)
  {
    GapShowsNothing();
    hide LeftColumn, RightColumn;
    ColumnsOfParts(rows + [GAP_ROW], more);
    ColumnsOfParts(rows, [GAP_ROW]);
  }

  lemma GapShowsNothing()
    ensures LeftColumn([GAP_ROW]) == RightColumn([GAP_ROW]) == LeftColumn([]) == RightColumn([]) == []
  {
  }

  // A file's columns show every hunk's lines in order, numbered from the hunk's own header.
  lemma {:induction false} FileColumns(hunks: seq<Hunk>)
    ensures LeftColumn(FileRows(hunks)) == OldColumn(hunks)
    ensures RightColumn(FileRows(hunks)) == NewColumn(hunks)
  {
    hide Joined, Rows, LeftColumn, RightColumn, Numbered, OldSide, NewSide, OpsOf;
    GapShowsNothing();
    if hunks != [] {
      var init, h := hunks[..|hunks| - 1], hunks[|hunks| - 1];
      FileColumns(init);
      JoinedColumns(FileRows(init), HunkRows(h));
      Columns(OpsOf(h.body), h.left - 1, h.right - 1);
    }
  }
}
