// Text as lines, taken apart at line breaks and put together again.
module TextLines {
  predicate OneLine(s: string) { '\n' !in s }

  function Split(text: string): (lines: seq<string>)
    ensures lines != []
  {
    if text == "" then [""]
    else
      var rest := Split(text[1..]);
      if text[0] == '\n' then [""] + rest else [[text[0]] + rest[0]] + rest[1..]
  }

  function Join(lines: seq<string>): string {
    if lines == [] then "" else if |lines| == 1 then lines[0] else lines[0] + "\n" + Join(lines[1..])
  }

  function Unlines(lines: seq<string>): string { Join(lines) + "\n" }

  lemma {:induction false} SplitFirst(x: string, rest: string)
    requires OneLine(x)
    ensures Split(x + "\n" + rest) == [x] + Split(rest)
  {
    var all := x + "\n" + rest;
    if x == "" {
      assert all[1..] == rest;
    } else {
      assert all[1..] == x[1..] + "\n" + rest;
      SplitFirst(x[1..], rest);
      assert x == [x[0]] + x[1..];
    }
  }

  lemma {:induction false} SplitJoined(lines: seq<string>)
    requires lines != [] && forall l :: l in lines ==> OneLine(l)
    ensures Split(Unlines(lines)) == lines + [""]
  {
    if |lines| == 1 {
      SplitFirst(lines[0], "");
      assert Unlines(lines) == lines[0] + "\n" + "";
    } else {
      SplitFirst(lines[0], Unlines(lines[1..]));
      SplitJoined(lines[1..]);
      assert Unlines(lines) == lines[0] + "\n" + Unlines(lines[1..]);
      assert lines == [lines[0]] + lines[1..];
    }
  }

  lemma {:induction false} SplitOneLine(text: string)
    ensures forall l :: l in Split(text) ==> OneLine(l)
  {
    if text != "" {
      SplitOneLine(text[1..]);
      var rest := Split(text[1..]);
      assert OneLine(rest[0]);
    }
  }

  lemma {:induction false} JoinSplit(text: string)
    ensures Join(Split(text)) == text
  {
    if text != "" {
      var rest := Split(text[1..]);
      JoinSplit(text[1..]);
      if text[0] == '\n' {
        assert Split(text)[1..] == rest;
      } else {
        assert Split(text)[1..] == rest[1..];
      }
      assert text == [text[0]] + text[1..];
    }
  }

  lemma {:induction false} JoinEndsEmpty(lines: seq<string>)
    requires lines != []
    ensures Join(lines + [""]) == Unlines(lines)
  {
    if |lines| == 1 {
      assert (lines + [""])[1..] == [""];
    } else {
      assert (lines + [""])[1..] == lines[1..] + [""];
      JoinEndsEmpty(lines[1..]);
    }
  }

  lemma {:induction false} LastLine(text: string)
    ensures var all := Split(text);
            all[|all| - 1] == "" <==> text == "" || text[|text| - 1] == '\n'
    ensures |Split(text)| == 1 && Split(text)[0] == "" ==> text == ""
  {
    if text != "" {
      LastLine(text[1..]);
    }
  }
}
