// The lines of a "key = value" file: reading them, and editing one key's assignment.
module ConfigText {
  import opened Wrappers
  import opened Trimming
  import opened TextLines

  function Lookup<V>(m: map<string, V>, k: string): Option<V> { if k in m then Some(m[k]) else None }

  // ---- Files ----

  // The lines of a file, its final line break ending the last of them.
  function Lines(text: string): seq<string> {
    var all := Split(text);
    if all[|all| - 1] == "" then all[..|all| - 1] else all
  }

  // Writing lines and reading them back; a file written without lines holds one empty line.
  lemma LinesRoundTrip(lines: seq<string>)
    requires forall l :: l in lines ==> OneLine(l)
    ensures Lines(Unlines(lines)) == if lines == [] then [""] else lines
  {
    if lines != [] {
      SplitJoined(lines);
    } else {
      SplitFirst("", "");
      assert Unlines(lines) == "" + "\n" + "";
    }
  }

  // Reading a file and writing its lines back changes nothing but a missing final line break.
  lemma TextKept(text: string)
    ensures Unlines(Lines(text)) == if text != "" && text[|text| - 1] == '\n' then text else text + "\n"
  {
    hide Split, Join;
    var all := Split(text);
    JoinSplit(text);
    LastLine(text);
    JoinOne(all);
    JoinOne([]);
    if all[|all| - 1] == "" && |all| > 1 {
      JoinEndsEmpty(all[..|all| - 1]);
      assert all[..|all| - 1] + [""] == all;
    }
  }

  lemma JoinOne(lines: seq<string>)
    ensures |lines| <= 1 ==> Join(lines) == if lines == [] then "" else lines[0]
  {
  }

  // ---- One line ----

  datatype Reading = Nothing | Malformed(text: string) | Assigned(key: string, value: string)

  // The length of the longest prefix without c.
  function UpTo(s: string, c: char): (n: nat)
    ensures n <= |s| && c !in s[..n] && (n < |s| ==> s[n] == c)
  {
    if s == "" || s[0] == c then 0 else 1 + UpTo(s[1..], c)
  }

  function ReadLine(line: string): Reading {
    var t := TrimSpace(line);
    if t == "" || t[0] == '#' then Nothing
    else
      var n := UpTo(t, '=');
      if n == |t| || TrimSpace(t[..n]) == "" then Malformed(t)
      else Assigned(TrimSpace(t[..n]), TrimSpace(t[n + 1..]))
  }

  // What a line says, by what is left of it when it is trimmed: a blank line or a comment nothing, a
  // line without an equals sign or with nothing before the first one is malformed, any other assigns.
  lemma LineExactly(line: string, k: string, v: string)
    ensures var t := TrimSpace(line);
            && (t == "" || t[0] == '#' <==> ReadLine(line) == Nothing)
            && (t != "" && t[0] != '#' && '=' !in t ==> ReadLine(line) == Malformed(t))
            && (t != "" && t[0] != '#' && t == k + "=" + v && '=' !in k ==>
                  ReadLine(line) == if TrimSpace(k) == "" then Malformed(t) else Assigned(TrimSpace(k), TrimSpace(v)))
  {
    var t := TrimSpace(line);
    if t == k + "=" + v && '=' !in k {
      UpToFirst(k, v, '=');
      assert t == k + ("=" + v);
      assert t[..|k|] == k && t[|k| + 1..] == v;
    }
    hide TrimSpace;
  }

  // What an edit of key takes for an assignment to it.
  predicate Sets(line: string, key: string) {
    var t := TrimSpace(line);
    (t == "" || t[0] != '#') && (var n := UpTo(t, '='); n < |t| && TrimSpace(t[..n]) == key)
  }

  lemma SetsWhatIsRead(line: string, key: string)
    requires key != ""
    ensures Sets(line, key) <==> ReadLine(line).Assigned? && ReadLine(line).key == key
  {
  }

  // The keys a line can assign.
  predicate IsKey(key: string) { key != "" && Trimmed(key) && '=' !in key && key[0] != '#' }

  lemma ReadsOnlyKeys(line: string)
    ensures ReadLine(line).Assigned? ==> IsKey(ReadLine(line).key) && Trimmed(ReadLine(line).value)
  {
    var t := TrimSpace(line);
    TrimSpaceTrims(line);
    var n := UpTo(t, '=');
    if t != "" && t[0] != '#' && n < |t| && TrimSpace(t[..n]) != "" {
      hide TrimSpace, UpTo;
      KeyOf(t, n);
      TrimSpaceTrims(t[n + 1..]);
    }
  }

  lemma KeyOf(t: string, n: nat)
    requires t != "" && Trimmed(t) && t[0] != '#' && n < |t| && '=' !in t[..n] && TrimSpace(t[..n]) != ""
    ensures IsKey(TrimSpace(t[..n]))
  {
    var head := t[..n];
    TrimSpaceTrims(head);
    assert head == "" ==> TrimSpace(head) == "";
    TrimRightIsPrefix(head);
    assert TrimLeft(head) == head;
  }

  function Assignment(key: string, value: string): string { key + " = " + value }

  // What the assignment written for a key and a value leaves after trimming.
  lemma AssignmentTrims(key: string, value: string)
    requires IsKey(key)
    ensures TrimSpace(Assignment(key, value)) == key + " ="
        + (if TrimRight(value) == "" then "" else " " + TrimRight(value))
  {
    var line := Assignment(key, value);
    KeyFirst(key, line);
    hide TrimLeft, TrimRight, IsKey;
    TrimRightJoined(key + " = ", value);
    BareAssignment(key);
    Regrouped(key, TrimRight(value));
  }

  lemma Regrouped(key: string, rest: string)
    ensures key + " = " + rest == key + " =" + (" " + rest)
  {
    assert " = " == " =" + " ";
  }

  lemma KeyFirst(key: string, line: string)
    requires IsKey(key) && key <= line
    ensures TrimLeft(line) == line
  {
  }

  lemma BareAssignment(key: string)
    ensures TrimRight(key + " = ") == key + " =" + ""
  {
    var head := key + " = ";
    assert head[|head| - 1] == ' ' && head[..|head| - 1] == key + " =";
    assert (key + " =")[|key + " ="| - 1] == '=';
  }

  lemma {:induction false} UpToFirst(a: string, b: string, c: char)
    requires c !in a
    ensures UpTo(a + [c] + b, c) == |a|
  {
    if a != "" {
      assert (a + [c] + b)[1..] == a[1..] + [c] + b;
      UpToFirst(a[1..], b, c);
    }
  }

  // The assignment written for a key reads back as the key and the trimmed value, and for
  // anything that is not a key it does not.
  lemma AssignmentReads(key: string, value: string)
    ensures ReadLine(Assignment(key, value)) == Assigned(key, TrimSpace(value)) <==> IsKey(key)
  {
    if IsKey(key) {
      AssignmentReadsKey(key, value);
    } else {
      ReadsOnlyKeys(Assignment(key, value));
    }
  }

  lemma AssignmentReadsKey(key: string, value: string)
    requires IsKey(key)
    ensures ReadLine(Assignment(key, value)) == Assigned(key, TrimSpace(value))
  {
    var t := TrimSpace(Assignment(key, value));
    var tail := if TrimRight(value) == "" then "" else " " + TrimRight(value);
    AssignmentTrims(key, value);
    assert t == (key + " ") + ['='] + tail;
    UpToFirst(key + " ", tail, '=');
    assert t[..|key| + 1] == key + " " && t[|key| + 2..] == tail;
    KeyTrims(key);
    TailTrims(value);
    assert t[0] == key[0];
  }

  lemma KeyTrims(key: string)
    requires IsKey(key)
    ensures TrimSpace(key + " ") == key
  {
    TrimLeftJoined(key, " ");
    TrimRightJoined(key, " ");
    assert " "[..0] == "";
  }

  lemma TailTrims(value: string)
    ensures TrimSpace(if TrimRight(value) == "" then "" else " " + TrimRight(value)) == TrimSpace(value)
  {
    TrimTwice(value);
    var w := " " + TrimRight(value);
    assert w[1..] == TrimRight(value);
    assert TrimLeft(w) == TrimLeft(TrimRight(value));
  }
}
