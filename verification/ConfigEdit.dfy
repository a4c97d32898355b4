// What a configuration file says, and what setting and unsetting a key make of it.
module ConfigEdit {
  import opened Wrappers
  import opened Trimming
  import opened ConfigText

  // ---- Reading: the last assignment of a key counts ----

  function LastValue(lines: seq<string>, key: string): Option<string> {
    if lines == [] then None
    else
      match ReadLine(lines[|lines| - 1])
      case Assigned(k, v) => if k == key then Some(v) else LastValue(lines[..|lines| - 1], key)
      case _ => LastValue(lines[..|lines| - 1], key)
  }

  function Values(lines: seq<string>): map<string, string> {
    if lines == [] then map[]
    else
      match ReadLine(lines[|lines| - 1])
      case Assigned(k, v) => Values(lines[..|lines| - 1])[k := v]
      case _ => Values(lines[..|lines| - 1])
  }

  // The malformed lines with their numbers.
  function Warnings(lines: seq<string>): seq<(nat, string)> {
    if lines == [] then []
    else
      match ReadLine(lines[|lines| - 1])
      case Malformed(t) => Warnings(lines[..|lines| - 1]) + [(|lines|, t)]
      case _ => Warnings(lines[..|lines| - 1])
  }

  lemma {:induction false} ValuesAreLast(lines: seq<string>, key: string)
    ensures Lookup(Values(lines), key) == LastValue(lines, key)
  {
    if lines != [] {
      ValuesAreLast(lines[..|lines| - 1], key);
    }
  }

  // A line is reported, by its number, exactly when it is malformed.
  lemma {:induction false} WarningsExactly(lines: seq<string>, n: nat, text: string)
    ensures (n, text) in Warnings(lines) <==> 1 <= n <= |lines| && ReadLine(lines[n - 1]) == Malformed(text)
  {
    if lines != [] {
      WarningsExactly(lines[..|lines| - 1], n, text);
    }
  }

  lemma Extend(lines: seq<string>, k: nat)
    requires k < |lines|
    ensures lines[..k + 1][..k] == lines[..k] && lines[..k + 1][k] == lines[k]
  {
  }

  method ParseLines(lines: seq<string>) returns (values: map<string, string>, warnings: seq<(nat, string)>)
    ensures values == Values(lines) && warnings == Warnings(lines)
  {
    values, warnings := map[], [];
    for k := 0 to |lines|
      invariant values == Values(lines[..k]) && warnings == Warnings(lines[..k])
    {
      var lineNo := k + 1;
      Extend(lines, k);
      var line := TrimSpace(lines[k]);
      if line == "" || line[0] == '#' {
        continue;
      }
      var cut := UpTo(line, '=');
      var key := TrimSpace(line[..cut]);
      if cut == |line| || key == "" {
        warnings := warnings + [(lineNo, line)];
        continue;
      }
      values := values[key := TrimSpace(line[cut + 1..])];
    }
    assert lines[..|lines|] == lines;
  }

  // ---- Editing: the first assignment is replaced, all of them are removed ----

  function First(lines: seq<string>, key: string): (i: nat)
    ensures i <= |lines| && (i < |lines| ==> Sets(lines[i], key))
    ensures forall j :: 0 <= j < i ==> !Sets(lines[j], key)
  {
    if lines == [] || Sets(lines[0], key) then 0 else 1 + First(lines[1..], key)
  }

  function SetTo(lines: seq<string>, key: string, value: string): seq<string> {
    var i := First(lines, key);
    if i < |lines| then lines[i := Assignment(key, value)] else lines + [Assignment(key, value)]
  }

  function Removed(lines: seq<string>, key: string): seq<string> {
    if lines == [] then []
    else
      var init := Removed(lines[..|lines| - 1], key);
      if Sets(lines[|lines| - 1], key) then init else init + [lines[|lines| - 1]]
  }

  // The number of active assignments of key.
  function Count(lines: seq<string>, key: string): nat {
    if lines == [] then 0
    else Count(lines[..|lines| - 1], key) + if Sets(lines[|lines| - 1], key) then 1 else 0
  }

  method SetInLines(before: seq<string>, key: string, value: string) returns (lines: seq<string>)
    ensures lines == SetTo(before, key, value)
  {
    lines := before;
    var assignment := Assignment(key, value);
    var replaced := false;
    var i := 0;
    while i < |lines|
      invariant i <= |lines| && lines == before && !replaced
      invariant forall j :: 0 <= j < i ==> !Sets(lines[j], key)
    {
      if Sets(lines[i], key) {
        FirstIs(lines, key, i);
        lines := lines[i := assignment];
        replaced := true;
        break;
      }
      i := i + 1;
    }
    if !replaced {
      FirstIs(before, key, |before|);
      lines := lines + [assignment];
    }
  }

  lemma {:induction false} FirstIs(lines: seq<string>, key: string, i: nat)
    requires i <= |lines| && (i < |lines| ==> Sets(lines[i], key))
    requires forall j :: 0 <= j < i ==> !Sets(lines[j], key)
    ensures First(lines, key) == i
  {
    hide Sets;
    if i > 0 {
      assert !Sets(lines[0], key);
      FirstIs(lines[1..], key, i - 1);
    }
  }

  method UnsetInLines(lines: seq<string>, key: string) returns (kept: seq<string>, removed: bool)
    ensures kept == Removed(lines, key) && removed == (Count(lines, key) > 0)
  {
    kept, removed := [], false;
    for k := 0 to |lines|
      invariant kept == Removed(lines[..k], key) && removed == (Count(lines[..k], key) > 0)
    {
      Extend(lines, k);
      if Sets(lines[k], key) {
        removed := true;
        continue;
      }
      kept := kept + [lines[k]];
    }
    assert lines[..|lines|] == lines;
  }

  // ---- Parts of a file ----

  lemma {:induction false} LastOfParts(a: seq<string>, b: seq<string>, key: string)
    ensures LastValue(a + b, key) == match LastValue(b, key) case Some(v) => Some(v) case None => LastValue(a, key)
  {
    if b == [] {
      assert a + b == a;
    } else {
      assert (a + b)[..|a + b| - 1] == a + b[..|b| - 1];
      LastOfParts(a, b[..|b| - 1], key);
    }
  }

  lemma {:induction false} RemovedOfParts(a: seq<string>, b: seq<string>, key: string)
    ensures Removed(a + b, key) == Removed(a, key) + Removed(b, key)
    ensures Count(a + b, key) == Count(a, key) + Count(b, key)
  {
    if b == [] {
      assert a + b == a;
    } else {
      assert (a + b)[..|a + b| - 1] == a + b[..|b| - 1];
      RemovedOfParts(a, b[..|b| - 1], key);
    }
  }

  lemma LastOfOne(line: string, key: string)
    ensures LastValue([line], key) ==
              if ReadLine(line).Assigned? && ReadLine(line).key == key then Some(ReadLine(line).value) else None
  {
    assert [line][..0] == [];
  }

  lemma OnlyOne(line: string, key: string)
    ensures Removed([line], key) == if Sets(line, key) then [] else [line]
    ensures Count([line], key) == if Sets(line, key) then 1 else 0
  {
    assert [line][..0] == [];
  }

  // A key has a value exactly when it has an active assignment.
  lemma {:induction false} SetIffCounted(lines: seq<string>, key: string)
    requires key != ""
    ensures LastValue(lines, key).Some? <==> Count(lines, key) > 0
  {
    hide ReadLine, Sets;
    if lines != [] {
      SetsWhatIsRead(lines[|lines| - 1], key);
      SetIffCounted(lines[..|lines| - 1], key);
    }
  }

  // A line that is not an assignment to key stays, in its place; one that is goes.
  lemma RemovedExactly(a: seq<string>, line: string, b: seq<string>, key: string)
    ensures Removed(a + [line] + b, key) == Removed(a, key) + (if Sets(line, key) then [] else [line]) + Removed(b, key)
  {
    hide Sets;
    RemovedOfParts(a + [line], b, key);
    RemovedOfParts(a, [line], key);
    OnlyOne(line, key);
  }

  lemma {:induction false} NothingToRemove(lines: seq<string>, key: string)
    requires forall l :: l in lines ==> !Sets(l, key)
    ensures Removed(lines, key) == lines && Count(lines, key) == 0
  {
    hide Sets;
    if lines != [] {
      var init, line := lines[..|lines| - 1], lines[|lines| - 1];
      assert lines == init + [line];
      NothingToRemove(init, key);
      assert !Sets(line, key);
    }
  }

  // The file around the line that an edit replaces.
  lemma AroundFirst(lines: seq<string>, key: string, value: string) returns (a: seq<string>, b: seq<string>)
    ensures forall l :: l in a ==> !Sets(l, key)
    ensures SetTo(lines, key, value) == a + [Assignment(key, value)] + b
    ensures Count(lines, key) > 0 ==>
              exists x :: Sets(x, key) && lines == a + [x] + b && Count(lines, key) == 1 + Count(b, key)
    ensures Count(lines, key) == 0 ==> lines == a && b == []
  {
    hide Sets, Assignment;
    var i := First(lines, key);
    if i < |lines| {
      a, b := lines[..i], lines[i + 1..];
      var x := lines[i];
      assert lines == a + [x] + b;
      RemovedOfParts(a + [x], b, key);
      RemovedOfParts(a, [x], key);
      OnlyOne(x, key);
      NothingToRemove(a, key);
    } else {
      a, b := lines, [];
      NothingToRemove(lines, key);
      assert lines + [Assignment(key, value)] == a + [Assignment(key, value)] + b;
    }
  }

  // ---- What an edit does to the values ----

  lemma MiddleLast(a: seq<string>, x: string, b: seq<string>, k: string)
    ensures LastValue(a + [x] + b, k) ==
              match LastValue(b, k)
              case Some(v) => Some(v)
              case None => match LastValue([x], k) case Some(v) => Some(v) case None => LastValue(a, k)
  {
    hide *;
    LastOfParts(a + [x], b, k);
    LastOfParts(a, [x], k);
  }

  // One key's value after another key, or the same, has been set: a second assignment further
  // down keeps its say.
  lemma SetThenRead(lines: seq<string>, key: string, value: string, k: string)
    requires IsKey(key)
    ensures LastValue(SetTo(lines, key, value), k) ==
              if k == key && Count(lines, key) <= 1 then Some(TrimSpace(value)) else LastValue(lines, k)
  {
    var a, b := AroundFirst(lines, key, value);
    var line := Assignment(key, value);
    MiddleLast(a, line, b, k);
    AssignmentReads(key, value);
    LastOfOne(line, k);
    if Count(lines, key) > 0 {
      var x :| Sets(x, key) && lines == a + [x] + b && Count(lines, key) == 1 + Count(b, key);
      MiddleLast(a, x, b, k);
      SetsWhatIsRead(x, key);
      LastOfOne(x, k);
      SetIffCounted(b, key);
    } else {
      NoMore(k);
    }
  }

  lemma NoMore(k: string)
    ensures LastValue([], k) == None
  {
  }

  // Setting a key updates what the file says, unless the key is assigned more than once: then
  // nothing changes.
  lemma SetKeyEffect(lines: seq<string>, key: string, value: string)
    requires IsKey(key)
    ensures Values(SetTo(lines, key, value)) ==
              if Count(lines, key) <= 1 then Values(lines)[key := TrimSpace(value)] else Values(lines)
  {
    hide *;
    forall k ensures Lookup(Values(SetTo(lines, key, value)), k) ==
      if k == key && Count(lines, key) <= 1 then Some(TrimSpace(value)) else Lookup(Values(lines), k)
    {
      SetThenRead(lines, key, value, k);
      ValuesAreLast(SetTo(lines, key, value), k);
      ValuesAreLast(lines, k);
    }
    var m, n := Values(SetTo(lines, key, value)), Values(lines);
    if Count(lines, key) <= 1 {
      SameLookups(m, n, key, TrimSpace(value));
    } else {
      SameMaps(m, n);
    }
  }

  lemma SameLookups<V>(m: map<string, V>, n: map<string, V>, key: string, v: V)
    requires forall k :: Lookup(m, k) == if k == key then Some(v) else Lookup(n, k)
    ensures m == n[key := v]
  {
    forall k ensures k in m <==> k in n[key := v] {
      assert Lookup(m, k) == if k == key then Some(v) else Lookup(n, k);
    }
    forall k | k in m ensures m[k] == n[key := v][k] {
      assert Lookup(m, k) == if k == key then Some(v) else Lookup(n, k);
    }
  }

  lemma SameMaps<V>(m: map<string, V>, n: map<string, V>)
    requires forall k :: Lookup(m, k) == Lookup(n, k)
    ensures m == n
  {
    forall k ensures k in m <==> k in n {
      assert Lookup(m, k) == Lookup(n, k);
    }
    forall k | k in m ensures m[k] == n[k] {
      assert Lookup(m, k) == Lookup(n, k);
    }
  }

  // Exactly when reading after setting gives the new value and nothing else changes.
  lemma SetKeyExactly(lines: seq<string>, key: string, value: string)
    requires IsKey(key)
    ensures Values(SetTo(lines, key, value)) == Values(lines)[key := TrimSpace(value)]
       <==> Count(lines, key) <= 1 || LastValue(lines, key) == Some(TrimSpace(value))
  {
    hide *;
    SetKeyEffect(lines, key, value);
    ValuesAreLast(lines, key);
    UpdateIsSame(Values(lines), key, TrimSpace(value));
  }

  lemma UpdateIsSame<V>(m: map<string, V>, key: string, v: V)
    ensures m == m[key := v] <==> Lookup(m, key) == Some(v)
  {
    assert key in m[key := v];
  }

  // The first of two assignments is edited, the second still holds.
  lemma SetKeyShadowed()
    ensures var lines := ["a = 1", "a = 2"];
            Values(SetTo(lines, "a", "3")) == Values(lines) && LastValue(lines, "a") == Some("2")
  {
    var lines := ["a = 1", "a = 2"];
    AssignmentReads("a", "1");
    AssignmentReads("a", "2");
    TrimSpaceTrims("1");
    TrimSpaceTrims("2");
    hide TrimSpace, ReadLine;
    assert Assignment("a", "1") == "a = 1" && Assignment("a", "2") == "a = 2";
    assert lines == [Assignment("a", "1")] + [Assignment("a", "2")];
    LastOfParts([Assignment("a", "1")], [Assignment("a", "2")], "a");
    LastOfOne(Assignment("a", "2"), "a");
    SetsWhatIsRead(Assignment("a", "1"), "a");
    SetsWhatIsRead(Assignment("a", "2"), "a");
    RemovedOfParts([Assignment("a", "1")], [Assignment("a", "2")], "a");
    OnlyOne(Assignment("a", "1"), "a");
    OnlyOne(Assignment("a", "2"), "a");
    SetKeyEffect(lines, "a", "3");
  }

  // ---- Unsetting ----

  lemma {:induction false} UnsetThenRead(lines: seq<string>, key: string, k: string)
    ensures LastValue(Removed(lines, key), k) == if k == key then None else LastValue(lines, k)
    ensures Count(Removed(lines, key), key) == 0
  {
    if lines != [] {
      var init, line := lines[..|lines| - 1], lines[|lines| - 1];
      UnsetThenRead(init, key, k);
      LineGone(line, key, k);
      hide Sets, ReadLine;
      var kept := Removed(init, key) + [line];
      assert kept[..|kept| - 1] == Removed(init, key);
    }
  }

  // A line that goes says nothing about other keys; one that stays, nothing about this one.
  lemma LineGone(line: string, key: string, k: string)
    ensures Sets(line, key) && k != key ==> !(ReadLine(line).Assigned? && ReadLine(line).key == k)
    ensures !Sets(line, key) ==> !(ReadLine(line).Assigned? && ReadLine(line).key == key)
  {
  }

  // Unsetting removes the key from what the file says, however often it was assigned.
  lemma UnsetKeyExactly(lines: seq<string>, key: string)
    ensures Values(Removed(lines, key)) == Values(lines) - {key}
    ensures Count(Removed(lines, key), key) == 0
  {
    hide *;
    UnsetThenRead(lines, key, key);
    var m, n := Values(Removed(lines, key)), Values(lines) - {key};
    forall k ensures Lookup(m, k) == Lookup(n, k) {
      UnsetThenRead(lines, key, k);
      ValuesAreLast(Removed(lines, key), k);
      ValuesAreLast(lines, k);
      LookupWithout(Values(lines), key, k);
    }
    SameMaps(m, n);
  }

  lemma LookupWithout<V>(m: map<string, V>, key: string, k: string)
    ensures Lookup(m - {key}, k) == if k == key then None else Lookup(m, k)
  {
  }

  // Every other line is kept verbatim and in order by both edits.
  lemma OtherLinesKept(lines: seq<string>, key: string, value: string)
    requires IsKey(key)
    ensures Removed(SetTo(lines, key, value), key) == Removed(lines, key)
  {
    var a, b := AroundFirst(lines, key, value);
    var line := Assignment(key, value);
    AssignmentReads(key, value);
    SetsWhatIsRead(line, key);
    hide Sets, ReadLine;
    RemovedExactly(a, line, b, key);
    if Count(lines, key) > 0 {
      var x :| Sets(x, key) && lines == a + [x] + b && Count(lines, key) == 1 + Count(b, key);
      RemovedExactly(a, x, b, key);
    } else {
      NothingToRemove([], key);
    }
  }

  // Setting after unsetting always takes.
  lemma SetAfterUnset(lines: seq<string>, key: string, value: string)
    requires IsKey(key)
    ensures Values(SetTo(Removed(lines, key), key, value)) == Values(lines)[key := TrimSpace(value)]
  {
    hide *;
    UnsetKeyExactly(lines, key);
    SetKeyEffect(Removed(lines, key), key, value);
    assert (Values(lines) - {key})[key := TrimSpace(value)] == Values(lines)[key := TrimSpace(value)];
  }
}
