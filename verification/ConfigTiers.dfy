// The two configuration files and the settings merged from them.
module ConfigTiers {
  import opened Wrappers
  import opened Sorting
  import opened Trimming
  import opened TextLines
  import opened ConfigText
  import opened ConfigEdit

  datatype Content = Missing | Unreadable | Text(text: string)

  // A missing file has no lines.
  function LinesOf(c: Content): Option<seq<string>> {
    match c
    case Missing => Some([])
    case Unreadable => None
    case Text(t) => Some(Lines(t))
  }

  // A configuration file, and the temporary file beside it while one is being written.
  class ConfigFile {
    var content: Content
    var temp: Option<string>
    ghost var seen: set<Content>   // everything the file has held
    ghost var faults: nat          // how many steps have failed

    constructor (content: Content)
      ensures this.content == content && temp == None && seen == {content} && faults == 0
    {
      this.content, temp, seen, faults := content, None, {content}, 0;
    }

    // Any step may fail, which is counted.
    method Fault() returns (fault: bool)
      modifies this`faults
      ensures faults == old(faults) + if fault then 1 else 0
    {
      fault := *;
      faults := faults + if fault then 1 else 0;
    }

    // The clean-up after a failed step, which may fail as well.
    method DropTemp()
      modifies this`temp, this`faults
      ensures (temp == None || temp == old(temp)) && faults >= old(faults)
    {
      var fault := Fault();
      if !fault {
        temp := None;
      }
    }

    // Writes text to the temporary file piece by piece; a failure may leave any part of it.
    method WriteTemp(text: string) returns (ok: bool)
      modifies this`temp, this`faults
      ensures ok ==> temp == Some(text)
      ensures faults >= old(faults) && (faults == old(faults) ==> ok)
    {
      var fault := Fault();
      if fault {
        return false;
      }
      temp := Some([]);
      var n := 0;
      while n < |text|
        invariant n <= |text| && temp == Some(text[..n]) && faults == old(faults)
      {
        fault := Fault();
        if fault {
          return false;
        }
        var chunk: nat :| 0 < chunk <= |text| - n;
        n := n + chunk;
        temp := Some(text[..n]);
      }
      assert text[..n] == text;
      ok := true;
    }

    // Written beside the file and renamed over it: at no point does the file hold anything but
    // what it held before or all of the new text.
    method WriteLines(lines: seq<string>) returns (ok: bool)
      modifies this
      ensures content == if ok then Text(Unlines(lines)) else old(content)
      ensures forall c :: c in seen ==> c in old(seen) || c == content
      ensures ok ==> temp == None
      ensures faults >= old(faults) && (faults == old(faults) ==> ok)
    {
      var fault := Fault();
      if fault {
        return false;
      }
      var written := WriteTemp(Unlines(lines));
      var closeFault := Fault();
      var renameFault := Fault();
      if !written || closeFault || renameFault {
        DropTemp();
        return false;
      }
      content, temp := Text(temp.value), None;
      seen := seen + {content};
      ok := true;
    }

    method SetKey(key: string, value: string) returns (ok: bool)
      modifies this
      ensures !ok ==> content == old(content)
      ensures forall c :: c in seen ==> c in old(seen) || c == content
      ensures ok ==> LinesOf(old(content)).Some?
      ensures ok ==> content == Text(Unlines(SetTo(LinesOf(old(content)).value, key, value)))
      ensures old(content) == Unreadable ==> !ok
      ensures old(content) == Missing && ok ==> content == Text(key + " = " + value + "\n")
      ensures faults >= old(faults) && (faults == old(faults) && old(content) != Unreadable ==> ok)
    {
      SetAlone(key, value);
      var lines := LinesOf(content);
      if lines.None? {
        return false;
      }
      var edited := SetInLines(lines.value, key, value);
      ok := WriteLines(edited);
    }

    // A file without the key is not rewritten.
    method UnsetKey(key: string) returns (ok: bool)
      modifies this
      ensures !ok ==> content == old(content)
      ensures forall c :: c in seen ==> c in old(seen) || c == content
      ensures ok ==> LinesOf(old(content)).Some?
      ensures ok ==> content == var lines := LinesOf(old(content)).value;
                                if Count(lines, key) == 0 then old(content) else Text(Unlines(Removed(lines, key)))
      ensures old(content) == Unreadable ==> !ok
      ensures old(content) == Missing ==> ok && content == Missing
      ensures faults >= old(faults) && (faults == old(faults) && old(content) != Unreadable ==> ok)
    {
      var lines := LinesOf(content);
      if lines.None? {
        return false;
      }
      var kept, removed := UnsetInLines(lines.value, key);
      if !removed {
        return true;
      }
      ok := WriteLines(kept);
    }

    method ParseFile() returns (ok: bool, values: map<string, string>, warnings: seq<(nat, string)>)
      ensures ok == LinesOf(content).Some? == (content != Unreadable)
      ensures content == Missing ==> values == map[] && warnings == []
      ensures ok ==> values == Values(LinesOf(content).value) && warnings == Warnings(LinesOf(content).value)
    {
      var lines := LinesOf(content);
      if lines.None? {
        return false, map[], [];
      }
      ok := true;
      values, warnings := ParseLines(lines.value);
    }
  }

  // ---- What a file says, across writing and reading it back ----

  // The first key of a file that was not there.
  lemma SetAlone(key: string, value: string)
    ensures Unlines(SetTo([], key, value)) == key + " = " + value + "\n"
  {
  }

  function Said(c: Content, key: string): Option<string> {
    match LinesOf(c)
    case Some(lines) => LastValue(lines, key)
    case None => None
  }

  lemma {:induction false} BlankSaysNothing(key: string)
    ensures LastValue([""], key) == None
  {
    LastOfOne("", key);
  }

  lemma {:induction false} LinesAreOneLine(c: Content)
    requires LinesOf(c).Some?
    ensures forall l :: l in LinesOf(c).value ==> OneLine(l)
  {
    if c.Text? {
      SplitOneLine(c.text);
    }
  }

  lemma {:induction false} RemovedSubset(lines: seq<string>, key: string)
    ensures forall l :: l in Removed(lines, key) ==> l in lines
  {
    hide Sets;
    if lines != [] {
      var init := lines[..|lines| - 1];
      assert lines == init + [lines[|lines| - 1]];
      RemovedSubset(init, key);
    }
  }

  // Writing lines changes nothing of what they say.
  lemma WrittenSays(lines: seq<string>, key: string)
    requires forall l :: l in lines ==> OneLine(l)
    ensures Said(Text(Unlines(lines)), key) == LastValue(lines, key)
  {
    LinesRoundTrip(lines);
    BlankSaysNothing(key);
    NoMore(key);
  }

  function AfterSet(c: Content, key: string, value: string): Content
    requires LinesOf(c).Some?
  {
    Text(Unlines(SetTo(LinesOf(c).value, key, value)))
  }

  function AfterUnset(c: Content, key: string): Content
    requires LinesOf(c).Some?
  {
    var lines := LinesOf(c).value;
    if Count(lines, key) == 0 then c else Text(Unlines(Removed(lines, key)))
  }

  lemma SetSays(c: Content, key: string, value: string, k: string)
    requires LinesOf(c).Some? && IsKey(key) && OneLine(key) && OneLine(value)
    ensures Said(AfterSet(c, key, value), k) ==
              if k == key && Count(LinesOf(c).value, key) <= 1 then Some(TrimSpace(value)) else Said(c, k)
  {
    var lines := LinesOf(c).value;
    LinesAreOneLine(c);
    SetThenRead(lines, key, value, k);
    SetOneLine(lines, key, value);
    WrittenSays(SetTo(lines, key, value), k);
  }

  lemma SetOneLine(lines: seq<string>, key: string, value: string)
    requires OneLine(key) && OneLine(value) && forall l :: l in lines ==> OneLine(l)
    ensures forall l :: l in SetTo(lines, key, value) ==> OneLine(l)
  {
    hide Sets;
    assert OneLine(Assignment(key, value));
  }

  lemma UnsetSays(c: Content, key: string, k: string)
    requires LinesOf(c).Some? && key != ""
    ensures Said(AfterUnset(c, key), k) == if k == key then None else Said(c, k)
  {
    var lines := LinesOf(c).value;
    if Count(lines, key) == 0 {
      SetIffCounted(lines, key);
    } else {
      LinesAreOneLine(c);
      UnsetThenRead(lines, key, k);
      RemovedSubset(lines, key);
      WrittenSays(Removed(lines, key), k);
    }
  }

  // ---- The merge ----

  datatype Origin = Default | System | User

  datatype Tiers<V> = Tiers(values: map<string, V>, origins: map<string, Origin>)

  // How a setting reads a value: none if the key is unknown or the value malformed.
  type Parser<V> = (string, string) -> Option<V>

  ghost function Accepted<V>(parse: Parser<V>, given: map<string, string>, keys: set<string>): map<string, V> {
    map k | k in keys && k in given && parse(k, given[k]).Some? :: parse(k, given[k]).value
  }

  ghost function Marked<V>(accepted: map<string, V>, origin: Origin): map<string, Origin> {
    map k | k in accepted :: origin
  }

  ghost function Overlaid<V>(t: Tiers<V>, accepted: map<string, V>, origin: Origin): Tiers<V> {
    Tiers(t.values + accepted, t.origins + Marked(accepted, origin))
  }

  ghost function Among(keys: seq<string>): set<string> { set k | k in keys }

  lemma AcceptedNext<V>(t: Tiers<V>, parse: Parser<V>, given: map<string, string>, keys: set<string>,
        k: string, origin: Origin)
    requires k in given
    ensures Overlaid(t, Accepted(parse, given, keys + {k}), origin) ==
              var before := Overlaid(t, Accepted(parse, given, keys), origin);
              match parse(k, given[k])
              case Some(v) => Tiers(before.values[k := v], before.origins[k := origin])
              case None => before
  {
    var a, b := Accepted(parse, given, keys), Accepted(parse, given, keys + {k});
    AcceptedOneMore(parse, given, keys, k);
    hide Accepted;
    match parse(k, given[k]) {
      case Some(v) =>
        MarkedOneMore(a, k, v, origin);
        SumUpdate(t.values, a, k, v);
        SumUpdate(t.origins, Marked(a, origin), k, origin);
      case None =>
    }
  }

  lemma AcceptedOneMore<V>(parse: Parser<V>, given: map<string, string>, keys: set<string>, k: string)
    requires k in given
    ensures Accepted(parse, given, keys + {k}) ==
              match parse(k, given[k])
              case Some(v) => Accepted(parse, given, keys)[k := v]
              case None => Accepted(parse, given, keys)
  {
  }

  lemma MarkedOneMore<V>(accepted: map<string, V>, k: string, v: V, origin: Origin)
    ensures Marked(accepted[k := v], origin) == Marked(accepted, origin)[k := origin]
  {
  }

  lemma SumUpdate<V>(m: map<string, V>, n: map<string, V>, k: string, v: V)
    ensures m + n[k := v] == (m + n)[k := v]
  {
  }

  // The keys refused are those whose values cannot be read, in order and each once.
  ghost predicate Refused<V>(rejected: seq<string>, parse: Parser<V>, given: map<string, string>, keys: set<string>) {
    && Ascending(rejected)
    && forall k :: k in rejected <==> k in keys && k in given && parse(k, given[k]).None?
  }

  lemma RefusedNext<V>(rejected: seq<string>, parse: Parser<V>, given: map<string, string>,
        keys: set<string>, k: string)
    requires Refused(rejected, parse, given, keys) && k in given && forall x :: x in keys ==> Less(x, k)
    ensures Refused(if parse(k, given[k]).None? then rejected + [k] else rejected, parse, given, keys + {k})
  {
  }

  lemma NoneRefused<V>(parse: Parser<V>, given: map<string, string>)
    ensures Refused([], parse, given, {})
  {
  }

  lemma AmongNext(keys: seq<string>, i: nat)
    requires i < |keys|
    ensures Among(keys[..i + 1]) == Among(keys[..i]) + {keys[i]}
    ensures Ascending(keys) ==> forall x :: x in Among(keys[..i]) ==> Less(x, keys[i])
  {
  }

  lemma AmongSorted(s: set<string>, keys: seq<string>)
    requires keys == Sorted(s)
    ensures Among(keys[..0]) == {} && Among(keys[..|keys|]) == s
    ensures Ascending(keys) && forall i :: 0 <= i < |keys| ==> keys[i] in s
  {
    assert keys[..|keys|] == keys;
  }

  // One file's values over what was there, key by key in sorted order; a value that cannot be
  // read leaves everything as it was.
  method Merge<V>(t: Tiers<V>, parse: Parser<V>, file: ConfigFile, origin: Origin)
    returns (r: Tiers<V>, rejected: seq<string>)
    ensures r == OneTier(t, parse, file.content, origin)
    ensures Ascending(rejected) && forall k :: k in rejected <==> Refuses(parse, file.content, k)
  {
    r, rejected := t, [];
    var ok, given, _ := file.ParseFile();
    if ok {
      r, rejected := ApplyAll(t, parse, given, origin);
      RefusedSays(rejected, parse, file.content);
    }
  }

  // A file's last assignment of a key that cannot be read.
  ghost predicate Refuses<V>(parse: Parser<V>, c: Content, key: string) {
    match Said(c, key)
    case Some(v) => parse(key, v).None?
    case None => false
  }

  lemma RefusedSays<V>(rejected: seq<string>, parse: Parser<V>, c: Content)
    requires LinesOf(c).Some?
    requires Refused(rejected, parse, Values(LinesOf(c).value), Values(LinesOf(c).value).Keys)
    ensures Ascending(rejected) && forall k :: k in rejected <==> Refuses(parse, c, k)
  {
    var lines := LinesOf(c).value;
    forall k ensures k in rejected <==> Refuses(parse, c, k) {
      ValuesAreLast(lines, k);
    }
  }

  method ApplyAll<V>(t: Tiers<V>, parse: Parser<V>, given: map<string, string>, origin: Origin)
    returns (r: Tiers<V>, rejected: seq<string>)
    ensures r == Overlaid(t, Accepted(parse, given, given.Keys), origin)
    ensures Refused(rejected, parse, given, given.Keys)
  {
    hide *;
    r, rejected := t, [];
    var keys := SortNames(given.Keys);
    AmongSorted(given.Keys, keys);
    Untouched(t, parse, given, origin);
    NoneRefused(parse, given);
    for i := 0 to |keys|
      invariant r == Overlaid(t, Accepted(parse, given, Among(keys[..i])), origin)
      invariant Refused(rejected, parse, given, Among(keys[..i]))
    {
      var k := keys[i];
      AmongNext(keys, i);
      AcceptedNext(t, parse, given, Among(keys[..i]), k, origin);
      RefusedNext(rejected, parse, given, Among(keys[..i]), k);
      var v := parse(k, given[k]);
      if v.None? {
        rejected := rejected + [k];
        continue;
      }
      r := Tiers(r.values[k := v.value], r.origins[k := origin]);
    }
  }

  lemma Untouched<V>(t: Tiers<V>, parse: Parser<V>, given: map<string, string>, origin: Origin)
    ensures Overlaid(t, Accepted(parse, given, {}), origin) == t
  {
    var none := Accepted(parse, given, {});
    assert none == map[] && Marked(none, origin) == map[];
    assert t.values + none == t.values && t.origins + Marked(none, origin) == t.origins;
  }

  ghost function OneTier<V>(t: Tiers<V>, parse: Parser<V>, c: Content, origin: Origin): Tiers<V> {
    match LinesOf(c)
    case None => t
    case Some(lines) => Overlaid(t, Accepted(parse, Values(lines), Values(lines).Keys), origin)
  }

  ghost function Defaults<V>(defaults: map<string, V>, documented: set<string>): Tiers<V> {
    Tiers(defaults, map k | k in documented :: Default)
  }

  ghost function SystemOnly<V>(parse: Parser<V>, defaults: map<string, V>, documented: set<string>,
        system: Content): Tiers<V> {
    OneTier(Defaults(defaults, documented), parse, system, System)
  }

  ghost function Loaded<V>(parse: Parser<V>, defaults: map<string, V>, documented: set<string>,
        system: Content, user: Content): Tiers<V> {
    OneTier(SystemOnly(parse, defaults, documented, system), parse, user, User)
  }

  method LoadWithOrigins<V>(parse: Parser<V>, defaults: map<string, V>, documented: set<string>,
      system: ConfigFile, user: ConfigFile) returns (r: Tiers<V>, rejected: seq<string>)
    ensures r == Loaded(parse, defaults, documented, system.content, user.content)
    ensures forall k :: k in rejected <==> Refuses(parse, system.content, k) || Refuses(parse, user.content, k)
    ensures exists first, second :: rejected == first + second && Ascending(first) && Ascending(second)
              && (forall k :: k in first <==> Refuses(parse, system.content, k))
              && (forall k :: k in second <==> Refuses(parse, user.content, k))
  {
    var origins := map k | k in documented :: Default;
    r := Tiers(defaults, origins);
    var first, second;
    r, first := Merge(r, parse, system, System);
    r, second := Merge(r, parse, user, User);
    rejected := first + second;
  }

  // ---- Where a setting comes from ----

  // What a file makes of a setting: its last assignment, if that can be read.
  ghost function Gives<V>(parse: Parser<V>, c: Content, key: string): Option<V> {
    match Said(c, key)
    case Some(v) => parse(key, v)
    case None => None
  }

  lemma TierAt<V>(t: Tiers<V>, parse: Parser<V>, c: Content, origin: Origin, key: string)
    ensures var r := OneTier(t, parse, c, origin);
            match Gives(parse, c, key)
            case Some(v) => Lookup(r.values, key) == Some(v) && Lookup(r.origins, key) == Some(origin)
            case None =>
              Lookup(r.values, key) == Lookup(t.values, key) && Lookup(r.origins, key) == Lookup(t.origins, key)
  {
    if LinesOf(c).Some? {
      ValuesAreLast(LinesOf(c).value, key);
      hide Values, LastValue;
    }
  }

  // The effective value is that of the highest tier whose last assignment can be read, and the
  // origin names that tier.
  lemma OriginExplains<V>(parse: Parser<V>, defaults: map<string, V>, documented: set<string>,
        system: Content, user: Content, key: string)
    ensures var r := Loaded(parse, defaults, documented, system, user);
            if Gives(parse, user, key).Some? then
              Lookup(r.values, key) == Gives(parse, user, key) && Lookup(r.origins, key) == Some(User)
            else if Gives(parse, system, key).Some? then
              Lookup(r.values, key) == Gives(parse, system, key) && Lookup(r.origins, key) == Some(System)
            else
              Lookup(r.values, key) == Lookup(defaults, key)
              && Lookup(r.origins, key) == if key in documented then Some(Default) else None
  {
    hide Gives;
    var base := Defaults(defaults, documented);
    var below := SystemOnly(parse, defaults, documented, system);
    TierAt(base, parse, system, System, key);
    TierAt(below, parse, user, User, key);
    hide OneTier;
  }

  // Two results agree on a key.
  ghost predicate AgreeAt<V>(a: Tiers<V>, b: Tiers<V>, key: string) {
    Lookup(a.values, key) == Lookup(b.values, key) && Lookup(a.origins, key) == Lookup(b.origins, key)
  }

  lemma SameSaid<V>(t: Tiers<V>, parse: Parser<V>, a: Content, b: Content, origin: Origin, key: string)
    requires Said(a, key) == Said(b, key)
    ensures AgreeAt(OneTier(t, parse, a, origin), OneTier(t, parse, b, origin), key)
  {
    TierAt(t, parse, a, origin, key);
    TierAt(t, parse, b, origin, key);
    hide OneTier, Said;
  }

  // Resetting a setting in the user's file gives it the value and origin it has without that
  // file, and touches no other setting.
  lemma ResetFallsBack<V>(parse: Parser<V>, defaults: map<string, V>, documented: set<string>,
        system: Content, user: Content, key: string, k: string)
    requires LinesOf(user).Some? && key != ""
    ensures var r := Loaded(parse, defaults, documented, system, AfterUnset(user, key));
            if k == key then AgreeAt(r, SystemOnly(parse, defaults, documented, system), k)
            else AgreeAt(r, Loaded(parse, defaults, documented, system, user), k)
  {
    var below := SystemOnly(parse, defaults, documented, system);
    UnsetSays(user, key, k);
    hide AfterUnset, SystemOnly;
    if k == key {
      TierAt(below, parse, AfterUnset(user, key), User, k);
      hide OneTier, Said;
    } else {
      SameSaid(below, parse, AfterUnset(user, key), user, User, k);
    }
  }

  // Setting a setting that is assigned at most once puts the new value in force, unless it cannot
  // be read: then the tier below shows through. No other setting changes.
  lemma SetTakesEffect<V>(parse: Parser<V>, defaults: map<string, V>, documented: set<string>,
        system: Content, user: Content,
      key: string, value: string, k: string)
    requires LinesOf(user).Some? && IsKey(key) && OneLine(key) && OneLine(value)
    requires Count(LinesOf(user).value, key) <= 1
    ensures var r := Loaded(parse, defaults, documented, system, AfterSet(user, key, value));
            if k != key then AgreeAt(r, Loaded(parse, defaults, documented, system, user), k)
            else
              match parse(key, TrimSpace(value))
              case Some(v) => Lookup(r.values, key) == Some(v) && Lookup(r.origins, key) == Some(User)
              case None => AgreeAt(r, SystemOnly(parse, defaults, documented, system), key)
  {
    var below := SystemOnly(parse, defaults, documented, system);
    SetSays(user, key, value, k);
    hide AfterSet, SystemOnly, TrimSpace, Count;
    if k == key {
      TierAt(below, parse, AfterSet(user, key, value), User, k);
      hide OneTier, Said;
    } else {
      SameSaid(below, parse, AfterSet(user, key, value), user, User, k);
    }
  }
}
