// Firewall rules as sets of packets: coverage, shadowed rules, and simulation of a request.
module Firewall {
  import opened Letters

  datatype Direction = In | Out
  datatype Action = Allow | Deny | Reject

  // An IPv4 or IPv6 network: its width in bits, the prefix length, and an address inside it.
  // bits == ones is a single host.
  datatype Net = Net(bits: nat, ones: nat, ip: nat) {
    ghost predicate Valid() { (bits == 32 || bits == 128) && ones <= bits && ip < Pow2(bits) }
  }

  // A rule's address restriction: none, a network, or a text no network could be read from.
  datatype Addr = AnyAddr | Parsed(net: Net) | Unreadable(text: string)

  // Empty protocol and interface, and ports 0-0, mean "any".
  datatype Rule = Rule(order: int, direction: Direction, action: Action, protocol: string,
                       portFrom: int, portTo: int, source: Addr, destination: Addr, iface: string,
                       shadowedByOrder: int, shadowedByAction: Action)

  const MAX_PORT := 65535

  datatype Host = Host(bits: nat, ip: nat) {
    ghost predicate Valid() { (bits == 32 || bits == 128) && ip < Pow2(bits) }
  }
  datatype Packet = Packet(direction: Direction, protocol: string, port: int, source: Host, destination: Host,
                           iface: string) {
    ghost predicate Valid() {
      protocol != "" && 0 <= port <= MAX_PORT && source.Valid() && destination.Valid() && iface != ""
    }
  }

  function Pow2(n: nat): (p: nat)
    ensures p > 0
  {
    if n == 0 then 1 else 2 * Pow2(n - 1)
  }

  predicate EqualFold(a: string, b: string) { Lower(a) == Lower(b) }

  predicate HasAnyPort(r: Rule) { r.portFrom == 0 && r.portTo == 0 }

  // ---- What a rule matches ----

  // x without its last k bits.
  function Shr(x: nat, k: nat): nat
    decreases k
  {
    if k == 0 then x else Shr(x / 2, k - 1)
  }

  // The network's first ones bits agree with the host's.
  predicate InNet(n: Net, bits: nat, ip: nat) {
    n.bits == bits && n.ones <= bits && Shr(ip, bits - n.ones) == Shr(n.ip, bits - n.ones)
  }

  predicate AddrMatches(a: Addr, h: Host) {
    match a
    case AnyAddr => true
    case Parsed(n) => InNet(n, h.bits, h.ip)
    case Unreadable(_) => false
  }

  predicate PortMatches(r: Rule, port: int) { HasAnyPort(r) || r.portFrom <= port <= r.portTo }

  predicate Matches(r: Rule, p: Packet) {
    && r.direction == p.direction
    && (r.protocol == "" || EqualFold(r.protocol, p.protocol))
    && PortMatches(r, p.port)
    && AddrMatches(r.source, p.source) && AddrMatches(r.destination, p.destination)
    && (r.iface == "" || r.iface == p.iface)
  }

  // ---- covers ----

  predicate PortsCover(a: Rule, b: Rule) {
    HasAnyPort(a) || (!HasAnyPort(b) && a.portFrom <= b.portFrom && b.portTo <= a.portTo)
  }

  predicate CidrCovers(a: Addr, b: Addr) {
    a.Parsed? && b.Parsed? && a.net.bits == b.net.bits && a.net.ones <= b.net.ones &&
    InNet(a.net, b.net.bits, b.net.ip)
  }

  predicate Covers(a: Rule, b: Rule) {
    && (a.protocol == "" || EqualFold(a.protocol, b.protocol))
    && PortsCover(a, b)
    && (a.source == AnyAddr || CidrCovers(a.source, b.source))
    && (a.destination == AnyAddr || CidrCovers(a.destination, b.destination))
    && (a.iface == "" || a.iface == b.iface)
  }

  // Every packet b matches is matched by a.
  ghost predicate Subsumes(a: Rule, b: Rule) {
    forall p: Packet :: p.Valid() && Matches(b, p) ==> Matches(a, p)
  }

  // ---- Prefixes ----

  lemma {:induction false} ShrTwice(x: nat, j: nat, k: nat)
    ensures Shr(x, j + k) == Shr(Shr(x, j), k)
    decreases j
  {
    if j > 0 {
      ShrTwice(x / 2, j - 1, k);
    }
  }

  lemma {:induction false} ShrBound(x: nat, j: nat, k: nat)
    requires x < Pow2(j + k)
    ensures Shr(x, k) < Pow2(j)
    decreases k
  {
    if k > 0 {
      ShrBound(x / 2, j, k - 1);
    }
  }

  // x followed by k zero bits.
  ghost function Shl(x: nat, k: nat): nat { if k == 0 then x else 2 * Shl(x, k - 1) }

  lemma {:induction false} ShlShr(x: nat, k: nat)
    ensures Shr(Shl(x, k), k) == x
  {
    if k > 0 {
      ShlShr(x, k - 1);
    }
  }

  lemma {:induction false} ShlBound(x: nat, j: nat, k: nat)
    requires x < Pow2(j)
    ensures Shl(x, k) < Pow2(j + k)
  {
    if k > 0 {
      ShlBound(x, j, k - 1);
    }
  }

  // Hosts that agree on a longer prefix agree on a shorter one.
  lemma ShorterPrefix(bits: nat, long: nat, short: nat, x: nat, y: nat)
    requires short <= long <= bits && Shr(x, bits - long) == Shr(y, bits - long)
    ensures Shr(x, bits - short) == Shr(y, bits - short)
  {
    ShrTwice(x, bits - long, long - short);
    ShrTwice(y, bits - long, long - short);
    assert bits - short == bits - long + (long - short);
  }

  lemma CidrSound(a: Addr, b: Addr, h: Host)
    requires CidrCovers(a, b) && AddrMatches(b, h)
    ensures AddrMatches(a, h)
  {
    ShorterPrefix(h.bits, b.net.ones, a.net.ones, h.ip, b.net.ip);
  }

  lemma CoversSound(a: Rule, b: Rule)
    requires a.direction == b.direction && Covers(a, b)
    ensures Subsumes(a, b)
  {
    forall p: Packet | p.Valid() && Matches(b, p) ensures Matches(a, p) {
      if a.source != AnyAddr {
        CidrSound(a.source, b.source, p.source);
      }
      if a.destination != AnyAddr {
        CidrSound(a.destination, b.destination, p.destination);
      }
    }
  }

  // ---- Completeness: a witness for every restriction of a that b does not share ----

  // What was read as a network is one.
  ghost predicate WellRead(a: Addr) { a.Parsed? ==> a.net.Valid() }

  // Some host matches.
  ghost predicate ValidAddr(a: Addr) { !a.Unreadable? && WellRead(a) }

  // An address in b that a does not hold.
  lemma EscapingHost(a: Addr, b: Addr) returns (h: Host)
    requires WellRead(a) && ValidAddr(b) && a != AnyAddr && !CidrCovers(a, b)
    ensures h.Valid() && AddrMatches(b, h) && !AddrMatches(a, h)
  {
    if a.Unreadable? {
      hide Pow2;
      h := SomeHost(b);
    } else if b == AnyAddr {
      h := Host(if a.net.bits == 32 then 128 else 32, 0);
    } else if a.net.bits != b.net.bits || !InNet(a.net, b.net.bits, b.net.ip) {
      h := Host(b.net.bits, b.net.ip);
    } else {
      h := EscapingSibling(a.net, b.net);
    }
  }

  // a's prefix is longer than b's: flipping a's last prefix bit stays inside b and leaves a.
  lemma EscapingSibling(a: Net, b: Net) returns (h: Host)
    requires a.Valid() && b.Valid() && a.bits == b.bits && a.ones > b.ones
    ensures h.Valid() && AddrMatches(Parsed(b), h) && !AddrMatches(Parsed(a), h)
  {
    hide Pow2;
    var bits, rest := a.bits, a.bits - a.ones;
    var block := Shr(b.ip, rest);
    var other := if block % 2 == 0 then block + 1 else block - 1;
    // One of the two neighbouring blocks is not a's own; both lie in b.
    var pick := if block == Shr(a.ip, rest) then other else block;
    h := Host(bits, Shl(pick, rest));
    ShlShr(pick, rest);
    assert Shr(h.ip, rest) == pick;
    ShrTwice(h.ip, rest, 1);
    ShrTwice(b.ip, rest, 1);
    assert Shr(pick, 1) == pick / 2 == block / 2 == Shr(block, 1);
    ShorterPrefix(bits, a.ones - 1, b.ones, h.ip, b.ip);
    ShrBound(b.ip, a.ones, rest);
    PairFits(block, pick, a.ones);
    ShlBound(pick, a.ones, rest);
    assert a.ones + rest == bits;
  }

  lemma PairFits(block: nat, pick: nat, ones: nat)
    requires ones > 0 && block < Pow2(ones) && pick / 2 == block / 2
    ensures pick < Pow2(ones)
  {
    var half := Pow2(ones - 1);
    assert Pow2(ones) == 2 * half;
    hide Pow2;
    assert block / 2 < half;
    assert pick <= 2 * (pick / 2) + 1;
  }

  // b matches something at all: its addresses could be read and its ports are ports.
  ghost predicate Satisfiable(b: Rule) {
    && ValidAddr(b.source) && ValidAddr(b.destination)
    && (HasAnyPort(b) || 0 <= b.portFrom <= b.portTo <= MAX_PORT)
  }

  ghost predicate Readable(r: Rule) { WellRead(r.source) && WellRead(r.destination) }

  ghost function SomeHost(a: Addr): Host {
    match a
    case Parsed(n) => Host(n.bits, n.ip)
    case _ => Host(32, 0)
  }

  // A packet b matches.
  ghost function SomePacket(b: Rule): Packet {
    Packet(b.direction, if b.protocol == "" then "tcp" else b.protocol, b.portFrom,
           SomeHost(b.source), SomeHost(b.destination), if b.iface == "" then "lo" else b.iface)
  }

  lemma SomePacketMatches(b: Rule)
    requires Satisfiable(b)
    ensures SomePacket(b).Valid() && Matches(b, SomePacket(b))
  {
    hide Pow2;
  }

  // a spells out every port instead of leaving the ports open.
  predicate SpellsOutAllPorts(a: Rule) { !HasAnyPort(a) && a.portFrom <= 0 && a.portTo >= MAX_PORT }

  predicate CoversButPorts(a: Rule, b: Rule) { Covers(a.(portFrom := 0, portTo := 0), b) }

  // Exactly when one rule matches everything another does: when covers says so, or when it
  // spells out the whole port range and covers fails for the ports alone.
  lemma CoversExactly(a: Rule, b: Rule)
    requires a.direction == b.direction
    requires Satisfiable(b) && Readable(a)
    ensures Subsumes(a, b) <==> Covers(a, b) || (SpellsOutAllPorts(a) && HasAnyPort(b) && CoversButPorts(a, b))
  {
    if Covers(a, b) {
      CoversSound(a, b);
    } else if SpellsOutAllPorts(a) && HasAnyPort(b) && CoversButPorts(a, b) {
      CoversSound(a.(portFrom := 0, portTo := 0), b);
      forall p: Packet | p.Valid() && Matches(b, p) ensures Matches(a, p) {
        assert Matches(a.(portFrom := 0, portTo := 0), p);
      }
    } else {
      var p := Escape(a, b);
    }
  }

  // Ports 0 to 65535 are all ports, and yet do not cover "any port".
  lemma AllPortsSpelledOut(direction: Direction, action: Action)
    ensures var b := Rule(1, direction, action, "", 0, 0, AnyAddr, AnyAddr, "", 0, Allow);
            var a := b.(portTo := MAX_PORT);
            Subsumes(a, b) && !Covers(a, b) && Covers(b, a)
  {
  }

  lemma Escape(a: Rule, b: Rule) returns (p: Packet)
    requires a.direction == b.direction && !Covers(a, b)
    requires Satisfiable(b) && Readable(a)
    requires !(SpellsOutAllPorts(a) && HasAnyPort(b) && CoversButPorts(a, b))
    ensures p.Valid() && Matches(b, p) && !Matches(a, p)
  {
    SomePacketMatches(b);
    p := SomePacket(b);
    if a.protocol != "" && !EqualFold(a.protocol, b.protocol) {
      if b.protocol == "" {
        p := p.(protocol := a.protocol + "x");
      }
    } else if a.source != AnyAddr && !CidrCovers(a.source, b.source) {
      var h := EscapingHost(a.source, b.source);
      p := p.(source := h);
    } else if a.destination != AnyAddr && !CidrCovers(a.destination, b.destination) {
      var h := EscapingHost(a.destination, b.destination);
      p := p.(destination := h);
    } else if a.iface != "" && a.iface != b.iface {
      if b.iface == "" {
        p := p.(iface := a.iface + "x");
      }
    } else {
      p := p.(port := EscapingPort(a, b));
    }
  }

  function EscapingPort(a: Rule, b: Rule): (port: int)
    requires !PortsCover(a, b) && !(SpellsOutAllPorts(a) && HasAnyPort(b))
    requires HasAnyPort(b) || 0 <= b.portFrom <= b.portTo <= MAX_PORT
    ensures 0 <= port <= MAX_PORT && PortMatches(b, port) && !PortMatches(a, port)
  {
    if HasAnyPort(b) then if a.portFrom > 0 then 0 else MAX_PORT
    else if a.portFrom > b.portFrom then b.portFrom else b.portTo
  }

  // ---- First match ----

  // rules[i] decides p: it matches, and no matching rule has a smaller order, or the same and stands earlier.
  ghost predicate Decides(rules: seq<Rule>, i: nat, p: Packet) {
    && i < |rules| && Matches(rules[i], p)
    && (forall j :: 0 <= j < |rules| && Matches(rules[j], p) ==>
          rules[i].order < rules[j].order || (rules[i].order == rules[j].order && i <= j))
  }

  lemma OneDecides(rules: seq<Rule>, i: nat, j: nat, p: Packet)
    requires Decides(rules, i, p) && Decides(rules, j, p)
    ensures i == j
  {
  }

  // The rules that the j-th one comes after and is covered by.
  predicate Shadows(rules: seq<Rule>, j: nat, i: nat)
    requires i < |rules| && j < |rules|
  {
    rules[j].direction == rules[i].direction && rules[j].order < rules[i].order && Covers(rules[j], rules[i])
  }

  ghost predicate FirstShadow(rules: seq<Rule>, j: nat, i: nat)
    requires i < |rules|
  {
    j < |rules| && Shadows(rules, j, i) && forall k :: 0 <= k < j ==> !Shadows(rules, k, i)
  }

  ghost predicate Shadowed(rules: seq<Rule>, i: nat)
    requires i < |rules|
  {
    exists j: nat :: j < |rules| && Shadows(rules, j, i)
  }

  // rules[i] as it comes back: marked with its first shadow, or as it was.
  ghost predicate MarkedFrom(rules: seq<Rule>, i: nat, out: Rule)
    requires i < |rules|
  {
    && (!Shadowed(rules, i) ==> out == rules[i])
    && (forall j: nat :: FirstShadow(rules, j, i) ==>
          out == rules[i].(shadowedByOrder := rules[j].order, shadowedByAction := rules[j].action))
  }

  method AnnotateShadows(rules: seq<Rule>) returns (out: array<Rule>)
    ensures fresh(out) && out.Length == |rules|
    ensures forall i :: 0 <= i < |rules| ==> MarkedFrom(rules, i, out[i])
  {
    hide *;
    out := new Rule[|rules|](i requires 0 <= i < |rules| => rules[i]);
    AllSame(rules);
    for i := 0 to out.Length
      invariant forall k :: 0 <= k < i ==> MarkedFrom(rules, k, out[k])
      invariant forall k :: i <= k < |rules| ==> out[k] == rules[k]
      invariant forall k :: 0 <= k < |rules| ==> SameTraffic(out[k], rules[k])
    {
      MarkOne(out, i, rules);
    }
  }

  lemma AllSame(rules: seq<Rule>)
    ensures forall k :: 0 <= k < |rules| ==> SameTraffic(rules[k], rules[k])
  {
  }

  // The inner loop: looks for the first rule in front of out[i] that covers it.
  method MarkOne(out: array<Rule>, i: nat, ghost rules: seq<Rule>)
    requires i < out.Length == |rules| && out[i] == rules[i]
    requires forall k :: 0 <= k < |rules| ==> SameTraffic(out[k], rules[k])
    modifies out
    ensures forall k :: 0 <= k < |rules| && k != i ==> out[k] == old(out[k])
    ensures MarkedFrom(rules, i, out[i]) && SameTraffic(out[i], rules[i])
  {
    hide Covers;
    var j := 0;
    while j < out.Length
      invariant 0 <= j <= out.Length && out[..] == old(out[..])
      invariant forall k :: 0 <= k < j ==> !Shadows(rules, k, i)
    {
      assert SameTraffic(out[..][j], rules[j]) && out[..][i] == rules[i];
      SameCovers(out[j], rules[j], rules[i]);
      if out[j].direction != out[i].direction || out[j].order >= out[i].order {
        j := j + 1;
        continue;
      }
      if Covers(out[j], out[i]) {
        assert FirstShadow(rules, j, i);
        out[i] := out[i].(shadowedByOrder := out[j].order, shadowedByAction := out[j].action);
        break;
      }
      j := j + 1;
    }
  }

  lemma SameCovers(a: Rule, a': Rule, b: Rule)
    requires SameTraffic(a, a')
    ensures Covers(a, b) == Covers(a', b) && a.order == a'.order && a.direction == a'.direction && a.action == a'.action
  {
  }

  // Equal up to the shadow marks.
  predicate SameTraffic(a: Rule, b: Rule) {
    a.(shadowedByOrder := b.shadowedByOrder, shadowedByAction := b.shadowedByAction) == b
  }

  // ---- Deleting everything that is marked ----

  // The positions left when all marked rules are deleted, in order.
  function Live(out: seq<Rule>): (live: seq<nat>)
    ensures forall k :: 0 <= k < |live| ==> live[k] < |out| && out[live[k]].shadowedByOrder == 0
    ensures forall k, l :: 0 <= k < l < |live| ==> live[k] < live[l]
    ensures forall i :: 0 <= i < |out| && out[i].shadowedByOrder == 0 ==> i in live
  {
    if out == [] then []
    else
      var live := Live(out[..|out| - 1]);
      if out[|out| - 1].shadowedByOrder == 0 then live + [|out| - 1] else live
  }

  function Pick(out: seq<Rule>, live: seq<nat>): (kept: seq<Rule>)
    requires forall k :: 0 <= k < |live| ==> live[k] < |out|
    ensures |kept| == |live|
  {
    seq(|live|, k requires 0 <= k < |live| => out[live[k]])
  }

  ghost predicate Annotated(rules: seq<Rule>, out: seq<Rule>) {
    && |out| == |rules|
    && (forall i :: 0 <= i < |rules| ==> rules[i].shadowedByOrder == 0 && MarkedFrom(rules, i, out[i]))
  }

  lemma {:induction false} FirstShadowExists(rules: seq<Rule>, i: nat, j: nat) returns (k: nat)
    requires i < |rules| && j < |rules| && Shadows(rules, j, i)
    ensures FirstShadow(rules, k, i)
  {
    k := 0;
    while !Shadows(rules, k, i)
      invariant k <= j && forall l :: 0 <= l < k ==> !Shadows(rules, l, i)
      decreases j - k
    {
      k := k + 1;
    }
  }

  // A marked rule never decides a packet: its shadow matches first.
  lemma MarkedNeverDecides(rules: seq<Rule>, out: seq<Rule>, i: nat, p: Packet)
    requires Annotated(rules, out) && p.Valid() && Decides(rules, i, p)
    ensures out[i].shadowedByOrder == 0
  {
    forall j: nat | j < |rules| && rules[j].direction == rules[i].direction && Covers(rules[j], rules[i])
      ensures rules[j].order >= rules[i].order
    {
      CoversSound(rules[j], rules[i]);
    }
  }

  lemma AnnotatedMatches(rules: seq<Rule>, out: seq<Rule>, i: nat, p: Packet)
    requires Annotated(rules, out) && i < |rules|
    ensures Matches(out[i], p) == Matches(rules[i], p) && out[i].order == rules[i].order
  {
    if Shadowed(rules, i) {
      var j: nat :| j < |rules| && Shadows(rules, j, i);
      var k := FirstShadowExists(rules, i, j);
    }
  }

  lemma {:induction false} SomeDecides(rules: seq<Rule>, n: nat, j: nat, p: Packet) returns (i: nat)
    requires j < n <= |rules| && Matches(rules[j], p)
    ensures Decides(rules[..n], i, p)
  {
    var last := n - 1;
    assert forall k :: 0 <= k < last ==> rules[..n][k] == rules[..last][k];
    if m :| 0 <= m < last && Matches(rules[m], p) {
      i := SomeDecides(rules, last, m, p);
      if Matches(rules[last], p) && rules[last].order < rules[i].order {
        i := last;
      }
    } else {
      i := last;
    }
  }

  // Deleting every marked rule at once leaves each packet's deciding rule, and lack of one, as it was.
  lemma DeletingShadowedIsSafe(rules: seq<Rule>, out: seq<Rule>, p: Packet, q: nat)
    requires Annotated(rules, out) && p.Valid() && q < |Live(out)|
    ensures Decides(Pick(out, Live(out)), q, p) <==> Decides(rules, Live(out)[q], p)
  {
    var live := Live(out);
    var kept := Pick(out, live);
    KeptAlike(rules, out, p);
    hide Matches, Annotated, MarkedFrom, Pick;
    if Decides(rules, live[q], p) {
      DeciderKept(rules, out, live[q], p, q);
    }
    if Decides(kept, q, p) {
      var i := SomeDecides(rules, |rules|, live[q], p);
      assert rules[..|rules|] == rules;
      MarkedNeverDecides(rules, out, i, p);
      var l: nat :| l < |live| && live[l] == i;
      DeciderKept(rules, out, i, p, l);
      OneDecides(kept, q, l, p);
    }
  }

  // A rule that is kept matches what it matched, and has the order it had.
  lemma KeptAlike(rules: seq<Rule>, out: seq<Rule>, p: Packet)
    requires Annotated(rules, out)
    ensures |out| == |rules|
    ensures var live := Live(out);
            forall k :: 0 <= k < |live| ==>
              && Matches(Pick(out, live)[k], p) == Matches(rules[live[k]], p)
              && Pick(out, live)[k].order == rules[live[k]].order
  {
    var live := Live(out);
    forall k | 0 <= k < |live|
      ensures Matches(out[live[k]], p) == Matches(rules[live[k]], p) && out[live[k]].order == rules[live[k]].order
    {
      AnnotatedMatches(rules, out, live[k], p);
    }
    hide Matches, MarkedFrom;
  }

  lemma DeciderKept(rules: seq<Rule>, out: seq<Rule>, i: nat, p: Packet, q: nat)
    requires Annotated(rules, out) && Decides(rules, i, p) && q < |Live(out)| && Live(out)[q] == i
    ensures Decides(Pick(out, Live(out)), q, p)
  {
    KeptAlike(rules, out, p);
    hide Matches, Annotated, MarkedFrom, Pick;
  }

  lemma DeciderIsKept(rules: seq<Rule>, out: seq<Rule>, p: Packet, i: nat)
    requires Annotated(rules, out) && p.Valid() && Decides(rules, i, p)
    ensures exists q: nat :: q < |Live(out)| && Live(out)[q] == i && Decides(Pick(out, Live(out)), q, p)
  {
    MarkedNeverDecides(rules, out, i, p);
    var q: nat :| q < |Live(out)| && Live(out)[q] == i;
    DeciderKept(rules, out, i, p, q);
  }

  // A rule is marked exactly when an earlier one covers it (orders start at 1).
  lemma MarkedIffShadowed(rules: seq<Rule>, out: seq<Rule>, i: nat)
    requires Annotated(rules, out) && i < |rules|
    requires forall j :: 0 <= j < |rules| ==> rules[j].order >= 1
    ensures out[i].shadowedByOrder != 0 <==>
              exists j :: 0 <= j < |rules| && rules[j].direction == rules[i].direction &&
                          rules[j].order < rules[i].order && Covers(rules[j], rules[i])
  {
    if Shadowed(rules, i) {
      var j: nat :| j < |rules| && Shadows(rules, j, i);
      var k := FirstShadowExists(rules, i, j);
    }
    forall j | 0 <= j < |rules| && rules[j].direction == rules[i].direction &&
               rules[j].order < rules[i].order && Covers(rules[j], rules[i])
      ensures Shadowed(rules, i)
    {
      assert Shadows(rules, j, i);
    }
  }

  // The mark names the first rule in the list that does so, and nothing else about the rule changes.
  lemma MarkNamesFirst(rules: seq<Rule>, out: seq<Rule>, i: nat, j: nat)
    requires |out| == |rules| && i < |rules| && j < |rules| && MarkedFrom(rules, i, out[i])
    requires rules[j].direction == rules[i].direction && rules[j].order < rules[i].order && Covers(rules[j], rules[i])
    requires forall k :: 0 <= k < j ==>
               !(rules[k].direction == rules[i].direction && rules[k].order < rules[i].order &&
                 Covers(rules[k], rules[i]))
    ensures out[i].shadowedByOrder == rules[j].order && out[i].shadowedByAction == rules[j].action
    ensures out[i].(shadowedByOrder := rules[i].shadowedByOrder, shadowedByAction := rules[i].shadowedByAction)
         == rules[i]
  {
    assert FirstShadow(rules, j, i);
  }

  // A port is matched by a rule that names it, or that names none.
  lemma PortExactly(r: Rule, port: int)
    ensures PortMatches(r, port) <==> (r.portFrom == 0 && r.portTo == 0) || r.portFrom <= port <= r.portTo
    ensures MAX_PORT == 65535
  {
  }

  // Two names are the same up to case when they are so letter by letter.
  lemma FoldExactly(a: string, b: string)
    ensures EqualFold(a, b) <==> |a| == |b| && forall i :: 0 <= i < |a| ==> LowerChar(a[i]) == LowerChar(b[i])
  {
    if EqualFold(a, b) {
      forall i | 0 <= i < |a| ensures LowerChar(a[i]) == LowerChar(b[i]) {
        assert Lower(a)[i] == Lower(b)[i];
      }
    }
  }

  // What a rule matches: every part that it names. An address that could not be read matches nothing.
  lemma MatchesExactly(r: Rule, p: Packet)
    ensures Matches(r, p) <==>
              && r.direction == p.direction && (r.protocol != "" ==> EqualFold(r.protocol, p.protocol))
              && (r.portFrom != 0 || r.portTo != 0 ==> r.portFrom <= p.port <= r.portTo)
              && (r.source.Parsed? ==> InNet(r.source.net, p.source.bits, p.source.ip)) && !r.source.Unreadable?
              && (r.destination.Parsed? ==> InNet(r.destination.net, p.destination.bits, p.destination.ip))
              && !r.destination.Unreadable? && (r.iface != "" ==> r.iface == p.iface)
  {
    hide InNet, EqualFold;
  }

  // The i-th of bits bits of x, the most significant one first.
  function Bit(x: nat, bits: nat, i: nat): nat
    requires i < bits
  {
    Shr(x, bits - 1 - i) % 2
  }

  // A host is in a network exactly when the first bits of the two addresses agree, one by one.
  lemma InNetExactly(n: Net, h: Host)
    requires n.Valid() && h.Valid()
    ensures InNet(n, h.bits, h.ip) <==>
              n.bits == h.bits && forall i :: 0 <= i < n.ones ==> Bit(h.ip, h.bits, i) == Bit(n.ip, n.bits, i)
  {
    if n.bits == h.bits {
      SamePrefix(h.ip, n.ip, n.bits, n.ones);
      hide Shr, Pow2, Bit;
    }
  }

  lemma {:induction false} SamePrefix(x: nat, y: nat, bits: nat, ones: nat)
    requires ones <= bits && x < Pow2(bits) && y < Pow2(bits)
    ensures Shr(x, bits - ones) == Shr(y, bits - ones) <==>
              forall i :: 0 <= i < ones ==> Bit(x, bits, i) == Bit(y, bits, i)
  {
    if ones == 0 {
      ShrBound(x, 0, bits);
      ShrBound(y, 0, bits);
    } else {
      SamePrefix(x, y, bits, ones - 1);
      LastBit(x, bits - ones);
      LastBit(y, bits - ones);
      assert Bit(x, bits, ones - 1) == Shr(x, bits - ones) % 2 && Bit(y, bits, ones - 1) == Shr(y, bits - ones) % 2;
    }
  }

  lemma LastBit(x: nat, k: nat)
    ensures Shr(x, k + 1) == Shr(x, k) / 2
  {
    ShrTwice(x, k, 1);
    assert Shr(Shr(x, k), 1) == Shr(Shr(x, k) / 2, 0);
  }

  // ---- Simulation ----

  // The first rule by order (then by position) whose traffic covers the whole request.
  ghost predicate Answers(rules: seq<Rule>, query: Rule, i: nat) {
    && i < |rules| && Admits(rules[i], query)
    && (forall j :: 0 <= j < |rules| && Admits(rules[j], query) ==>
          rules[i].order < rules[j].order || (rules[i].order == rules[j].order && i <= j))
  }

  predicate Admits(r: Rule, query: Rule) { r.direction == query.direction && Covers(r, query) }

  method Simulate(rules: seq<Rule>, query: Rule) returns (best: Rule, found: bool, ghost at: nat)
    ensures found <==> exists j :: 0 <= j < |rules| && Admits(rules[j], query)
    ensures found ==> Answers(rules, query, at) && best == rules[at]
  {
    hide Covers;
    best, found, at := query, false, 0;
    for i := 0 to |rules|
      invariant found <==> exists j :: 0 <= j < i && Admits(rules[j], query)
      invariant found ==> at < i && best == rules[at] && Admits(best, query)
      invariant found ==> forall j :: 0 <= j < i && Admits(rules[j], query) ==>
                  best.order < rules[j].order || (best.order == rules[j].order && at <= j)
    {
      var r := rules[i];
      if r.direction != query.direction {
        continue;
      }
      if !Covers(r, query) {
        continue;
      }
      if !found || r.order < best.order {
        best, found, at := r, true, i;
      }
    }
  }

  // Every packet of the request is decided by some rule, and that rule is the one returned or
  // stands before it, by order and then by position.
  lemma AnswerBoundsDecision(rules: seq<Rule>, query: Rule, i: nat, p: Packet) returns (d: nat)
    requires Answers(rules, query, i) && p.Valid() && Matches(query, p)
    ensures Decides(rules, d, p)
    ensures rules[d].order < rules[i].order || (rules[d].order == rules[i].order && d <= i)
  {
    CoversSound(rules[i], query);
    d := SomeDecides(rules, |rules|, i, p);
    assert rules[..|rules|] == rules;
  }

  ghost predicate SingleHost(a: Addr) { a.Parsed? && a.net.Valid() && a.net.ones == a.net.bits }

  // A request for one packet: everything named, one port, single hosts.
  ghost predicate OnePacket(query: Rule) {
    && query.protocol != "" && query.iface != "" && 0 < query.portFrom == query.portTo <= MAX_PORT
    && SingleHost(query.source) && SingleHost(query.destination)
  }

  ghost function PacketOf(query: Rule): Packet
    requires OnePacket(query)
  {
    Packet(query.direction, query.protocol, query.portFrom,
           Host(query.source.net.bits, query.source.net.ip),
           Host(query.destination.net.bits, query.destination.net.ip), query.iface)
  }

  // For a one-packet request, covering the request is matching the packet.
  lemma AdmitsIsMatch(r: Rule, query: Rule)
    requires OnePacket(query) && Readable(r)
    ensures PacketOf(query).Valid()
    ensures Admits(r, query) <==> Matches(r, PacketOf(query))
  {
    hide Pow2, Shr, EqualFold;
  }

  // So the simulation answers exactly with the first-match rule, or with none when there is none.
  lemma OnePacketSimulationExact(rules: seq<Rule>, query: Rule, i: nat)
    requires OnePacket(query) && forall j :: 0 <= j < |rules| ==> Readable(rules[j])
    ensures Answers(rules, query, i) <==> Decides(rules, i, PacketOf(query))
  {
    forall j | 0 <= j < |rules| ensures Admits(rules[j], query) <==> Matches(rules[j], PacketOf(query)) {
      AdmitsIsMatch(rules[j], query);
    }
    hide Admits, Matches;
  }
}
