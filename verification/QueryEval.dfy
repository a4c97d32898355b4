// What a search expression means, and which of its terms it mentions positively.
module QueryEval {
  import opened Letters
  import opened QueryParse

  predicate OccursAt(s: string, part: string, i: nat) {
    i + |part| <= |s| && s[i..i + |part|] == part
  }

  predicate Contains(s: string, part: string) {
    exists i: nat :: i <= |s| && OccursAt(s, part, i)
  }

  // holds says of each lower-cased term whether it occurs.
  predicate Eval(q: Query, holds: string -> bool) {
    match q
    case Leaf(text) => holds(Lower(text))
    case Negation(x) => !Eval(x, holds)
    case Binary(op, l, r) =>
      match op
      case OpAnd => Eval(l, holds) && Eval(r, holds)
      case OpOr => Eval(l, holds) || Eval(r, holds)
      case OpNand => !Eval(l, holds) || !Eval(r, holds)
      case OpNor => !Eval(l, holds) && !Eval(r, holds)
  }

  predicate Match(root: Option, source: string, message: string) {
    match root
    case NoQuery => true
    case SomeQuery(q) =>
      Eval(q, term => Contains(Lower(message), term) || Contains(Lower(source), term))
  }

  datatype Option = NoQuery | SomeQuery(query: Query)

  // The same letter, whatever its case.
  predicate SameLetter(c: char, d: char) {
    c == d || ('A' <= c <= 'Z' && d == c - 'A' + 'a') || ('a' <= c <= 'z' && d == c - 'a' + 'A')
  }

  // The text stands in s from place i on, whatever the case of its letters.
  predicate StandsAt(s: string, text: string, i: nat) {
    i + |text| <= |s| && forall k :: 0 <= k < |text| ==> SameLetter(s[i + k], text[k])
  }

  // A term matches where it stands in the message or in the source, in any case.
  lemma LeafMatches(text: string, source: string, message: string)
    ensures Match(SomeQuery(Leaf(text)), source, message) <==>
              (exists i: nat :: StandsAt(message, text, i)) || (exists i: nat :: StandsAt(source, text, i))
  {
    ContainsExactly(message, text);
    ContainsExactly(source, text);
  }

  lemma ContainsExactly(s: string, text: string)
    ensures Contains(Lower(s), Lower(text)) <==> exists i: nat :: StandsAt(s, text, i)
  {
    if Contains(Lower(s), Lower(text)) {
      var i: nat :| i <= |s| && OccursAt(Lower(s), Lower(text), i);
      OccursExactly(s, text, i);
    }
    if i: nat :| StandsAt(s, text, i) {
      OccursExactly(s, text, i);
    }
  }

  lemma OccursExactly(s: string, text: string, i: nat)
    ensures OccursAt(Lower(s), Lower(text), i) <==> StandsAt(s, text, i)
  {
    if i + |text| <= |s| {
      var part := Lower(s)[i..i + |text|];
      forall k | 0 <= k < |text| ensures part[k] == Lower(text)[k] <==> SameLetter(s[i + k], text[k]) {
        assert part[k] == LowerChar(s[i + k]);
      }
      hide Lower;
      if StandsAt(s, text, i) {
        assert part == Lower(text);
      }
    }
  }

  // What the connectives mean for an entry.
  lemma ConnectivesMatch(l: Query, r: Query, source: string, message: string)
    ensures var left, right := Match(SomeQuery(l), source, message), Match(SomeQuery(r), source, message);
            && (Match(SomeQuery(Binary(OpAnd, l, r)), source, message) <==> left && right)
            && (Match(SomeQuery(Binary(OpOr, l, r)), source, message) <==> left || right)
            && (Match(SomeQuery(Binary(OpNand, l, r)), source, message) <==> !(left && right))
            && (Match(SomeQuery(Binary(OpNor, l, r)), source, message) <==> !(left || right))
            && (Match(SomeQuery(Negation(l)), source, message) <==> !left)
    ensures Match(NoQuery, source, message)
  {
  }

  // ---- Negation normal form ----

  datatype Nnf = Literal(text: string, positive: bool) | All(l: Nnf, r: Nnf) | Any(l: Nnf, r: Nnf)

  // The normal form of q, or of its negation.
  function Normal(q: Query, negated: bool): Nnf {
    match q
    case Leaf(text) => Literal(text, !negated)
    case Negation(x) => Normal(x, !negated)
    case Binary(op, l, r) =>
      match op
      case OpAnd => if negated then Any(Normal(l, true), Normal(r, true)) else All(Normal(l, false), Normal(r, false))
      case OpOr => if negated then All(Normal(l, true), Normal(r, true)) else Any(Normal(l, false), Normal(r, false))
      case OpNand => if negated then All(Normal(l, false), Normal(r, false)) else Any(Normal(l, true), Normal(r, true))
      case OpNor => if negated then Any(Normal(l, false), Normal(r, false)) else All(Normal(l, true), Normal(r, true))
  }

  predicate EvalNnf(n: Nnf, holds: string -> bool) {
    match n
    case Literal(text, positive) => holds(Lower(text)) == positive
    case All(l, r) => EvalNnf(l, holds) && EvalNnf(r, holds)
    case Any(l, r) => EvalNnf(l, holds) || EvalNnf(r, holds)
  }

  lemma {:induction false} NormalEquivalent(q: Query, negated: bool, holds: string -> bool)
    ensures EvalNnf(Normal(q, negated), holds) == (Eval(q, holds) != negated)
  {
    match q
    case Leaf(_) =>
    case Negation(x) => NormalEquivalent(x, !negated, holds);
    case Binary(op, l, r) =>
      var below := if op == OpNand || op == OpNor then !negated else negated;
      NormalEquivalent(l, below, holds);
      NormalEquivalent(r, below, holds);
  }

  // The literals of one sign, left to right.
  function Literals(n: Nnf, positive: bool): seq<string> {
    match n
    case Literal(text, p) => if p == positive then [text] else []
    case All(l, r) => Literals(l, positive) + Literals(r, positive)
    case Any(l, r) => Literals(l, positive) + Literals(r, positive)
  }

  // ---- Monotonicity ----

  // From before to after, positively mentioned terms only appear and negatively mentioned ones only vanish.
  ghost predicate Favours(n: Nnf, before: string -> bool, after: string -> bool) {
    && (forall t :: t in Literals(n, true) && before(Lower(t)) ==> after(Lower(t)))
    && (forall t :: t in Literals(n, false) && after(Lower(t)) ==> before(Lower(t)))
  }

  lemma {:induction false} NnfMonotone(n: Nnf, before: string -> bool, after: string -> bool)
    requires Favours(n, before, after) && EvalNnf(n, before)
    ensures EvalNnf(n, after)
  {
    match n
    case Literal(text, positive) =>
      assert text in Literals(n, positive);
    case All(l, r) =>
      NnfMonotone(l, before, after);
      NnfMonotone(r, before, after);
    case Any(l, r) =>
      if EvalNnf(l, before) {
        NnfMonotone(l, before, after);
      } else {
        NnfMonotone(r, before, after);
      }
  }

  // Such a change never turns a match into a non-match.
  lemma MatchMonotone(q: Query, before: string -> bool, after: string -> bool)
    requires Favours(Normal(q, false), before, after) && Eval(q, before)
    ensures Eval(q, after)
  {
    NormalEquivalent(q, false, before);
    NormalEquivalent(q, false, after);
    NnfMonotone(Normal(q, false), before, after);
  }

  // A query without negative literals matches whenever every positive one occurs; a match of a
  // query always rests on a positive literal that occurs or a negative one that does not.
  lemma {:induction false} NnfWitness(n: Nnf, holds: string -> bool)
    requires EvalNnf(n, holds)
    ensures (exists t :: t in Literals(n, true) && holds(Lower(t)))
        || (exists t :: t in Literals(n, false) && !holds(Lower(t)))
  {
    match n
    case Literal(text, positive) =>
      assert text in Literals(n, positive);
    case All(l, r) =>
      NnfWitness(l, holds);
    case Any(l, r) =>
      if EvalNnf(l, holds) {
        NnfWitness(l, holds);
      } else {
        NnfWitness(r, holds);
      }
  }

  // ---- Collecting the positive terms ----

  // terms appended to out, skipping those already listed up to case.
  function AddNew(out: seq<string>, terms: seq<string>): seq<string> {
    if terms == [] then out
    else
      var sofar := AddNew(out, terms[..|terms| - 1]);
      if Lower(terms[|terms| - 1]) in Folded(sofar) then sofar else sofar + [terms[|terms| - 1]]
  }

  function Folded(terms: seq<string>): set<string> { set t | t in terms :: Lower(t) }

  lemma {:induction false} AddNewTwice(out: seq<string>, a: seq<string>, b: seq<string>)
    ensures AddNew(AddNew(out, a), b) == AddNew(out, a + b)
  {
    if b == [] {
      assert a + b == a;
    } else {
      AddNewTwice(out, a, b[..|b| - 1]);
      assert (a + b)[..|a + b| - 1] == a + b[..|b| - 1];
    }
  }

  ghost predicate DistinctFolded(terms: seq<string>) {
    forall i, j :: 0 <= i < j < |terms| ==> Lower(terms[i]) != Lower(terms[j])
  }

  // The result mentions exactly the given terms up to case, each once, as first written.
  lemma {:induction false} AddNewLists(terms: seq<string>)
    ensures var out := AddNew([], terms);
            && Folded(out) == Folded(terms) && DistinctFolded(out)
            && (forall t :: t in out ==> t in terms)
  {
    if terms != [] {
      var n := |terms| - 1;
      AddNewLists(terms[..n]);
      assert terms == terms[..n] + [terms[n]];
      var sofar := AddNew([], terms[..n]);
      assert Folded(terms) == Folded(terms[..n]) + {Lower(terms[n])};
      assert Folded(sofar + [terms[n]]) == Folded(sofar) + {Lower(terms[n])};
      forall i | 0 <= i < |sofar| ensures Lower(sofar[i]) in Folded(sofar) {
        assert sofar[i] in sofar;
      }
    }
  }

  // The list keeps what it has, and grows at the end by a term that none in it equals up to case.
  lemma AddNewExactly(out: seq<string>, t: string)
    ensures AddNew(out, []) == out
    ensures AddNew(out, [t]) == if exists x :: x in out && Lower(x) == Lower(t) then out else out + [t]
  {
    assert [t][..0] == [];
    if x :| x in out && Lower(x) == Lower(t) {
      assert Lower(x) in Folded(out);
    }
  }

  // What PositiveTerms lists for a query, and what its negative mentions are.
  function Highlighted(q: Query): seq<string> { AddNew([], Literals(Normal(q, false), true)) }

  function Excluded(q: Query): seq<string> { Literals(Normal(q, false), false) }

  // The list being filled and the lower-cased terms already in it.
  class Collector {
    var out: seq<string>
    var seen: set<string>

    ghost predicate Valid() reads this { seen == Folded(out) }

    constructor ()
      ensures Valid() && out == []
    {
      out, seen := [], {};
    }

    method Collect(q: Query, negated: bool)
      requires Valid()
      modifies this
      ensures Valid()
      ensures out == AddNew(old(out), Literals(Normal(q, negated), true))
      decreases q
    {
      match q
      case Leaf(text) =>
        if negated {
          return;
        }
        var key := Lower(text);
        assert [text][..0] == [];
        if key in seen {
          return;
        }
        seen := seen + {key};
        out := out + [text];
      case Negation(operand) =>
        Collect(operand, !negated);
      case Binary(op, left, right) =>
        var childNegated := negated;
        if op == OpNand || op == OpNor {
          childNegated := !negated;
        }
        AddNewTwice(out, Literals(Normal(left, childNegated), true), Literals(Normal(right, childNegated), true));
        Collect(left, childNegated);
        Collect(right, childNegated);
    }
  }

  method PositiveTerms(root: Option) returns (terms: seq<string>)
    ensures root.NoQuery? ==> terms == []
    ensures root.SomeQuery? ==> terms == Highlighted(root.query)
    ensures root.SomeQuery? ==>
              Folded(terms) == Folded(Literals(Normal(root.query, false), true)) && DistinctFolded(terms)
  {
    if root.NoQuery? {
      return [];
    }
    var c := new Collector();
    c.Collect(root.query, false);
    AddNewLists(Literals(Normal(root.query, false), true));
    terms := c.out;
  }

  predicate Occurs(term: string, source: string, message: string) {
    Contains(Lower(message), Lower(term)) || Contains(Lower(source), Lower(term))
  }

  // An entry that matches holds a highlighted term, or lacks an excluded one.
  lemma MatchExplained(q: Query, source: string, message: string)
    requires Match(SomeQuery(q), source, message)
    ensures (exists t :: t in Highlighted(q) && Occurs(t, source, message)) ||
            (exists t :: t in Excluded(q) && !Occurs(t, source, message))
  {
    var holds := (term: string) => Contains(Lower(message), term) || Contains(Lower(source), term);
    var n := Normal(q, false);
    NormalEquivalent(q, false, holds);
    SameEval(q, source, message, holds);
    NnfWitness(n, holds);
    AddNewLists(Literals(n, true));
    hide Contains, Literals, AddNew, Normal;
    if t :| t in Literals(n, true) && holds(Lower(t)) {
      assert Lower(t) in Folded(Literals(n, true));
      var u :| u in Highlighted(q) && Lower(u) == Lower(t);
      assert Occurs(u, source, message);
    } else {
      var t :| t in Literals(n, false) && !holds(Lower(t));
      assert t in Excluded(q) && !Occurs(t, source, message);
    }
  }

  lemma {:induction false} SameEval(q: Query, source: string, message: string, holds: string -> bool)
    requires forall term :: holds(term) == (Contains(Lower(message), term) || Contains(Lower(source), term))
    ensures Match(SomeQuery(q), source, message) == Eval(q, holds)
  {
    SameTruth(q, term => Contains(Lower(message), term) || Contains(Lower(source), term), holds);
  }

  lemma {:induction false} SameTruth(q: Query, f: string -> bool, g: string -> bool)
    requires forall term :: f(term) == g(term)
    ensures Eval(q, f) == Eval(q, g)
  {
    match q {
      case Leaf(_) =>
      case Negation(x) => SameTruth(x, f, g);
      case Binary(_, l, r) =>
        SameTruth(l, f, g);
        SameTruth(r, f, g);
    }
  }

  // Any text that holds everything the query highlights and nothing it excludes matches.
  lemma {:induction false} AllTermsMatch(n: Nnf, holds: string -> bool)
    requires forall t :: t in Literals(n, true) ==> holds(Lower(t))
    requires forall t :: t in Literals(n, false) ==> !holds(Lower(t))
    ensures EvalNnf(n, holds)
  {
    match n {
      case Literal(_, _) =>
      case All(l, r) =>
        AllTermsMatch(l, holds);
        AllTermsMatch(r, holds);
      case Any(l, _) =>
        AllTermsMatch(l, holds);
    }
  }

  lemma MatchEnsured(q: Query, source: string, message: string)
    requires forall t :: t in Highlighted(q) ==> Occurs(t, source, message)
    requires forall t :: t in Excluded(q) ==> !Occurs(t, source, message)
    ensures Match(SomeQuery(q), source, message)
  {
    var holds := (term: string) => Contains(Lower(message), term) || Contains(Lower(source), term);
    var n := Normal(q, false);
    NormalEquivalent(q, false, holds);
    SameEval(q, source, message, holds);
    AddNewLists(Literals(n, true));
    hide Contains, Literals, AddNew, Normal;
    forall t | t in Literals(n, true) ensures holds(Lower(t)) {
      assert Lower(t) in Folded(Literals(n, true));
      var u :| u in Highlighted(q) && Lower(u) == Lower(t);
      assert Occurs(u, source, message);
    }
    forall t | t in Literals(n, false) ensures !holds(Lower(t)) {
      assert !Occurs(t, source, message);
    }
    AllTermsMatch(n, holds);
  }
}
