// The writer of search expressions uses as few parentheses as any text of the same tree.
module QueryMinimal {
  import opened QueryText
  import opened QueryParse

  function Opens(toks: seq<Token>): nat {
    if toks == [] then 0 else (if toks[0].LParen? then 1 else 0) + Opens(toks[1..])
  }

  // The parentheses a tree needs where a node of the given level may stand.
  function Needed(q: Query, level: nat): nat
    decreases q, 1
  {
    NeededInside(q) + if Level(q) >= level then 0 else 1
  }

  function NeededInside(q: Query): nat
    decreases q, 0
  {
    match q
    case Leaf(_) => 0
    case Negation(x) => Needed(x, 2)
    case Binary(_, l, r) => Needed(l, Level(q)) + Needed(r, Level(q) + 1)
  }

  lemma {:induction false} OpensOfParts(a: seq<Token>, b: seq<Token>)
    ensures Opens(a + b) == Opens(a) + Opens(b)
  {
    if a == [] {
      assert a + b == b;
    } else {
      assert (a + b)[1..] == a[1..] + b;
      OpensOfParts(a[1..], b);
    }
  }

  lemma OpensOfOne(t: Token)
    ensures Opens([t]) == if t.LParen? then 1 else 0
  {
    assert [t][1..] == [];
  }

  lemma OpensOfOp(op: Op, implicit: bool)
    ensures Opens(OpTokens(op, implicit)) == 0
  {
    OpensOfOne(Token.And);
    OpensOfOne(Token.Or);
    OpensOfOne(Token.Nand);
    OpensOfOne(Token.Nor);
  }

  // The writer puts exactly the parentheses that are needed.
  lemma {:induction false} WriteOpens(q: Query, level: nat, implicit: bool)
    ensures Opens(Write(q, level, implicit)) == Needed(q, level)
    decreases q, 1
  {
    BodyOpens(q, implicit);
    if Level(q) < level {
      OpensOfParts([LParen] + Body(q, implicit), [RParen]);
      OpensOfParts([LParen], Body(q, implicit));
      OpensOfOne(LParen);
      OpensOfOne(RParen);
    }
  }

  lemma {:induction false} BodyOpens(q: Query, implicit: bool)
    ensures Opens(Body(q, implicit)) == NeededInside(q)
    decreases q, 0
  {
    match q
    case Leaf(text) =>
      OpensOfOne(Term(text));
    case Negation(x) =>
      OpensOfParts([Token.Not], Write(x, 2, implicit));
      OpensOfOne(Token.Not);
      WriteOpens(x, 2, implicit);
    case Binary(op, l, r) =>
      var left, right := Write(l, Level(q), implicit), Write(r, Level(q) + 1, implicit);
      OpensOfParts(left + OpTokens(op, implicit), right);
      OpensOfParts(left, OpTokens(op, implicit));
      OpensOfOp(op, implicit);
      WriteOpens(l, Level(q), implicit);
      WriteOpens(r, Level(q) + 1, implicit);
  }

  // ---- What was read cost at least as much ----

  function OpensIn(toks: seq<Token>, i: nat, j: nat): nat
    requires i <= j <= |toks|
  {
    Opens(toks[i..j])
  }

  lemma OpensSplit(toks: seq<Token>, i: nat, j: nat, k: nat)
    requires i <= j <= k <= |toks|
    ensures OpensIn(toks, i, k) == OpensIn(toks, i, j) + OpensIn(toks, j, k)
  {
    assert toks[i..k] == toks[i..j] + toks[j..k];
    OpensOfParts(toks[i..j], toks[j..k]);
  }

  lemma OpensHere(toks: seq<Token>, i: nat)
    requires i < |toks|
    ensures OpensIn(toks, i, i + 1) == if toks[i].LParen? then 1 else 0
    ensures OpensIn(toks, i, i) == 0
  {
    assert toks[i..i + 1] == [toks[i]] && toks[i..i] == [];
    OpensOfOne(toks[i]);
  }

  // The tree read from pos, if any, needs no more parentheses at the level than were read.
  ghost predicate Paid(toks: seq<Token>, pos: nat, r: Parsed, level: nat, before: nat)
    requires pos <= |toks| && (r.Node? ==> pos <= r.pos <= |toks|)
  {
    r.Node? ==> before + OpensIn(toks, pos, r.pos) >= Needed(r.query, level)
  }

  lemma NeededLess(q: Query, level: nat, higher: nat)
    requires level <= higher
    ensures Needed(q, level) <= Needed(q, higher) <= Needed(q, level) + 1
  {
  }

  lemma NeededBinary(op: Op, l: Query, r: Query)
    ensures var q := Binary(op, l, r); Needed(q, Level(q)) == Needed(l, Level(q)) + Needed(r, Level(q) + 1)
  {
  }

  lemma {:induction false} OrPaid(toks: seq<Token>, pos: nat)
    requires pos <= |toks|
    ensures Paid(toks, pos, OrAt(toks, pos), 0, 0)
    decreases |toks| - pos, 4
  {
    AndPaid(toks, pos);
    match AndAt(toks, pos)
    case Node(left, p) =>
      NeededLess(left, 0, 1);
      OrRestPaid(toks, left, p);
      if OrAt(toks, pos).Node? {
        OpensSplit(toks, pos, p, OrAt(toks, pos).pos);
      }
    case Failed(_) =>
  }

  lemma {:induction false} OrRestPaid(toks: seq<Token>, left: Query, pos: nat)
    requires pos <= |toks|
    ensures Paid(toks, pos, OrRestAt(toks, left, pos), 0, Needed(left, 0))
    decreases |toks| - pos, 3
  {
    var r := OrRestAt(toks, left, pos);
    if pos < |toks| && (toks[pos].Or? || toks[pos].Nor?) {
      AndPaid(toks, pos + 1);
      match AndAt(toks, pos + 1)
      case Node(right, p) =>
        var op := if toks[pos].Nor? then OpNor else OpOr;
        NeededBinary(op, left, right);
        OrRestPaid(toks, Binary(op, left, right), p);
        AddUp(toks, pos, p, r, 0, Needed(left, 0), Needed(right, 1), 1);
      case Failed(_) =>
    }
  }

  // One more operand of a chain, read after skip tokens of no cost.
  lemma AddUp(toks: seq<Token>, pos: nat, p: nat, r: Parsed, level: nat, left: nat, right: nat, skip: nat)
    requires skip <= 1 && pos + skip <= p <= |toks| && (skip == 1 ==> !toks[pos].LParen?)
    requires OpensIn(toks, pos + skip, p) >= right
    requires r.Node? ==> p <= r.pos <= |toks|
    requires Paid(toks, p, r, level, left + right)
    ensures Paid(toks, pos, r, level, left)
  {
    hide OpensIn, Needed;
    if r.Node? {
      OpensSplit(toks, pos, p, r.pos);
      OpensSplit(toks, pos, pos + skip, p);
      if skip == 1 {
        OpensHere(toks, pos);
      }
    }
  }

  lemma {:induction false} AndPaid(toks: seq<Token>, pos: nat)
    requires pos <= |toks|
    ensures Paid(toks, pos, AndAt(toks, pos), 1, 0)
    decreases |toks| - pos, 3
  {
    NotPaid(toks, pos);
    match NotAt(toks, pos)
    case Node(left, p) =>
      NeededLess(left, 1, 2);
      AndRestPaid(toks, left, p);
      if AndAt(toks, pos).Node? {
        OpensSplit(toks, pos, p, AndAt(toks, pos).pos);
      }
    case Failed(_) =>
  }

  lemma {:induction false} AndRestPaid(toks: seq<Token>, left: Query, pos: nat)
    requires pos <= |toks|
    ensures Paid(toks, pos, AndRestAt(toks, left, pos), 1, Needed(left, 1))
    decreases |toks| - pos, 2
  {
    var r := AndRestAt(toks, left, pos);
    if pos < |toks| && (toks[pos].And? || toks[pos].Nand?) {
      NotPaid(toks, pos + 1);
      match NotAt(toks, pos + 1)
      case Node(right, p) =>
        var op := if toks[pos].Nand? then OpNand else OpAnd;
        NeededBinary(op, left, right);
        AndRestPaid(toks, Binary(op, left, right), p);
        AddUp(toks, pos, p, r, 1, Needed(left, 1), Needed(right, 2), 1);
      case Failed(_) =>
    } else if pos < |toks| && StartsOperand(toks[pos]) {
      NotPaid(toks, pos);
      match NotAt(toks, pos)
      case Node(right, p) =>
        NeededBinary(OpAnd, left, right);
        AndRestPaid(toks, Binary(OpAnd, left, right), p);
        AddUp(toks, pos, p, r, 1, Needed(left, 1), Needed(right, 2), 0);
      case Failed(_) =>
    }
  }

  lemma {:induction false} NotPaid(toks: seq<Token>, pos: nat)
    requires pos <= |toks|
    ensures Paid(toks, pos, NotAt(toks, pos), 2, 0)
    decreases |toks| - pos, 1
  {
    if pos < |toks| && toks[pos].Not? {
      NotPaid(toks, pos + 1);
      match NotAt(toks, pos + 1)
      case Node(operand, p) => OpensSplit(toks, pos, pos + 1, p);
      case Failed(_) =>
    } else if pos < |toks| && toks[pos].LParen? {
      OrPaid(toks, pos + 1);
      match OrAt(toks, pos + 1)
      case Node(inner, p) =>
        NeededLess(inner, 0, 2);
        if p < |toks| {
          OpensSplit(toks, pos, pos + 1, p + 1);
          OpensSplit(toks, pos + 1, p, p + 1);
          OpensHere(toks, pos);
        }
      case Failed(_) =>
    }
  }

  // Any token list of a tree holds at least as many opening parentheses as the one written for it.
  lemma FewestParentheses(toks: seq<Token>, q: Query, implicit: bool)
    requires OrAt(toks, 0) == Node(q, |toks|)
    ensures Opens(toks) >= Opens(Write(q, 0, implicit))
  {
    OrPaid(toks, 0);
    WriteOpens(q, 0, implicit);
    assert toks[0..|toks|] == toks;
  }
}
