// The recursive-descent parser of search expressions, and the writer it inverts.
module QueryParse {
  import opened Trimming
  import opened QueryText

  datatype Op = OpAnd | OpOr | OpNand | OpNor
  datatype Query = Leaf(text: string) | Negation(operand: Query) | Binary(op: Op, left: Query, right: Query)

  // A node together with the position after it.
  datatype Parsed = Node(query: Query, pos: nat) | Failed(error: Error)

  predicate StartsOperand(t: Token) { t.Term? || t.Not? || t.LParen? }

  // ---- The grammar as functions of the tokens and a position ----
  //   or := and ((OR | NOR) and)*      and := not ((AND | NAND)? not)*
  //   not := NOT not | primary         primary := '(' or ')' | TERM

  function OrAt(toks: seq<Token>, pos: nat): (r: Parsed)
    requires pos <= |toks|
    ensures r.Node? ==> pos < r.pos <= |toks|
    decreases |toks| - pos, 4
  {
    match AndAt(toks, pos)
    case Node(left, p) => OrRestAt(toks, left, p)
    case Failed(e) => Failed(e)
  }

  function OrRestAt(toks: seq<Token>, left: Query, pos: nat): (r: Parsed)
    requires pos <= |toks|
    ensures r.Node? ==> pos <= r.pos <= |toks|
    decreases |toks| - pos, 3
  {
    if pos < |toks| && (toks[pos].Or? || toks[pos].Nor?) then
      match AndAt(toks, pos + 1)
      case Node(right, p) => OrRestAt(toks, Binary(if toks[pos].Nor? then OpNor else OpOr, left, right), p)
      case Failed(e) => Failed(e)
    else Node(left, pos)
  }

  function AndAt(toks: seq<Token>, pos: nat): (r: Parsed)
    requires pos <= |toks|
    ensures r.Node? ==> pos < r.pos <= |toks|
    decreases |toks| - pos, 3
  {
    match NotAt(toks, pos)
    case Node(left, p) => AndRestAt(toks, left, p)
    case Failed(e) => Failed(e)
  }

  function AndRestAt(toks: seq<Token>, left: Query, pos: nat): (r: Parsed)
    requires pos <= |toks|
    ensures r.Node? ==> pos <= r.pos <= |toks|
    decreases |toks| - pos, 2
  {
    if pos < |toks| && (toks[pos].And? || toks[pos].Nand?) then
      match NotAt(toks, pos + 1)
      case Node(right, p) => AndRestAt(toks, Binary(if toks[pos].Nand? then OpNand else OpAnd, left, right), p)
      case Failed(e) => Failed(e)
    else if pos < |toks| && StartsOperand(toks[pos]) then
      match NotAt(toks, pos)
      case Node(right, p) => AndRestAt(toks, Binary(OpAnd, left, right), p)
      case Failed(e) => Failed(e)
    else Node(left, pos)
  }

  function NotAt(toks: seq<Token>, pos: nat): (r: Parsed)
    requires pos <= |toks|
    ensures r.Node? ==> pos < r.pos <= |toks|
    decreases |toks| - pos, 1
  {
    if pos < |toks| && toks[pos].Not? then
      match NotAt(toks, pos + 1)
      case Node(operand, p) => Node(Negation(operand), p)
      case Failed(e) => Failed(e)
    else PrimaryAt(toks, pos)
  }

  function PrimaryAt(toks: seq<Token>, pos: nat): (r: Parsed)
    requires pos <= |toks|
    ensures r.Node? ==> pos < r.pos <= |toks|
    decreases |toks| - pos, 0
  {
    if pos == |toks| then Failed(EndsUnexpectedly)
    else if toks[pos].Term? then Node(Leaf(toks[pos].text), pos + 1)
    else if toks[pos].LParen? then
      match OrAt(toks, pos + 1)
      case Node(inner, p) => if p < |toks| && toks[p].RParen? then Node(inner, p + 1) else Failed(MissingClose)
      case Failed(e) => Failed(e)
    else Failed(ExpectedOperand)
  }

  function Parse(expr: string): Result<Query> {
    var s := TrimSpace(expr);
    if s == "" then Err(EmptyExpression)
    else
      match Tokens(s)
      case Err(e) => Err(e)
      case Ok(toks) =>
        match OrAt(toks, 0)
        case Failed(e) => Err(e)
        case Node(root, p) => if p != |toks| then Err(Unexpected(toks[p])) else Ok(root)
  }

  // ---- The parser as it runs: one cursor moving over the tokens ----

  class Parser {
    const toks: seq<Token>
    var pos: nat

    ghost predicate Valid() reads this { pos <= |toks| }

    constructor (toks: seq<Token>)
      ensures this.toks == toks && pos == 0
    {
      this.toks := toks;
      pos := 0;
    }

    // The outcome agrees with the grammar; on success the cursor stands behind what was read.
    ghost predicate Agrees(r: Result<Query>, spec: Parsed)
      reads this
    {
      match r
      case Ok(q) => spec == Node(q, pos)
      case Err(e) => spec == Failed(e)
    }

    method ParseOr() returns (r: Result<Query>)
      requires Valid()
      modifies this`pos
      ensures Valid() && Agrees(r, OrAt(toks, old(pos)))
      ensures r.Ok? ==> old(pos) < pos
      decreases |toks| - pos, 4
    {
      r := ParseAnd();
      if r.Err? {
        return;
      }
      var left := r.value;
      while pos < |toks| && (toks[pos].Or? || toks[pos].Nor?)
        invariant Valid() && old(pos) < pos
        invariant OrRestAt(toks, left, pos) == OrAt(toks, old(pos))
        decreases |toks| - pos
      {
        var tok := toks[pos];
        pos := pos + 1;
        r := ParseAnd();
        if r.Err? {
          return;
        }
        left := Binary(if tok.Nor? then OpNor else OpOr, left, r.value);
      }
      r := Ok(left);
    }

    method ParseAnd() returns (r: Result<Query>)
      requires Valid()
      modifies this`pos
      ensures Valid() && Agrees(r, AndAt(toks, old(pos)))
      ensures r.Ok? ==> old(pos) < pos
      decreases |toks| - pos, 3
    {
      r := ParseNot();
      if r.Err? {
        return;
      }
      var left := r.value;
      while pos < |toks|
        invariant Valid() && old(pos) < pos
        invariant AndRestAt(toks, left, pos) == AndAt(toks, old(pos))
        decreases |toks| - pos
      {
        var tok := toks[pos];
        if tok.And? || tok.Nand? {
          pos := pos + 1;
          r := ParseNot();
          if r.Err? {
            return;
          }
          left := Binary(if tok.Nand? then OpNand else OpAnd, left, r.value);
        } else if StartsOperand(tok) {
          r := ParseNot();
          if r.Err? {
            return;
          }
          left := Binary(OpAnd, left, r.value);
        } else {
          break;
        }
      }
      r := Ok(left);
    }

    method ParseNot() returns (r: Result<Query>)
      requires Valid()
      modifies this`pos
      ensures Valid() && Agrees(r, NotAt(toks, old(pos)))
      ensures r.Ok? ==> old(pos) < pos
      decreases |toks| - pos, 2
    {
      if pos < |toks| && toks[pos].Not? {
        pos := pos + 1;
        r := ParseNot();
        if r.Ok? {
          r := Ok(Negation(r.value));
        }
      } else {
        r := ParsePrimary();
      }
    }

    method ParsePrimary() returns (r: Result<Query>)
      requires Valid()
      modifies this`pos
      ensures Valid() && Agrees(r, PrimaryAt(toks, old(pos)))
      ensures r.Ok? ==> old(pos) < pos
      decreases |toks| - pos, 1
    {
      if pos == |toks| {
        return Err(EndsUnexpectedly);
      }
      var tok := toks[pos];
      if tok.Term? {
        pos := pos + 1;
        return Ok(Leaf(tok.text));
      } else if tok.LParen? {
        pos := pos + 1;
        r := ParseOr();
        if r.Err? {
          return;
        }
        if pos == |toks| || !toks[pos].RParen? {
          return Err(MissingClose);
        }
        pos := pos + 1;
      } else {
        return Err(ExpectedOperand);
      }
    }
  }

  method ParseQuery(expr: string) returns (r: Result<Query>)
    ensures r == Parse(expr)
  {
    var s := TrimSpace(expr);
    if s == "" {
      return Err(EmptyExpression);
    }
    var toks := TokenizeQuery(s);
    if toks.Err? {
      return Err(toks.error);
    }
    var p := new Parser(toks.value);
    r := p.ParseOr();
    if r.Ok? && p.pos != |p.toks| {
      return Err(Unexpected(p.toks[p.pos]));
    }
  }

  // ---- The writer: parentheses only where the precedence needs them ----

  function Level(q: Query): nat {
    match q
    case Leaf(_) => 3
    case Negation(_) => 2
    case Binary(op, _, _) => if op == OpAnd || op == OpNand then 1 else 0
  }

  // implicit: a plain AND is left unwritten.
  function OpTokens(op: Op, implicit: bool): seq<Token> {
    match op
    case OpAnd => if implicit then [] else [Token.And]
    case OpOr => [Token.Or]
    case OpNand => [Token.Nand]
    case OpNor => [Token.Nor]
  }

  function Body(q: Query, implicit: bool): seq<Token>
    decreases q, 0
  {
    match q
    case Leaf(text) => [Term(text)]
    case Negation(x) => [Token.Not] + Write(x, 2, implicit)
    case Binary(op, l, r) => Write(l, Level(q), implicit) + OpTokens(op, implicit) + Write(r, Level(q) + 1, implicit)
  }

  function Write(q: Query, level: nat, implicit: bool): seq<Token>
    decreases q, 1
  {
    if Level(q) >= level then Body(q, implicit) else [LParen] + Body(q, implicit) + [RParen]
  }

  // w stands in toks at pos.
  ghost predicate At(toks: seq<Token>, pos: nat, w: seq<Token>) {
    pos + |w| <= |toks| && toks[pos..pos + |w|] == w
  }

  lemma AtParts(toks: seq<Token>, pos: nat, a: seq<Token>, b: seq<Token>)
    requires At(toks, pos, a + b)
    ensures At(toks, pos, a) && At(toks, pos + |a|, b)
    ensures a != [] ==> toks[pos] == a[0]
    ensures b != [] ==> toks[pos + |a|] == b[0]
  {
    var w := toks[pos..pos + |a + b|];
    assert w[..|a|] == toks[pos..pos + |a|] && w[|a|..] == toks[pos + |a|..pos + |a| + |b|];
    assert (a + b)[..|a|] == a && (a + b)[|a|..] == b;
  }

  // An AND chain ends here.
  predicate AndStops(toks: seq<Token>, pos: nat) {
    pos < |toks| ==> !toks[pos].And? && !toks[pos].Nand? && !StartsOperand(toks[pos])
  }

  lemma {:induction false} WriteStarts(q: Query, level: nat, implicit: bool)
    ensures Write(q, level, implicit) != [] && StartsOperand(Write(q, level, implicit)[0])
    decreases q
  {
    if q.Binary? {
      WriteStarts(q.left, Level(q), implicit);
    }
  }

  lemma AtThree(toks: seq<Token>, pos: nat, a: seq<Token>, b: seq<Token>, c: seq<Token>)
    requires At(toks, pos, a + b + c)
    ensures At(toks, pos, a) && At(toks, pos + |a|, b) && At(toks, pos + |a| + |b|, c)
    ensures pos + |a| + |b| + |c| <= |toks|
  {
    AtParts(toks, pos, a + b, c);
    AtParts(toks, pos, a, b);
  }

  lemma AtFirst(toks: seq<Token>, pos: nat, w: seq<Token>)
    requires At(toks, pos, w) && w != []
    ensures pos < |toks| && toks[pos] == w[0]
  {
    assert toks[pos..pos + |w|][0] == toks[pos];
  }

  lemma AndRestStep(toks: seq<Token>, left: Query, pos: nat, op: Op, implicit: bool, right: Query, end: nat)
    requires op == OpAnd || op == OpNand
    requires At(toks, pos, OpTokens(op, implicit))
    requires var p := pos + |OpTokens(op, implicit)|;
             p < |toks| && StartsOperand(toks[p]) && NotAt(toks, p) == Node(right, end)
    ensures AndRestAt(toks, left, pos) == AndRestAt(toks, Binary(op, left, right), end)
  {
    if OpTokens(op, implicit) != [] {
      AtFirst(toks, pos, OpTokens(op, implicit));
    }
  }

  lemma OrRestStep(toks: seq<Token>, left: Query, pos: nat, op: Op, implicit: bool, right: Query, end: nat)
    requires op == OpOr || op == OpNor
    requires At(toks, pos, OpTokens(op, implicit))
    requires AndAt(toks, pos + 1) == Node(right, end)
    ensures OrRestAt(toks, left, pos) == OrRestAt(toks, Binary(op, left, right), end)
    ensures AndStops(toks, pos)
  {
    AtFirst(toks, pos, OpTokens(op, implicit));
  }

  lemma WriteBinary(q: Query, level: nat, implicit: bool)
    requires q.Binary?
    ensures level <= Level(q) ==>
              Write(q, level, implicit) ==
                Write(q.left, Level(q), implicit) + OpTokens(q.op, implicit) + Write(q.right, Level(q) + 1, implicit)
    ensures level > Level(q) ==> Write(q, level, implicit) == [LParen] + Write(q, 0, implicit) + [RParen]
  {
  }

  lemma LevelFacts(q: Query, implicit: bool)
    ensures Level(q) <= 1 <==> q.Binary?
    ensures Level(q) == 1 ==> q.op == OpAnd || q.op == OpNand
    ensures Level(q) == 0 ==> (q.op == OpOr || q.op == OpNor) && |OpTokens(q.op, implicit)| == 1
    ensures Level(q) != 1 ==> Write(q, 1, implicit) == Write(q, 2, implicit)
    ensures Level(q) != 0 ==> Write(q, 0, implicit) == Write(q, 1, implicit)
  {
  }

  lemma AtFits(toks: seq<Token>, pos: nat, w: seq<Token>)
    requires At(toks, pos, w)
    ensures pos + |w| <= |toks|
  {
  }

  lemma AndUnfold(toks: seq<Token>, pos: nat)
    requires pos <= |toks| && NotAt(toks, pos).Node?
    ensures AndAt(toks, pos) == AndRestAt(toks, NotAt(toks, pos).query, NotAt(toks, pos).pos)
  {
  }

  lemma OrUnfold(toks: seq<Token>, pos: nat)
    requires pos <= |toks| && AndAt(toks, pos).Node?
    ensures OrAt(toks, pos) == OrRestAt(toks, AndAt(toks, pos).query, AndAt(toks, pos).pos)
  {
  }

  lemma {:induction false} ReadNot(q: Query, toks: seq<Token>, pos: nat, implicit: bool)
    requires At(toks, pos, Write(q, 2, implicit))
    ensures NotAt(toks, pos) == Node(q, pos + |Write(q, 2, implicit)|)
    decreases q, if q.Binary? then (if Level(q) == 1 then 2 else 1) else 0
  {
    hide *;
    match q
    case Leaf(_) =>
      ReadLeaf(q, toks, pos, implicit);
    case Negation(x) =>
      WriteNegation(q, 2, implicit);
      AtParts(toks, pos, [Token.Not], Write(x, 2, implicit));
      AtFits(toks, pos + 1, Write(x, 2, implicit));
      ReadNot(x, toks, pos + 1, implicit);
      NotUnfold(toks, pos);
    case Binary(_, _, _) =>
      var body := Write(q, 0, implicit);
      LevelFacts(q, implicit);
      WriteBinary(q, 2, implicit);
      AtThree(toks, pos, [LParen], body, [RParen]);
      AtFirst(toks, pos, [LParen]);
      AtFirst(toks, pos + 1 + |body|, [RParen]);
      OrRestStops(toks, q, pos + 1 + |body|);
      ReadOr(q, toks, pos + 1, implicit);
      ParenUnfold(toks, pos);
  }

  lemma ReadLeaf(q: Query, toks: seq<Token>, pos: nat, implicit: bool)
    requires q.Leaf? && At(toks, pos, Write(q, 2, implicit))
    ensures pos < |toks| && NotAt(toks, pos) == Node(q, pos + |Write(q, 2, implicit)|)
  {
    assert Write(q, 2, implicit) == Body(q, implicit) == [Term(q.text)];
    AtFirst(toks, pos, Write(q, 2, implicit));
  }

  lemma WriteNegation(q: Query, level: nat, implicit: bool)
    requires q.Negation? && level <= 2
    ensures Write(q, level, implicit) == [Token.Not] + Write(q.operand, 2, implicit)
  {
  }

  lemma NotUnfold(toks: seq<Token>, pos: nat)
    requires pos < |toks| && toks[pos].Not? && NotAt(toks, pos + 1).Node?
    ensures NotAt(toks, pos) == Node(Negation(NotAt(toks, pos + 1).query), NotAt(toks, pos + 1).pos)
  {
  }

  lemma ParenUnfold(toks: seq<Token>, pos: nat)
    requires pos < |toks| && toks[pos].LParen?
    ensures var r := OrAt(toks, pos + 1);
            r.Node? && r.pos < |toks| && toks[r.pos].RParen? ==> NotAt(toks, pos) == Node(r.query, r.pos + 1)
  {
  }

  lemma OrRestStops(toks: seq<Token>, q: Query, pos: nat)
    requires pos < |toks| && toks[pos].RParen?
    ensures OrRestAt(toks, q, pos) == Node(q, pos) && AndStops(toks, pos)
  {
  }

  lemma {:induction false} ReadAnd(q: Query, toks: seq<Token>, pos: nat, implicit: bool)
    requires At(toks, pos, Write(q, 1, implicit))
    ensures pos + |Write(q, 1, implicit)| <= |toks|
    ensures AndAt(toks, pos) == AndRestAt(toks, q, pos + |Write(q, 1, implicit)|)
    decreases q, if q.Binary? then (if Level(q) == 1 then 0 else 2) else 1
  {
    hide *;
    LevelFacts(q, implicit);
    AtFits(toks, pos, Write(q, 1, implicit));
    if Level(q) != 1 {
      ReadNot(q, toks, pos, implicit);
      AndUnfold(toks, pos);
    } else {
      var l, op, r := Write(q.left, 1, implicit), OpTokens(q.op, implicit), Write(q.right, 2, implicit);
      WriteBinary(q, 1, implicit);
      WriteStarts(q.right, 2, implicit);
      AtThree(toks, pos, l, op, r);
      ReadAnd(q.left, toks, pos, implicit);
      ReadNot(q.right, toks, pos + |l| + |op|, implicit);
      AtFirst(toks, pos + |l| + |op|, r);
      AndRestStep(toks, q.left, pos + |l|, q.op, implicit, q.right, pos + |l| + |op| + |r|);
    }
  }

  lemma {:induction false} ReadOr(q: Query, toks: seq<Token>, pos: nat, implicit: bool)
    requires At(toks, pos, Write(q, 0, implicit))
    requires AndStops(toks, pos + |Write(q, 0, implicit)|)
    ensures pos + |Write(q, 0, implicit)| <= |toks|
    ensures OrAt(toks, pos) == OrRestAt(toks, q, pos + |Write(q, 0, implicit)|)
    decreases q, if q.Binary? then (if Level(q) == 1 then 1 else 0) else 2
  {
    hide *;
    LevelFacts(q, implicit);
    AtFits(toks, pos, Write(q, 0, implicit));
    if Level(q) != 0 {
      ReadAnd(q, toks, pos, implicit);
      AndRestStops(toks, q, pos + |Write(q, 0, implicit)|);
      OrUnfold(toks, pos);
    } else {
      var l, op, r := Write(q.left, 0, implicit), OpTokens(q.op, implicit), Write(q.right, 1, implicit);
      WriteBinary(q, 0, implicit);
      AtThree(toks, pos, l, op, r);
      ReadAnd(q.right, toks, pos + |l| + 1, implicit);
      AndRestStops(toks, q.right, pos + |l| + 1 + |r|);
      OrRestStep(toks, q.left, pos + |l|, q.op, implicit, q.right, pos + |l| + 1 + |r|);
      ReadOr(q.left, toks, pos, implicit);
    }
  }

  lemma AndRestStops(toks: seq<Token>, q: Query, pos: nat)
    requires pos <= |toks| && AndStops(toks, pos)
    ensures AndRestAt(toks, q, pos) == Node(q, pos)
  {
  }

  // ---- Round trips ----

  predicate Printable(q: Query) {
    match q
    case Leaf(text) => Writable(text)
    case Negation(x) => Printable(x)
    case Binary(_, l, r) => Printable(l) && Printable(r)
  }

  function Show(q: Query, implicit: bool): string { Render(Write(q, 0, implicit)) }

  lemma {:induction false} WriteWritable(q: Query, level: nat, implicit: bool)
    requires Printable(q)
    ensures forall t :: t in Write(q, level, implicit) ==> WritableToken(t)
    decreases q
  {
    match q
    case Leaf(_) =>
    case Negation(x) => WriteWritable(x, 2, implicit);
    case Binary(_, l, r) =>
      WriteWritable(l, Level(q), implicit);
      WriteWritable(r, Level(q) + 1, implicit);
  }

  // Parsing inverts writing: any tree of quote-free terms, with AND spelled out or left implicit.
  lemma ParseShow(q: Query, implicit: bool)
    requires Printable(q)
    ensures Parse(Show(q, implicit)) == Ok(q)
  {
    hide *;
    var toks := Write(q, 0, implicit);
    WriteWritable(q, 0, implicit);
    WriteStarts(q, 0, implicit);
    RenderTokens(toks);
    RenderTrimmed(toks);
    WholeAt(toks);
    ReadOr(q, toks, 0, implicit);
    ParseUnfold(q, implicit);
  }

  lemma WholeAt(toks: seq<Token>)
    ensures At(toks, 0, toks) && AndStops(toks, |toks|)
    ensures forall q :: OrRestAt(toks, q, |toks|) == Node(q, |toks|)
  {
    assert toks[0..|toks|] == toks;
  }

  lemma ParseUnfold(q: Query, implicit: bool)
    requires var toks := Write(q, 0, implicit);
             && TrimSpace(Render(toks)) == Render(toks) != "" && Tokens(Render(toks)) == Ok(toks)
             && OrAt(toks, 0) == Node(q, |toks|)
    ensures Parse(Show(q, implicit)) == Ok(q)
  {
    hide Write, Render, Tokens, TrimSpace, OrAt;
  }

  // Every tree the parser builds can be written again.
  lemma {:induction false} OrPrintable(toks: seq<Token>, pos: nat)
    requires pos <= |toks| && forall t :: t in toks ==> WritableToken(t)
    ensures OrAt(toks, pos).Node? ==> Printable(OrAt(toks, pos).query)
    decreases |toks| - pos, 4
  {
    AndPrintable(toks, pos);
    if AndAt(toks, pos).Node? {
      OrRestPrintable(toks, AndAt(toks, pos).query, AndAt(toks, pos).pos);
    }
  }

  lemma {:induction false} OrRestPrintable(toks: seq<Token>, left: Query, pos: nat)
    requires pos <= |toks| && Printable(left) && forall t :: t in toks ==> WritableToken(t)
    ensures OrRestAt(toks, left, pos).Node? ==> Printable(OrRestAt(toks, left, pos).query)
    decreases |toks| - pos, 3
  {
    if pos < |toks| && (toks[pos].Or? || toks[pos].Nor?) {
      AndPrintable(toks, pos + 1);
      match AndAt(toks, pos + 1)
      case Node(right, p) => OrRestPrintable(toks, Binary(if toks[pos].Nor? then OpNor else OpOr, left, right), p);
      case Failed(_) =>
    }
  }

  lemma {:induction false} AndPrintable(toks: seq<Token>, pos: nat)
    requires pos <= |toks| && forall t :: t in toks ==> WritableToken(t)
    ensures AndAt(toks, pos).Node? ==> Printable(AndAt(toks, pos).query)
    decreases |toks| - pos, 3
  {
    NotPrintable(toks, pos);
    if NotAt(toks, pos).Node? {
      AndRestPrintable(toks, NotAt(toks, pos).query, NotAt(toks, pos).pos);
    }
  }

  lemma {:induction false} AndRestPrintable(toks: seq<Token>, left: Query, pos: nat)
    requires pos <= |toks| && Printable(left) && forall t :: t in toks ==> WritableToken(t)
    ensures AndRestAt(toks, left, pos).Node? ==> Printable(AndRestAt(toks, left, pos).query)
    decreases |toks| - pos, 2
  {
    if pos < |toks| && (toks[pos].And? || toks[pos].Nand?) {
      NotPrintable(toks, pos + 1);
      match NotAt(toks, pos + 1)
      case Node(right, p) => AndRestPrintable(toks, Binary(if toks[pos].Nand? then OpNand else OpAnd, left, right), p);
      case Failed(_) =>
    } else if pos < |toks| && StartsOperand(toks[pos]) {
      NotPrintable(toks, pos);
      match NotAt(toks, pos)
      case Node(right, p) => AndRestPrintable(toks, Binary(OpAnd, left, right), p);
      case Failed(_) =>
    }
  }

  lemma {:induction false} NotPrintable(toks: seq<Token>, pos: nat)
    requires pos <= |toks| && forall t :: t in toks ==> WritableToken(t)
    ensures NotAt(toks, pos).Node? ==> Printable(NotAt(toks, pos).query)
    decreases |toks| - pos, 1
  {
    if pos < |toks| {
      assert toks[pos] in toks;
      if toks[pos].Not? {
        NotPrintable(toks, pos + 1);
      } else if toks[pos].LParen? {
        OrPrintable(toks, pos + 1);
      }
    }
  }

  // Whatever parses has a canonical spelling that parses to the same tree.
  lemma CanonicalSpelling(expr: string, implicit: bool)
    requires Parse(expr).Ok?
    ensures Printable(Parse(expr).value)
    ensures Parse(Show(Parse(expr).value, implicit)) == Parse(expr)
  {
    var toks := Tokens(TrimSpace(expr)).value;
    TokensWritable(TrimSpace(expr));
    OrPrintable(toks, 0);
    ParseShow(Parse(expr).value, implicit);
  }
}
