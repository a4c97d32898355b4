// The grammar of search expressions as rules, without a parser: which tokens spell which tree.
//   or := and | or (OR | NOR) and          and := not | and [AND | NAND] not
//   not := NOT not | primary               primary := '(' or ')' | TERM
module QueryGrammar {
  import opened Trimming
  import opened QueryText
  import opened QueryParse

  // toks[a..b] spells q.
  ghost predicate OrForm(toks: seq<Token>, a: nat, b: nat, q: Query)
    requires a <= b <= |toks|
    decreases b - a, 3
  {
    || AndForm(toks, a, b, q)
    || (exists m: nat :: a < m < b - 1 && OrSplit(toks, a, m, b, q))
  }

  ghost predicate OrSplit(toks: seq<Token>, a: nat, m: nat, b: nat, q: Query)
    requires a < m < b - 1 && b <= |toks|
    decreases b - a, 0
  {
    && q.Binary? && ((toks[m] == Or && q.op == OpOr) || (toks[m] == Nor && q.op == OpNor))
    && OrForm(toks, a, m, q.left) && AndForm(toks, m + 1, b, q.right)
  }

  ghost predicate AndForm(toks: seq<Token>, a: nat, b: nat, q: Query)
    requires a <= b <= |toks|
    decreases b - a, 2
  {
    || NotForm(toks, a, b, q)
    || (exists m: nat :: a < m < b - 1 && AndSplit(toks, a, m, b, q))
    || (exists m: nat :: a < m < b && Adjacent(toks, a, m, b, q))
  }

  ghost predicate AndSplit(toks: seq<Token>, a: nat, m: nat, b: nat, q: Query)
    requires a < m < b - 1 && b <= |toks|
    decreases b - a, 0
  {
    && q.Binary? && ((toks[m] == And && q.op == OpAnd) || (toks[m] == Nand && q.op == OpNand))
    && AndForm(toks, a, m, q.left) && NotForm(toks, m + 1, b, q.right)
  }

  // Two operands side by side mean AND.
  ghost predicate Adjacent(toks: seq<Token>, a: nat, m: nat, b: nat, q: Query)
    requires a < m < b && b <= |toks|
    decreases b - a, 0
  {
    q.Binary? && q.op == OpAnd && AndForm(toks, a, m, q.left) && NotForm(toks, m, b, q.right)
  }

  ghost predicate NotForm(toks: seq<Token>, a: nat, b: nat, q: Query)
    requires a <= b <= |toks|
    decreases b - a, 1
  {
    || PrimaryForm(toks, a, b, q)
    || (a < b && toks[a] == Not && q.Negation? && NotForm(toks, a + 1, b, q.operand))
  }

  ghost predicate PrimaryForm(toks: seq<Token>, a: nat, b: nat, q: Query)
    requires a <= b <= |toks|
    decreases b - a, 0
  {
    || (b == a + 1 && q.Leaf? && toks[a] == Term(q.text))
    || (b >= a + 2 && toks[a] == LParen && toks[b - 1] == RParen && OrForm(toks, a + 1, b - 1, q))
  }

  // ---- What the parser accepts is spelled so ----

  lemma {:induction false} OrSound(toks: seq<Token>, pos: nat)
    requires pos <= |toks| && OrAt(toks, pos).Node?
    ensures OrForm(toks, pos, OrAt(toks, pos).pos, OrAt(toks, pos).query)
    decreases |toks| - pos, 4
  {
    AndSound(toks, pos);
    var left := AndAt(toks, pos);
    hide AndForm, OrSplit, AndAt;
    OrRestSound(toks, pos, left.query, left.pos);
  }

  lemma {:induction false} OrRestSound(toks: seq<Token>, a: nat, left: Query, pos: nat)
    requires a < pos <= |toks| && OrForm(toks, a, pos, left) && OrRestAt(toks, left, pos).Node?
    ensures OrForm(toks, a, OrRestAt(toks, left, pos).pos, OrRestAt(toks, left, pos).query)
    decreases |toks| - pos, 3
  {
    hide OrForm, AndForm, AndAt;
    if pos < |toks| && (toks[pos].Or? || toks[pos].Nor?) {
      AndSound(toks, pos + 1);
      var right := AndAt(toks, pos + 1);
      var all := Binary(if toks[pos].Nor? then OpNor else OpOr, left, right.query);
      OrJoins(toks, a, pos, right.pos, all);
      OrRestSound(toks, a, all, right.pos);
    }
  }

  lemma OrJoins(toks: seq<Token>, a: nat, m: nat, b: nat, q: Query)
    requires a < m < b - 1 && b <= |toks| && OrSplit(toks, a, m, b, q)
    ensures OrForm(toks, a, b, q)
  {
    hide OrSplit, AndForm;
  }

  lemma {:induction false} AndSound(toks: seq<Token>, pos: nat)
    requires pos <= |toks| && AndAt(toks, pos).Node?
    ensures AndForm(toks, pos, AndAt(toks, pos).pos, AndAt(toks, pos).query)
    decreases |toks| - pos, 3
  {
    NotSound(toks, pos);
    var left := NotAt(toks, pos);
    AndStarts(toks, pos, left.pos, left.query);
    hide AndForm, NotForm, NotAt;
    AndRestSound(toks, pos, left.query, left.pos);
  }

  lemma AndStarts(toks: seq<Token>, a: nat, b: nat, q: Query)
    requires a <= b <= |toks| && NotForm(toks, a, b, q)
    ensures AndForm(toks, a, b, q)
  {
    hide NotForm;
  }

  lemma {:induction false} AndRestSound(toks: seq<Token>, a: nat, left: Query, pos: nat)
    requires a < pos <= |toks| && AndForm(toks, a, pos, left) && AndRestAt(toks, left, pos).Node?
    ensures AndForm(toks, a, AndRestAt(toks, left, pos).pos, AndRestAt(toks, left, pos).query)
    decreases |toks| - pos, 2
  {
    hide AndForm, NotForm, NotAt;
    if pos < |toks| && (toks[pos].And? || toks[pos].Nand?) {
      NotSound(toks, pos + 1);
      var right := NotAt(toks, pos + 1);
      var all := Binary(if toks[pos].Nand? then OpNand else OpAnd, left, right.query);
      AndJoins(toks, a, pos, right.pos, all);
      AndRestSound(toks, a, all, right.pos);
    } else if pos < |toks| && StartsOperand(toks[pos]) {
      NotSound(toks, pos);
      var right := NotAt(toks, pos);
      var all := Binary(OpAnd, left, right.query);
      AndMeets(toks, a, pos, right.pos, all);
      AndRestSound(toks, a, all, right.pos);
    }
  }

  lemma AndJoins(toks: seq<Token>, a: nat, m: nat, b: nat, q: Query)
    requires a < m < b - 1 && b <= |toks| && AndSplit(toks, a, m, b, q)
    ensures AndForm(toks, a, b, q)
  {
    hide AndSplit, NotForm, Adjacent;
  }

  lemma AndMeets(toks: seq<Token>, a: nat, m: nat, b: nat, q: Query)
    requires a < m < b && b <= |toks| && Adjacent(toks, a, m, b, q)
    ensures AndForm(toks, a, b, q)
  {
    hide AndSplit, NotForm, Adjacent;
  }

  lemma {:induction false} NotSound(toks: seq<Token>, pos: nat)
    requires pos <= |toks| && NotAt(toks, pos).Node?
    ensures NotForm(toks, pos, NotAt(toks, pos).pos, NotAt(toks, pos).query)
    decreases |toks| - pos, 1
  {
    hide PrimaryForm, PrimaryAt;
    if pos < |toks| && toks[pos].Not? {
      NotSound(toks, pos + 1);
    } else {
      PrimarySound(toks, pos);
    }
  }

  lemma {:induction false} PrimarySound(toks: seq<Token>, pos: nat)
    requires pos <= |toks| && PrimaryAt(toks, pos).Node?
    ensures PrimaryForm(toks, pos, PrimaryAt(toks, pos).pos, PrimaryAt(toks, pos).query)
    decreases |toks| - pos, 0
  {
    hide OrForm, OrAt;
    if toks[pos].LParen? {
      OrSound(toks, pos + 1);
    }
  }

  // ---- What is spelled so the parser accepts ----

  // A form holds something, and begins with what can begin an operand.
  lemma {:induction false} NotStarts(toks: seq<Token>, a: nat, b: nat, q: Query)
    requires a <= b <= |toks| && NotForm(toks, a, b, q)
    ensures a < b && StartsOperand(toks[a])
  {
  }

  lemma {:induction false} NotComplete(toks: seq<Token>, a: nat, b: nat, q: Query)
    requires a <= b <= |toks| && NotForm(toks, a, b, q)
    ensures NotAt(toks, a) == Node(q, b)
    decreases b - a, 1
  {
    hide PrimaryForm, PrimaryAt;
    if PrimaryForm(toks, a, b, q) {
      PrimaryComplete(toks, a, b, q);
    } else {
      NotComplete(toks, a + 1, b, q.operand);
    }
  }

  lemma {:induction false} PrimaryComplete(toks: seq<Token>, a: nat, b: nat, q: Query)
    requires a <= b <= |toks| && PrimaryForm(toks, a, b, q)
    ensures PrimaryAt(toks, a) == Node(q, b) && !toks[a].Not?
    decreases b - a, 0
  {
    hide OrForm, OrAt;
    if !(b == a + 1 && q.Leaf? && toks[a] == Term(q.text)) {
      OrComplete(toks, a + 1, b - 1, q);
      assert OrRestAt(toks, q, b - 1) == Node(q, b - 1);
    }
  }

  // Up to b the tree is q, and the loop goes on from there.
  lemma {:induction false} AndComplete(toks: seq<Token>, a: nat, b: nat, q: Query)
    requires a <= b <= |toks| && AndForm(toks, a, b, q)
    ensures AndAt(toks, a) == AndRestAt(toks, q, b)
    decreases b - a, 2
  {
    if NotForm(toks, a, b, q) {
      NotComplete(toks, a, b, q);
    } else if m: nat :| a < m < b - 1 && AndSplit(toks, a, m, b, q) {
      hide AndForm, NotForm, NotAt, AndAt;
      AndComplete(toks, a, m, q.left);
      NotComplete(toks, m + 1, b, q.right);
    } else {
      var m: nat :| a < m < b && Adjacent(toks, a, m, b, q);
      NotStarts(toks, m, b, q.right);
      hide AndForm, NotForm, NotAt, AndAt;
      AndComplete(toks, a, m, q.left);
      NotComplete(toks, m, b, q.right);
    }
  }

  // Nothing that could go on at AND level follows.
  predicate OrStops(toks: seq<Token>, b: nat)
    requires b <= |toks|
  {
    b == |toks| || toks[b].Or? || toks[b].Nor? || toks[b].RParen?
  }

  lemma {:induction false} OrComplete(toks: seq<Token>, a: nat, b: nat, q: Query)
    requires a <= b <= |toks| && OrForm(toks, a, b, q) && OrStops(toks, b)
    ensures OrAt(toks, a) == OrRestAt(toks, q, b)
    decreases b - a, 3
  {
    if AndForm(toks, a, b, q) {
      AndComplete(toks, a, b, q);
      hide AndForm, AndAt;
    } else {
      var m: nat :| a < m < b - 1 && OrSplit(toks, a, m, b, q);
      hide OrForm, AndForm, AndAt, OrAt;
      OrComplete(toks, a, m, q.left);
      AndComplete(toks, m + 1, b, q.right);
    }
  }

  // The parser finds a tree exactly if the tokens spell it.
  lemma GrammarExactly(toks: seq<Token>, q: Query)
    ensures OrAt(toks, 0) == Node(q, |toks|) <==> OrForm(toks, 0, |toks|, q)
  {
    if OrForm(toks, 0, |toks|, q) {
      OrComplete(toks, 0, |toks|, q);
      hide OrAt;
    }
    if OrAt(toks, 0) == Node(q, |toks|) {
      OrSound(toks, 0);
    }
  }

  // A text has the tree its tokens spell, and only if it has tokens that spell one.
  lemma ParseExactly(expr: string, q: Query)
    ensures Parse(expr) == Ok(q) <==>
              var s := TrimSpace(expr);
              s != "" && Tokens(s).Ok? && OrForm(Tokens(s).value, 0, |Tokens(s).value|, q)
    ensures TrimSpace(expr) == "" ==> Parse(expr) == Err(EmptyExpression)
    ensures var s := TrimSpace(expr);
            s != "" && Tokens(s).Err? ==> Parse(expr) == Err(Tokens(s).error)
  {
    var s := TrimSpace(expr);
    if Tokens(s).Ok? {
      GrammarExactly(Tokens(s).value, q);
    }
    hide OrForm, OrAt, Tokens, TrimSpace;
  }

  // What each error tells, of tokens that would be an expression but for one token: a superfluous
  // parenthesis, one that is not closed, an operator at the end, and something else than an operand
  // where one must be.
  lemma ErrorsTell(toks: seq<Token>, q: Query)
    requires toks != []
    ensures var n := |toks| - 1;
            && (toks[n] == RParen && OrForm(toks, 0, n, q) ==> OrAt(toks, 0) == Node(q, n))
            && (toks[0] == LParen && OrForm(toks, 1, n + 1, q) ==> OrAt(toks, 0) == Failed(MissingClose))
            && (toks[n] in {Or, Nor} && OrForm(toks, 0, n, q) ==> OrAt(toks, 0) == Failed(EndsUnexpectedly))
            && (toks[n] in {And, Nand} && AndForm(toks, 0, n, q) ==> OrAt(toks, 0) == Failed(EndsUnexpectedly))
            && (toks[0] in {And, Or, Nand, Nor, RParen} ==> OrAt(toks, 0) == Failed(ExpectedOperand))
  {
    var n := |toks| - 1;
    NoOperand(toks, n + 1);
    NoOperand(toks, 0);
    if toks[0] == LParen && OrForm(toks, 1, n + 1, q) {
      OrComplete(toks, 1, n + 1, q);
      NeverClosed(toks, q);
    }
    hide OrAt, AndAt, NotAt, OrForm, AndForm;
    if toks[n] in {Or, Nor, RParen} && OrForm(toks, 0, n, q) {
      OrComplete(toks, 0, n, q);
    }
    if toks[n] in {And, Nand} && AndForm(toks, 0, n, q) {
      AndComplete(toks, 0, n, q);
      AndFails(toks, 0);
    }
  }

  // Where no operand begins, none is read.
  lemma NoOperand(toks: seq<Token>, pos: nat)
    requires pos <= |toks|
    ensures pos == |toks| ==> OrAt(toks, pos) == AndAt(toks, pos) == NotAt(toks, pos) == Failed(EndsUnexpectedly)
    ensures pos < |toks| && toks[pos] in {And, Or, Nand, Nor, RParen} ==> OrAt(toks, pos) == Failed(ExpectedOperand)
  {
    if pos == |toks| || toks[pos] in {And, Or, Nand, Nor, RParen} {
      assert PrimaryAt(toks, pos) == Failed(if pos == |toks| then EndsUnexpectedly else ExpectedOperand);
      assert NotAt(toks, pos) == PrimaryAt(toks, pos);
      assert AndAt(toks, pos) == NotAt(toks, pos);
    }
  }

  lemma NeverClosed(toks: seq<Token>, q: Query)
    requires toks != [] && toks[0] == LParen && OrAt(toks, 1) == OrRestAt(toks, q, |toks|)
    ensures OrAt(toks, 0) == Failed(MissingClose)
  {
    assert OrRestAt(toks, q, |toks|) == Node(q, |toks|);
    assert PrimaryAt(toks, 0) == Failed(MissingClose);
    assert NotAt(toks, 0) == PrimaryAt(toks, 0);
    assert AndAt(toks, 0) == NotAt(toks, 0);
  }

  lemma AndFails(toks: seq<Token>, pos: nat)
    requires pos <= |toks|
    ensures AndAt(toks, pos).Failed? ==> OrAt(toks, pos) == AndAt(toks, pos)
  {
    hide AndAt;
  }

  // Tokens left over are named.
  lemma LeftOverTells(expr: string, p: nat, q: Query)
    requires var s := TrimSpace(expr);
             s != "" && Tokens(s).Ok? && p < |Tokens(s).value| && OrAt(Tokens(s).value, 0) == Node(q, p)
    ensures Parse(expr) == Err(Unexpected(Tokens(TrimSpace(expr)).value[p]))
  {
    hide OrAt, Tokens, TrimSpace;
  }
}
