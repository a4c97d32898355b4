// The text of a boolean search expression: trimming, splitting into tokens, and writing tokens back.
module QueryText {
  import opened Letters
  import opened Trimming

  datatype Token = Term(text: string) | And | Or | Nand | Nor | Not | LParen | RParen

  datatype Error = EmptyExpression | Unterminated | EmptyQuoted | EndsUnexpectedly | MissingClose
    | ExpectedOperand | Unexpected(token: Token)

  datatype Result<+T> = Ok(value: T) | Err(error: Error)

  // What ends a bare word besides the end of the text.
  predicate Breaks(c: char) {
    c == ' ' || c == '\t' || c == '\n' || c == '\r' || c == '(' || c == ')' || c == '"'
  }

  function Keyword(word: string): Token {
    var w := Lower(word);
    if w == "and" then And else if w == "or" then Or else if w == "nand" then Nand
    else if w == "nor" then Nor else if w == "not" then Not else Term(word)
  }

  // The length of the longest prefix without quotes; of the longest one that breaks nowhere.
  function QuoteFree(s: string): (n: nat)
    ensures n <= |s| && '"' !in s[..n] && (n < |s| ==> s[n] == '"')
  {
    if s == "" || s[0] == '"' then 0 else 1 + QuoteFree(s[1..])
  }

  function WordLength(s: string): (n: nat)
    ensures n <= |s| && (n < |s| ==> Breaks(s[n]))
    ensures forall k :: 0 <= k < n ==> !Breaks(s[k])
  {
    if s == "" || Breaks(s[0]) then 0 else 1 + WordLength(s[1..])
  }

  function Prepend(toks: seq<Token>, r: Result<seq<Token>>): Result<seq<Token>> {
    match r
    case Ok(rest) => Ok(toks + rest)
    case Err(e) => Err(e)
  }

  lemma PrependTwice(a: seq<Token>, b: seq<Token>, r: Result<seq<Token>>)
    ensures Prepend(a, Prepend(b, r)) == Prepend(a + b, r)
    ensures Prepend([], r) == r
  {
    if r.Ok? {
      assert a + (b + r.value) == a + b + r.value;
      assert [] + r.value == r.value;
    }
  }

  method ScanQuoted(s: string, i: nat) returns (j: nat)
    requires i < |s|
    ensures i < j <= |s| && j - (i + 1) == QuoteFree(s[i + 1..])
  {
    j := i + 1;
    while j < |s| && s[j] != '"'
      invariant i < j <= |s|
      invariant QuoteFree(s[i + 1..]) == j - (i + 1) + QuoteFree(s[j..])
    {
      j := j + 1;
    }
  }

  method ScanWord(s: string, i: nat) returns (j: nat)
    requires i < |s|
    ensures i <= j <= |s| && j - i == WordLength(s[i..])
  {
    j := i;
    while j < |s| && s[j] != ' ' && s[j] != '\t' && s[j] != '\n' && s[j] != '\r' && s[j] != '(' && s[j] != ')'
        && s[j] != '"'
      invariant i <= j <= |s|
      invariant WordLength(s[i..]) == j - i + WordLength(s[j..])
    {
      j := j + 1;
    }
  }

  // The next token of a non-blank text, or its error, and how far it reaches.
  datatype Lexeme = Lexeme(token: Token, length: nat) | Blank | Broken(error: Error)

  function NextLexeme(s: string): (l: Lexeme)
    requires s != ""
    ensures l.Lexeme? ==> 0 < l.length <= |s|
  {
    if s[0] == '(' then Lexeme(LParen, 1)
    else if s[0] == ')' then Lexeme(RParen, 1)
    else if s[0] == '"' then
      var n := QuoteFree(s[1..]);
      if n == |s| - 1 then Broken(Unterminated)
      else if n == 0 then Broken(EmptyQuoted)
      else Lexeme(Term(s[1..n + 1]), n + 2)
    else if Breaks(s[0]) then Blank
    else
      var n := WordLength(s);
      assert n > 0;
      Lexeme(Keyword(s[..n]), n)
  }

  function Tokens(s: string): Result<seq<Token>>
    decreases |s|
  {
    if s == "" then Ok([])
    else
      match NextLexeme(s)
      case Lexeme(t, n) => Prepend([t], Tokens(s[n..]))
      case Blank => Tokens(s[1..])
      case Broken(e) => Err(e)
  }

  method ScanLexeme(s: string, i: nat) returns (l: Lexeme)
    requires i < |s|
    ensures l == NextLexeme(s[i..])
  {
    var c := s[i];
    if c == ' ' || c == '\t' || c == '\n' || c == '\r' {
      l := Blank;
    } else if c == '(' {
      l := Lexeme(LParen, 1);
    } else if c == ')' {
      l := Lexeme(RParen, 1);
    } else if c == '"' {
      var j := ScanQuoted(s, i);
      assert s[i..][1..] == s[i + 1..];
      if j >= |s| {
        return Broken(Unterminated);
      }
      var text := s[i + 1..j];
      if text == "" {
        return Broken(EmptyQuoted);
      }
      assert s[i..][1..j - i] == text;
      l := Lexeme(Term(text), j + 1 - i);
    } else {
      var j := ScanWord(s, i);
      assert s[i..][..j - i] == s[i..j];
      l := Lexeme(Keyword(s[i..j]), j - i);
    }
  }

  method TokenizeQuery(s: string) returns (r: Result<seq<Token>>)
    ensures r == Tokens(s)
  {
    hide NextLexeme, Keyword;
    var toks: seq<Token> := [];
    var i := 0;
    PrependTwice([], [], Tokens(s));
    assert s[0..] == s;
    while i < |s|
      invariant 0 <= i <= |s|
      invariant Prepend(toks, Tokens(s[i..])) == Tokens(s)
    {
      var l := ScanLexeme(s, i);
      match l
      case Lexeme(t, n) =>
        PrependTwice(toks, [t], Tokens(s[i..][n..]));
        assert s[i..][n..] == s[i + n..];
        toks := toks + [t];
        i := i + n;
      case Blank =>
        assert s[i..][1..] == s[i + 1..];
        i := i + 1;
      case Broken(e) =>
        return Err(e);
    }
    assert s[i..] == "";
    assert toks + [] == toks;
    r := Ok(toks);
  }

  // ---- Writing tokens back ----

  // A text that can stand unquoted: nothing in it breaks or is trimmed, and it is no keyword.
  predicate Bare(text: string) {
    text != "" && Keyword(text) == Term(text) && forall c :: c in text ==> !Breaks(c) && !IsSpace(c)
  }

  // A text that can be written at all.
  predicate Writable(text: string) { text != "" && '"' !in text }

  predicate WritableToken(t: Token) { t.Term? ==> Writable(t.text) }

  function Written(t: Token): string {
    match t
    case Term(text) => if Bare(text) then text else ['"'] + text + ['"']
    case And => "AND"
    case Or => "OR"
    case Nand => "NAND"
    case Nor => "NOR"
    case Not => "NOT"
    case LParen => "("
    case RParen => ")"
  }

  // The tokens with single spaces in between.
  function Render(toks: seq<Token>): string {
    if toks == [] then ""
    else if |toks| == 1 then Written(toks[0])
    else Written(toks[0]) + " " + Render(toks[1..])
  }

  // Tokens never carry an empty text or one with a quote in it.
  lemma {:induction false} TokensWritable(s: string)
    ensures Tokens(s).Ok? ==> forall t :: t in Tokens(s).value ==> WritableToken(t)
    decreases |s|
  {
    if s != "" {
      match NextLexeme(s)
      case Lexeme(t, n) =>
        TokensWritable(s[n..]);
        LexemeWritable(s);
      case Blank => TokensWritable(s[1..]);
      case Broken(_) =>
    }
  }

  lemma LexemeWritable(s: string)
    requires s != "" && NextLexeme(s).Lexeme?
    ensures WritableToken(NextLexeme(s).token)
  {
    if s[0] == '"' {
      assert s[1..][..QuoteFree(s[1..])] == s[1..QuoteFree(s[1..]) + 1];
    } else if !Breaks(s[0]) {
      assert '"' !in s[..WordLength(s)];
    }
  }

  // A written token at the end of the text, or followed by a space, is read back as itself.
  lemma WrittenIsRead(t: Token, rest: string)
    requires WritableToken(t) && (rest == "" || rest[0] == ' ')
    ensures NextLexeme(Written(t) + rest) == Lexeme(t, |Written(t)|)
  {
    if t.Term? && !Bare(t.text) {
      QuotedIsRead(t.text, rest);
    } else if !t.LParen? && !t.RParen? {
      KeywordsWritten(t);
      assert forall c :: c in Written(t) ==> !Breaks(c);
      WordIsRead(Written(t), rest);
    }
  }

  lemma QuotedIsRead(text: string, rest: string)
    requires Writable(text)
    ensures NextLexeme(['"'] + text + ['"'] + rest) == Lexeme(Term(text), |text| + 2)
  {
    var s := ['"'] + text + ['"'] + rest;
    QuoteFreeOf(text, ['"'] + rest);
    assert s[1..] == text + (['"'] + rest);
    assert s[1..|text| + 1] == text;
  }

  lemma WordIsRead(w: string, rest: string)
    requires w != "" && (forall c :: c in w ==> !Breaks(c)) && (rest == "" || rest[0] == ' ')
    ensures NextLexeme(w + rest) == Lexeme(Keyword(w), |w|)
  {
    var s := w + rest;
    assert w[0] in w && s[0] == w[0];
    WordLengthOf(w, rest);
    assert s[..|w|] == w;
  }

  lemma KeywordsWritten(t: Token)
    requires !t.LParen? && !t.RParen? && (t.Term? ==> Bare(t.text))
    ensures Keyword(Written(t)) == t
  {
    assert Lower("AND") == "and" && Lower("OR") == "or" && Lower("NAND") == "nand";
    assert Lower("NOR") == "nor" && Lower("NOT") == "not";
  }

  lemma {:induction false} QuoteFreeOf(text: string, rest: string)
    requires '"' !in text && rest != "" && rest[0] == '"'
    ensures QuoteFree(text + rest) == |text|
  {
    if text == "" {
      assert text + rest == rest;
    } else {
      assert (text + rest)[1..] == text[1..] + rest;
      QuoteFreeOf(text[1..], rest);
    }
  }

  lemma {:induction false} WordLengthOf(w: string, rest: string)
    requires (forall c :: c in w ==> !Breaks(c)) && (rest == "" || Breaks(rest[0]))
    ensures WordLength(w + rest) == |w|
  {
    if w == "" {
      assert w + rest == rest;
    } else {
      assert (w + rest)[1..] == w[1..] + rest;
      WordLengthOf(w[1..], rest);
    }
  }

  lemma ReadOne(t: Token, more: string)
    requires WritableToken(t) && (more == "" || more[0] == ' ')
    ensures Tokens(Written(t) + more) == Prepend([t], Tokens(more))
  {
    WrittenIsRead(t, more);
    hide Written, WritableToken, NextLexeme;
    var s := Written(t) + more;
    assert s != "";
    assert s[|Written(t)|..] == more;
  }

  lemma SkipSpace(s: string)
    ensures Tokens(" " + s) == Tokens(s)
  {
    assert (" " + s)[1..] == s;
  }

  lemma RenderFirst(toks: seq<Token>)
    ensures toks == [] ==> Render(toks) == "" && Tokens("") == Ok([])
    ensures toks != [] ==> Render(toks) == Written(toks[0]) + if |toks| == 1 then "" else " " + Render(toks[1..])
  {
    hide Written;
    assert toks != [] ==> Written(toks[0]) + "" == Written(toks[0]);
  }

  lemma PrependOk(t: Token, rest: seq<Token>)
    ensures Prepend([t], Ok(rest)) == Ok([t] + rest)
  {
  }

  // Reading what was written gives the tokens back.
  lemma {:induction false} RenderTokens(toks: seq<Token>)
    requires forall t :: t in toks ==> WritableToken(t)
    ensures Tokens(Render(toks)) == Ok(toks)
  {
    hide *;
    RenderFirst(toks);
    if toks != [] {
      var rest := toks[1..];
      assert toks[0] in toks && forall t :: t in rest ==> t in toks;
      RenderTokens(rest);
      PrependOk(toks[0], rest);
      assert toks == [toks[0]] + rest;
      if rest == [] {
        RenderFirst(rest);
        ReadOne(toks[0], "");
      } else {
        ReadOne(toks[0], " " + Render(rest));
        SkipSpace(Render(rest));
      }
    }
  }

  // Nothing at either end of what is written would be trimmed.
  lemma {:induction false} RenderTrimmed(toks: seq<Token>)
    requires toks != [] && forall t :: t in toks ==> WritableToken(t)
    ensures TrimSpace(Render(toks)) == Render(toks) != ""
  {
    RenderEnds(toks);
  }

  lemma {:induction false} RenderEnds(toks: seq<Token>)
    requires toks != [] && forall t :: t in toks ==> WritableToken(t)
    ensures var s := Render(toks); s != "" && !IsSpace(s[0]) && !IsSpace(s[|s| - 1])
  {
    WrittenEnds(toks[0]);
    if |toks| > 1 {
      RenderEnds(toks[1..]);
    }
  }

  lemma WrittenEnds(t: Token)
    requires WritableToken(t)
    ensures var w := Written(t); w != "" && !IsSpace(w[0]) && !IsSpace(w[|w| - 1])
  {
    if t.Term? && Bare(t.text) {
      assert t.text[0] in t.text && t.text[|t.text| - 1] in t.text;
    }
  }
}
