// How a text of words, quotes and parentheses is read, in terms of the text alone.
module QueryRead {
  import opened Letters
  import opened QueryText

  // The word is the given one up to case, letter by letter.
  predicate Spells(word: string, lower: string, upper: string)
    requires |lower| == |upper|
  {
    |word| == |lower| && forall i :: 0 <= i < |word| ==> word[i] == lower[i] || word[i] == upper[i]
  }

  // Nothing in it ends a bare word.
  predicate Word(w: string) {
    w != "" && forall c :: c in w ==> c !in {' ', '\t', '\n', '\r', '(', ')', '"'}
  }

  predicate Ends(rest: string) {
    rest != "" ==> rest[0] in {' ', '\t', '\n', '\r', '(', ')', '"'}
  }

  // A word on its own is the operator it spells, in whatever case, and otherwise a term.
  function Meaning(w: string): Token {
    if Spells(w, "and", "AND") then And
    else if Spells(w, "or", "OR") then Or
    else if Spells(w, "nand", "NAND") then Nand
    else if Spells(w, "nor", "NOR") then Nor
    else if Spells(w, "not", "NOT") then Not
    else Term(w)
  }

  lemma WordRead(w: string, rest: string)
    requires Word(w) && Ends(rest)
    ensures Tokens(w + rest) == Prepend([Meaning(w)], Tokens(rest))
  {
    WordLexeme(w, rest);
    KeywordMeaning(w);
    assert (w + rest)[|w|..] == rest;
  }

  lemma WordLexeme(w: string, rest: string)
    requires Word(w) && Ends(rest)
    ensures NextLexeme(w + rest) == Lexeme(Keyword(w), |w|)
  {
    var s := w + rest;
    assert w[0] in w && s[0] == w[0];
    WordLengthOf(w, rest);
    assert s[..|w|] == w;
    hide Keyword, WordLength;
  }

  lemma LowerSpells(w: string, lower: string, upper: string)
    requires |lower| == |upper|
    requires forall i :: 0 <= i < |lower| ==> 'a' <= lower[i] <= 'z' && upper[i] == lower[i] - 'a' + 'A'
    ensures Lower(w) == lower <==> Spells(w, lower, upper)
  {
    if Lower(w) == lower {
      forall i | 0 <= i < |w| ensures w[i] == lower[i] || w[i] == upper[i] {
        assert LowerChar(w[i]) == Lower(w)[i];
      }
    }
    if Spells(w, lower, upper) {
      forall i | 0 <= i < |w| ensures Lower(w)[i] == lower[i] {
        assert Lower(w)[i] == LowerChar(w[i]);
      }
    }
  }

  lemma KeywordMeaning(w: string)
    ensures Keyword(w) == Meaning(w)
  {
    LowerSpells(w, "and", "AND");
    LowerSpells(w, "or", "OR");
    LowerSpells(w, "nand", "NAND");
    LowerSpells(w, "nor", "NOR");
    LowerSpells(w, "not", "NOT");
    hide Lower, Spells;
  }

  // White space separates, parentheses stand for themselves.
  lemma MarkRead(c: char, rest: string)
    ensures c in {' ', '\t', '\n', '\r'} ==> Tokens([c] + rest) == Tokens(rest)
    ensures c == '(' ==> Tokens([c] + rest) == Prepend([LParen], Tokens(rest))
    ensures c == ')' ==> Tokens([c] + rest) == Prepend([RParen], Tokens(rest))
    ensures Tokens("") == Ok([])
  {
    assert ([c] + rest)[1..] == rest;
  }

  // What stands in quotes is a term, whatever it spells; quotes must be closed and hold something.
  lemma QuotedRead(text: string, rest: string)
    requires '"' !in text
    ensures text != "" ==> Tokens("\"" + text + "\"" + rest) == Prepend([Term(text)], Tokens(rest))
    ensures Tokens("\"\"" + rest) == Err(EmptyQuoted)
    ensures Tokens("\"" + text) == Err(Unterminated)
  {
    var s := "\"" + text + "\"" + rest;
    QuoteFreeOf(text, "\"" + rest);
    assert s[1..] == text + ("\"" + rest);
    assert text != "" ==> s[1..|text| + 1] == text && s[|text| + 2..] == rest;
    var empty := "\"\"" + rest;
    assert empty[1..] == "\"" + rest;
    assert QuoteFree(empty[1..]) == 0;
    OpenQuote(text);
    assert ("\"" + text)[1..] == text;
  }

  lemma {:induction false} OpenQuote(text: string)
    requires '"' !in text
    ensures QuoteFree(text) == |text|
  {
    if text != "" {
      OpenQuote(text[1..]);
    }
  }
}
