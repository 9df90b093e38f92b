/**
 What the tokenizer recognizes, stated on the text itself: single characters, keywords in any case,
 quoted names, literals with doubled quotes, numbers and two-character symbols.
 */
module TokenizerGrammar {
  import opened Collections
  import opened Text
  import opened Tokenizer
  import opened TokenizerRoundTrip
  import opened TokenizerCompose

  // ------------------------------------------------------------------------
  // Single characters
  // ------------------------------------------------------------------------

  const SYMBOLS := "()[]{}.,;*+-/%^=<>|&~?@#!:\\"

  ghost predicate IsAsciiLetter(c: char) {
    65 <= c as int <= 90 || 97 <= c as int <= 122
  }

  ghost predicate IsNameStart(d: Dialect, c: char) {
    IsAsciiLetter(c) || c as int == 95 || (c as int >= 128 && c in d.letters)
  }

  ghost predicate IsNameChar(d: Dialect, c: char) {
    IsNameStart(d, c) || 48 <= c as int <= 57 || (c as int >= 128 && c in d.numerals)
  }

  lemma SymbolsAre(c: char)
    ensures c in SYMBOLS <==> IsOneCharSymbol(c)
  {
    if IsOneCharSymbol(c) {
      var i := SymbolIndex(c);
    }
  }

  lemma SymbolIndex(c: char) returns (i: nat)
    requires IsOneCharSymbol(c)
    ensures i < |SYMBOLS| && SYMBOLS[i] == c
  {
    var s := SYMBOLS;
    i := if c == '(' then 0 else if c == ')' then 1 else if c == '[' then 2 else if c == ']' then 3
         else if c == '{' then 4 else if c == '}' then 5 else if c == '.' then 6 else if c == ',' then 7
         else if c == ';' then 8 else if c == '*' then 9 else if c == '+' then 10 else if c == '-' then 11
         else if c == '/' then 12 else if c == '%' then 13 else if c == '^' then 14 else if c == '=' then 15
         else if c == '<' then 16 else if c == '>' then 17 else if c == '|' then 18 else if c == '&' then 19
         else if c == '~' then 20 else if c == '?' then 21 else if c == '@' then 22 else if c == '#' then 23
         else if c == '!' then 24 else if c == ':' then 25 else 26;
  }

  lemma NextQuote(d: Dialect, c: char)
    requires c == '\'' || c == '"' || c == '`'
    ensures Next(d, [c]) == Scanned(if c == '\'' then StringLiteral("") else Identifier(""), 1)
  {
    assert [c][1..] == "" && [c][1..1] == "";
    assert RunLen(d, NotDoubleQuote, "") == 0 && RunLen(d, NotBacktick, "") == 0 && StringBody("") == ("", 0);
  }

  lemma NextBlank(d: Dialect, c: char)
    requires IsSpace(c)
    ensures Next(d, [c]) == Scanned(Whitespace, 1)
  {
    assert [c][1..] == "" && RunLen(d, Space, "") == 0;
  }

  lemma NextDigit(d: Dialect, c: char)
    requires IsDigit(c)
    ensures Next(d, [c]) == Scanned(Number([c]), 1)
  {
    assert [c][1..] == "" && [c][..1] == [c] && RunLen(d, Mantissa, "") == 0;
    assert RunLen(d, Mantissa, [c]) == 1 && NumberLen(d, [c]) == 1;
  }

  lemma NextOther(d: Dialect, c: char)
    requires !IsSpace(c) && !IsDigit(c) && !StartsWord(d, c) && c != '\'' && c != '"' && c != '`'
    ensures Next(d, [c]) == Scanned(if IsOneCharSymbol(c) then Symbol([c]) else Unknown([c]), 1)
  {
  }

  ghost predicate IsBlank(c: char) {
    var n := c as int;
    n == 9 || n == 10 || n == 12 || n == 13 || n == 32
  }

  ghost predicate IsFigure(c: char) {
    48 <= c as int <= 57
  }

  lemma ClassesAre(d: Dialect, c: char)
    ensures IsSpace(c) <==> IsBlank(c)
    ensures IsDigit(c) <==> IsFigure(c)
    ensures StartsWord(d, c) <==> IsNameStart(d, c)
    ensures ContinuesWord(d, c) <==> IsNameChar(d, c)
  {
  }

  // What a text of one character is scanned as, unless it is a word.
  lemma OneChar(d: Dialect, c: char)
    requires !IsNameStart(d, c)
    ensures IsBlank(c) ==> Tokens(d, [c]) == [Whitespace]
    ensures c == '\'' ==> Tokens(d, [c]) == [StringLiteral("")]
    ensures c == '"' || c == '`' ==> Tokens(d, [c]) == [Identifier("")]
    ensures IsFigure(c) ==> Tokens(d, [c]) == [Number([c])]
    ensures !IsBlank(c) && !IsFigure(c) && c != '\'' && c != '"' && c != '`' ==>
              Tokens(d, [c]) == [if c in SYMBOLS then Symbol([c]) else Unknown([c])]
  {
    ClassesAre(d, c);
    if c == '\'' || c == '"' || c == '`' {
      NextQuote(d, c);
    } else if IsSpace(c) {
      NextBlank(d, c);
    } else if IsDigit(c) {
      NextDigit(d, c);
    } else {
      NextOther(d, c);
      SymbolsAre(c);
    }
    TokensOfOne(d, [c], Next(d, [c]).token);
  }

  ghost predicate IsTwoCharText(s: string) {
    s == "<>" || s == ">=" || s == "<=" || s == "!=" || s == "::" || s == "->" || s == "||"
  }

  // A text of two characters is one symbol if and only if it is one of seven.
  lemma TwoChars(d: Dialect, s: string)
    requires |s| == 2
    ensures Tokens(d, s) == [Symbol(s)] <==> IsTwoCharText(s)
  {
    SingleTokenRoundTrip(d, Symbol(s));
    assert s == [s[0], s[1]];
  }

  // ------------------------------------------------------------------------
  // Names and keywords
  // ------------------------------------------------------------------------

  ghost predicate IsName(d: Dialect, w: string) {
    w != "" && IsNameStart(d, w[0]) && forall i :: 0 <= i < |w| ==> IsNameChar(d, w[i])
  }

  lemma NameToken(d: Dialect, w: string)
    requires IsName(d, w)
    ensures Tokens(d, w) == [WordToken(d, w)]
  {
    assert forall i :: 0 <= i < |w| ==> IsNameChar(d, w[i]) && In(d, Word, w[i]);
    NextWord(d, w, "");
    assert w + "" == w;
    TokensOfOne(d, w, WordToken(d, w));
  }

  lemma UpperOfSame(d: Dialect, w: string, k: string)
    requires IsUpperWord(k) && SameIgnoringCase(w, k)
    ensures Upper(w) == k && IsName(d, w)
  {
    forall i | 0 <= i < |w|
      ensures IsNameChar(d, w[i]) && UpperChar(w[i]) == k[i]
    {
      assert SameLetter(w[i], k[i]) && IsUpperChar(k[i]);
    }
    assert SameLetter(w[0], k[0]);
  }

  // In any case of its letters a keyword is scanned as that keyword.
  lemma KeywordInAnyCase(d: Dialect, w: string, k: string)
    requires d.keywords == SQL_KEYWORDS && k in d.keywords && SameIgnoringCase(w, k)
    ensures Tokens(d, w) == [Keyword(k)]
  {
    KeywordsAreUpper(k);
    UpperOfSame(d, w, k);
    NameToken(d, w);
  }

  lemma UpperIgnoresCase(w: string)
    ensures SameIgnoringCase(w, Upper(w))
  {
    forall i | 0 <= i < |w|
      ensures SameLetter(w[i], Upper(w)[i])
    {
      assert Upper(w)[i] == UpperChar(w[i]);
    }
  }

  // Any other name is an identifier, as written.
  lemma OtherNames(d: Dialect, w: string)
    requires IsName(d, w)
    requires forall k :: k in d.keywords ==> !SameIgnoringCase(w, k)
    ensures Tokens(d, w) == [Identifier(w)]
  {
    UpperIgnoresCase(w);
    NameToken(d, w);
  }

  // A quoted name is an identifier with just what is between the quotes, keyword or not.
  lemma QuotedName(d: Dialect, q: char, x: string)
    requires (q == '"' || q == '`') && q !in x
    ensures Tokens(d, [q] + x + [q]) == [Identifier(x)]
  {
    var s := [q] + x + [q];
    var k := if q == '"' then NotDoubleQuote else NotBacktick;
    assert s[1..] == x + [q];
    RunStops(d, k, x, [q]);
    assert s[1..1 + |x|] == x;
    TokensOfOne(d, s, Identifier(x));
  }

  // ------------------------------------------------------------------------
  // Literals
  // ------------------------------------------------------------------------

  // Every quote doubled.
  function Doubled(x: string): string {
    if x == "" then "" else (if x[0] == '\'' then "''" else [x[0]]) + Doubled(x[1..])
  }

  lemma {:induction false} DoubledBody(x: string)
    ensures StringBody(Doubled(x) + "'") == (x, |Doubled(x)| + 1)
  {
    if x == "" {
      assert "" + "'" == "'";
    } else {
      DoubledBody(x[1..]);
      var rest := Doubled(x[1..]) + "'";
      assert x == [x[0]] + x[1..];
      if x[0] == '\'' {
        assert Doubled(x) + "'" == "''" + rest;
        assert ("''" + rest)[2..] == rest;
      } else {
        assert Doubled(x) + "'" == [x[0]] + rest;
        assert ([x[0]] + rest)[1..] == rest;
      }
    }
  }

  // Every text can be written as a literal: between quotes, with its own quotes doubled.
  lemma DoubledLiteral(d: Dialect, x: string)
    ensures Tokens(d, "'" + Doubled(x) + "'") == [StringLiteral(x)]
  {
    var s := "'" + Doubled(x) + "'";
    assert s[1..] == Doubled(x) + "'";
    DoubledBody(x);
    TokensOfOne(d, s, StringLiteral(x));
  }

  ghost predicate AreDigits(s: string) {
    forall i :: 0 <= i < |s| ==> 48 <= s[i] as int <= 57
  }

  ghost predicate IsSuffix(x: string) {
    x == "" ||
    ((x[0] == 'e' || x[0] == 'E') &&
     if |x| > 1 && (x[1] == '+' || x[1] == '-') then AreDigits(x[2..]) else AreDigits(x[1..]))
  }

  // Digits, a point and digits, with digits on one side at least, or digits alone; then possibly an
  // exponent.
  lemma NumberLiteral(d: Dialect, whole: string, point: string, fraction: string, suffix: string)
    requires AreDigits(whole) && AreDigits(fraction) && IsSuffix(suffix)
    requires (point == "." && whole + fraction != "") || (point == "" && whole != "" && fraction == "")
    ensures var n := whole + point + fraction + suffix; Tokens(d, n) == [Number(n)]
  {
    var mantissa := whole + point + fraction;
    var n := mantissa + suffix;
    assert forall i :: 0 <= i < |mantissa| ==> In(d, Mantissa, mantissa[i]);
    assert n[..|mantissa|] == mantissa && n[|mantissa|..] == suffix;
    assert n[0] == mantissa[0];
    if suffix != "" {
      assert n[|mantissa|] == suffix[0] && n[|mantissa| + 1..] == suffix[1..];
      assert |suffix| > 1 ==> suffix[1..][1..] == suffix[2..];
    }
    if whole == "" {
      assert mantissa[1] == fraction[0] && n[1] == mantissa[1];
    }
    assert NumberShape(d, n, |mantissa|);
    SingleTokenRoundTrip(d, Number(n));
  }

  // ------------------------------------------------------------------------
  // Semantic tokens
  // ------------------------------------------------------------------------

  // Filtering drops just the whitespace and the comments, and keeps the others in order.
  lemma {:induction false} SemanticPicks(ts: seq<Token>) returns (at: seq<nat>)
    ensures PicksAt(Semantic(ts), ts, at)
    ensures forall j: nat :: j in at <==>
              j < |ts| && !ts[j].Whitespace? && !ts[j].LineComment? && !ts[j].BlockComment?
  {
    if ts == [] {
      at := [];
    } else {
      var init, last := ts[..|ts| - 1], ts[|ts| - 1];
      at := SemanticPicks(init);
      SemanticOfLast(init, last);
      assert ts == init + [last];
      PicksOn(Semantic(init), ts, at);
      if IsSemantic(last) {
        at := at + [|ts| - 1];
      } else {
        assert Semantic(init) + [] == Semantic(init);
      }
    }
  }

  lemma {:induction false} SemanticOfLast(ts: seq<Token>, t: Token)
    ensures Semantic(ts + [t]) == Semantic(ts) + if IsSemantic(t) then [t] else []
  {
    if ts == [] {
      assert [t][1..] == [] && ts + [t] == [t];
    } else {
      SemanticOfLast(ts[1..], t);
      assert (ts + [t])[1..] == ts[1..] + [t];
    }
  }
}
