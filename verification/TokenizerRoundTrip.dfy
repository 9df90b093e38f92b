/**
 Printing and tokenizing. For lists of well-formed tokens, tokenizing the printed text gives the
 list back if and only if no token runs into the first character printed after it.
 */
module TokenizerRoundTrip {
  import opened Text
  import opened Tokenizer

  // ------------------------------------------------------------------------
  // Well-formed tokens
  // ------------------------------------------------------------------------

  ghost predicate All(d: Dialect, k: Class, s: string) {
    forall i :: 0 <= i < |s| ==> In(d, k, s[i])
  }

  ghost predicate IsWord(d: Dialect, w: string) {
    w != "" && StartsWord(d, w[0]) && All(d, Word, w)
  }

  predicate IsSign(c: char) {
    c == '+' || c == '-'
  }

  predicate IsExponentLetter(c: char) {
    c == 'e' || c == 'E'
  }

  // What may follow the exponent letter.
  ghost predicate IsExponent(d: Dialect, x: string) {
    if x != "" && IsSign(x[0]) then All(d, Digit, x[1..]) else All(d, Digit, x)
  }

  // m digits and dots, then nothing or an exponent.
  ghost predicate NumberShape(d: Dialect, n: string, m: nat) {
    StartsNumber(n) && m <= |n| && All(d, Mantissa, n[..m]) &&
    (m == |n| || (IsExponentLetter(n[m]) && IsExponent(d, n[m + 1..])))
  }

  ghost predicate IsNumber(d: Dialect, n: string) {
    exists m: nat :: NumberShape(d, n, m)
  }

  predicate NoCommentEnd(c: string) {
    forall i :: 0 <= i < |c| - 1 ==> !(c[i] == '*' && c[i + 1] == '/')
  }

  predicate IsUnknownChar(d: Dialect, c: char) {
    !IsSpace(c) && c != '\'' && c != '"' && c != '`' && !IsDigit(c) && !StartsWord(d, c) && !IsOneCharSymbol(c)
  }

  ghost predicate WellFormed(d: Dialect, t: Token) {
    match t
    case Keyword(k) => IsWord(d, k) && Upper(k) == k && k in d.keywords
    case Identifier(i) => IsWord(d, i) && Upper(i) !in d.keywords
    case Number(n) => IsNumber(d, n)
    case StringLiteral(s) => '\'' !in s
    case Symbol(s) => (|s| == 1 && IsOneCharSymbol(s[0])) || (|s| == 2 && IsTwoCharSymbol(s[0], s[1]))
    case Whitespace => true
    case LineComment(c) => '\n' !in c
    case BlockComment(c) => NoCommentEnd(c)
    case Unknown(u) => |u| == 1 && IsUnknownChar(d, u[0])
  }

  // The character c does not become part of the number n printed before it.
  predicate NumberStopsAt(d: Dialect, n: string, c: char) {
    var m := RunLen(d, Mantissa, n);
    if m == |n| then !In(d, Mantissa, c) && !IsExponentLetter(c)
    else !IsDigit(c) && (m + 1 == |n| ==> !IsSign(c))
  }

  // The token t ends where the character c follows it.
  predicate EndsBefore(d: Dialect, t: Token, c: char) {
    match t
    case Keyword(_) => !ContinuesWord(d, c)
    case Identifier(_) => !ContinuesWord(d, c)
    case Number(n) => NumberStopsAt(d, n, c)
    case StringLiteral(_) => c != '\''
    case Symbol(s) =>
      |s| == 1 ==>
        !IsTwoCharSymbol(s[0], c) && !(s[0] == '-' && c == '-') && !(s[0] == '/' && c == '*') &&
        !(s[0] == '.' && IsDigit(c))
    case Whitespace => !IsSpace(c)
    case LineComment(_) => c == '\n'
    case BlockComment(_) => true
    case Unknown(_) => true
  }

  predicate EndsBeforeText(d: Dialect, t: Token, rest: string) {
    rest == "" || EndsBefore(d, t, rest[0])
  }

  // ------------------------------------------------------------------------
  // Runs, numbers, strings and comments in front of other text
  // ------------------------------------------------------------------------

  lemma RunStops(d: Dialect, k: Class, a: string, rest: string)
    requires All(d, k, a) && (rest == "" || !In(d, k, rest[0]))
    ensures RunLen(d, k, a + rest) == |a|
  {
    RunLenIs(d, k, a + rest, |a|);
  }

  lemma RunGoesOn(d: Dialect, k: Class, a: string, rest: string)
    requires All(d, k, a) && rest != "" && In(d, k, rest[0])
    ensures RunLen(d, k, a + rest) > |a|
  {
    var s := a + rest;
    RunLenIs(d, k, s, RunLen(d, k, s));
    assert s[|a|] == rest[0];
    assert forall i :: 0 <= i <= |a| ==> In(d, k, s[i]);
  }

  lemma ExponentStops(d: Dialect, x: string, rest: string)
    requires IsExponent(d, x)
    requires rest != "" ==> !IsDigit(rest[0]) && (x == "" ==> !IsSign(rest[0]))
    ensures ExponentLen(d, x + rest) == |x|
  {
    if x != "" && IsSign(x[0]) {
      assert (x + rest)[1..] == x[1..] + rest;
      RunStops(d, Digit, x[1..], rest);
    } else {
      RunStops(d, Digit, x, rest);
    }
  }

  lemma ExponentGoesOn(d: Dialect, x: string, rest: string)
    requires IsExponent(d, x)
    requires rest != "" && (IsDigit(rest[0]) || (x == "" && IsSign(rest[0])))
    ensures ExponentLen(d, x + rest) > |x|
  {
    if x != "" && IsSign(x[0]) {
      assert (x + rest)[1..] == x[1..] + rest;
      RunGoesOn(d, Digit, x[1..], rest);
    } else if IsDigit(rest[0]) {
      RunGoesOn(d, Digit, x, rest);
    } else {
      assert x + rest == rest;
    }
  }

  // The mantissa of a number ends at its exponent letter.
  lemma MantissaLen(d: Dialect, n: string, m: nat, rest: string)
    requires NumberShape(d, n, m)
    ensures RunLen(d, Mantissa, n) == m
    ensures m < |n| ==> RunLen(d, Mantissa, n + rest) == m
  {
    assert n == n[..m] + n[m..];
    RunStops(d, Mantissa, n[..m], n[m..]);
    if m < |n| {
      assert n + rest == n[..m] + (n[m..] + rest);
      RunStops(d, Mantissa, n[..m], n[m..] + rest);
    }
  }

  lemma NumberStops(d: Dialect, n: string, rest: string)
    requires IsNumber(d, n) && EndsBeforeText(d, Number(n), rest)
    ensures NumberLen(d, n + rest) == |n|
  {
    var m: nat :| NumberShape(d, n, m);
    MantissaLen(d, n, m, rest);
    if m == |n| {
      assert n[..m] == n;
      RunStops(d, Mantissa, n, rest);
    } else {
      assert (n + rest)[m + 1..] == n[m + 1..] + rest;
      ExponentStops(d, n[m + 1..], rest);
    }
  }

  lemma NumberGoesOn(d: Dialect, n: string, rest: string)
    requires IsNumber(d, n) && !EndsBeforeText(d, Number(n), rest)
    ensures NumberLen(d, n + rest) > |n|
  {
    var m: nat :| NumberShape(d, n, m);
    MantissaLen(d, n, m, rest);
    if m == |n| {
      assert n[..m] == n;
      if In(d, Mantissa, rest[0]) {
        RunGoesOn(d, Mantissa, n, rest);
      } else {
        RunStops(d, Mantissa, n, rest);
      }
    } else {
      assert (n + rest)[m + 1..] == n[m + 1..] + rest;
      ExponentGoesOn(d, n[m + 1..], rest);
    }
  }

  lemma {:induction false} StringBodyAfter(x: string, rest: string)
    requires '\'' !in x
    ensures StringBody(x + rest) == (x + StringBody(rest).0, |x| + StringBody(rest).1)
  {
    if x == "" {
      assert x + rest == rest && x + StringBody(rest).0 == StringBody(rest).0;
    } else {
      assert (x + rest)[1..] == x[1..] + rest;
      StringBodyAfter(x[1..], rest);
      assert [x[0]] + (x[1..] + StringBody(rest).0) == x + StringBody(rest).0;
    }
  }

  lemma {:induction false} BlockEndAfter(c: string, rest: string)
    requires NoCommentEnd(c)
    ensures BlockEnd(c + "*/" + rest) == |c|
  {
    var s := c + "*/" + rest;
    if c != "" {
      assert s[1..] == c[1..] + "*/" + rest;
      BlockEndAfter(c[1..], rest);
    }
  }

  // ------------------------------------------------------------------------
  // The first token of a printed text
  // ------------------------------------------------------------------------

  lemma NextWord(d: Dialect, w: string, rest: string)
    requires IsWord(d, w) && (rest == "" || !ContinuesWord(d, rest[0]))
    ensures Next(d, w + rest) == Scanned(WordToken(d, w), |w|)
  {
    RunStops(d, Word, w, rest);
    assert (w + rest)[..|w|] == w;
  }

  lemma NextNumber(d: Dialect, n: string, rest: string)
    requires IsNumber(d, n)
    ensures Next(d, n + rest) == Scanned(Number((n + rest)[..NumberLen(d, n + rest)]), NumberLen(d, n + rest))
  {
    var m: nat :| NumberShape(d, n, m);
    var s := n + rest;
    assert s[0] == n[0] && (|n| > 1 ==> s[1] == n[1]);
  }

  lemma NextString(d: Dialect, x: string, rest: string)
    ensures Next(d, "'" + x + rest) == Scanned(StringLiteral(StringBody(x + rest).0), 1 + StringBody(x + rest).1)
  {
    var s := "'" + x + rest;
    assert s[1..] == x + rest;
  }

  lemma NextLineComment(d: Dialect, c: string, rest: string)
    ensures Next(d, "--" + c + rest) ==
            Scanned(LineComment((c + rest)[..RunLen(d, NotNewline, c + rest)]), 2 + RunLen(d, NotNewline, c + rest))
  {
    var s := "--" + c + rest;
    var n := RunLen(d, NotNewline, c + rest);
    assert s[2..] == c + rest;
    assert s[2..2 + n] == (c + rest)[..n];
  }

  lemma NextBlockComment(d: Dialect, c: string, rest: string)
    requires NoCommentEnd(c)
    ensures Next(d, "/*" + c + "*/" + rest) == Scanned(BlockComment(c), |c| + 4)
  {
    var s := "/*" + c + "*/" + rest;
    assert s[2..] == c + "*/" + rest;
    BlockEndAfter(c, rest);
    assert s[2..2 + |c|] == c;
  }

  lemma SymbolStart(d: Dialect, c: char)
    requires IsOneCharSymbol(c)
    ensures !IsSpace(c) && c != '\'' && c != '"' && c != '`' && !IsDigit(c) && !StartsWord(d, c)
  {
  }

  lemma NextOneCharSymbol(d: Dialect, c: char, rest: string)
    requires IsOneCharSymbol(c) && EndsBeforeText(d, Symbol([c]), rest)
    ensures Next(d, [c] + rest) == Scanned(Symbol([c]), 1)
  {
    SymbolStart(d, c);
    var s := [c] + rest;
    assert s[0] == c;
    assert |s| > 1 ==> s[1] == rest[0];
  }

  lemma NextTwoCharSymbol(d: Dialect, a: char, b: char, rest: string)
    requires IsTwoCharSymbol(a, b)
    ensures Next(d, [a, b] + rest) == Scanned(Symbol([a, b]), 2)
  {
    var s := [a, b] + rest;
    assert s[0] == a && s[1] == b && s[..2] == [a, b];
  }

  lemma NextSymbol(d: Dialect, x: string, rest: string)
    requires WellFormed(d, Symbol(x)) && EndsBeforeText(d, Symbol(x), rest)
    ensures Next(d, x + rest) == Scanned(Symbol(x), |x|)
  {
    if |x| == 1 {
      assert x == [x[0]];
      NextOneCharSymbol(d, x[0], rest);
    } else {
      assert x == [x[0], x[1]];
      NextTwoCharSymbol(d, x[0], x[1], rest);
    }
  }

  lemma NextWhitespace(d: Dialect, rest: string)
    requires rest == "" || !IsSpace(rest[0])
    ensures Next(d, " " + rest) == Scanned(Whitespace, 1)
  {
    RunStops(d, Space, " ", rest);
  }

  // A well-formed token that ends in front of the text is read back exactly.
  lemma NextOfPrinted(d: Dialect, t: Token, rest: string)
    requires WellFormed(d, t) && EndsBeforeText(d, t, rest)
    ensures Next(d, Print(t) + rest) == Scanned(t, |Print(t)|)
  {
    match t
    case Keyword(k) => NextWord(d, k, rest);
    case Identifier(i) => NextWord(d, i, rest);
    case Number(n) =>
      NextNumber(d, n, rest);
      NumberStops(d, n, rest);
      assert (n + rest)[..|n|] == n;
    case StringLiteral(x) =>
      StringBodyAfter(x, "'" + rest);
      assert StringBody("'" + rest) == ("", 1);
      NextString(d, x, "'" + rest);
      assert Print(t) + rest == "'" + x + ("'" + rest);
      assert x + "" == x;
    case Symbol(x) => NextSymbol(d, x, rest);
    case Whitespace => NextWhitespace(d, rest);
    case LineComment(c) =>
      NextLineComment(d, c, rest);
      RunStops(d, NotNewline, c, rest);
      assert (c + rest)[..|c|] == c;
    case BlockComment(c) => NextBlockComment(d, c, rest);
    case Unknown(u) => assert (u + rest)[0] == u[0] && [u[0]] == u;
  }

  // ------------------------------------------------------------------------
  // Tokens that run into what follows
  // ------------------------------------------------------------------------

  lemma WordRunsOn(d: Dialect, w: string, rest: string, t: Token)
    requires IsWord(d, w) && rest != "" && ContinuesWord(d, rest[0])
    requires (t.Keyword? || t.Identifier?) && |t.text| == |w|
    ensures Next(d, w + rest).token != t
  {
    RunGoesOn(d, Word, w, rest);
    var n := RunLen(d, Word, w + rest);
    assert |WordToken(d, (w + rest)[..n]).text| == n;
  }

  lemma StringRunsOn(d: Dialect, x: string, rest: string)
    requires '\'' !in x && rest != "" && rest[0] == '\''
    ensures Next(d, Print(StringLiteral(x)) + rest).token != StringLiteral(x)
  {
    StringBodyAfter(x, "'" + rest);
    NextString(d, x, "'" + rest);
    assert Print(StringLiteral(x)) + rest == "'" + x + ("'" + rest);
    assert |StringBody("'" + rest).0| >= 1;
  }

  lemma SymbolRunsOn(d: Dialect, x: string, rest: string)
    requires WellFormed(d, Symbol(x)) && !EndsBeforeText(d, Symbol(x), rest)
    ensures Next(d, x + rest).token != Symbol(x)
  {
    var s := x + rest;
    assert s[0] == x[0] && s[1] == rest[0];
  }

  // A well-formed token, other than whitespace, that runs into the text is read as another token.
  lemma RunsOn(d: Dialect, t: Token, rest: string)
    requires WellFormed(d, t) && !EndsBeforeText(d, t, rest) && !t.Whitespace?
    ensures Next(d, Print(t) + rest).token != t
  {
    match t
    case Keyword(k) => WordRunsOn(d, k, rest, t);
    case Identifier(i) => WordRunsOn(d, i, rest, t);
    case Number(n) =>
      NextNumber(d, n, rest);
      NumberGoesOn(d, n, rest);
    case StringLiteral(x) => StringRunsOn(d, x, rest);
    case Symbol(x) => SymbolRunsOn(d, x, rest);
    case LineComment(c) =>
      NextLineComment(d, c, rest);
      RunGoesOn(d, NotNewline, c, rest);
  }

  lemma NextIsWhitespace(d: Dialect, s: string)
    requires s != ""
    ensures Next(d, s).token.Whitespace? <==> IsSpace(s[0])
  {
  }

  // Whitespace swallows all the whitespace after it, so what it leaves cannot start with any.
  lemma WhitespaceRunsOn(d: Dialect, rest: string, ts: seq<Token>)
    requires rest != "" && IsSpace(rest[0]) && ts != [] && ts[0].Whitespace?
    ensures Tokens(d, " " + rest) != [Whitespace] + ts
  {
    var s := " " + rest;
    var n := RunLen(d, Space, s);
    RunLenIs(d, Space, s, n);
    var left := s[n..];
    assert Next(d, s) == Scanned(Whitespace, n);
    assert Tokens(d, s) == [Whitespace] + Tokens(d, left);
    if left != "" {
      NextIsWhitespace(d, left);
      assert Tokens(d, left)[0] != ts[0];
    }
    assert Tokens(d, s)[1..] == Tokens(d, left) && ([Whitespace] + ts)[1..] == ts;
  }

  lemma PrintedStart(d: Dialect, t: Token)
    requires WellFormed(d, t)
    ensures Print(t) != ""
    ensures IsSpace(Print(t)[0]) <==> t.Whitespace?
  {
    if t.Number? {
      var m: nat :| NumberShape(d, t.text, m);
    }
  }

  // ------------------------------------------------------------------------
  // Round trip
  // ------------------------------------------------------------------------

  ghost predicate AllWellFormed(d: Dialect, ts: seq<Token>) {
    forall i :: 0 <= i < |ts| ==> WellFormed(d, ts[i])
  }

  // Every token ends where the next one is printed.
  ghost predicate Separated(d: Dialect, ts: seq<Token>) {
    forall i :: 0 <= i < |ts| - 1 ==> EndsBeforeText(d, ts[i], Print(ts[i + 1]))
  }

  lemma SeparatedHead(d: Dialect, ts: seq<Token>)
    requires |ts| >= 1 && AllWellFormed(d, ts)
    ensures Separated(d, ts) <==>
            EndsBeforeText(d, ts[0], PrintAll(ts[1..])) && Separated(d, ts[1..])
  {
    if |ts| >= 2 {
      PrintedStart(d, ts[1]);
      assert PrintAll(ts[1..])[0] == Print(ts[1])[0];
      if EndsBeforeText(d, ts[0], PrintAll(ts[1..])) && Separated(d, ts[1..]) {
        forall i | 0 <= i < |ts| - 1
          ensures EndsBeforeText(d, ts[i], Print(ts[i + 1]))
        {
          if i > 0 {
            assert EndsBeforeText(d, ts[1..][i - 1], Print(ts[1..][i - 1 + 1]));
          }
        }
      }
    }
  }

  lemma TokensOfHead(d: Dialect, t: Token, rest: string)
    requires WellFormed(d, t) && EndsBeforeText(d, t, rest)
    ensures Tokens(d, Print(t) + rest) == [t] + Tokens(d, rest)
  {
    PrintedStart(d, t);
    NextOfPrinted(d, t, rest);
    assert (Print(t) + rest)[|Print(t)|..] == rest;
  }

  lemma TokensGoWrong(d: Dialect, ts: seq<Token>)
    requires |ts| >= 1 && AllWellFormed(d, ts)
    requires !EndsBeforeText(d, ts[0], PrintAll(ts[1..]))
    ensures Tokens(d, PrintAll(ts)) != ts
  {
    var rest := PrintAll(ts[1..]);
    PrintedStart(d, ts[0]);
    assert |ts| > 1;
    PrintedStart(d, ts[1]);
    assert rest[0] == Print(ts[1])[0];
    if ts[0].Whitespace? {
      WhitespaceRunsOn(d, rest, ts[1..]);
      assert [Whitespace] + ts[1..] == ts;
    } else {
      RunsOn(d, ts[0], rest);
    }
  }

  // Printing well-formed tokens and tokenizing the text gives the same tokens if and only if each
  // ends where the next is printed.
  lemma {:induction false} RoundTrip(d: Dialect, ts: seq<Token>)
    requires AllWellFormed(d, ts)
    ensures Tokens(d, PrintAll(ts)) == ts <==> Separated(d, ts)
  {
    if ts != [] {
      SeparatedHead(d, ts);
      if EndsBeforeText(d, ts[0], PrintAll(ts[1..])) {
        TokensOfHead(d, ts[0], PrintAll(ts[1..]));
        RoundTrip(d, ts[1..]);
        assert ts == [ts[0]] + ts[1..];
      } else {
        TokensGoWrong(d, ts);
      }
    }
  }

  // ------------------------------------------------------------------------
  // Lists with single spaces between the tokens
  // ------------------------------------------------------------------------

  function Spaced(ts: seq<Token>): seq<Token> {
    if |ts| <= 1 then ts else [ts[0], Whitespace] + Spaced(ts[1..])
  }

  // `is_semantic`, and the filter `semantic_tokens` applies
  predicate IsSemantic(t: Token) {
    !t.Whitespace? && !t.LineComment? && !t.BlockComment?
  }

  function Semantic(ts: seq<Token>): seq<Token> {
    if ts == [] then [] else (if IsSemantic(ts[0]) then [ts[0]] else []) + Semantic(ts[1..])
  }

  lemma EndsBeforeSpace(d: Dialect, t: Token)
    requires WellFormed(d, t) && !t.Whitespace? && !t.LineComment?
    ensures EndsBefore(d, t, ' ')
  {
  }

  lemma {:induction false} SpacedIsSeparated(d: Dialect, ts: seq<Token>)
    requires AllWellFormed(d, ts)
    requires forall i :: 0 <= i < |ts| ==> !ts[i].Whitespace? && !ts[i].LineComment?
    ensures AllWellFormed(d, Spaced(ts)) && Separated(d, Spaced(ts))
    ensures ts != [] ==> Spaced(ts) != [] && Spaced(ts)[0] == ts[0]
  {
    if |ts| > 1 {
      SpacedIsSeparated(d, ts[1..]);
      EndsBeforeSpace(d, ts[0]);
      PrintedStart(d, ts[1]);
      var rest, all := Spaced(ts[1..]), Spaced(ts);
      forall i | 0 <= i < |all| - 1
        ensures EndsBeforeText(d, all[i], Print(all[i + 1]))
      {
        if i >= 2 {
          assert all[i] == rest[i - 2] && all[i + 1] == rest[i - 2 + 1];
        }
      }
    }
  }

  lemma SpacedRoundTrips(d: Dialect, ts: seq<Token>)
    requires AllWellFormed(d, ts)
    requires forall i :: 0 <= i < |ts| ==> !ts[i].Whitespace? && !ts[i].LineComment?
    ensures Tokens(d, PrintAll(Spaced(ts))) == Spaced(ts)
  {
    SpacedIsSeparated(d, ts);
    RoundTrip(d, Spaced(ts));
  }

  lemma {:induction false} SemanticOfSpaced(ts: seq<Token>)
    requires forall i :: 0 <= i < |ts| ==> IsSemantic(ts[i])
    ensures Semantic(Spaced(ts)) == ts
  {
    if |ts| == 1 {
      assert Semantic(ts[1..]) == [];
    } else if |ts| > 1 {
      SemanticOfSpaced(ts[1..]);
      var all := Spaced(ts);
      assert all[1..] == [Whitespace] + Spaced(ts[1..]) && all[1..][1..] == Spaced(ts[1..]);
    }
  }

  // What a parser sees of a statement printed with single spaces is the statement.
  lemma {:induction false} SemanticRoundTrip(d: Dialect, ts: seq<Token>)
    requires AllWellFormed(d, ts) && forall i :: 0 <= i < |ts| ==> IsSemantic(ts[i])
    ensures Semantic(Tokens(d, PrintAll(Spaced(ts)))) == ts
  {
    SpacedRoundTrips(d, ts);
    SemanticOfSpaced(ts);
  }

  // ------------------------------------------------------------------------
  // The source's keywords
  // ------------------------------------------------------------------------

  predicate IsUpperChar(c: char) {
    'A' <= c <= 'Z' || c == '_' || IsDigit(c)
  }

  predicate IsUpperWord(w: string) {
    w != "" && 'A' <= w[0] <= 'Z' && forall i :: 0 <= i < |w| ==> IsUpperChar(w[i])
  }

  lemma Keywords1AreUpper(k: string)
    requires k in KEYWORDS_1
    ensures IsUpperWord(k)
  {
  }

  lemma Keywords2AreUpper(k: string)
    requires k in KEYWORDS_2
    ensures IsUpperWord(k)
  {
  }

  lemma Keywords3AreUpper(k: string)
    requires k in KEYWORDS_3
    ensures IsUpperWord(k)
  {
  }

  lemma Keywords4AreUpper(k: string)
    requires k in KEYWORDS_4
    ensures IsUpperWord(k)
  {
  }

  lemma Keywords5AreUpper(k: string)
    requires k in KEYWORDS_5
    ensures IsUpperWord(k)
  {
  }

  lemma Keywords6AreUpper(k: string)
    requires k in KEYWORDS_6
    ensures IsUpperWord(k)
  {
  }

  lemma Keywords7AreUpper(k: string)
    requires k in KEYWORDS_7
    ensures IsUpperWord(k)
  {
  }

  lemma Keywords8AreUpper(k: string)
    requires k in KEYWORDS_8
    ensures IsUpperWord(k)
  {
  }

  lemma Keywords9AreUpper(k: string)
    requires k in KEYWORDS_9
    ensures IsUpperWord(k)
  {
  }

  lemma Keywords10AreUpper(k: string)
    requires k in KEYWORDS_10
    ensures IsUpperWord(k)
  {
  }

  lemma KeywordsAreUpper(k: string)
    requires k in SQL_KEYWORDS
    ensures IsUpperWord(k)
  {
    if k in KEYWORDS_1 {
      Keywords1AreUpper(k);
    } else if k in KEYWORDS_2 {
      Keywords2AreUpper(k);
    } else if k in KEYWORDS_3 {
      Keywords3AreUpper(k);
    } else if k in KEYWORDS_4 {
      Keywords4AreUpper(k);
    } else if k in KEYWORDS_5 {
      Keywords5AreUpper(k);
    } else if k in KEYWORDS_6 {
      Keywords6AreUpper(k);
    } else if k in KEYWORDS_7 {
      Keywords7AreUpper(k);
    } else if k in KEYWORDS_8 {
      Keywords8AreUpper(k);
    } else if k in KEYWORDS_9 {
      Keywords9AreUpper(k);
    } else if k in KEYWORDS_10 {
      Keywords10AreUpper(k);
    }
  }

  // Every keyword of the source is a well-formed keyword token, whatever the Unicode tables.
  lemma SqlKeywordsWellFormed(d: Dialect, k: string)
    requires d.keywords == SQL_KEYWORDS && k in SQL_KEYWORDS
    ensures WellFormed(d, Keyword(k))
  {
    KeywordsAreUpper(k);
    assert forall i :: 0 <= i < |k| ==> IsUpperChar(k[i]) && UpperChar(k[i]) == k[i];
    assert Upper(k) == k;
  }
}
