/**
 Two further laws of the tokenizer: which single tokens survive printing, and how the tokens of a
 text with a space in it are made of the tokens of its parts.
 */
module TokenizerCompose {
  import opened Tokenizer
  import opened TokenizerRoundTrip

  // ------------------------------------------------------------------------
  // A single token
  // ------------------------------------------------------------------------

  // A literal whose only quote is its last character prints as an unterminated literal, which
  // the scanner reads back as the same literal.
  predicate EndsInOnlyQuote(x: string) {
    x != "" && x[|x| - 1] == '\'' && '\'' !in x[..|x| - 1]
  }

  ghost predicate SurvivesAlone(d: Dialect, t: Token) {
    WellFormed(d, t) || (t.StringLiteral? && EndsInOnlyQuote(t.text))
  }

  lemma TokensOfOne(d: Dialect, s: string, t: Token)
    ensures Tokens(d, s) == [t] <==> s != "" && Next(d, s) == Scanned(t, |s|)
  {
    if s != "" {
      var r := Next(d, s);
      var rest := s[r.length..];
      assert Tokens(d, s) == [r.token] + Tokens(d, rest);
      if Tokens(d, s) == [t] {
        assert r.token == Tokens(d, s)[0] == t;
        assert |Tokens(d, rest)| == 0;
        assert rest == "";
      } else {
        assert rest == "" ==> Tokens(d, s) == [r.token];
      }
    }
  }

  lemma OnlyQuoteSurvives(d: Dialect, x: string)
    requires EndsInOnlyQuote(x)
    ensures Next(d, Print(StringLiteral(x))) == Scanned(StringLiteral(x), |x| + 2)
  {
    var y := x[..|x| - 1];
    assert x == y + "'";
    assert Print(StringLiteral(x)) == "'" + y + "''";
    NextString(d, y, "''");
    StringBodyAfter(y, "''");
    assert "''"[2..] == "" && "'" + "" == "'";
    assert StringBody("''") == ("'", 2);
  }

  // Every quote the scanner consumes costs a character.
  lemma {:induction false} QuotesShrink(s: string)
    ensures |StringBody(s).0| <= StringBody(s).1
    ensures '\'' in s[..StringBody(s).1] ==> |StringBody(s).0| < StringBody(s).1
  {
    if s != "" && s[0] != '\'' {
      QuotesShrink(s[1..]);
      var n := StringBody(s[1..]).1;
      assert s[..n + 1] == [s[0]] + s[1..][..n];
    } else if |s| > 1 && s[1] == '\'' {
      QuotesShrink(s[2..]);
    }
  }

  lemma AfterFirstQuote(r: string)
    requires r != ""
    ensures StringBody("'" + r) ==
            if r[0] == '\'' then ("'" + StringBody(r[1..]).0, 2 + StringBody(r[1..]).1) else ("", 1)
  {
    var s := "'" + r;
    assert s[1] == r[0] && s[2..] == r[1..];
  }

  lemma SecondQuoteShrinks(z: string)
    requires z != "" && z[0] == '\''
    requires StringBody((z + "'")[1..]).1 == |z|
    ensures |StringBody((z + "'")[1..]).0| < |z|
  {
    var w := (z + "'")[1..];
    QuotesShrink(w);
    assert w[..|w|] == w && w[|w| - 1] == '\'';
  }

  lemma FirstQuoteIsLast(y: string, z: string)
    requires '\'' !in y
    requires var body := StringBody(y + ("'" + (z + "'")));
             |body.0| == |y| + 1 + |z| && body.1 == |y| + |z| + 2
    ensures z == ""
  {
    StringBodyAfter(y, "'" + (z + "'"));
    AfterFirstQuote(z + "'");
    if z != "" && z[0] == '\'' {
      SecondQuoteShrinks(z);
    }
  }

  lemma LiteralSurvivesOnly(x: string)
    requires |StringBody(x + "'").0| == |x| && StringBody(x + "'").1 == |x| + 1
    ensures '\'' !in x || EndsInOnlyQuote(x)
  {
    if '\'' in x {
      var p := FirstQuote(x);
      SplitAtQuote(x, p);
      FirstQuoteIsLast(x[..p], x[p + 1..]);
    }
  }

  lemma SplitAtQuote(x: string, p: nat)
    requires p < |x| && x[p] == '\''
    ensures x + "'" == x[..p] + ("'" + (x[p + 1..] + "'"))
  {
  }

  lemma FirstQuote(x: string) returns (p: nat)
    requires '\'' in x
    ensures p < |x| && x[p] == '\'' && '\'' !in x[..p]
  {
    p := 0;
    while x[p] != '\''
      invariant p < |x| && forall i :: 0 <= i < p ==> x[i] != '\''
      decreases |x| - p
    {
      p := p + 1;
    }
  }

  lemma NumberFromLen(d: Dialect, n: string)
    requires StartsNumber(n) && NumberLen(d, n) == |n|
    ensures IsNumber(d, n)
  {
    var m := RunLen(d, Mantissa, n);
    RunLenIs(d, Mantissa, n, m);
    if m < |n| {
      var x := n[m + 1..];
      if x != "" && IsSign(x[0]) {
        RunLenIs(d, Digit, x[1..], |x| - 1);
      } else {
        RunLenIs(d, Digit, x, |x|);
      }
    }
    assert NumberShape(d, n, m);
  }

  lemma {:induction false} NoEndBeforeBlockEnd(s: string)
    ensures forall i :: 0 <= i < BlockEnd(s) && i + 1 < |s| ==> !(s[i] == '*' && s[i + 1] == '/')
  {
    if BlockEnd(s) > 0 {
      NoEndBeforeBlockEnd(s[1..]);
      assert forall i :: 1 <= i < |s| ==> s[i] == s[1..][i - 1];
    }
  }

  lemma WordSurvivesOnly(d: Dialect, t: Token)
    requires (t.Keyword? || t.Identifier?) && t.text != ""
    requires Next(d, t.text) == Scanned(t, |t.text|)
    ensures WellFormed(d, t)
  {
    var s := t.text;
    RunLenIs(d, Word, s, |s|);
    assert s[..|s|] == s;
  }

  lemma BlockSurvivesOnly(d: Dialect, c: string)
    requires Next(d, "/*" + c + "*/") == Scanned(BlockComment(c), |c| + 4)
    ensures NoCommentEnd(c)
  {
    var s := "/*" + c + "*/";
    assert s[2..] == c + "*/";
    NoEndBeforeBlockEnd(c + "*/");
    assert BlockEnd(c + "*/") == |c|;
    assert forall i :: 0 <= i < |c| ==> (c + "*/")[i] == c[i];
  }

  lemma SurvivesOnly(d: Dialect, t: Token)
    requires Print(t) != "" && Next(d, Print(t)) == Scanned(t, |Print(t)|)
    ensures SurvivesAlone(d, t)
  {
    match t
    case Keyword(_) => WordSurvivesOnly(d, t);
    case Identifier(_) => WordSurvivesOnly(d, t);
    case Number(n) => NumberFromLen(d, n);
    case StringLiteral(x) =>
      assert Print(t) == "'" + x + "'";
      NextString(d, x, "'");
      LiteralSurvivesOnly(x);
    case Symbol(_) =>
    case Whitespace =>
    case LineComment(c) =>
      assert Print(t) == "--" + c + "" && c + "" == c;
      NextLineComment(d, c, "");
      RunLenIs(d, NotNewline, c, |c|);
    case BlockComment(c) => BlockSurvivesOnly(d, c);
    case Unknown(_) =>
  }

  // Exactly these tokens survive printing and tokenizing on their own.
  lemma SingleTokenRoundTrip(d: Dialect, t: Token)
    ensures Tokens(d, Print(t)) == [t] <==> SurvivesAlone(d, t)
  {
    TokensOfOne(d, Print(t), t);
    if WellFormed(d, t) {
      PrintedStart(d, t);
      NextOfPrinted(d, t, "");
      assert Print(t) + "" == Print(t);
    } else if SurvivesAlone(d, t) {
      OnlyQuoteSurvives(d, t.text);
    } else if Tokens(d, Print(t)) == [t] {
      SurvivesOnly(d, t);
    }
  }

  // ------------------------------------------------------------------------
  // A space between two texts
  // ------------------------------------------------------------------------

  // The literal after the opening quote is closed.
  predicate StringCloses(s: string) {
    s != "" &&
    if s[0] != '\'' then StringCloses(s[1..])
    else |s| == 1 || s[1] != '\'' || StringCloses(s[2..])
  }

  // The first token of s does not run out of text looking for its end.
  predicate Complete(d: Dialect, s: string)
    requires s != ""
  {
    if OpensLineComment(s) then RunLen(d, NotNewline, s[2..]) < |s| - 2
    else if OpensBlockComment(s) then BlockEnd(s[2..]) + 1 < |s| - 2
    else if s[0] == '\'' then StringCloses(s[1..])
    else if s[0] == '"' then RunLen(d, NotDoubleQuote, s[1..]) < |s| - 1
    else if s[0] == '`' then RunLen(d, NotBacktick, s[1..]) < |s| - 1
    else true
  }

  // The text does not end inside a quote or a comment.
  predicate Closed(d: Dialect, s: string) {
    s == "" || (Complete(d, s) && Closed(d, s[Next(d, s).length..]))
  }

  lemma RunKeeps(d: Dialect, k: Class, s: string, x: string)
    requires RunLen(d, k, s) < |s| || x == "" || !In(d, k, x[0])
    ensures RunLen(d, k, s + x) == RunLen(d, k, s)
  {
    var n := RunLen(d, k, s);
    RunLenIs(d, k, s, n);
    RunLenIs(d, k, s + x, n);
  }

  lemma {:induction false} BlockKeeps(s: string, x: string)
    requires BlockEnd(s) + 1 < |s|
    ensures BlockEnd(s + x) == BlockEnd(s)
  {
    if BlockEnd(s) > 0 {
      assert (s + x)[1..] == s[1..] + x;
      BlockKeeps(s[1..], x);
    }
  }

  lemma {:induction false} StringKeeps(s: string, x: string)
    requires StringCloses(s) && (x == "" || x[0] != '\'')
    ensures StringBody(s + x) == StringBody(s)
  {
    if s[0] != '\'' {
      assert (s + x)[1..] == s[1..] + x;
      StringKeeps(s[1..], x);
    } else if |s| > 1 && s[1] == '\'' {
      assert (s + x)[2..] == s[2..] + x;
      StringKeeps(s[2..], x);
    }
  }

  predicate StartsWithSpace(x: string) {
    x != "" && IsSpace(x[0])
  }

  lemma ExponentKeeps(d: Dialect, e: string, x: string)
    requires StartsWithSpace(x)
    ensures ExponentLen(d, e + x) == ExponentLen(d, e)
  {
    if e != "" && IsSign(e[0]) {
      assert (e + x)[1..] == e[1..] + x;
      RunKeeps(d, Digit, e[1..], x);
    } else {
      RunKeeps(d, Digit, e, x);
    }
  }

  lemma NumberKeeps(d: Dialect, s: string, x: string)
    requires StartsWithSpace(x)
    ensures NumberLen(d, s + x) == NumberLen(d, s)
  {
    RunKeeps(d, Mantissa, s, x);
    var m := RunLen(d, Mantissa, s);
    if m < |s| && IsExponentLetter(s[m]) {
      assert (s + x)[m + 1..] == s[m + 1..] + x;
      ExponentKeeps(d, s[m + 1..], x);
    }
  }

  lemma SymbolKeeps(s: string, x: string)
    requires s != "" && StartsWithSpace(x)
    ensures ScanSymbol(s + x) == ScanSymbol(s)
  {
    var t := s + x;
    assert t[0] == s[0] && t[1] == if |s| > 1 then s[1] else x[0];
    if |s| > 1 {
      assert t[..2] == s[..2];
    }
  }

  lemma StartKeeps(s: string, x: string)
    requires s != "" && StartsWithSpace(x)
    ensures StartsNumber(s + x) == StartsNumber(s)
  {
    var t := s + x;
    assert t[0] == s[0] && t[1] == if |s| > 1 then s[1] else x[0];
  }

  lemma BareKeeps(d: Dialect, s: string, x: string)
    requires s != "" && StartsWithSpace(x)
    ensures NextBare(d, s + x) == NextBare(d, s)
  {
    var t := s + x;
    assert t[0] == s[0];
    StartKeeps(s, x);
    if StartsNumber(s) {
      NumberKeeps(d, s, x);
      assert t[..NumberLen(d, s)] == s[..NumberLen(d, s)];
    } else if StartsWord(d, s[0]) {
      RunKeeps(d, Word, s, x);
      assert t[..RunLen(d, Word, s)] == s[..RunLen(d, Word, s)];
    } else {
      SymbolKeeps(s, x);
    }
  }

  lemma QuotedKeeps(d: Dialect, k: Class, s: string, x: string)
    requires s != "" && RunLen(d, k, s[1..]) < |s| - 1
    ensures ScanQuoted(d, k, s + x) == ScanQuoted(d, k, s)
  {
    assert (s + x)[1..] == s[1..] + x;
    RunKeeps(d, k, s[1..], x);
    var n := RunLen(d, k, s[1..]);
    assert (s + x)[1..1 + n] == s[1..1 + n];
  }

  lemma CommentKeeps(d: Dialect, s: string, x: string)
    requires OpensLineComment(s) || OpensBlockComment(s)
    requires Complete(d, s)
    ensures Next(d, s + x) == Next(d, s)
  {
    var t := s + x;
    assert t[0] == s[0] && t[1] == s[1] && t[2..] == s[2..] + x;
    if OpensLineComment(s) {
      RunKeeps(d, NotNewline, s[2..], x);
      var n := RunLen(d, NotNewline, s[2..]);
      assert t[2..2 + n] == s[2..2 + n];
    } else {
      BlockKeeps(s[2..], x);
      var n := BlockEnd(s[2..]);
      assert t[2..2 + n] == s[2..2 + n];
    }
  }

  // A complete first token is not changed by whitespace further on.
  lemma NextBeforeSpace(d: Dialect, s: string, x: string)
    requires s != "" && Complete(d, s) && StartsWithSpace(x)
    requires Next(d, s).length < |s| || !Next(d, s).token.Whitespace?
    ensures Next(d, s + x) == Next(d, s)
  {
    var t := s + x;
    assert t[0] == s[0] && t[1] == if |s| > 1 then s[1] else x[0];
    if IsSpace(s[0]) {
      RunKeeps(d, Space, s, x);
    } else if OpensLineComment(s) || OpensBlockComment(s) {
      CommentKeeps(d, s, x);
    } else if s[0] == '\'' {
      assert t[1..] == s[1..] + x;
      StringKeeps(s[1..], x);
    } else if s[0] == '"' {
      QuotedKeeps(d, NotDoubleQuote, s, x);
    } else if s[0] == '`' {
      QuotedKeeps(d, NotBacktick, s, x);
    } else {
      BareKeeps(d, s, x);
    }
  }

  lemma WhitespaceToTheEnd(d: Dialect, s: string)
    requires s != "" && Next(d, s) == Scanned(Whitespace, |s|)
    ensures IsSpace(s[|s| - 1])
  {
    RunLenIs(d, Space, s, |s|);
  }

  ghost predicate EndsInSpace(s: string) {
    s != "" && IsSpace(s[|s| - 1])
  }

  lemma TokensStep(d: Dialect, s: string, r: Scanned)
    requires s != "" && Next(d, s) == r
    ensures Tokens(d, s) == [r.token] + Tokens(d, s[r.length..])
  {
  }

  lemma DropFromConcat(a: string, x: string, n: nat)
    requires n <= |a|
    ensures (a + x)[n..] == a[n..] + x
  {
  }

  lemma RestIsClosed(d: Dialect, a: string)
    requires a != "" && Closed(d, a) && !EndsInSpace(a)
    ensures Complete(d, a) && (Next(d, a).length < |a| || !Next(d, a).token.Whitespace?)
    ensures Closed(d, a[Next(d, a).length..]) && !EndsInSpace(a[Next(d, a).length..])
  {
    if Next(d, a) == Scanned(Whitespace, |a|) {
      WhitespaceToTheEnd(d, a);
    }
  }

  lemma FirstAroundSpace(d: Dialect, a: string, x: string)
    requires a != "" && Complete(d, a) && (Next(d, a).length < |a| || !Next(d, a).token.Whitespace?)
    requires StartsWithSpace(x)
    ensures Tokens(d, a + x) == [Next(d, a).token] + Tokens(d, a[Next(d, a).length..] + x)
  {
    NextBeforeSpace(d, a, x);
    TokensStep(d, a + x, Next(d, a));
    DropFromConcat(a, x, Next(d, a).length);
  }

  lemma WhitespaceFirst(d: Dialect, w: string, b: string)
    requires w != "" && All(d, Space, w) && (b == "" || !IsSpace(b[0]))
    ensures Tokens(d, w + b) == [Whitespace] + Tokens(d, b)
  {
    RunStops(d, Space, w, b);
    assert (w + b)[0] == w[0] && (w + b)[|w|..] == b;
    TokensStep(d, w + b, Scanned(Whitespace, |w|));
  }

  // Tokenizing is compositional at whitespace: if `a` does not end inside a quote or a comment, the
  // tokens of `a`, any whitespace and `b` are the tokens of `a`, whitespace, and the tokens of `b`.
  lemma {:induction false} TokensAroundWhitespace(d: Dialect, a: string, w: string, b: string)
    requires Closed(d, a) && !EndsInSpace(a)
    requires w != "" && All(d, Space, w) && (b == "" || !IsSpace(b[0]))
    ensures Tokens(d, a + (w + b)) == Tokens(d, a) + [Whitespace] + Tokens(d, b)
    decreases |a|
  {
    if a == "" {
      assert a + (w + b) == w + b;
      WhitespaceFirst(d, w, b);
    } else {
      var r := Next(d, a);
      var rest := a[r.length..];
      RestIsClosed(d, a);
      FirstAroundSpace(d, a, w + b);
      TokensStep(d, a, r);
      TokensAroundWhitespace(d, rest, w, b);
      Regroup(r.token, Tokens(d, rest), Tokens(d, b));
    }
  }

  lemma Regroup(t: Token, u: seq<Token>, v: seq<Token>)
    ensures [t] + (u + [Whitespace] + v) == [t] + u + [Whitespace] + v
  {
  }

  // ------------------------------------------------------------------------
  // Comments that are not closed
  // ------------------------------------------------------------------------

  lemma {:induction false} UnclosedBlockEnd(s: string)
    requires NoCommentEnd(s) && s != ""
    ensures BlockEnd(s) == |s| - 1
  {
    if |s| >= 2 {
      forall i | 0 <= i < |s[1..]| - 1
        ensures !(s[1..][i] == '*' && s[1..][i + 1] == '/')
      {
        assert !(s[i + 1] == '*' && s[i + 1 + 1] == '/');
      }
      UnclosedBlockEnd(s[1..]);
    }
  }

  // A block comment that is not closed leaves its last character out, and that character is scanned
  // on its own.
  lemma UnclosedComment(d: Dialect, s: string)
    requires NoCommentEnd(s)
    ensures Tokens(d, "/*" + s) ==
            if s == "" then [BlockComment("")]
            else [BlockComment(s[..|s| - 1])] + Tokens(d, [s[|s| - 1]])
  {
    var t := "/*" + s;
    assert t[0] == '/' && t[1] == '*' && t[2..] == s;
    if s == "" {
      TokensStep(d, t, Scanned(BlockComment(""), 2));
    } else {
      UnclosedBlockEnd(s);
      assert t[2..2 + (|s| - 1)] == s[..|s| - 1] && t[|s| + 1..] == [s[|s| - 1]];
      TokensStep(d, t, Scanned(BlockComment(s[..|s| - 1]), |s| + 1));
    }
  }
}
