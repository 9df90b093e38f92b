/**
 The SQL tokenizer: a maximal-munch scanner over characters, and the printer of its tokens.

 The keyword set and the Unicode tables behind `is_alphabetic` and `is_alphanumeric` are
 parameters (`Dialect`), so everything holds for every choice of them; `SQL_KEYWORDS` is the
 source's set.
 */
module Tokenizer {
  import opened Text

  datatype Token =
    | Keyword(text: string)
    | Identifier(text: string)
    | Number(text: string)
    | StringLiteral(text: string)
    | Symbol(text: string)
    | Whitespace
    | LineComment(text: string)
    | BlockComment(text: string)
    | Unknown(text: string)

  // Keywords, and which characters beyond ASCII are letters and digits.
  datatype Dialect = Dialect(keywords: set<string>, letters: set<char>, numerals: set<char>)

  // The keywords, in the source's order, in groups small enough to check one by one.
  const KEYWORDS_1: set<string> := {
    "SELECT", "FROM", "WHERE", "JOIN", "INNER", "LEFT", "RIGHT", "FULL", "OUTER", "CROSS", "ON",
    "AS", "GROUP", "BY", "ORDER", "HAVING"
  }
  const KEYWORDS_2: set<string> := {
    "LIMIT", "OFFSET", "UNION", "ALL", "DISTINCT", "EXISTS", "NOT", "IN", "BETWEEN", "LIKE", "IS",
    "NULL", "AND", "OR", "CASE", "WHEN"
  }
  const KEYWORDS_3: set<string> := {
    "THEN", "ELSE", "END", "OVER", "PARTITION", "ROWS", "RANGE", "UNBOUNDED", "PRECEDING",
    "FOLLOWING", "CURRENT", "INSERT", "INTO", "VALUES", "UPDATE", "SET"
  }
  const KEYWORDS_4: set<string> := {
    "DELETE", "CREATE", "TABLE", "VIEW", "MATERIALIZED", "FUNCTION", "DROP", "ALTER", "ADD",
    "COLUMN", "PRIMARY", "KEY", "FOREIGN", "REFERENCES", "UNIQUE", "INDEX"
  }
  const KEYWORDS_5: set<string> := {
    "DEFAULT", "BEGIN", "COMMIT", "ROLLBACK", "SAVEPOINT", "RELEASE", "TRANSACTION", "ISOLATION",
    "LEVEL", "READ", "WRITE", "SERIALIZABLE", "REPEATABLE", "UNCOMMITTED", "COMMITTED", "TRUE"
  }
  const KEYWORDS_6: set<string> := {
    "FALSE", "ASC", "DESC", "NULLS", "FIRST", "LAST", "WITH", "RECURSIVE", "WINDOW", "FILTER",
    "WITHIN", "ROW", "SUM", "COUNT", "AVG", "MIN"
  }
  const KEYWORDS_7: set<string> := {
    "MAX", "COALESCE", "CAST", "EXTRACT", "TRIM", "UPPER", "LOWER", "SUBSTRING", "REPLACE",
    "CONCAT", "CONCAT_WS", "LENGTH", "ROUND", "FLOOR", "CEIL", "ABS"
  }
  const KEYWORDS_8: set<string> := {
    "NOW", "CURRENT_TIMESTAMP", "CURRENT_DATE", "CURRENT_TIME", "IFNULL", "NVL", "NVL2", "IFF",
    "DECODE", "ZEROIFNULL", "NULLIFZERO", "DATEDIFF", "DATEADD", "TO_CHAR", "TO_DATE",
    "TO_TIMESTAMP"
  }
  const KEYWORDS_9: set<string> := {
    "TO_TIMESTAMP_NTZ", "TO_TIMESTAMP_TZ", "TO_NUMBER", "TO_VARCHAR", "INSTR", "POSITION",
    "LISTAGG", "ANY_VALUE", "APPROX_COUNT_DISTINCT", "ARRAY_CONSTRUCT", "OBJECT_CONSTRUCT",
    "OBJECT_AGG", "MAP_CONSTRUCT", "ARRAY_TO_STRING", "STRING_TO_ARRAY", "REGEXP_SUBSTR"
  }
  const KEYWORDS_10: set<string> := {
    "REGEXP_INSTR", "REGEXP_COUNT", "IF", "TRUNCATE", "EXPLAIN", "ANALYZE", "SCHEMA", "DATABASE"
  }
  const SQL_KEYWORDS: set<string> :=
    KEYWORDS_1 + KEYWORDS_2 + KEYWORDS_3 + KEYWORDS_4 + KEYWORDS_5 +
    KEYWORDS_6 + KEYWORDS_7 + KEYWORDS_8 + KEYWORDS_9 + KEYWORDS_10

  // ------------------------------------------------------------------------
  // Character classes
  // ------------------------------------------------------------------------

  predicate IsSpace(c: char) {
    c == ' ' || c == '\t' || c == '\n' || c as int == 0x0C || c == '\r'
  }

  predicate IsLetter(d: Dialect, c: char) {
    'a' <= c <= 'z' || 'A' <= c <= 'Z' || (c as int >= 0x80 && c in d.letters)
  }

  predicate StartsWord(d: Dialect, c: char) {
    IsLetter(d, c) || c == '_'
  }

  predicate ContinuesWord(d: Dialect, c: char) {
    StartsWord(d, c) || IsDigit(c) || (c as int >= 0x80 && c in d.numerals)
  }

  // The classes the scanning loops run over.
  datatype Class = Space | NotNewline | NotDoubleQuote | NotBacktick | Mantissa | Digit | Word

  predicate In(d: Dialect, k: Class, c: char) {
    match k
    case Space => IsSpace(c)
    case NotNewline => c != '\n'
    case NotDoubleQuote => c != '"'
    case NotBacktick => c != '`'
    case Mantissa => IsDigit(c) || c == '.'
    case Digit => IsDigit(c)
    case Word => ContinuesWord(d, c)
  }

  // The length of the longest prefix in a class.
  function RunLen(d: Dialect, k: Class, s: string): (n: nat)
    ensures n <= |s|
  {
    if s == "" || !In(d, k, s[0]) then 0 else 1 + RunLen(d, k, s[1..])
  }

  ghost predicate IsRun(d: Dialect, k: Class, s: string, n: nat) {
    n <= |s| && (forall i :: 0 <= i < n ==> In(d, k, s[i])) && (n < |s| ==> !In(d, k, s[n]))
  }

  lemma {:induction false} RunLenIs(d: Dialect, k: Class, s: string, n: nat)
    ensures RunLen(d, k, s) == n <==> IsRun(d, k, s, n)
  {
    if s != "" && In(d, k, s[0]) {
      if n > 0 {
        RunLenIs(d, k, s[1..], n - 1);
        assert s == [s[0]] + s[1..];
      }
    }
  }

  predicate IsOneCharSymbol(c: char) {
    c == '(' || c == ')' || c == '[' || c == ']' || c == '{' || c == '}' || c == '.' ||
    c == ',' || c == ';' || c == '*' || c == '+' || c == '-' || c == '/' || c == '%' ||
    c == '^' || c == '=' || c == '<' || c == '>' || c == '|' || c == '&' || c == '~' ||
    c == '?' || c == '@' || c == '#' || c == '!' || c == ':' || c == '\\'
  }

  predicate IsTwoCharSymbol(a: char, b: char) {
    (a == '<' && b == '>') || (a == '>' && b == '=') || (a == '<' && b == '=') ||
    (a == '!' && b == '=') || (a == ':' && b == ':') || (a == '-' && b == '>') ||
    (a == '|' && b == '|')
  }

  function UpperChar(c: char): char {
    if 'a' <= c <= 'z' then c - 32 as char else c
  }

  function Upper(s: string): (r: string)
    ensures |r| == |s|
  {
    seq(|s|, i requires 0 <= i < |s| => UpperChar(s[i]))
  }

  // ------------------------------------------------------------------------
  // Scanning one token
  // ------------------------------------------------------------------------

  // A token and the number of characters it was read from.
  datatype Scanned = Scanned(token: Token, length: nat)

  // After the opening quote: the contents with doubled quotes halved, and what was consumed.
  function StringBody(s: string): (r: (string, nat))
    ensures r.1 <= |s|
  {
    if s == "" then ("", 0)
    else if s[0] == '\'' then
      if |s| > 1 && s[1] == '\'' then
        var rest := StringBody(s[2..]);
        ("'" + rest.0, 2 + rest.1)
      else ("", 1)
    else
      var rest := StringBody(s[1..]);
      ([s[0]] + rest.0, 1 + rest.1)
  }

  // After the opening of a block comment: where the scan for its end stops. Without an end it
  // stops one short of the last character.
  function BlockEnd(s: string): (n: nat)
    ensures n <= |s|
  {
    if |s| < 2 || (s[0] == '*' && s[1] == '/') then 0 else 1 + BlockEnd(s[1..])
  }

  predicate StartsNumber(s: string) {
    s != "" && (IsDigit(s[0]) || (s[0] == '.' && |s| > 1 && IsDigit(s[1])))
  }

  // After the exponent letter: an optional sign and digits.
  function ExponentLen(d: Dialect, s: string): (n: nat)
    ensures n <= |s|
  {
    if s != "" && (s[0] == '+' || s[0] == '-') then 1 + RunLen(d, Digit, s[1..]) else RunLen(d, Digit, s)
  }

  function NumberLen(d: Dialect, s: string): (n: nat)
    ensures n <= |s|
  {
    var m := RunLen(d, Mantissa, s);
    if m < |s| && (s[m] == 'e' || s[m] == 'E') then m + 1 + ExponentLen(d, s[m + 1..]) else m
  }

  function WordToken(d: Dialect, w: string): Token {
    if Upper(w) in d.keywords then Keyword(Upper(w)) else Identifier(w)
  }

  predicate OpensLineComment(s: string) {
    |s| >= 2 && s[0] == '-' && s[1] == '-'
  }

  predicate OpensBlockComment(s: string) {
    |s| >= 2 && s[0] == '/' && s[1] == '*'
  }

  function ScanQuoted(d: Dialect, k: Class, s: string): Scanned
    requires s != ""
  {
    var n := RunLen(d, k, s[1..]);
    Scanned(Identifier(s[1..1 + n]), if 1 + n < |s| then n + 2 else n + 1)
  }

  function ScanBlockComment(s: string): Scanned
    requires OpensBlockComment(s)
  {
    var n := BlockEnd(s[2..]);
    Scanned(BlockComment(s[2..2 + n]), if 2 + n + 1 < |s| then n + 4 else n + 2)
  }

  function ScanSymbol(s: string): Scanned
    requires s != ""
  {
    if |s| > 1 && IsTwoCharSymbol(s[0], s[1]) then Scanned(Symbol(s[..2]), 2)
    else if IsOneCharSymbol(s[0]) then Scanned(Symbol([s[0]]), 1)
    else Scanned(Unknown([s[0]]), 1)
  }

  // Numbers, words and symbols.
  function NextBare(d: Dialect, s: string): (r: Scanned)
    requires s != ""
    ensures 1 <= r.length <= |s|
  {
    if StartsNumber(s) then Scanned(Number(s[..NumberLen(d, s)]), NumberLen(d, s))
    else if StartsWord(d, s[0]) then
      var n := RunLen(d, Word, s);
      Scanned(WordToken(d, s[..n]), n)
    else ScanSymbol(s)
  }

  function Next(d: Dialect, s: string): (r: Scanned)
    requires s != ""
    ensures 1 <= r.length <= |s|
  {
    if IsSpace(s[0]) then Scanned(Whitespace, RunLen(d, Space, s))
    else if OpensLineComment(s) then
      var n := RunLen(d, NotNewline, s[2..]);
      Scanned(LineComment(s[2..2 + n]), 2 + n)
    else if OpensBlockComment(s) then ScanBlockComment(s)
    else if s[0] == '\'' then
      var body := StringBody(s[1..]);
      Scanned(StringLiteral(body.0), 1 + body.1)
    else if s[0] == '"' then ScanQuoted(d, NotDoubleQuote, s)
    else if s[0] == '`' then ScanQuoted(d, NotBacktick, s)
    else NextBare(d, s)
  }

  function Tokens(d: Dialect, s: string): seq<Token> {
    if s == "" then [] else
    var r := Next(d, s);
    [r.token] + Tokens(d, s[r.length..])
  }

  // ------------------------------------------------------------------------
  // Printing
  // ------------------------------------------------------------------------

  function Print(t: Token): string {
    match t
    case Keyword(k) => k
    case Identifier(i) => i
    case Number(n) => n
    case StringLiteral(s) => "'" + s + "'"
    case Symbol(s) => s
    case Whitespace => " "
    case LineComment(c) => "--" + c
    case BlockComment(c) => "/*" + c + "*/"
    case Unknown(u) => u
  }

  function PrintAll(ts: seq<Token>): string {
    if ts == [] then "" else Print(ts[0]) + PrintAll(ts[1..])
  }

  // ------------------------------------------------------------------------
  // The scanning loops
  // ------------------------------------------------------------------------

  // `while pos < len && class(chars[pos]) { pos += 1 }`
  method ScanRun(d: Dialect, k: Class, chars: string, start: nat) returns (pos: nat)
    requires start <= |chars|
    ensures start <= pos <= |chars| && pos - start == RunLen(d, k, chars[start..])
  {
    pos := start;
    while pos < |chars| && In(d, k, chars[pos])
      invariant start <= pos <= |chars|
      invariant forall i :: start <= i < pos ==> In(d, k, chars[i])
    {
      pos := pos + 1;
    }
    RunLenIs(d, k, chars[start..], pos - start);
  }

  lemma StringBodyAt(s: string, i: nat)
    requires i < |s|
    ensures StringBody(s[i..]) ==
            if s[i] != '\'' then ([s[i]] + StringBody(s[i + 1..]).0, 1 + StringBody(s[i + 1..]).1)
            else if i + 1 < |s| && s[i + 1] == '\'' then
              ("'" + StringBody(s[i + 2..]).0, 2 + StringBody(s[i + 2..]).1)
            else ("", 1)
  {
    var t := s[i..];
    assert t[1..] == s[i + 1..];
    assert i + 1 < |s| ==> t[2..] == s[i + 2..];
  }

  lemma AppendChar(done: string, c: char, rest: string)
    ensures done + ([c] + rest) == done + [c] + rest
  {
  }

  method ScanString(chars: string, start: nat) returns (s: string, pos: nat)
    requires start <= |chars|
    ensures start <= pos <= |chars|
    ensures s == StringBody(chars[start..]).0 && pos - start == StringBody(chars[start..]).1
  {
    pos, s := start, "";
    ghost var text, length := StringBody(chars[start..]).0, StringBody(chars[start..]).1;
    while pos < |chars|
      invariant start <= pos <= |chars|
      invariant text == s + StringBody(chars[pos..]).0
      invariant length == pos - start + StringBody(chars[pos..]).1
    {
      StringBodyAt(chars, pos);
      if chars[pos] == '\'' {
        if pos + 1 < |chars| && chars[pos + 1] == '\'' {
          AppendChar(s, '\'', StringBody(chars[pos + 2..]).0);
          s := s + ['\''];
          pos := pos + 2;
        } else {
          pos := pos + 1;
          return;
        }
      } else {
        AppendChar(s, chars[pos], StringBody(chars[pos + 1..]).0);
        s := s + [chars[pos]];
        pos := pos + 1;
      }
    }
  }

  method ScanBlock(chars: string, start: nat) returns (pos: nat)
    requires start <= |chars|
    ensures start <= pos <= |chars| && pos - start == BlockEnd(chars[start..])
  {
    pos := start;
    while pos + 1 < |chars| && !(chars[pos] == '*' && chars[pos + 1] == '/')
      invariant start <= pos <= |chars|
      invariant BlockEnd(chars[start..]) == pos - start + BlockEnd(chars[pos..])
    {
      assert chars[pos..][1..] == chars[pos + 1..];
      pos := pos + 1;
    }
  }

  method ScanExponent(d: Dialect, chars: string, start: nat) returns (pos: nat)
    requires start <= |chars|
    ensures start <= pos <= |chars| && pos - start == ExponentLen(d, chars[start..])
  {
    pos := start;
    if pos < |chars| && (chars[pos] == '+' || chars[pos] == '-') {
      assert chars[start..][1..] == chars[start + 1..];
      pos := pos + 1;
    }
    pos := ScanRun(d, Digit, chars, pos);
  }

  method ScanNumber(d: Dialect, chars: string, start: nat) returns (pos: nat)
    requires start <= |chars|
    ensures start <= pos <= |chars| && pos - start == NumberLen(d, chars[start..])
  {
    pos := ScanRun(d, Mantissa, chars, start);
    if pos < |chars| && (chars[pos] == 'e' || chars[pos] == 'E') {
      assert chars[start..][pos - start + 1..] == chars[pos + 1..];
      pos := ScanExponent(d, chars, pos + 1);
    }
  }

  method ScanQuotedIdentifier(d: Dialect, k: Class, chars: string, start: nat) returns (token: Token, pos: nat)
    requires start < |chars|
    ensures start < pos <= |chars| && Scanned(token, pos - start) == ScanQuoted(d, k, chars[start..])
  {
    assert chars[start..][1..] == chars[start + 1..];
    pos := ScanRun(d, k, chars, start + 1);
    token := Identifier(chars[start + 1..pos]);
    assert chars[start..][1..pos - start] == chars[start + 1..pos];
    if pos < |chars| {
      pos := pos + 1;
    }
  }

  method ScanComment(d: Dialect, chars: string, start: nat) returns (token: Token, pos: nat)
    requires start <= |chars| && (OpensLineComment(chars[start..]) || OpensBlockComment(chars[start..]))
    ensures start < pos <= |chars| && Scanned(token, pos - start) == Next(d, chars[start..])
  {
    assert chars[start..][2..] == chars[start + 2..];
    if chars[start] == '-' {
      pos := ScanRun(d, NotNewline, chars, start + 2);
      token := LineComment(chars[start + 2..pos]);
      assert chars[start..][2..pos - start] == chars[start + 2..pos];
    } else {
      pos := ScanBlock(chars, start + 2);
      token := BlockComment(chars[start + 2..pos]);
      assert chars[start..][2..pos - start] == chars[start + 2..pos];
      if pos + 1 < |chars| {
        pos := pos + 2;
      }
    }
  }

  // One round of the main loop.
  method ScanToken(d: Dialect, chars: string, start: nat) returns (token: Token, pos: nat)
    requires start < |chars|
    ensures start < pos <= |chars| && Scanned(token, pos - start) == Next(d, chars[start..])
  {
    ghost var s := chars[start..];
    var c := chars[start];
    if IsSpace(c) {
      pos := ScanRun(d, Space, chars, start);
      return Whitespace, pos;
    }
    if start + 1 < |chars| && ((c == '-' && chars[start + 1] == '-') || (c == '/' && chars[start + 1] == '*')) {
      token, pos := ScanComment(d, chars, start);
      return;
    }
    if c == '\'' {
      assert s[1..] == chars[start + 1..];
      var text;
      text, pos := ScanString(chars, start + 1);
      return StringLiteral(text), pos;
    }
    if c == '"' {
      token, pos := ScanQuotedIdentifier(d, NotDoubleQuote, chars, start);
      return;
    }
    if c == '`' {
      token, pos := ScanQuotedIdentifier(d, NotBacktick, chars, start);
      return;
    }
    token, pos := ScanBare(d, chars, start);
  }

  lemma SliceOfRest(s: string, start: nat, pos: nat)
    requires start <= pos <= |s|
    ensures s[start..][..pos - start] == s[start..pos]
  {
  }

  method ScanWord(d: Dialect, chars: string, start: nat) returns (token: Token, pos: nat)
    requires start < |chars|
    ensures start <= pos <= |chars| && pos - start == RunLen(d, Word, chars[start..])
    ensures token == WordToken(d, chars[start..][..pos - start])
  {
    pos := ScanRun(d, Word, chars, start);
    SliceOfRest(chars, start, pos);
    var word := chars[start..pos];
    token := if Upper(word) in d.keywords then Keyword(Upper(word)) else Identifier(word);
  }

  // Numbers, words and symbols.
  method ScanBare(d: Dialect, chars: string, start: nat) returns (token: Token, pos: nat)
    requires start < |chars|
    ensures start < pos <= |chars| && Scanned(token, pos - start) == NextBare(d, chars[start..])
  {
    var c := chars[start];
    if IsDigit(c) || (c == '.' && start + 1 < |chars| && IsDigit(chars[start + 1])) {
      pos := ScanNumber(d, chars, start);
      SliceOfRest(chars, start, pos);
      token := Number(chars[start..pos]);
    } else if StartsWord(d, c) {
      token, pos := ScanWord(d, chars, start);
    } else {
      token, pos := ScanOneOrTwo(chars, start);
    }
  }

  method ScanOneOrTwo(chars: string, start: nat) returns (token: Token, pos: nat)
    requires start < |chars|
    ensures start < pos <= |chars| && Scanned(token, pos - start) == ScanSymbol(chars[start..])
  {
    var c := chars[start];
    if start + 1 < |chars| && IsTwoCharSymbol(c, chars[start + 1]) {
      assert chars[start..][..2] == chars[start..start + 2];
      return Symbol(chars[start..start + 2]), start + 2;
    }
    if IsOneCharSymbol(c) {
      return Symbol([c]), start + 1;
    }
    return Unknown([c]), start + 1;
  }

  // The tokens of s after those already pushed.
  ghost function Resume(d: Dialect, s: string, pushed: seq<Token>): seq<Token>
    decreases |s|
  {
    if s == "" then pushed else
    var r := Next(d, s);
    Resume(d, s[r.length..], pushed + [r.token])
  }

  lemma {:induction false} ResumeAppends(d: Dialect, s: string, pushed: seq<Token>)
    ensures Resume(d, s, pushed) == pushed + Tokens(d, s)
    decreases |s|
  {
    if s != "" {
      var r := Next(d, s);
      var rest := s[r.length..];
      ResumeAppends(d, rest, pushed + [r.token]);
      ShiftOne(pushed, r.token, Tokens(d, rest));
    }
  }

  lemma ShiftOne(done: seq<Token>, t: Token, rest: seq<Token>)
    ensures done + ([t] + rest) == done + [t] + rest
  {
  }

  method Tokenize(d: Dialect, sql: string) returns (tokens: seq<Token>)
    ensures tokens == Tokens(d, sql)
  {
    tokens := [];
    var pos := 0;
    assert sql[0..] == sql;
    while pos < |sql|
      invariant pos <= |sql|
      invariant Resume(d, sql[pos..], tokens) == Resume(d, sql, [])
    {
      var token, next := ScanToken(d, sql, pos);
      assert sql[pos..][next - pos..] == sql[next..];
      tokens := tokens + [token];
      pos := next;
    }
    ResumeAppends(d, sql, []);
  }
}
