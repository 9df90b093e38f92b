/**
 The backslash escaping of tabs, newlines and backslashes, used once for the components of an
 event record and once more for the fields of a log line.
 */
module Escaping {
  import opened Text

  function EscapeChar(c: char): string {
    if c == '\\' then "\\\\"
    else if c == '\t' then "\\t"
    else if c == '\n' then "\\n"
    else [c]
  }

  function Escape(s: string): string {
    if s == "" then "" else EscapeChar(s[0]) + Escape(s[1..])
  }

  function UnescapePair(c: char): string {
    if c == 't' then "\t"
    else if c == 'n' then "\n"
    else if c == '\\' then "\\"
    else ['\\', c]
  }

  function Unescape(s: string): string {
    if s == "" then ""
    else if s[0] != '\\' then [s[0]] + Unescape(s[1..])
    else if |s| == 1 then "\\"
    else UnescapePair(s[1]) + Unescape(s[2..])
  }

  lemma UnescapeEscapedChar(c: char, rest: string)
    ensures Unescape(EscapeChar(c) + rest) == [c] + Unescape(rest)
  {
    var s := EscapeChar(c) + rest;
    assert s[|EscapeChar(c)|..] == rest;
  }

  lemma {:induction false} UnescapeEscape(s: string)
    ensures Unescape(Escape(s)) == s
  {
    if s != "" {
      UnescapeEscapedChar(s[0], Escape(s[1..]));
      UnescapeEscape(s[1..]);
    }
  }

  lemma {:induction false} EscapedHasNoSeparators(s: string)
    ensures '\t' !in Escape(s) && '\n' !in Escape(s)
  {
    if s != "" {
      EscapedHasNoSeparators(s[1..]);
    }
  }

  lemma {:induction false} EscapeConcat(s: string, t: string)
    ensures Escape(s + t) == Escape(s) + Escape(t)
  {
    if s == "" {
      assert s + t == t;
    } else {
      assert (s + t)[1..] == s[1..] + t;
      EscapeConcat(s[1..], t);
    }
  }

  // Escaping and losing a final carriage return commute.
  lemma EscapeStripCr(s: string)
    ensures StripCr(Escape(s)) == Escape(StripCr(s))
  {
    if s != "" {
      var init, last := s[..|s| - 1], s[|s| - 1];
      assert s == init + [last];
      EscapeConcat(init, [last]);
      assert Escape([last]) == EscapeChar(last) + Escape("");
    }
  }

  lemma ConcatAssociates(a: string, b: string, c: string)
    ensures a + (b + c) == a + b + c
  {
  }

  // `escape_component`: one pass.
  method EscapeComponent(value: string) returns (escaped: string)
    ensures escaped == Escape(value)
  {
    escaped := "";
    var i := 0;
    while i < |value|
      invariant i <= |value|
      invariant escaped + Escape(value[i..]) == Escape(value)
    {
      assert value[i..][1..] == value[i + 1..];
      ConcatAssociates(escaped, EscapeChar(value[i]), Escape(value[i + 1..]));
      escaped := escaped + EscapeChar(value[i]);
      i := i + 1;
    }
  }

  // `unescape_component` and `unescape_field`: the character after a backslash is consumed with it.
  method UnescapeComponent(value: string) returns (out: string)
    ensures out == Unescape(value)
  {
    out := "";
    var i := 0;
    while i < |value|
      invariant i <= |value|
      invariant out + Unescape(value[i..]) == Unescape(value)
    {
      UnescapeAt(value, i);
      if value[i] != '\\' {
        ConcatAssociates(out, [value[i]], Unescape(value[i + 1..]));
        out := out + [value[i]];
        i := i + 1;
      } else if i + 1 == |value| {
        out := out + "\\";
        i := i + 1;
      } else {
        ConcatAssociates(out, UnescapePair(value[i + 1]), Unescape(value[i + 2..]));
        out := out + UnescapePair(value[i + 1]);
        i := i + 2;
      }
    }
  }

  lemma UnescapeAt(s: string, i: nat)
    requires i < |s|
    ensures Unescape(s[i..]) ==
            if s[i] != '\\' then [s[i]] + Unescape(s[i + 1..])
            else if i + 1 == |s| then "\\"
            else UnescapePair(s[i + 1]) + Unescape(s[i + 2..])
  {
    var t := s[i..];
    assert t[1..] == s[i + 1..];
    assert |t| > 1 ==> t[2..] == s[i + 2..];
  }

  // `str::replace` of a single character
  function Replace(s: string, c: char, w: string): string {
    if s == "" then "" else (if s[0] == c then w else [s[0]]) + Replace(s[1..], c, w)
  }

  lemma {:induction false} ReplaceConcat(s: string, t: string, c: char, w: string)
    ensures Replace(s + t, c, w) == Replace(s, c, w) + Replace(t, c, w)
  {
    if s == "" {
      assert s + t == t;
    } else {
      assert (s + t)[1..] == s[1..] + t;
      ReplaceConcat(s[1..], t, c, w);
    }
  }

  // `escape_field`: three passes over the whole text.
  function EscapeField(s: string): string {
    Replace(Replace(Replace(s, '\\', "\\\\"), '\t', "\\t"), '\n', "\\n")
  }

  lemma EscapeFieldChar(c: char)
    ensures EscapeField([c]) == EscapeChar(c)
  {
    var once := if c == '\\' then "\\\\" else [c];
    assert Replace([c], '\\', "\\\\") == once + Replace("", '\\', "\\\\") == once;
    var twice := if c == '\t' then "\\t" else once;
    assert once[1..] == (if c == '\\' then "\\" else "");
    assert Replace("\\", '\t', "\\t") == "\\" + Replace("", '\t', "\\t") == "\\";
    assert Replace(once, '\t', "\\t") == twice;
    assert twice[1..] == if c == '\\' then "\\" else if c == '\t' then "t" else "";
    assert Replace("\\", '\n', "\\n") == "\\" + Replace("", '\n', "\\n") == "\\";
    assert Replace("t", '\n', "\\n") == "t" + Replace("", '\n', "\\n") == "t";
  }

  // The three passes do what the single pass does: no pass disturbs what an earlier one wrote.
  lemma {:induction false} EscapeFieldIsEscape(s: string)
    ensures EscapeField(s) == Escape(s)
  {
    if s != "" {
      var head, tail := [s[0]], s[1..];
      assert s == head + tail;
      ReplaceConcat(head, tail, '\\', "\\\\");
      ReplaceConcat(Replace(head, '\\', "\\\\"), Replace(tail, '\\', "\\\\"), '\t', "\\t");
      ReplaceConcat(Replace(Replace(head, '\\', "\\\\"), '\t', "\\t"),
                    Replace(Replace(tail, '\\', "\\\\"), '\t', "\\t"), '\n', "\\n");
      EscapeFieldChar(s[0]);
      EscapeFieldIsEscape(tail);
    }
  }
}
