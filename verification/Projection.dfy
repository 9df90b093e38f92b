/**
 Column projection of a SELECT: names, aliases and table prefixes taken from the column texts.
 */
module Projection {
  import opened Wrappers
  import opened Collections
  import opened Text

  type Data = map<string, string>

  // ------------------------------------------------------------------------
  // Column texts
  // ------------------------------------------------------------------------

  // Where the first " AS " starts, in upper or lower case, or the length.
  function AliasAt(s: string): (i: nat)
    ensures i == |s| || i + 4 <= |s|
  {
    if |s| < 4 then |s|
    else if AsciiLower(s[..4]) == " as " then 0
    else 1 + AliasAt(s[1..])
  }

  function AfterLastDot(s: string): string {
    if s == "" then ""
    else if s[|s| - 1] == '.' then ""
    else AfterLastDot(s[..|s| - 1]) + [s[|s| - 1]]
  }

  // The name a column is returned under: the alias, or the text itself.
  function KeyOf(column: string): string {
    var text := Trim(column);
    var i := AliasAt(text);
    if i < |text| then Trim(text[i + 4..]) else text
  }

  function SourceOf(column: string): string {
    var text := Trim(column);
    var i := AliasAt(text);
    if i < |text| then Trim(text[..i]) else text
  }

  // The value a column names: directly, or after its table prefix.
  function Resolve(data: Data, source: string): Option<string> {
    if source in data then Some(data[source])
    else if '.' in source then Lookup(data, AfterLastDot(source))
    else None
  }

  // ------------------------------------------------------------------------
  // Projection
  // ------------------------------------------------------------------------

  predicate WantsAll(columns: seq<string>) {
    columns == [] || exists i :: 0 <= i < |columns| && Trim(columns[i]) == "*"
  }

  // What the last column returned under a name, and found in the row, yields.
  function LastYield(columns: seq<string>, data: Data, key: string): Option<string> {
    if columns == [] then None
    else
      var last := columns[|columns| - 1];
      if KeyOf(last) == key && Resolve(data, SourceOf(last)).Some? then Resolve(data, SourceOf(last))
      else LastYield(columns[..|columns| - 1], data, key)
  }

  // The projected row: every name with what its last column yields, and nothing else.
  ghost predicate IsProjection(columns: seq<string>, data: Data, out: Data) {
    if WantsAll(columns) then out == data
    else forall key :: Lookup(out, key) == LastYield(columns, data, key)
  }

  method ProjectColumns(columns: seq<string>, data: Data) returns (out: Data)
    ensures IsProjection(columns, data, out)
  {
    if WantsAll(columns) {
      return data;
    }
    out := map[];
    for i := 0 to |columns|
      invariant forall key :: Lookup(out, key) == LastYield(columns[..i], data, key)
    {
      assert columns[..i + 1][..i] == columns[..i];
      var value := Resolve(data, SourceOf(columns[i]));
      if value.Some? {
        out := out[KeyOf(columns[i]) := value.value];
      }
    }
    assert columns[..|columns|] == columns;
  }

  // A star anywhere among the columns keeps the whole row.
  lemma StarKeepsAll(columns: seq<string>, c: string, data: Data, out: Data)
    requires c in columns && Trim(c) == "*" && IsProjection(columns, data, out)
    ensures out == data
  {
  }

  // ------------------------------------------------------------------------
  // Plain columns
  // ------------------------------------------------------------------------

  // A column text that is just a name.
  predicate IsPlain(name: string) {
    Trim(name) == name && AliasAt(name) == |name| && '.' !in name && name != "*"
  }

  lemma {:induction false} PlainYield(columns: seq<string>, data: Data, key: string)
    requires forall i :: 0 <= i < |columns| ==> IsPlain(columns[i])
    ensures LastYield(columns, data, key) == if key in columns then Lookup(data, key) else None
  {
    if columns != [] {
      var before, last := columns[..|columns| - 1], columns[|columns| - 1];
      PlainYield(before, data, key);
      assert IsPlain(last);
      assert key in columns <==> key in before || key == last;
    }
  }

  // Projecting plain names restricts the row to them.
  lemma PlainProjection(columns: seq<string>, data: Data, out: Data)
    requires columns != [] && (forall i :: 0 <= i < |columns| ==> IsPlain(columns[i]))
    requires IsProjection(columns, data, out)
    ensures out == map k | k in data && k in columns :: data[k]
  {
    assert forall i :: 0 <= i < |columns| ==> IsPlain(columns[i]) && Trim(columns[i]) != "*";
    forall key
      ensures key in out <==> key in data && key in columns
      ensures key in out ==> out[key] == data[key]
    {
      PlainYield(columns, data, key);
      assert Lookup(out, key) == LastYield(columns, data, key);
    }
  }

  // ------------------------------------------------------------------------
  // Aliases and table prefixes
  // ------------------------------------------------------------------------

  // A word: not empty and without whitespace.
  predicate IsWord(w: string) {
    w != "" && forall i :: 0 <= i < |w| ==> !IsWhitespace(w[i])
  }

  lemma {:induction false} AliasAfterWord(a: string, as4: string, b: string)
    requires ' ' !in a && |as4| == 4 && SameIgnoringCase(as4, " as ")
    ensures AliasAt(a + (as4 + b)) == |a|
  {
    var s := a + (as4 + b);
    LowerIgnoresCase(as4, " as ");
    LowerOfAs();
    if a == "" {
      assert s[..4] == as4;
    } else {
      assert s[1..] == a[1..] + (as4 + b);
      AliasAfterWord(a[1..], as4, b);
      assert AsciiLower(s[..4])[0] == AsciiLowerChar(a[0]) && " as "[0] == ' ';
    }
  }

  lemma LowerOfAs()
    ensures AsciiLower(" as ") == " as "
  {
  }

  lemma TrimWords(first: char, middle: string, last: char)
    requires !IsWhitespace(first) && !IsWhitespace(last)
    ensures Trim([first] + middle + [last]) == [first] + middle + [last]
  {
    var s := [first] + middle + [last];
    assert s[0] == first && s[|s| - 1] == last;
    assert TrimStart(s) == s && TrimEnd(s) == s;
  }

  lemma TrimWord(w: string)
    requires IsWord(w)
    ensures Trim(w) == w
  {
    assert !IsWhitespace(w[0]) && !IsWhitespace(w[|w| - 1]);
    assert TrimStart(w) == w && TrimEnd(w) == w;
  }

  // Of "source AS name", in any case of AS, the source is looked up and returned under the name.
  lemma AliasedColumn(source: string, as4: string, name: string)
    requires IsWord(source) && IsWord(name) && |as4| == 4 && SameIgnoringCase(as4, " as ")
    ensures SourceOf(source + as4 + name) == source && KeyOf(source + as4 + name) == name
  {
    var s := source + as4 + name;
    assert s == source + (as4 + name);
    var n := |s|;
    assert s[0] == source[0] && s[n - 1] == name[|name| - 1];
    assert s == [s[0]] + s[1..n - 1] + [s[n - 1]];
    TrimWords(s[0], s[1..n - 1], s[n - 1]);
    assert ' ' !in source;
    AliasAfterWord(source, as4, name);
    assert s[..|source|] == source && s[|source| + 4..] == name;
    TrimWord(source);
    TrimWord(name);
  }

  lemma {:induction false} AfterDot(table: string, c: string)
    requires '.' !in c
    ensures AfterLastDot(table + "." + c) == c
  {
    var s := table + "." + c;
    if c != "" {
      AfterDot(table, c[..|c| - 1]);
      assert s[..|s| - 1] == table + "." + c[..|c| - 1];
      assert c == c[..|c| - 1] + [c[|c| - 1]];
    }
  }

  // A column behind a table name is looked up without it, unless the row has the whole as a name.
  lemma QualifiedColumn(data: Data, table: string, c: string)
    requires '.' !in c && table + "." + c !in data
    ensures Resolve(data, table + "." + c) == Lookup(data, c)
  {
    AfterDot(table, c);
    assert (table + "." + c)[|table|] == '.';
  }
}
