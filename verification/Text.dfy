/**
 Text primitives the source takes from the Rust standard library: decimal printing and parsing,
 `split`, `splitn`, `join`, `trim`, `lines`, and the ordering of strings.
 */
module Text {
  import opened Wrappers

  const U64_LIMIT: nat := 0x1_0000_0000_0000_0000
  const U128_LIMIT: nat := 0x1_0000_0000_0000_0000_0000_0000_0000_0000

  type u64 = n: nat | n < 0x1_0000_0000_0000_0000
  type u128 = n: nat | n < 0x1_0000_0000_0000_0000_0000_0000_0000_0000

  // ------------------------------------------------------------------------
  // Decimal numbers
  // ------------------------------------------------------------------------

  predicate IsDigit(c: char) {
    '0' <= c <= '9'
  }

  predicate AllDigits(s: string) {
    forall i :: 0 <= i < |s| ==> IsDigit(s[i])
  }

  function DigitChar(d: nat): (c: char)
    requires d < 10
    ensures IsDigit(c) && DigitValue(c) == d
  {
    '0' + d as char
  }

  function DigitValue(c: char): nat
    requires IsDigit(c)
  {
    c as nat - '0' as nat
  }

  // `to_string` on an unsigned integer
  function Decimal(n: nat): (s: string)
    ensures s != "" && AllDigits(s)
  {
    if n < 10 then [DigitChar(n)] else Decimal(n / 10) + [DigitChar(n % 10)]
  }

  function DigitsValue(s: string): nat
    requires AllDigits(s)
  {
    if s == "" then 0 else 10 * DigitsValue(s[..|s| - 1]) + DigitValue(s[|s| - 1])
  }

  // `parse` to an unsigned integer below `limit`: an optional `+`, then digits.
  function ParseUnsigned(s: string, limit: nat): (r: Option<nat>)
    ensures r.Some? ==> r.value < limit
  {
    var digits := if |s| > 0 && s[0] == '+' then s[1..] else s;
    if digits == "" || !AllDigits(digits) then None
    else if DigitsValue(digits) < limit then Some(DigitsValue(digits))
    else None
  }

  lemma {:induction false} DecimalValue(n: nat)
    ensures DigitsValue(Decimal(n)) == n
  {
    if n >= 10 {
      DecimalValue(n / 10);
      var s := Decimal(n);
      assert s[..|s| - 1] == Decimal(n / 10);
    } else {
      assert DigitsValue("") == 0;
    }
  }

  lemma ParseDecimal(n: nat, limit: nat)
    ensures ParseUnsigned(Decimal(n), limit) == if n < limit then Some(n) else None
  {
    DecimalValue(n);
    assert IsDigit(Decimal(n)[0]);
  }

  lemma DecimalInjective(m: nat, n: nat)
    requires Decimal(m) == Decimal(n)
    ensures m == n
  {
    DecimalValue(m);
    DecimalValue(n);
  }

  // ------------------------------------------------------------------------
  // Splitting and joining
  // ------------------------------------------------------------------------

  // The index of the first c, or the length.
  function Find(s: string, c: char): (i: nat)
    ensures i <= |s|
    ensures forall k :: 0 <= k < i ==> s[k] != c
    ensures i < |s| ==> s[i] == c
  {
    if s == "" || s[0] == c then 0 else 1 + Find(s[1..], c)
  }

  lemma FindPrefix(a: string, c: char, rest: string)
    requires c !in a
    ensures Find(a + [c] + rest, c) == |a|
  {
    var s := a + [c] + rest;
    var i := Find(s, c);
    assert s[|a|] == c;
    assert forall k :: 0 <= k < |a| ==> s[k] == a[k];
  }

  // `split(c)`
  function Split(s: string, c: char): (r: seq<string>)
    ensures |r| >= 1
    decreases |s|
  {
    var i := Find(s, c);
    if i == |s| then [s] else [s[..i]] + Split(s[i + 1..], c)
  }

  // `splitn(n, c)`
  function SplitN(s: string, c: char, n: nat): (r: seq<string>)
    decreases |s|
  {
    var i := Find(s, c);
    if n == 0 then []
    else if n == 1 || i == |s| then [s]
    else [s[..i]] + SplitN(s[i + 1..], c, n - 1)
  }

  // `join(c)`
  function Join(parts: seq<string>, c: char): string {
    if |parts| == 0 then "" else
    if |parts| == 1 then parts[0] else parts[0] + [c] + Join(parts[1..], c)
  }

  lemma SplitHead(a: string, c: char, rest: string)
    requires c !in a
    ensures Split(a + [c] + rest, c) == [a] + Split(rest, c)
  {
    FindPrefix(a, c, rest);
    var s := a + [c] + rest;
    assert s[..|a|] == a && s[|a| + 1..] == rest;
  }

  lemma SplitNHead(a: string, c: char, rest: string, n: nat)
    requires c !in a && n >= 2
    ensures SplitN(a + [c] + rest, c, n) == [a] + SplitN(rest, c, n - 1)
  {
    FindPrefix(a, c, rest);
    var s := a + [c] + rest;
    assert s[..|a|] == a && s[|a| + 1..] == rest;
  }

  lemma SplitWhole(a: string, c: char)
    requires c !in a
    ensures Split(a, c) == [a]
  {
    assert Find(a, c) == |a|;
  }

  // Splitting undoes joining when no part contains the separator.
  lemma {:induction false} SplitJoin(parts: seq<string>, c: char)
    requires |parts| >= 1
    requires forall i :: 0 <= i < |parts| ==> c !in parts[i]
    ensures Split(Join(parts, c), c) == parts
  {
    if |parts| == 1 {
      SplitWhole(parts[0], c);
    } else {
      SplitHead(parts[0], c, Join(parts[1..], c));
      SplitJoin(parts[1..], c);
    }
  }

  // ------------------------------------------------------------------------
  // Whitespace, case and lines
  // ------------------------------------------------------------------------

  // The Unicode White_Space property, as `trim` uses it.
  predicate IsWhitespace(c: char) {
    var n := c as int;
    9 <= n <= 13 || n == 0x20 || n == 0x85 || n == 0xA0 || n == 0x1680 || 0x2000 <= n <= 0x200A ||
    n == 0x2028 || n == 0x2029 || n == 0x202F || n == 0x205F || n == 0x3000
  }

  function TrimStart(s: string): string {
    if s != "" && IsWhitespace(s[0]) then TrimStart(s[1..]) else s
  }

  function TrimEnd(s: string): string {
    if s != "" && IsWhitespace(s[|s| - 1]) then TrimEnd(s[..|s| - 1]) else s
  }

  function Trim(s: string): string {
    TrimEnd(TrimStart(s))
  }

  function AsciiLowerChar(c: char): char {
    if 'A' <= c <= 'Z' then c + 32 as char else c
  }

  function AsciiLower(s: string): string {
    seq(|s|, i requires 0 <= i < |s| => AsciiLowerChar(s[i]))
  }

  // Equal but for the case of ASCII letters.
  ghost predicate SameLetter(a: char, b: char) {
    a == b || ('A' <= a <= 'Z' && b as int == a as int + 32) || ('A' <= b <= 'Z' && a as int == b as int + 32)
  }

  ghost predicate SameIgnoringCase(s: string, t: string) {
    |s| == |t| && forall i :: 0 <= i < |s| ==> SameLetter(s[i], t[i])
  }

  lemma LowerIgnoresCase(s: string, t: string)
    ensures AsciiLower(s) == AsciiLower(t) <==> SameIgnoringCase(s, t)
  {
    if AsciiLower(s) == AsciiLower(t) {
      forall i | 0 <= i < |s|
        ensures |s| == |t| && SameLetter(s[i], t[i])
      {
        assert |AsciiLower(s)| == |s| && |AsciiLower(t)| == |t|;
        assert AsciiLower(s)[i] == AsciiLower(t)[i];
      }
      assert |AsciiLower(s)| == |s| && |AsciiLower(t)| == |t|;
    }
    if SameIgnoringCase(s, t) {
      assert forall i :: 0 <= i < |s| ==> AsciiLowerChar(s[i]) == AsciiLowerChar(t[i]);
    }
  }

  // A terminated line loses one trailing carriage return.
  function StripCr(s: string): string {
    if s != "" && s[|s| - 1] == '\r' then s[..|s| - 1] else s
  }

  lemma StripCrDropsOne(s: string)
    ensures StripCr(s + "\r") == s
    ensures (s == "" || s[|s| - 1] != '\r') ==> StripCr(s) == s
  {
  }

  lemma StripCrAfterTab(a: string, b: string)
    ensures StripCr(a + "\t" + b) == a + "\t" + StripCr(b)
  {
  }

  // `BufRead::lines`
  function Lines(s: string): seq<string>
    decreases |s|
  {
    if s == "" then []
    else
      var i := Find(s, '\n');
      if i == |s| then [s] else [StripCr(s[..i])] + Lines(s[i + 1..])
  }

  lemma LinesHead(a: string, rest: string)
    requires '\n' !in a
    ensures Lines(a + "\n" + rest) == [StripCr(a)] + Lines(rest)
  {
    FindPrefix(a, '\n', rest);
    var s := a + "\n" + rest;
    assert s[..|a|] == a && s[|a| + 1..] == rest;
  }

  // ------------------------------------------------------------------------
  // The order of strings
  // ------------------------------------------------------------------------

  // Code point order, which is also the byte order of the UTF-8 encodings.
  predicate Less(a: string, b: string) {
    b != "" && (a == "" || a[0] < b[0] || (a[0] == b[0] && Less(a[1..], b[1..])))
  }

  // The strings agree before i, and there a ends or has the smaller character.
  ghost predicate LessAt(a: string, b: string, i: nat) {
    i <= |a| && i < |b| && a[..i] == b[..i] && (i == |a| || a[i] < b[i])
  }

  lemma {:induction false} LessIsLessAt(a: string, b: string)
    ensures Less(a, b) <==> exists i: nat :: LessAt(a, b, i)
  {
    if a == "" && b != "" {
      assert LessAt(a, b, 0);
    } else if b != "" && a[0] == b[0] {
      LessIsLessAt(a[1..], b[1..]);
      if Less(a[1..], b[1..]) {
        var i: nat :| LessAt(a[1..], b[1..], i);
        assert a[..i + 1] == [a[0]] + a[1..][..i] && b[..i + 1] == [b[0]] + b[1..][..i];
        assert LessAt(a, b, i + 1);
      }
      if i: nat :| LessAt(a, b, i) {
        assert a[1..][..i - 1] == a[..i][1..] && b[1..][..i - 1] == b[..i][1..];
        assert LessAt(a[1..], b[1..], i - 1);
      }
    } else if b != "" {
      assert a[0] < b[0] ==> LessAt(a, b, 0);
      forall i: nat | LessAt(a, b, i)
        ensures a[0] < b[0]
      {
        assert i > 0 ==> a[..i][0] == b[..i][0];
      }
    }
  }

  lemma {:induction false} LessIrreflexive(a: string)
    ensures !Less(a, a)
  {
    if a != "" {
      LessIrreflexive(a[1..]);
    }
  }

  lemma {:induction false} LessTotal(a: string, b: string)
    ensures a == b || Less(a, b) || Less(b, a)
  {
    if a != "" && b != "" && a[0] == b[0] {
      LessTotal(a[1..], b[1..]);
      assert a == [a[0]] + a[1..] && b == [b[0]] + b[1..];
    }
  }

  lemma {:induction false} LessTransitive(a: string, b: string, c: string)
    requires Less(a, b) && Less(b, c)
    ensures Less(a, c)
  {
    if a != "" && a[0] == b[0] == c[0] {
      LessTransitive(a[1..], b[1..], c[1..]);
    }
  }

  ghost predicate Ascending(r: seq<string>) {
    forall i, j :: 0 <= i < j < |r| ==> Less(r[i], r[j])
  }

  ghost function Elements(r: seq<string>): set<string> {
    set x | x in r
  }

  function Insert(r: seq<string>, x: string): seq<string> {
    if r == [] then [x]
    else if Less(x, r[0]) then [x] + r
    else [r[0]] + Insert(r[1..], x)
  }

  lemma {:induction false} InsertElements(r: seq<string>, x: string)
    ensures |Insert(r, x)| == |r| + 1
    ensures forall y :: y in Insert(r, x) <==> y == x || y in r
  {
    if r != [] && !Less(x, r[0]) {
      InsertElements(r[1..], x);
      assert r == [r[0]] + r[1..];
    }
  }

  lemma {:induction false} InsertAscending(r: seq<string>, x: string)
    requires Ascending(r) && x !in r
    ensures Ascending(Insert(r, x))
  {
    if r != [] {
      LessTotal(x, r[0]);
      if Less(x, r[0]) {
        forall j | 0 < j < |r|
          ensures Less(x, r[j])
        {
          LessTransitive(x, r[0], r[j]);
        }
      } else {
        var t := Insert(r[1..], x);
        InsertAscending(r[1..], x);
        InsertElements(r[1..], x);
        forall j | 0 <= j < |t|
          ensures Less(r[0], t[j])
        {
          assert t[j] in t;
        }
      }
    }
  }

  // An ascending sequence is determined by its elements.
  lemma {:induction false} AscendingUnique(p: seq<string>, q: seq<string>)
    requires Ascending(p) && Ascending(q) && Elements(p) == Elements(q)
    ensures p == q
  {
    if p == [] {
      assert forall i :: 0 <= i < |q| ==> q[i] in Elements(q);
    } else {
      assert p[0] in Elements(p);
      assert q[0] in Elements(q);
      if p[0] != q[0] {
        LeastIsFirst(p, q[0]);
        LeastIsFirst(q, p[0]);
        LessTransitive(p[0], q[0], p[0]);
        LessIrreflexive(p[0]);
        assert false;
      }
      TailElements(p);
      TailElements(q);
      AscendingUnique(p[1..], q[1..]);
      assert p == [p[0]] + p[1..] && q == [q[0]] + q[1..];
    }
  }

  lemma LeastIsFirst(p: seq<string>, x: string)
    requires Ascending(p) && x in p
    ensures x == p[0] || Less(p[0], x)
  {
  }

  lemma TailElements(p: seq<string>)
    requires Ascending(p) && p != []
    ensures Elements(p[1..]) == Elements(p) - {p[0]}
  {
    assert p == [p[0]] + p[1..];
    if p[0] in p[1..] {
      var j :| 1 <= j < |p| && p[j] == p[0];
      assert Less(p[0], p[j]);
      LessIrreflexive(p[0]);
    }
  }

  ghost predicate IsSorting(r: seq<string>, s: set<string>) {
    Ascending(r) && Elements(r) == s && |r| == |s|
  }

  lemma {:induction false} SortingExists(s: set<string>)
    ensures exists r :: IsSorting(r, s)
  {
    if s == {} {
      assert IsSorting([], s);
    } else {
      var x :| x in s;
      SortingExists(s - {x});
      var t :| IsSorting(t, s - {x});
      assert x !in Elements(t);
      InsertAscending(t, x);
      InsertElements(t, x);
      assert Elements(Insert(t, x)) == Elements(t) + {x};
      assert IsSorting(Insert(t, x), s);
    }
  }

  // The elements of a set in ascending order.
  ghost function Sorted(s: set<string>): (r: seq<string>)
    ensures IsSorting(r, s)
  {
    SortingExists(s);
    var r :| IsSorting(r, s);
    r
  }

  // Collecting keys in whatever order the hash table yields them and sorting always gives the
  // same sequence.
  method CollectSorted(s: set<string>) returns (r: seq<string>)
    ensures r == Sorted(s)
  {
    r := [];
    var left := s;
    while left != {}
      invariant left <= s && Ascending(r)
      invariant Elements(r) == s - left
      decreases left
    {
      var x :| x in left;
      assert x !in Elements(r);
      InsertAscending(r, x);
      InsertElements(r, x);
      ghost var was := r;
      r := Insert(r, x);
      left := left - {x};
      assert forall y :: y in Elements(r) <==> y == x || y in Elements(was);
    }
    AscendingUnique(r, Sorted(s));
  }
}
