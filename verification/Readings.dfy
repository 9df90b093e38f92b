/**
 The WHERE evaluator against SQL, whatever SQL takes the values in a condition to be: it is right
 where it reads those values the same way. What it reads differently is set out exactly.
 */
module Readings {
  import opened Wrappers
  import opened Text
  import opened Predicate
  import opened ThreeValued

  // ------------------------------------------------------------------------
  // Reading the values of a condition alike
  // ------------------------------------------------------------------------

  // The property holds at every place of the condition where a value is read.
  ghost predicate AtEveryValue(e: Expr, p: Expr -> bool) {
    match e
    case Binary(left, And, right) => AtEveryValue(left, p) && AtEveryValue(right, p)
    case Binary(left, Or, right) => AtEveryValue(left, p) && AtEveryValue(right, p)
    case Binary(left, _, right) => p(left) && p(right)
    case Unary(Not, operand) => AtEveryValue(operand, p)
    case IsNull(subject) => p(subject)
    case IsNotNull(subject) => p(subject)
    case Between(_, subject, low, high) => p(subject) && p(low) && p(high)
    case InList(_, subject, list) => p(subject) && forall i :: 0 <= i < |list| ==> p(list[i])
    case LikePattern(_, subject, pattern) => p(subject) && p(pattern)
    case Nested(inner) => AtEveryValue(inner, p)
    case _ => p(e)
  }

  ghost function SameValue(fl: Floats, read: Reading, row: Row): Expr -> bool {
    (x: Expr) => read(x) == EvalValue(fl, x, row)
  }

  // The reading gives every value in the condition as the evaluator does on the row.
  ghost predicate ReadsAlike(fl: Floats, e: Expr, read: Reading, row: Row) {
    AtEveryValue(e, SameValue(fl, read, row))
  }

  lemma {:induction false} SameMeaning(fl: Floats, e: Expr, read: Reading, row: Row)
    requires ReadsAlike(fl, e, read, row)
    ensures MeaningUnder(fl, e, read) == Meaning(fl, e, row)
  {
    if IsConnective(e) {
      if e.Nested? {
        SameMeaning(fl, e.inner, read, row);
      } else if e.Unary? {
        SameMeaning(fl, e.operand, read, row);
      } else {
        SameMeaning(fl, e.left, read, row);
        SameMeaning(fl, e.right, read, row);
      }
    } else if e.InList? {
      assert forall i :: 0 <= i < |e.list| ==> read(e.list[i]) == Reader(fl, row)(e.list[i]);
    }
  }

  // Whenever SQL finds the condition definitely true or definitely false, from values the evaluator
  // shares, the evaluator says the same.
  lemma AgreesWithSql(fl: Floats, e: Expr, read: Reading, row: Row)
    requires EvalPredicate(fl, e, row).Ok? && ReadsAlike(fl, e, read, row) && MeaningUnder(fl, e, read) != Unknown
    ensures EvalPredicate(fl, e, row) == Ok(MeaningUnder(fl, e, read) == True)
  {
    SameMeaning(fl, e, read, row);
    DefiniteAgrees(fl, e, row);
  }

  // Without NOT and LIKE a row passes exactly when SQL finds the condition true.
  lemma ExactWithSql(fl: Floats, e: Expr, read: Reading, row: Row)
    requires Supported(e) && Positive(e) && ReadsAlike(fl, e, read, row)
    ensures Passes(fl, e, row) <==> MeaningUnder(fl, e, read) == True
  {
    SameMeaning(fl, e, read, row);
    PositiveIsExact(fl, e, row);
  }

  // ------------------------------------------------------------------------
  // Expressions that are not computed
  // ------------------------------------------------------------------------

  // A column, a literal the evaluator knows, and signs and parentheses around one.
  predicate Computed(x: Expr) {
    match x
    case Identifier(_) => true
    case CompoundIdentifier(_) => true
    case Value(lit) => !lit.OtherLit?
    case Nested(inner) => Computed(inner)
    case Unary(Minus, operand) => Computed(operand)
    case Unary(Plus, operand) => Computed(operand)
    case _ => false
  }

  // A reading that takes literals, parentheses and signs as usual; columns it may read in any way.
  ghost predicate IsOrdinary(fl: Floats, read: Reading) {
    (forall lit: Literal :: !lit.OtherLit? ==> read(Value(lit)) == LiteralValue(fl, lit)) &&
    (forall x :: read(Nested(x)) == read(x) && read(Unary(Plus, x)) == read(x)) &&
    forall x :: read(Unary(Minus, x)) == Negated(read(x))
  }

  function Negated(v: Val): Val {
    match v
    case Int(i) => Int(NegateInt(i))
    case Float(f) => Float(NegateFloat(f))
    case _ => Null
  }

  // The column a value is computed from is read as the evaluator reads it.
  ghost predicate ColumnAlike(fl: Floats, x: Expr, read: Reading, row: Row) {
    match x
    case Nested(inner) => ColumnAlike(fl, inner, read, row)
    case Unary(Minus, operand) => ColumnAlike(fl, operand, read, row)
    case Unary(Plus, operand) => ColumnAlike(fl, operand, read, row)
    case _ => (x.Identifier? || x.CompoundIdentifier?) ==> read(x) == EvalValue(fl, x, row)
  }

  ghost function ComputedAlike(fl: Floats, read: Reading, row: Row): Expr -> bool {
    (x: Expr) => Computed(x) && ColumnAlike(fl, x, read, row)
  }

  lemma {:induction false} ColumnDecides(fl: Floats, x: Expr, read: Reading, row: Row)
    requires IsOrdinary(fl, read) && Computed(x) && ColumnAlike(fl, x, read, row)
    ensures read(x) == EvalValue(fl, x, row)
  {
    if x.Nested? {
      ColumnDecides(fl, x.inner, read, row);
    } else if x.Unary? {
      ColumnDecides(fl, x.operand, read, row);
    }
  }

  lemma {:induction false} AtEveryValueFollows(e: Expr, p: Expr -> bool, q: Expr -> bool)
    requires AtEveryValue(e, p) && forall x :: p(x) ==> q(x)
    ensures AtEveryValue(e, q)
  {
    if e.Nested? {
      AtEveryValueFollows(e.inner, p, q);
    } else if IsConnective(e) && e.Unary? {
      AtEveryValueFollows(e.operand, p, q);
    } else if IsConnective(e) {
      AtEveryValueFollows(e.left, p, q);
      AtEveryValueFollows(e.right, p, q);
    }
  }

  // For a condition of computed expressions only the columns decide whether an ordinary reading is the
  // evaluator's.
  lemma ColumnsDecide(fl: Floats, e: Expr, read: Reading, row: Row)
    requires IsOrdinary(fl, read) && AtEveryValue(e, ComputedAlike(fl, read, row))
    ensures ReadsAlike(fl, e, read, row)
  {
    forall x | ComputedAlike(fl, read, row)(x)
      ensures SameValue(fl, read, row)(x)
    {
      ColumnDecides(fl, x, read, row);
    }
    AtEveryValueFollows(e, ComputedAlike(fl, read, row), SameValue(fl, read, row));
  }

  // Everything else is null on every row: arithmetic, functions, comparisons used as values.
  lemma {:induction false} UncomputedIsNull(fl: Floats, x: Expr, row: Row)
    requires !Computed(x)
    ensures EvalValue(fl, x, row) == Null
  {
    match x
    case Nested(inner) => UncomputedIsNull(fl, inner, row);
    case Unary(uop, operand) =>
      if uop.Minus? || uop.Plus? {
        UncomputedIsNull(fl, operand, row);
      }
    case _ =>
  }

  // So a comparison with such an expression passes on no row, and its NOT on every row.
  lemma UncomputedComparison(fl: Floats, left: Expr, op: Comparison, right: Expr, row: Row)
    requires !Computed(left) || !Computed(right)
    ensures !Passes(fl, Binary(left, Cmp(op), right), row)
    ensures Passes(fl, Unary(Not, Binary(left, Cmp(op), right)), row)
  {
    if !Computed(left) {
      UncomputedIsNull(fl, left, row);
    } else {
      UncomputedIsNull(fl, right, row);
    }
  }

  // a + 1 = 2
  const SUM := Binary(Identifier("a"), OtherBinary, Value(Number("1")))
  const SUM_IS_TWO := Binary(SUM, Cmp(Eq), Value(Number("2")))

  // On a row with a = 1 the sum is 2 for SQL, and the row is dropped.
  lemma SumIsDropped(fl: Floats, read: Reading)
    requires read(SUM) == Int(2) && read(Value(Number("2"))) == Int(2)
    ensures MeaningUnder(fl, SUM_IS_TWO, read) == True && !Passes(fl, SUM_IS_TWO, Row("", map["a" := "1"]))
  {
    UncomputedComparison(fl, SUM, Eq, Value(Number("2")), Row("", map["a" := "1"]));
  }

  // ------------------------------------------------------------------------
  // Texts that look like something else
  // ------------------------------------------------------------------------

  function EqualsText(c: string, s: string): Expr {
    Binary(Identifier(c), Cmp(Eq), Value(StringLit(s)))
  }

  // A column that stores a text equals that text if and only if the text is how its parsed value
  // prints.
  lemma StoredTextIsFound(fl: Floats, c: string, s: string, row: Row)
    requires c != "_key" && c in row.data && row.data[c] == s
    ensures Passes(fl, EqualsText(c, s), row) <==> ShowValue(fl, ParseValue(fl, s)) == s
  {
    var v := ParseValue(fl, s);
    assert EvalValue(fl, Identifier(c), row) == v && EvalValue(fl, Value(StringLit(s)), row) == Text(s);
    assert Order(fl, v, Text(s)) == OrderStrings(ShowValue(fl, v), s);
  }

  // A text that reads as an integer is found if and only if it is written the way that integer
  // prints.
  lemma StoredIntegerTextIsFound(fl: Floats, c: string, s: string, row: Row)
    requires c != "_key" && c in row.data && row.data[c] == s && ParseInt(s).Some?
    ensures Passes(fl, EqualsText(c, s), row) <==> s == ShowInt(ParseInt(s).value)
  {
    StoredTextIsFound(fl, c, s, row);
    assert s != "";
  }

  // The text 007 is stored and not found, though for SQL a text equals itself.
  lemma LeadingZerosAreLost(fl: Floats, read: Reading)
    requires read(Identifier("code")) == Text("007") && read(Value(StringLit("007"))) == Text("007")
    ensures MeaningUnder(fl, EqualsText("code", "007"), read) == True
    ensures !Passes(fl, EqualsText("code", "007"), Row("", map["code" := "007"]))
  {
    assert ParseInt("007") == Some(7) by {
      assert "007"[..2] == "00" && "00"[..1] == "0" && "0"[..0] == "";
      assert DigitsValue("") == 0 && DigitsValue("0") == 0 && DigitsValue("00") == 0;
      assert DigitsValue("007") == 7;
    }
    assert ShowInt(7) == "7";
    StoredIntegerTextIsFound(fl, "code", "007", Row("", map["code" := "007"]));
  }

  // ------------------------------------------------------------------------
  // What the evaluator reads
  // ------------------------------------------------------------------------

  // The key is always a text, and hides a column of that name; a missing column is null; and a
  // qualified name is its last part.
  lemma ColumnsRead(fl: Floats, row: Row, c: string, qualifiers: seq<string>)
    ensures EvalValue(fl, Identifier("_key"), row) == Text(row.key)
    ensures c != "_key" && c !in row.data ==> EvalValue(fl, Identifier(c), row) == Null
    ensures EvalValue(fl, CompoundIdentifier(qualifiers + [c]), row) == EvalValue(fl, Identifier(c), row)
  {
  }

  // A numeral below 2^63 is that integer, and its negative with a minus sign.
  lemma NumeralsRead(fl: Floats, n: nat, row: Row)
    requires n < 0x8000_0000_0000_0000
    ensures EvalValue(fl, Value(Number(Decimal(n))), row) == Int(n)
    ensures EvalValue(fl, Unary(Minus, Value(Number(Decimal(n)))), row) == Int(-(n as int))
    ensures EvalValue(fl, Unary(Plus, Value(Number(Decimal(n)))), row) == Int(n)
  {
    ParseDecimal(n, 0x8000_0000_0000_0000);
    assert IsDigit(Decimal(n)[0]);
  }

  // A stored spelling of true or false, in any case, is that boolean, and equals the text only if it
  // is in lower case.
  lemma BooleansRead(fl: Floats, c: string, b: bool, s: string, row: Row)
    requires c != "_key" && c in row.data && row.data[c] == s
    requires SameIgnoringCase(s, if b then "true" else "false") && fl.parse(s).None?
    ensures EvalValue(fl, Identifier(c), row) == Bool(b)
    ensures Passes(fl, EqualsText(c, s), row) <==> s == if b then "true" else "false"
  {
    var t := if b then "true" else "false";
    LowerIgnoresCase(s, t);
    LowerOfLower(b);
    assert SameLetter(s[0], t[0]);
    assert !IsDigit(s[0]) && s[0] != '-' && s[0] != '+';
    StoredTextIsFound(fl, c, s, row);
  }

  lemma LowerOfLower(b: bool)
    ensures var t := if b then "true" else "false"; AsciiLower(t) == t
    ensures "true" != "false"
  {
    assert |"true"| != |"false"|;
  }

  // A stored text that reads as a float and not as an integer is that float, and one that reads as
  // neither and is no boolean is itself.
  lemma OthersRead(fl: Floats, c: string, s: string, row: Row)
    requires c != "_key" && c in row.data && row.data[c] == s && s != "" && ParseInt(s).None?
    ensures fl.parse(s).Some? ==> EvalValue(fl, Identifier(c), row) == Float(fl.parse(s).value)
    ensures fl.parse(s).None? && !SameIgnoringCase(s, "true") && !SameIgnoringCase(s, "false") ==>
              EvalValue(fl, Identifier(c), row) == Text(s)
  {
    LowerIgnoresCase(s, "true");
    LowerIgnoresCase(s, "false");
    LowerOfLower(true);
    LowerOfLower(false);
  }

  // A column alone passes if it stores an integer other than 0.
  lemma BareInteger(fl: Floats, c: string, i: int, row: Row)
    requires c != "_key" && c in row.data && I64_MIN <= i < 0x8000_0000_0000_0000 && row.data[c] == ShowInt(i)
    ensures Passes(fl, Identifier(c), row) <==> i != 0
  {
    IntegersReadBack(fl, i);
  }

  // A float literal alone passes unless it is a zero; NaN passes.
  lemma BareFloat(fl: Floats, n: string, row: Row)
    requires ParseInt(n).None? && fl.parse(n).Some?
    ensures var f := fl.parse(n).value;
            Passes(fl, Value(Number(n)), row) <==>
            f.NaN? || FloatBelow(f, Finite(0.0)) || FloatBelow(Finite(0.0), f)
  {
  }

  // The key alone passes unless it is empty, and a missing column never does.
  lemma BareText(fl: Floats, c: string, row: Row)
    ensures Passes(fl, Identifier("_key"), row) <==> row.key != ""
    ensures c != "_key" && c !in row.data ==> !Passes(fl, Identifier(c), row)
  {
  }
}
