/**
 The WHERE evaluator: values, comparisons and the two-valued evaluation of a predicate on a row.
 */
module Predicate {
  import opened Wrappers
  import opened Text
  import Like

  // ------------------------------------------------------------------------
  // Values
  // ------------------------------------------------------------------------

  datatype F64 = Finite(r: real) | NegativeZero | Infinity(negative: bool) | NaN

  datatype Val = Int(i: int) | Float(f: F64) | Text(t: string) | Bool(b: bool) | Null

  // What the source takes from the standard library's floating point: parsing, printing, and the
  // conversion of a 64-bit integer.
  datatype Floats = Floats(parse: string -> Option<F64>, show: F64 -> string, widen: int -> F64)

  datatype Ordering = Less | Equal | Greater

  datatype Comparison = Eq | NotEq | Lt | LtEq | Gt | GtEq

  const I64_MIN := -0x8000_0000_0000_0000

  // `parse` to a signed 64-bit integer: an optional sign, then digits.
  function ParseInt(s: string): Option<int> {
    if |s| > 0 && s[0] == '-' then
      if |s| > 1 && AllDigits(s[1..]) && DigitsValue(s[1..]) <= 0x8000_0000_0000_0000
      then var n: int := DigitsValue(s[1..]); Some(-n) else None
    else
      match ParseUnsigned(s, 0x8000_0000_0000_0000)
      case None => None
      case Some(n) => Some(n)
  }

  function ShowInt(i: int): string {
    if i < 0 then "-" + Decimal(-i) else Decimal(i)
  }

  function ParseValue(fl: Floats, s: string): Val {
    if s == "" then Text("")
    else if ParseInt(s).Some? then Int(ParseInt(s).value)
    else if fl.parse(s).Some? then Float(fl.parse(s).value)
    else if AsciiLower(s) == "true" then Bool(true)
    else if AsciiLower(s) == "false" then Bool(false)
    else Text(s)
  }

  function ShowValue(fl: Floats, v: Val): string {
    match v
    case Int(i) => ShowInt(i)
    case Float(f) => fl.show(f)
    case Text(t) => t
    case Bool(b) => if b then "true" else "false"
    case Null => ""
  }

  predicate Truthy(v: Val) {
    match v
    case Bool(b) => b
    case Int(i) => i != 0
    case Float(f) => f != Finite(0.0) && f != NegativeZero
    case Text(t) => t != ""
    case Null => false
  }

  function NegateFloat(f: F64): F64 {
    match f
    case Finite(r) => if r == 0.0 then NegativeZero else Finite(-r)
    case NegativeZero => Finite(0.0)
    case Infinity(negative) => Infinity(!negative)
    case NaN => NaN
  }

  // Two's complement negation.
  function NegateInt(i: int): int {
    if i == I64_MIN then I64_MIN else -i
  }

  // ------------------------------------------------------------------------
  // Comparison
  // ------------------------------------------------------------------------

  function OrderStrings(x: string, y: string): Ordering {
    if x == y then Equal else if Text.Less(x, y) then Less else Greater
  }

  function OrderReals(x: real, y: real): Ordering {
    if x < y then Less else if x == y then Equal else Greater
  }

  function Magnitude(f: F64): real
    requires f.Finite? || f.NegativeZero?
  {
    if f.Finite? then f.r else 0.0
  }

  // NaN compares equal to everything.
  function OrderFloats(x: F64, y: F64): Ordering {
    if x.NaN? || y.NaN? then Equal
    else if x == y then Equal
    else if x == Infinity(true) || y == Infinity(false) then Less
    else if x == Infinity(false) || y == Infinity(true) then Greater
    else OrderReals(Magnitude(x), Magnitude(y))
  }

  function Order(fl: Floats, a: Val, b: Val): Ordering {
    match (a, b)
    case (Int(x), Int(y)) => if x < y then Less else if x == y then Equal else Greater
    case (Float(x), Float(y)) => OrderFloats(x, y)
    case (Int(x), Float(y)) => OrderFloats(fl.widen(x), y)
    case (Float(x), Int(y)) => OrderFloats(x, fl.widen(y))
    case (Text(x), Text(y)) => OrderStrings(x, y)
    case (Bool(x), Bool(y)) => if x == y then Equal else if y then Less else Greater
    case (_, _) => OrderStrings(ShowValue(fl, a), ShowValue(fl, b))
  }

  predicate Satisfies(o: Ordering, op: Comparison) {
    match op
    case Eq => o == Equal
    case NotEq => o != Equal
    case Lt => o == Less
    case LtEq => o != Greater
    case Gt => o == Greater
    case GtEq => o != Less
  }

  predicate Compare(fl: Floats, a: Val, op: Comparison, b: Val) {
    !a.Null? && !b.Null? && Satisfies(Order(fl, a, b), op)
  }

  function Flip(o: Ordering): Ordering {
    match o
    case Less => Greater
    case Equal => Equal
    case Greater => Less
  }

  function Mirror(op: Comparison): Comparison {
    match op
    case Lt => Gt
    case LtEq => GtEq
    case Gt => Lt
    case GtEq => LtEq
    case _ => op
  }

  function Complement(op: Comparison): Comparison {
    match op
    case Eq => NotEq
    case NotEq => Eq
    case Lt => GtEq
    case LtEq => Gt
    case Gt => LtEq
    case GtEq => Lt
  }

  lemma {:induction false} LessAsymmetric(x: string, y: string)
    requires Text.Less(x, y)
    ensures !Text.Less(y, x)
  {
    if x != "" && x[0] == y[0] {
      LessAsymmetric(x[1..], y[1..]);
    }
  }

  lemma OrderStringsFlips(x: string, y: string)
    ensures OrderStrings(x, y) == Flip(OrderStrings(y, x))
  {
    LessTotal(x, y);
    if Text.Less(x, y) {
      LessAsymmetric(x, y);
    }
    if Text.Less(y, x) {
      LessAsymmetric(y, x);
    }
  }

  // Swapping the operands mirrors the comparison, and among values that are not null exactly one
  // of a comparison and its complement holds: for every mixture of types.
  lemma CompareIsConsistent(fl: Floats, a: Val, op: Comparison, b: Val)
    ensures Compare(fl, a, op, b) == Compare(fl, b, Mirror(op), a)
    ensures !a.Null? && !b.Null? ==> Compare(fl, a, Complement(op), b) == !Compare(fl, a, op, b)
  {
    if a.Text? && b.Text? {
      OrderStringsFlips(a.t, b.t);
    }
    OrderStringsFlips(ShowValue(fl, a), ShowValue(fl, b));
    assert Order(fl, a, b) == Flip(Order(fl, b, a));
  }

  // ------------------------------------------------------------------------
  // What a comparison means
  // ------------------------------------------------------------------------

  // Floats lie on a line: the numbers, with both zeros at one place, between the infinities. NaN is
  // nowhere.
  ghost predicate FloatBelow(x: F64, y: F64) {
    !x.NaN? && !y.NaN? && x != y &&
    (x == Infinity(true) || y == Infinity(false) ||
     (!x.Infinity? && !y.Infinity? && (if x.Finite? then x.r else 0.0) < (if y.Finite? then y.r else 0.0)))
  }

  // The value a lies strictly before b: numbers by size, an integer meeting a float as a float; texts
  // by their first difference; false before true; and values of other kinds by their texts.
  ghost predicate Below(fl: Floats, a: Val, b: Val) {
    match (a, b)
    case (Int(x), Int(y)) => x < y
    case (Float(x), Float(y)) => FloatBelow(x, y)
    case (Int(x), Float(y)) => FloatBelow(fl.widen(x), y)
    case (Float(x), Int(y)) => FloatBelow(x, fl.widen(y))
    case (Bool(x), Bool(y)) => !x && y
    case (_, _) => exists i: nat :: LessAt(ShowValue(fl, a), ShowValue(fl, b), i)
  }

  // Neither lies before the other.
  ghost predicate Level(fl: Floats, a: Val, b: Val) {
    !Below(fl, a, b) && !Below(fl, b, a)
  }

  ghost predicate Related(fl: Floats, a: Val, op: Comparison, b: Val) {
    match op
    case Eq => Level(fl, a, b)
    case NotEq => !Level(fl, a, b)
    case Lt => Below(fl, a, b)
    case LtEq => Below(fl, a, b) || Level(fl, a, b)
    case Gt => Below(fl, b, a)
    case GtEq => Below(fl, b, a) || Level(fl, a, b)
  }

  lemma OrderFloatsIs(x: F64, y: F64)
    ensures OrderFloats(x, y) == Less <==> FloatBelow(x, y)
    ensures OrderFloats(x, y) == Greater <==> FloatBelow(y, x)
  {
  }

  // Negation reverses the order of floats and undoes itself.
  lemma NegationMirrors(x: F64, y: F64)
    ensures FloatBelow(NegateFloat(x), NegateFloat(y)) <==> FloatBelow(y, x)
    ensures NegateFloat(NegateFloat(x)) == x
  {
  }

  lemma OrderStringsIs(x: string, y: string)
    ensures OrderStrings(x, y) == Less <==> exists i: nat :: LessAt(x, y, i)
    ensures OrderStrings(x, y) == Greater <==> exists i: nat :: LessAt(y, x, i)
  {
    LessIsLessAt(x, y);
    LessIsLessAt(y, x);
    OrderStringsFlips(x, y);
    LessIrreflexive(x);
  }

  lemma OrderIs(fl: Floats, a: Val, b: Val)
    requires !a.Null? && !b.Null?
    ensures Order(fl, a, b) == Less <==> Below(fl, a, b)
    ensures Order(fl, a, b) == Greater <==> Below(fl, b, a)
  {
    match (a, b)
    case (Int(_), Int(_)) =>
    case (Float(x), Float(y)) => OrderFloatsIs(x, y);
    case (Int(x), Float(y)) => OrderFloatsIs(fl.widen(x), y);
    case (Float(x), Int(y)) => OrderFloatsIs(x, fl.widen(y));
    case (Bool(_), Bool(_)) =>
    case (_, _) => OrderStringsIs(ShowValue(fl, a), ShowValue(fl, b));
  }

  // A comparison of values that are not null holds exactly when the values stand in that relation.
  lemma CompareIsRelated(fl: Floats, a: Val, op: Comparison, b: Val)
    ensures Compare(fl, a, op, b) <==> !a.Null? && !b.Null? && Related(fl, a, op, b)
  {
    if !a.Null? && !b.Null? {
      OrderIs(fl, a, b);
    }
  }

  // Two numbers, written out for the six operators.
  lemma NumbersCompare(fl: Floats, x: real, y: real, i: int, j: int)
    ensures var a, b := Float(Finite(x)), Float(Finite(y));
            Compare(fl, a, Eq, b) == (x == y) && Compare(fl, a, NotEq, b) == (x != y) &&
            Compare(fl, a, Lt, b) == (x < y) && Compare(fl, a, LtEq, b) == (x <= y) &&
            Compare(fl, a, Gt, b) == (x > y) && Compare(fl, a, GtEq, b) == (x >= y)
    ensures Compare(fl, Int(i), Eq, Int(j)) == (i == j) && Compare(fl, Int(i), NotEq, Int(j)) == (i != j) &&
            Compare(fl, Int(i), Lt, Int(j)) == (i < j) && Compare(fl, Int(i), LtEq, Int(j)) == (i <= j) &&
            Compare(fl, Int(i), Gt, Int(j)) == (i > j) && Compare(fl, Int(i), GtEq, Int(j)) == (i >= j)
  {
  }

  // ------------------------------------------------------------------------
  // Where the order is transitive
  // ------------------------------------------------------------------------

  datatype Kind = Ints | Texts | Bools

  predicate IsOf(v: Val, k: Kind) {
    match k
    case Ints => v.Int?
    case Texts => v.Text?
    case Bools => v.Bool?
  }

  predicate IsTwoIntsAndText(j: Kind, k: Kind, l: Kind) {
    (j == k == Ints && l == Texts) || (j == l == Ints && k == Texts) || (k == l == Ints && j == Texts)
  }

  ghost predicate Chain(fl: Floats, a: Val, b: Val, c: Val) {
    Compare(fl, a, LtEq, b) && Compare(fl, b, LtEq, c) ==> Compare(fl, a, LtEq, c)
  }

  ghost predicate KindsChain(fl: Floats, j: Kind, k: Kind, l: Kind) {
    forall a, b, c :: IsOf(a, j) && IsOf(b, k) && IsOf(c, l) ==> Chain(fl, a, b, c)
  }

  lemma OrderStringsTransitive(x: string, y: string, z: string)
    requires OrderStrings(x, y) != Greater && OrderStrings(y, z) != Greater
    ensures OrderStrings(x, z) != Greater
  {
    if x != y && y != z {
      LessTransitive(x, y, z);
    }
  }

  lemma BoolsGoByText(fl: Floats, x: bool, y: bool)
    ensures Order(fl, Bool(x), Bool(y)) == OrderStrings(ShowValue(fl, Bool(x)), ShowValue(fl, Bool(y)))
  {
    assert Text.Less("false", "true") && !Text.Less("true", "false");
  }

  // Two values that are not both integers compare by their texts.
  lemma GoByText(fl: Floats, a: Val, b: Val, j: Kind, k: Kind)
    requires IsOf(a, j) && IsOf(b, k) && !(j == k == Ints)
    ensures Order(fl, a, b) == OrderStrings(ShowValue(fl, a), ShowValue(fl, b))
  {
    if a.Bool? && b.Bool? {
      BoolsGoByText(fl, a.b, b.b);
    }
  }

  // Digits and the minus sign sort below letters.
  lemma IntBelowBool(fl: Floats, i: int, b: bool)
    ensures Order(fl, Int(i), Bool(b)) == Less && Order(fl, Bool(b), Int(i)) == Greater
  {
    var s, t := ShowInt(i), ShowValue(fl, Bool(b));
    assert i >= 0 ==> IsDigit(s[0]);
    assert s[0] < t[0];
    OrderStringsFlips(s, t);
  }

  lemma OthersChain(fl: Floats, a: Val, b: Val, c: Val, j: Kind, k: Kind, l: Kind)
    requires IsOf(a, j) && IsOf(b, k) && IsOf(c, l) && !IsTwoIntsAndText(j, k, l)
    requires Compare(fl, a, LtEq, b) && Compare(fl, b, LtEq, c)
    ensures Compare(fl, a, LtEq, c)
  {
    if j == k == l == Ints {
      assert a.i <= b.i <= c.i;
    } else if j == k == Ints {
      IntBelowBool(fl, a.i, c.b);
    } else if j == l == Ints {
      IntBelowBool(fl, c.i, b.b);
    } else if k == l == Ints {
      IntBelowBool(fl, b.i, a.b);
    } else {
      GoByText(fl, a, b, j, k);
      GoByText(fl, b, c, k, l);
      GoByText(fl, a, c, j, l);
      OrderStringsTransitive(ShowValue(fl, a), ShowValue(fl, b), ShowValue(fl, c));
    }
  }

  // 9 is below 10, 10 is below "1a", and "1a" is below 9.
  lemma IntsAndTextCycle(fl: Floats)
    ensures Compare(fl, Int(9), Lt, Int(10)) && Compare(fl, Int(10), Lt, Text("1a")) &&
            Compare(fl, Text("1a"), Lt, Int(9))
  {
    assert Decimal(1) == "1" && Decimal(10) == Decimal(1) + "0" && Decimal(9) == "9";
    assert "10"[1..] == "0" && "1a"[1..] == "a";
    assert Text.Less("10", "1a") && Text.Less("1a", "9");
  }

  // Among integers, texts and booleans the order is transitive for every mixture of kinds but two
  // integers with a text, where it has cycles.
  lemma ChainsExactlyWhen(fl: Floats, j: Kind, k: Kind, l: Kind)
    ensures KindsChain(fl, j, k, l) <==> !IsTwoIntsAndText(j, k, l)
  {
    if IsTwoIntsAndText(j, k, l) {
      IntsAndTextCycle(fl);
      CompareIsConsistent(fl, Int(9), Lt, Text("1a"));
      CompareIsConsistent(fl, Text("1a"), Lt, Int(10));
      assert !Chain(fl, Int(9), Int(10), Text("1a")) && !Chain(fl, Int(10), Text("1a"), Int(9)) &&
             !Chain(fl, Text("1a"), Int(9), Int(10));
    } else {
      forall a, b, c | IsOf(a, j) && IsOf(b, k) && IsOf(c, l)
        ensures Chain(fl, a, b, c)
      {
        if Compare(fl, a, LtEq, b) && Compare(fl, b, LtEq, c) {
          OthersChain(fl, a, b, c, j, k, l);
        }
      }
    }
  }

  // Numbers: integers from lo to hi, and floats other than NaN. An integer meets a float as a float.
  predicate IsNumber(v: Val, lo: int, hi: int) {
    (v.Int? && lo <= v.i <= hi) || (v.Float? && !v.f.NaN?)
  }

  ghost predicate NumbersChain(fl: Floats, lo: int, hi: int) {
    forall a, b, c :: IsNumber(a, lo, hi) && IsNumber(b, lo, hi) && IsNumber(c, lo, hi) ==> Chain(fl, a, b, c)
  }

  ghost predicate WidensStrictly(fl: Floats, lo: int, hi: int) {
    forall i, j :: lo <= i < j <= hi ==> OrderFloats(fl.widen(i), fl.widen(j)) == Less
  }

  ghost predicate WidensToNumbers(fl: Floats, lo: int, hi: int) {
    forall i :: lo <= i <= hi ==> !fl.widen(i).NaN?
  }

  function AsFloat(fl: Floats, v: Val): F64
    requires v.Int? || v.Float?
  {
    if v.Int? then fl.widen(v.i) else v.f
  }

  lemma OrderFloatsTransitive(x: F64, y: F64, z: F64)
    requires !x.NaN? && !y.NaN? && !z.NaN?
    requires OrderFloats(x, y) != Greater && OrderFloats(y, z) != Greater
    ensures OrderFloats(x, z) != Greater
  {
  }

  lemma NumbersGoByFloat(fl: Floats, lo: int, hi: int, a: Val, b: Val)
    requires IsNumber(a, lo, hi) && IsNumber(b, lo, hi) && WidensStrictly(fl, lo, hi)
    ensures Order(fl, a, b) == OrderFloats(AsFloat(fl, a), AsFloat(fl, b))
  {
    if a.Int? && b.Int? && a.i > b.i {
      assert OrderFloats(fl.widen(b.i), fl.widen(a.i)) == Less;
    }
  }

  lemma NumberChain(fl: Floats, lo: int, hi: int, a: Val, b: Val, c: Val)
    requires IsNumber(a, lo, hi) && IsNumber(b, lo, hi) && IsNumber(c, lo, hi)
    requires WidensStrictly(fl, lo, hi) && WidensToNumbers(fl, lo, hi)
    ensures Chain(fl, a, b, c)
  {
    NumbersGoByFloat(fl, lo, hi, a, b);
    NumbersGoByFloat(fl, lo, hi, b, c);
    NumbersGoByFloat(fl, lo, hi, a, c);
    if Compare(fl, a, LtEq, b) && Compare(fl, b, LtEq, c) {
      OrderFloatsTransitive(AsFloat(fl, a), AsFloat(fl, b), AsFloat(fl, c));
    }
  }

  // Two integers that the conversion does not keep apart, or in order, with a float between them.
  lemma LostOrder(fl: Floats, i: int, j: int)
    requires i < j && !fl.widen(j).NaN? && OrderFloats(fl.widen(i), fl.widen(j)) != Less
    ensures !Chain(fl, Int(j), Float(fl.widen(j)), Int(i))
  {
  }

  // Among floats and the integers of a range the order is transitive if and only if the conversion
  // to floats is strictly increasing on the range.
  lemma NumbersChainExactlyWhen(fl: Floats, lo: int, hi: int)
    requires WidensToNumbers(fl, lo, hi)
    ensures NumbersChain(fl, lo, hi) <==> WidensStrictly(fl, lo, hi)
  {
    if WidensStrictly(fl, lo, hi) {
      forall a, b, c | IsNumber(a, lo, hi) && IsNumber(b, lo, hi) && IsNumber(c, lo, hi)
        ensures Chain(fl, a, b, c)
      {
        NumberChain(fl, lo, hi, a, b, c);
      }
    } else {
      var i, j :| lo <= i < j <= hi && OrderFloats(fl.widen(i), fl.widen(j)) != Less;
      LostOrder(fl, i, j);
      assert IsNumber(Int(j), lo, hi) && IsNumber(Float(fl.widen(j)), lo, hi) && IsNumber(Int(i), lo, hi);
    }
  }

  // The integers up to here, and down to its negative, are 64-bit floats.
  const TWO_TO_53: int := 0x20_0000_0000_0000

  // As far as the conversion is exact the order is transitive.
  lemma ExactIntegersChain(fl: Floats)
    requires forall i :: -TWO_TO_53 <= i <= TWO_TO_53 ==> fl.widen(i) == Finite(i as real)
    ensures NumbersChain(fl, -TWO_TO_53, TWO_TO_53)
  {
    NumbersChainExactlyWhen(fl, -TWO_TO_53, TWO_TO_53);
  }

  // The next integer is rounded to its neighbour, and then equals it by way of a float, though it is
  // greater.
  lemma RoundedNeighboursDoNotChain(fl: Floats)
    requires fl.widen(TWO_TO_53) == fl.widen(TWO_TO_53 + 1) == Finite(TWO_TO_53 as real)
    ensures !Chain(fl, Int(TWO_TO_53 + 1), Float(Finite(TWO_TO_53 as real)), Int(TWO_TO_53))
  {
    LostOrder(fl, TWO_TO_53, TWO_TO_53 + 1);
  }

  // NaN equals every number, so it chains any two of them.
  lemma NaNEqualsEveryNumber(fl: Floats, v: Val)
    requires v.Int? || v.Float?
    ensures Compare(fl, v, Eq, Float(NaN)) && Compare(fl, Float(NaN), Eq, v)
  {
  }

  // Floats meet texts by what they print, and then cycle as integers do.
  lemma FloatsAndTextCycle(fl: Floats)
    requires fl.show(Finite(9.0)) == "9" && fl.show(Finite(10.0)) == "10"
    ensures Compare(fl, Float(Finite(9.0)), Lt, Float(Finite(10.0))) &&
            Compare(fl, Float(Finite(10.0)), Lt, Text("1a")) && Compare(fl, Text("1a"), Lt, Float(Finite(9.0)))
  {
    assert "10"[1..] == "0" && "1a"[1..] == "a";
    assert Text.Less("10", "1a") && Text.Less("1a", "9");
  }

  // A stored 64-bit integer is read back as that integer.
  lemma IntegersReadBack(fl: Floats, i: int)
    requires I64_MIN <= i < 0x8000_0000_0000_0000
    ensures ParseValue(fl, ShowInt(i)) == Int(i)
  {
    var n: nat := if i < 0 then -i else i;
    DecimalValue(n);
    ParseDecimal(n, 0x8000_0000_0000_0000);
    assert i < 0 ==> ShowInt(i)[1..] == Decimal(n);
    assert i >= 0 ==> IsDigit(ShowInt(i)[0]);
  }

  // ------------------------------------------------------------------------
  // Expressions
  // ------------------------------------------------------------------------

  datatype BinaryOperator = And | Or | Cmp(op: Comparison) | OtherBinary

  datatype UnaryOperator = Not | Minus | Plus | OtherUnary

  datatype Literal = Number(text: string) | StringLit(text: string) | Boolean(b: bool) | NullLit | OtherLit

  datatype Expr =
    | Identifier(name: string)
    | CompoundIdentifier(parts: seq<string>)
    | Value(lit: Literal)
    | Nested(inner: Expr)
    | Unary(uop: UnaryOperator, operand: Expr)
    | Binary(left: Expr, bop: BinaryOperator, right: Expr)
    | IsNull(subject: Expr)
    | IsNotNull(subject: Expr)
    | Between(negated: bool, subject: Expr, low: Expr, high: Expr)
    | InList(negated: bool, subject: Expr, list: seq<Expr>)
    | LikePattern(negated: bool, subject: Expr, pattern: Expr)
    | OtherExpr

  datatype Row = Row(key: string, data: map<string, string>)

  datatype ExecError = Unsupported

  function ColumnValue(fl: Floats, row: Row, name: string): Val {
    if name == "_key" then Text(row.key)
    else if name in row.data then ParseValue(fl, row.data[name])
    else Null
  }

  function LiteralValue(fl: Floats, lit: Literal): Val {
    match lit
    case Number(n) =>
      if ParseInt(n).Some? then Int(ParseInt(n).value)
      else if fl.parse(n).Some? then Float(fl.parse(n).value)
      else Text(n)
    case StringLit(s) => Text(s)
    case Boolean(b) => Bool(b)
    case NullLit => Null
    case OtherLit => Null
  }

  function EvalValue(fl: Floats, e: Expr, row: Row): Val {
    match e
    case Identifier(name) => ColumnValue(fl, row, name)
    case CompoundIdentifier(parts) =>
      ColumnValue(fl, row, if parts == [] then "" else parts[|parts| - 1])
    case Value(lit) => LiteralValue(fl, lit)
    case Nested(inner) => EvalValue(fl, inner, row)
    case Unary(Minus, operand) =>
      (match EvalValue(fl, operand, row)
       case Int(i) => Int(NegateInt(i))
       case Float(f) => Float(NegateFloat(f))
       case _ => Null)
    case Unary(Plus, operand) => EvalValue(fl, operand, row)
    case _ => Null
  }

  predicate LikeMatch(fl: Floats, v: Val, p: Val) {
    Like.GlobLike(ShowValue(fl, v), ShowValue(fl, p))
  }

  // The evaluator, with its short circuits and its errors.
  function EvalPredicate(fl: Floats, e: Expr, row: Row): Result<bool, ExecError> {
    match e
    case Binary(left, And, right) =>
      var l := EvalPredicate(fl, left, row);
      if l.Err? || !l.value then l else EvalPredicate(fl, right, row)
    case Binary(left, Or, right) =>
      var l := EvalPredicate(fl, left, row);
      if l.Err? || l.value then l else EvalPredicate(fl, right, row)
    case Binary(left, Cmp(op), right) =>
      Ok(Compare(fl, EvalValue(fl, left, row), op, EvalValue(fl, right, row)))
    case Binary(_, OtherBinary, _) => Err(Unsupported)
    case Unary(Not, operand) =>
      var r := EvalPredicate(fl, operand, row);
      if r.Err? then r else Ok(!r.value)
    case IsNull(subject) => Ok(EvalValue(fl, subject, row).Null?)
    case IsNotNull(subject) => Ok(!EvalValue(fl, subject, row).Null?)
    case Between(negated, subject, low, high) =>
      var v := EvalValue(fl, subject, row);
      var r := Compare(fl, v, GtEq, EvalValue(fl, low, row)) && Compare(fl, v, LtEq, EvalValue(fl, high, row));
      Ok(r != negated)
    case InList(negated, subject, list) =>
      var v := EvalValue(fl, subject, row);
      var r := exists i :: 0 <= i < |list| && Compare(fl, v, Eq, EvalValue(fl, list[i], row));
      Ok(r != negated)
    case LikePattern(negated, subject, pattern) =>
      Ok(LikeMatch(fl, EvalValue(fl, subject, row), EvalValue(fl, pattern, row)) != negated)
    case Nested(inner) => EvalPredicate(fl, inner, row)
    case _ => Ok(Truthy(EvalValue(fl, e, row)))
  }

  // A row passes when the evaluation succeeds with true.
  predicate Passes(fl: Floats, e: Expr, row: Row) {
    EvalPredicate(fl, e, row) == Ok(true)
  }
}
