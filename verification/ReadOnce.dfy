/**
 Which predicates the WHERE evaluator gets right on every row. For conditions that read each column
 in one atom only, these are exactly the ones in which every atom that can be unknown is answered,
 when it is, the way that rejects the row.
 */
module ReadOnce {
  import opened Wrappers
  import opened Predicate
  import opened ThreeValued
  import Like
  import opened Text

  // ------------------------------------------------------------------------
  // The columns a condition reads
  // ------------------------------------------------------------------------

  // The column a value is computed from, if any.
  ghost function ReadBy(e: Expr): set<string> {
    match e
    case Identifier(name) => {name}
    case CompoundIdentifier(parts) => {if parts == [] then "" else parts[|parts| - 1]}
    case Nested(inner) => ReadBy(inner)
    case Unary(Minus, operand) => ReadBy(operand)
    case Unary(Plus, operand) => ReadBy(operand)
    case _ => {}
  }

  ghost function ReadByAll(list: seq<Expr>): set<string> {
    set i, c | 0 <= i < |list| && c in ReadBy(list[i]) :: c
  }

  ghost function AtomColumns(e: Expr): set<string> {
    match e
    case Binary(left, _, right) => ReadBy(left) + ReadBy(right)
    case IsNull(subject) => ReadBy(subject)
    case IsNotNull(subject) => ReadBy(subject)
    case Between(_, subject, low, high) => ReadBy(subject) + ReadBy(low) + ReadBy(high)
    case InList(_, subject, list) => ReadBy(subject) + ReadByAll(list)
    case LikePattern(_, subject, pattern) => ReadBy(subject) + ReadBy(pattern)
    case _ => ReadBy(e)
  }

  ghost function Columns(e: Expr): set<string> {
    match e
    case Binary(left, And, right) => Columns(left) + Columns(right)
    case Binary(left, Or, right) => Columns(left) + Columns(right)
    case Unary(Not, operand) => Columns(operand)
    case Nested(inner) => Columns(inner)
    case _ => AtomColumns(e)
  }

  ghost predicate SameOn(columns: set<string>, row: Row, row': Row) {
    "_key" !in columns &&
    forall c :: c in columns ==>
      (c in row.data <==> c in row'.data) && (c in row.data && c in row'.data ==> row.data[c] == row'.data[c])
  }

  lemma {:induction false} SameValue(fl: Floats, e: Expr, row: Row, row': Row)
    requires SameOn(ReadBy(e), row, row')
    ensures EvalValue(fl, e, row) == EvalValue(fl, e, row')
  {
    match e
    case Identifier(name) => assert name in ReadBy(e);
    case CompoundIdentifier(parts) => assert (if parts == [] then "" else parts[|parts| - 1]) in ReadBy(e);
    case Nested(inner) => SameValue(fl, inner, row, row');
    case Unary(uop, operand) =>
      if uop.Minus? || uop.Plus? {
        SameValue(fl, operand, row, row');
      }
    case _ =>
  }

  lemma SameValues(fl: Floats, list: seq<Expr>, row: Row, row': Row)
    requires SameOn(ReadByAll(list), row, row')
    ensures forall i :: 0 <= i < |list| ==> EvalValue(fl, list[i], row) == EvalValue(fl, list[i], row')
  {
    forall i | 0 <= i < |list|
      ensures EvalValue(fl, list[i], row) == EvalValue(fl, list[i], row')
    {
      assert forall c :: c in ReadBy(list[i]) ==> c in ReadByAll(list);
      SameValue(fl, list[i], row, row');
    }
  }

  ghost predicate SameAnswers(fl: Floats, e: Expr, row: Row, row': Row) {
    EvalPredicate(fl, e, row) == EvalPredicate(fl, e, row') && Meaning(fl, e, row) == Meaning(fl, e, row')
  }

  lemma SameInList(fl: Floats, e: Expr, row: Row, row': Row)
    requires e.InList? && SameOn(AtomColumns(e), row, row')
    ensures SameAnswers(fl, e, row, row')
  {
    SameValue(fl, e.subject, row, row');
    SameValues(fl, e.list, row, row');
  }

  lemma SameAtom(fl: Floats, e: Expr, row: Row, row': Row)
    requires !IsConnective(e) && SameOn(AtomColumns(e), row, row')
    ensures SameAnswers(fl, e, row, row')
  {
    match e
    case Binary(left, _, right) =>
      SameValue(fl, left, row, row');
      SameValue(fl, right, row, row');
    case IsNull(subject) => SameValue(fl, subject, row, row');
    case IsNotNull(subject) => SameValue(fl, subject, row, row');
    case Between(_, subject, low, high) =>
      SameValue(fl, subject, row, row');
      SameValue(fl, low, row, row');
      SameValue(fl, high, row, row');
    case InList(_, _, _) => SameInList(fl, e, row, row');
    case LikePattern(_, subject, pattern) =>
      SameValue(fl, subject, row, row');
      SameValue(fl, pattern, row, row');
    case _ => SameValue(fl, e, row, row');
  }

  // Rows that agree on the columns a condition reads get the same answers.
  lemma {:induction false} OnlyColumnsMatter(fl: Floats, e: Expr, row: Row, row': Row)
    requires SameOn(Columns(e), row, row')
    ensures SameAnswers(fl, e, row, row')
  {
    if !IsConnective(e) {
      SameAtom(fl, e, row, row');
    } else if e.Nested? {
      OnlyColumnsMatter(fl, e.inner, row, row');
    } else if e.Unary? {
      OnlyColumnsMatter(fl, e.operand, row, row');
    } else {
      OnlyColumnsMatter(fl, e.left, row, row');
      OnlyColumnsMatter(fl, e.right, row, row');
    }
  }

  // ------------------------------------------------------------------------
  // Tests
  // ------------------------------------------------------------------------

  const BLANK := Row("", map[])

  // An atom that some row makes true and some row makes false: a comparison, BETWEEN, IN, IS NULL,
  // a bare value, or LIKE with subject and pattern not read from the same column.
  ghost predicate IsTest(fl: Floats, e: Expr) {
    !IsConnective(e) && Supported(e) && "_key" !in AtomColumns(e) &&
    (e.LikePattern? ==> ReadBy(e.subject) !! ReadBy(e.pattern)) &&
    (exists row :: Meaning(fl, e, row) == True) && (exists row :: Meaning(fl, e, row) == False)
  }

  predicate NeverUnknown(e: Expr) {
    e.IsNull? || e.IsNotNull?
  }

  // The text of a value on the blank row, which is its text on every row if it reads no column.
  function FixedText(fl: Floats, x: Expr): string {
    ShowValue(fl, EvalValue(fl, x, BLANK))
  }

  // What the evaluator may answer when a test is unknown: the test's own NOT, as every comparison
  // with a null is false. LIKE takes a null for the empty text. With a fixed pattern or a fixed
  // subject it is the other way round if that is empty, and with neither fixed both answers occur.
  ghost predicate MayAnswer(fl: Floats, e: Expr, answer: bool) {
    match e
    case IsNull(_) => false
    case IsNotNull(_) => false
    case Between(negated, _, _, _) => answer == negated
    case InList(negated, _, _) => answer == negated
    case LikePattern(negated, subject, pattern) =>
      if ReadBy(pattern) == {} then answer == (negated != (FixedText(fl, pattern) == ""))
      else if ReadBy(subject) == {} then answer == (negated != (FixedText(fl, subject) == ""))
      else true
    case _ => answer == false
  }

  // A stored integer that makes a comparison with i come out as wanted.
  function Witness(op: Comparison, i: int, wanted: bool): int {
    match op
    case Eq => if wanted then i else i + 1
    case NotEq => if wanted then i + 1 else i
    case Lt => if wanted then i - 1 else i
    case LtEq => if wanted then i else i + 1
    case Gt => if wanted then i + 1 else i
    case GtEq => if wanted then i else i - 1
  }

  lemma WitnessIsRelated(fl: Floats, op: Comparison, i: int, wanted: bool)
    ensures CompareTruth(fl, Int(Witness(op, i, wanted)), op, Int(i)) == FromBool(wanted)
  {
  }

  lemma WitnessComesOut(fl: Floats, c: string, op: Comparison, n: string, i: int, wanted: bool)
    requires c != "_key" && ParseInt(n) == Some(i) && I64_MIN < i < 0x7FFF_FFFF_FFFF_FFFF
    ensures Meaning(fl, Binary(Identifier(c), Cmp(op), Value(Number(n))),
                    Row("", map[c := ShowInt(Witness(op, i, wanted))])) == FromBool(wanted)
  {
    var w := Witness(op, i, wanted);
    var row := Row("", map[c := ShowInt(w)]);
    IntegersReadBack(fl, w);
    WitnessIsRelated(fl, op, i, wanted);
    assert EvalValue(fl, Identifier(c), row) == Int(w);
    assert EvalValue(fl, Value(Number(n)), row) == Int(i);
    assert Meaning(fl, Binary(Identifier(c), Cmp(op), Value(Number(n))), row) == CompareTruth(fl, Int(w), op, Int(i));
  }

  // Comparing a column with an integer is a test, whatever the operator and the integer.
  lemma ComparisonIsTest(fl: Floats, c: string, op: Comparison, n: string, i: int)
    requires c != "_key" && ParseInt(n) == Some(i) && I64_MIN < i < 0x7FFF_FFFF_FFFF_FFFF
    ensures IsTest(fl, Binary(Identifier(c), Cmp(op), Value(Number(n))))
  {
    WitnessComesOut(fl, c, op, n, i, true);
    WitnessComesOut(fl, c, op, n, i, false);
  }

  // A value that is read from a column is null on the blank row.
  lemma {:induction false} BlankValue(fl: Floats, e: Expr)
    requires "_key" !in ReadBy(e)
    ensures ReadBy(e) != {} ==> EvalValue(fl, e, BLANK).Null?
  {
    match e
    case Identifier(name) => assert name in ReadBy(e);
    case CompoundIdentifier(parts) => assert (if parts == [] then "" else parts[|parts| - 1]) in ReadBy(e);
    case Nested(inner) => BlankValue(fl, inner);
    case Unary(uop, operand) =>
      if uop.Minus? || uop.Plus? {
        BlankValue(fl, operand);
      }
    case _ =>
  }

  // On the blank row a value is null or what it is on every row.
  lemma NullOrFixed(fl: Floats, e: Expr, row: Row)
    requires "_key" !in ReadBy(e)
    ensures EvalValue(fl, e, BLANK).Null? || EvalValue(fl, e, BLANK) == EvalValue(fl, e, row)
  {
    BlankValue(fl, e);
    if ReadBy(e) == {} {
      SameValue(fl, e, BLANK, row);
    }
  }

  lemma NullOrFixedAll(fl: Floats, list: seq<Expr>, row: Row)
    requires "_key" !in ReadByAll(list)
    ensures forall i :: 0 <= i < |list| ==>
              EvalValue(fl, list[i], BLANK).Null? || EvalValue(fl, list[i], BLANK) == EvalValue(fl, list[i], row)
  {
    forall i | 0 <= i < |list|
      ensures EvalValue(fl, list[i], BLANK).Null? || EvalValue(fl, list[i], BLANK) == EvalValue(fl, list[i], row)
    {
      assert "_key" in ReadBy(list[i]) ==> "_key" in ReadByAll(list);
      NullOrFixed(fl, list[i], row);
    }
  }

  lemma InListOnBlank(fl: Floats, e: Expr, row: Row)
    requires e.InList? && "_key" !in AtomColumns(e)
    ensures Meaning(fl, e, BLANK) == Unknown || Meaning(fl, e, BLANK) == Meaning(fl, e, row)
  {
    NullOrFixed(fl, e.subject, row);
    NullOrFixedAll(fl, e.list, row);
    var v, v' := EvalValue(fl, e.subject, BLANK), EvalValue(fl, e.subject, row);
    forall i | 0 <= i < |e.list|
      ensures var c := CompareTruth(fl, v, Eq, EvalValue(fl, e.list[i], BLANK));
              c == Unknown || c == CompareTruth(fl, v', Eq, EvalValue(fl, e.list[i], row))
    {
    }
    if SomeEqual(fl, v, e.list, Reader(fl, BLANK)) == True {
      var i :| 0 <= i < |e.list| && CompareTruth(fl, v, Eq, EvalValue(fl, e.list[i], BLANK)) == True;
      assert CompareTruth(fl, v', Eq, EvalValue(fl, e.list[i], row)) == True;
    }
  }

  // On the blank row a test is unknown, or true and false alike on every row.
  lemma AtomOnBlank(fl: Floats, e: Expr, row: Row)
    requires !IsConnective(e) && Supported(e) && !NeverUnknown(e) && "_key" !in AtomColumns(e)
    ensures Meaning(fl, e, BLANK) == Unknown || Meaning(fl, e, BLANK) == Meaning(fl, e, row)
  {
    match e
    case Binary(left, _, right) =>
      NullOrFixed(fl, left, row);
      NullOrFixed(fl, right, row);
    case Between(_, subject, low, high) =>
      NullOrFixed(fl, subject, row);
      NullOrFixed(fl, low, row);
      NullOrFixed(fl, high, row);
    case InList(_, _, _) => InListOnBlank(fl, e, row);
    case LikePattern(_, subject, pattern) =>
      NullOrFixed(fl, subject, row);
      NullOrFixed(fl, pattern, row);
    case _ => NullOrFixed(fl, e, row);
  }

  lemma TestUnknownOnBlank(fl: Floats, e: Expr)
    requires IsTest(fl, e) && !NeverUnknown(e)
    ensures Meaning(fl, e, BLANK) == Unknown
  {
    var yes :| Meaning(fl, e, yes) == True;
    var no :| Meaning(fl, e, no) == False;
    AtomOnBlank(fl, e, yes);
    AtomOnBlank(fl, e, no);
  }

  lemma {:induction false} OnlyPercentMatchesAll(t: string, ti: nat, p: string, pi: nat)
    requires ti <= |t| && pi <= |p| && OnlyPercent(p[pi..]) && (pi < |p| || ti == |t|)
    ensures Like.GlobLikeChars(t, ti, p, pi)
    decreases |p| - pi
  {
    if pi < |p| {
      assert p[pi..][0] == p[pi] && p[pi..][1..] == p[pi + 1..];
      OnlyPercentMatchesAll(t, |t|, p, pi + 1);
    }
  }

  // LIKE with percent signs only matches everything, so it is no test.
  lemma PercentIsNoTest(fl: Floats, e: Expr, row: Row)
    requires e.LikePattern? && ReadBy(e.pattern) == {} && Meaning(fl, e, row) == FromBool(e.negated)
    ensures OnlyPercent(FixedText(fl, e.pattern)) ==> FixedText(fl, e.pattern) == ""
  {
    SameValue(fl, e.pattern, row, BLANK);
    var t, p := ShowValue(fl, EvalValue(fl, e.subject, row)), FixedText(fl, e.pattern);
    Like.GlobLikeIsLike(t, p);
    assert !Like.GlobLike(t, p);
    assert p[0..] == p;
    if OnlyPercent(p) && p != "" {
      OnlyPercentMatchesAll(t, 0, p, 0);
    }
  }

  lemma FixedPatternFalls(fl: Floats, e: Expr, row: Row)
    requires IsTest(fl, e) && e.LikePattern? && ReadBy(e.pattern) == {} && Meaning(fl, e, row) == Unknown
    ensures EvalPredicate(fl, e, row) == Ok(e.negated != (FixedText(fl, e.pattern) == ""))
  {
    var unmatched :| Meaning(fl, e, unmatched) == FromBool(e.negated);
    PercentIsNoTest(fl, e, unmatched);
    SameValue(fl, e.pattern, row, BLANK);
    SameValue(fl, e.pattern, unmatched, BLANK);
    var p := FixedText(fl, e.pattern);
    EmptyTextLike(p, 0);
    assert p[0..] == p;
    assert EvalValue(fl, e.subject, row).Null?;
  }

  lemma FixedSubjectFalls(fl: Floats, e: Expr, row: Row)
    requires IsTest(fl, e) && e.LikePattern? && ReadBy(e.subject) == {} && Meaning(fl, e, row) == Unknown
    ensures EvalPredicate(fl, e, row) == Ok(e.negated != (FixedText(fl, e.subject) == ""))
  {
    var known :| Meaning(fl, e, known) == True;
    SameValue(fl, e.subject, row, BLANK);
    SameValue(fl, e.subject, known, BLANK);
    assert EvalValue(fl, e.pattern, row).Null?;
  }

  // A comparison with a null is false, so an unknown atom other than LIKE gets the answer of its NOT.
  lemma OthersFall(fl: Floats, e: Expr, row: Row)
    requires !IsConnective(e) && Supported(e) && !e.LikePattern? && Meaning(fl, e, row) == Unknown
    ensures EvalPredicate(fl, e, row).Ok? && MayAnswer(fl, e, EvalPredicate(fl, e, row).value)
  {
    match e
    case Binary(_, _, _) => ComparisonAgrees(fl, e, row);
    case Between(_, _, _, _) => BetweenAgrees(fl, e, row);
    case InList(_, _, _) => InListAgrees(fl, e, row);
    case _ => OtherAtomAgrees(fl, e, row);
  }

  // On every row an unknown test gets an answer it may get.
  lemma TestFalls(fl: Floats, e: Expr, row: Row)
    requires IsTest(fl, e) && Meaning(fl, e, row) == Unknown
    ensures EvalPredicate(fl, e, row).Ok? && MayAnswer(fl, e, EvalPredicate(fl, e, row).value)
  {
    if !e.LikePattern? {
      OthersFall(fl, e, row);
    } else if ReadBy(e.pattern) == {} {
      FixedPatternFalls(fl, e, row);
    } else if ReadBy(e.subject) == {} {
      FixedSubjectFalls(fl, e, row);
    }
  }

  // A value read from a column that stores 1 is 1 or -1.
  lemma {:induction false} SignedOne(fl: Floats, x: Expr, c: string)
    requires c in ReadBy(x) && c != "_key"
    ensures var v := EvalValue(fl, x, Row("", map[c := "1"])); v == Int(1) || v == Int(-1)
  {
    assert ShowInt(1) == "1";
    IntegersReadBack(fl, 1);
    if x.Nested? {
      SignedOne(fl, x.inner, c);
    } else if x.Unary? {
      SignedOne(fl, x.operand, c);
    }
  }

  // A null is not like the pattern 1 or -1.
  lemma NullAgainstOne(fl: Floats, e: Expr, c: string)
    requires e.LikePattern? && "_key" !in AtomColumns(e) && c in ReadBy(e.pattern)
    requires ReadBy(e.subject) != {} && c !in ReadBy(e.subject)
    ensures Exposes(fl, e, e.negated, Row("", map[c := "1"]))
  {
    var row := Row("", map[c := "1"]);
    SameValue(fl, e.subject, row, BLANK);
    BlankValue(fl, e.subject);
    SignedOne(fl, e.pattern, c);
    var p := ShowValue(fl, EvalValue(fl, e.pattern, row));
    assert Decimal(1) == "1" && p[|p| - 1] == '1';
    EmptyTextLike(p, 0);
    assert p[0..] == p;
  }

  // Every answer an unknown test may get, it does get on some row.
  lemma TestIsExposed(fl: Floats, e: Expr, answer: bool) returns (row: Row)
    requires IsTest(fl, e) && MayAnswer(fl, e, answer)
    ensures Exposes(fl, e, answer, row)
  {
    row := BLANK;
    TestUnknownOnBlank(fl, e);
    TestFalls(fl, e, BLANK);
    AtomIsLeaf(e);
    if e.LikePattern? && ReadBy(e.pattern) != {} && ReadBy(e.subject) != {} {
      if answer == e.negated {
        var c :| c in ReadBy(e.pattern);
        NullAgainstOne(fl, e, c);
        row := Row("", map[c := "1"]);
      } else {
        BlankValue(fl, e.subject);
        BlankValue(fl, e.pattern);
        assert Like.GlobLike("", "");
      }
    }
  }

  // ------------------------------------------------------------------------
  // Conditions
  // ------------------------------------------------------------------------

  // AND, OR, NOT and parentheses over tests, no column read by two of them.
  ghost predicate ReadsOnce(fl: Floats, e: Expr) {
    match e
    case Binary(left, And, right) => ReadsOnce(fl, left) && ReadsOnce(fl, right) && Columns(left) !! Columns(right)
    case Binary(left, Or, right) => ReadsOnce(fl, left) && ReadsOnce(fl, right) && Columns(left) !! Columns(right)
    case Unary(Not, operand) => ReadsOnce(fl, operand)
    case Nested(inner) => ReadsOnce(fl, inner)
    case _ => IsTest(fl, e)
  }

  // No unknown test may be answered the way that lets the row pass: true under an even number of
  // NOTs, false under an odd number.
  ghost predicate Upright(fl: Floats, e: Expr, positive: bool) {
    match e
    case Binary(left, And, right) => Upright(fl, left, positive) && Upright(fl, right, positive)
    case Binary(left, Or, right) => Upright(fl, left, positive) && Upright(fl, right, positive)
    case Unary(Not, operand) => Upright(fl, operand, !positive)
    case Nested(inner) => Upright(fl, inner, positive)
    case _ => !MayAnswer(fl, e, positive)
  }

  lemma {:induction false} ReadsOnceIsSupported(fl: Floats, e: Expr)
    requires ReadsOnce(fl, e)
    ensures Supported(e) && "_key" !in Columns(e)
  {
    if e.Nested? {
      ReadsOnceIsSupported(fl, e.inner);
    } else if IsConnective(e) && e.Unary? {
      ReadsOnceIsSupported(fl, e.operand);
    } else if IsConnective(e) {
      ReadsOnceIsSupported(fl, e.left);
      ReadsOnceIsSupported(fl, e.right);
    }
  }

  // ------------------------------------------------------------------------
  // Rows that force an answer
  // ------------------------------------------------------------------------

  function Restrict(row: Row, columns: set<string>): (r: Row)
    ensures r.data.Keys <= columns
  {
    Row("", map c | c in row.data && c in columns :: row.data[c])
  }

  function Join(row: Row, row': Row): Row {
    Row("", row.data + row'.data)
  }

  lemma SidesSame(cl: set<string>, cr: set<string>, a: Row, b: Row)
    requires cl !! cr && a.data.Keys <= cl && b.data.Keys <= cr && "_key" !in cl && "_key" !in cr
    ensures SameOn(cl, Join(a, b), a) && SameOn(cr, Join(a, b), b)
  {
  }

  // A row that reads only the columns of e and makes it come out as wanted.
  ghost predicate Forces(fl: Floats, e: Expr, wanted: bool, row: Row) {
    row.data.Keys <= Columns(e) && Meaning(fl, e, row) == FromBool(wanted) &&
    EvalPredicate(fl, e, row) == Ok(wanted)
  }

  lemma ForceAtom(fl: Floats, e: Expr, wanted: bool, found: Row)
    requires !IsConnective(e) && Supported(e) && "_key" !in AtomColumns(e)
    requires Meaning(fl, e, found) == FromBool(wanted)
    ensures Forces(fl, e, wanted, Restrict(found, AtomColumns(e)))
  {
    var row := Restrict(found, AtomColumns(e));
    SameAtom(fl, e, row, found);
    SupportedSucceeds(fl, e, row);
    DefiniteAgrees(fl, e, row);
    AtomIsLeaf(e);
  }

  lemma AtomIsLeaf(e: Expr)
    requires !IsConnective(e)
    ensures Columns(e) == AtomColumns(e)
  {
  }

  lemma ForceTest(fl: Floats, e: Expr, wanted: bool) returns (row: Row)
    requires IsTest(fl, e)
    ensures Forces(fl, e, wanted, row)
  {
    var found :| Meaning(fl, e, found) == FromBool(wanted);
    row := Restrict(found, AtomColumns(e));
    ForceAtom(fl, e, wanted, found);
  }

  lemma ForceBoth(fl: Floats, e: Expr, wanted: bool, a: Row, b: Row)
    requires e.Binary? && IsConnective(e) && ReadsOnce(fl, e)
    requires Forces(fl, e.left, wanted, a) && Forces(fl, e.right, wanted, b)
    ensures Forces(fl, e, wanted, Join(a, b))
  {
    ReadsOnceIsSupported(fl, e);
    SidesSame(Columns(e.left), Columns(e.right), a, b);
    OnlyColumnsMatter(fl, e.left, Join(a, b), a);
    OnlyColumnsMatter(fl, e.right, Join(a, b), b);
  }

  lemma {:induction false} CanForce(fl: Floats, e: Expr, wanted: bool) returns (row: Row)
    requires ReadsOnce(fl, e)
    ensures Forces(fl, e, wanted, row)
  {
    if !IsConnective(e) {
      row := ForceTest(fl, e, wanted);
    } else if e.Nested? {
      row := CanForce(fl, e.inner, wanted);
    } else if e.Unary? {
      row := CanForce(fl, e.operand, !wanted);
    } else {
      var a := CanForce(fl, e.left, wanted);
      var b := CanForce(fl, e.right, wanted);
      ForceBoth(fl, e, wanted, a, b);
      row := Join(a, b);
    }
  }

  // ------------------------------------------------------------------------
  // Rows that are answered wrongly
  // ------------------------------------------------------------------------

  // On this row e is unknown and yet evaluates to the given side.
  ghost predicate Exposes(fl: Floats, e: Expr, side: bool, row: Row) {
    row.data.Keys <= Columns(e) && Meaning(fl, e, row) == Unknown && EvalPredicate(fl, e, row) == Ok(side)
  }

  // An exposed half stays exposed when the other half is forced neutral.
  lemma ExposeHalf(fl: Floats, e: Expr, exposed: Expr, other: Expr, side: bool, a: Row, b: Row)
    requires e.Binary? && IsConnective(e) && ReadsOnce(fl, e)
    requires (exposed == e.left && other == e.right) || (exposed == e.right && other == e.left)
    requires Exposes(fl, exposed, side, a) && Forces(fl, other, e.bop.And?, b)
    ensures Exposes(fl, e, side, Join(a, b))
  {
    ReadsOnceIsSupported(fl, e);
    SidesSame(Columns(exposed), Columns(other), a, b);
    OnlyColumnsMatter(fl, exposed, Join(a, b), a);
    OnlyColumnsMatter(fl, other, Join(a, b), b);
  }

  lemma {:induction false} NegatedIsExposed(fl: Floats, e: Expr, side: bool) returns (row: Row)
    requires ReadsOnce(fl, e) && !Upright(fl, e, side)
    ensures Exposes(fl, e, side, row)
  {
    if !IsConnective(e) {
      row := TestIsExposed(fl, e, side);
    } else if e.Nested? {
      row := NegatedIsExposed(fl, e.inner, side);
    } else if e.Unary? {
      row := NegatedIsExposed(fl, e.operand, !side);
    } else {
      var exposed, other := e.left, e.right;
      if Upright(fl, e.left, side) {
        exposed, other := e.right, e.left;
      }
      var a := NegatedIsExposed(fl, exposed, side);
      var b := CanForce(fl, other, e.bop.And?);
      ExposeHalf(fl, e, exposed, other, side, a, b);
      row := Join(a, b);
    }
  }

  // ------------------------------------------------------------------------
  // The exact condition
  // ------------------------------------------------------------------------

  ghost predicate ExactOn(fl: Floats, e: Expr, row: Row) {
    Passes(fl, e, row) <==> Meaning(fl, e, row) == True
  }

  lemma {:induction false} UprightIsTrusted(fl: Floats, e: Expr, row: Row, positive: bool)
    requires ReadsOnce(fl, e) && Upright(fl, e, positive)
    ensures Trusted(fl, e, row, positive)
  {
    if !IsConnective(e) {
      if Meaning(fl, e, row) == Unknown {
        TestFalls(fl, e, row);
      }
    } else if e.Nested? {
      UprightIsTrusted(fl, e.inner, row, positive);
    } else if e.Unary? {
      UprightIsTrusted(fl, e.operand, row, !positive);
    } else {
      UprightIsTrusted(fl, e.left, row, positive);
      UprightIsTrusted(fl, e.right, row, positive);
    }
  }

  // A condition whose tests read distinct columns passes exactly its true rows, on every row, if
  // and only if every test is upright.
  lemma ExactIffUpright(fl: Floats, e: Expr)
    requires ReadsOnce(fl, e)
    ensures (forall row :: ExactOn(fl, e, row)) <==> Upright(fl, e, true)
  {
    ReadsOnceIsSupported(fl, e);
    if Upright(fl, e, true) {
      forall row
        ensures ExactOn(fl, e, row)
      {
        UprightIsTrusted(fl, e, row, true);
        TrustedIsExact(fl, e, row);
      }
    } else {
      var row := NegatedIsExposed(fl, e, true);
      assert !ExactOn(fl, e, row);
    }
  }
}
