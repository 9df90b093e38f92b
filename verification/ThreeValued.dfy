/**
 The WHERE evaluator against SQL's three-valued logic (SQL-92 section 8.12): where the two-valued
 answer is right and where it is not, row by row.
 */
module ThreeValued {
  import opened Wrappers
  import opened Predicate
  import Like

  // ------------------------------------------------------------------------
  // Search conditions in SQL-92
  // ------------------------------------------------------------------------

  datatype Truth = True | False | Unknown

  function FromBool(b: bool): Truth {
    if b then True else False
  }

  function And3(a: Truth, b: Truth): Truth {
    if a == False || b == False then False else if a == True && b == True then True else Unknown
  }

  function Or3(a: Truth, b: Truth): Truth {
    if a == True || b == True then True else if a == False && b == False then False else Unknown
  }

  function Not3(a: Truth): Truth {
    match a
    case True => False
    case False => True
    case Unknown => Unknown
  }

  function NotIf(negated: bool, a: Truth): Truth {
    if negated then Not3(a) else a
  }

  // The connectives are those of Kleene: the result is definite exactly when every way to settle the
  // unknown operands gives it.
  ghost predicate Settles(a: Truth, x: bool) {
    a == Unknown || a == FromBool(x)
  }

  lemma ConnectivesAreKleene(a: Truth, b: Truth, x: bool)
    ensures And3(a, b) == FromBool(x) <==> forall p, q :: Settles(a, p) && Settles(b, q) ==> (p && q) == x
    ensures Or3(a, b) == FromBool(x) <==> forall p, q :: Settles(a, p) && Settles(b, q) ==> (p || q) == x
    ensures Not3(a) == FromBool(x) <==> forall p :: Settles(a, p) ==> !p == x
  {
    assert Settles(a, a == True) && Settles(b, b == True) && Settles(a, a != False) && Settles(b, b != False);
  }

  // Section 8.2: unknown when either operand is null.
  ghost function CompareTruth(fl: Floats, a: Val, op: Comparison, b: Val): Truth {
    if a.Null? || b.Null? then Unknown else FromBool(Related(fl, a, op, b))
  }

  // How the values in a condition are read on a row.
  type Reading = Expr -> Val

  // Sections 8.4 and 8.7: IN is = SOME over the list.
  ghost function SomeEqual(fl: Floats, v: Val, list: seq<Expr>, read: Reading): Truth {
    if exists i :: 0 <= i < |list| && CompareTruth(fl, v, Eq, read(list[i])) == True then True
    else if forall i :: 0 <= i < |list| ==> CompareTruth(fl, v, Eq, read(list[i])) == False then False
    else Unknown
  }

  // Section 8.5
  ghost function LikeTruth(fl: Floats, v: Val, p: Val): Truth {
    if v.Null? || p.Null? then Unknown else FromBool(Like.Matches(ShowValue(fl, v), ShowValue(fl, p)))
  }

  // What a search condition means, given the values in it. An unsupported operator means nothing
  // definite.
  ghost function MeaningUnder(fl: Floats, e: Expr, read: Reading): Truth {
    match e
    case Binary(left, And, right) => And3(MeaningUnder(fl, left, read), MeaningUnder(fl, right, read))
    case Binary(left, Or, right) => Or3(MeaningUnder(fl, left, read), MeaningUnder(fl, right, read))
    case Binary(left, Cmp(op), right) => CompareTruth(fl, read(left), op, read(right))
    case Binary(_, OtherBinary, _) => Unknown
    case Unary(Not, operand) => Not3(MeaningUnder(fl, operand, read))
    case IsNull(subject) => FromBool(read(subject).Null?)
    case IsNotNull(subject) => FromBool(!read(subject).Null?)
    case Between(negated, subject, low, high) =>
      NotIf(negated, And3(CompareTruth(fl, read(subject), GtEq, read(low)),
                          CompareTruth(fl, read(subject), LtEq, read(high))))
    case InList(negated, subject, list) => NotIf(negated, SomeEqual(fl, read(subject), list, read))
    case LikePattern(negated, subject, pattern) => NotIf(negated, LikeTruth(fl, read(subject), read(pattern)))
    case Nested(inner) => MeaningUnder(fl, inner, read)
    case _ => if read(e).Null? then Unknown else FromBool(Truthy(read(e)))
  }

  // The evaluator's own reading: a stored text that looks like a number is one, and an expression it
  // does not compute is null.
  ghost function Reader(fl: Floats, row: Row): Reading {
    (x: Expr) => EvalValue(fl, x, row)
  }

  // What a condition means on a row when its values are read as the evaluator reads them.
  ghost function Meaning(fl: Floats, e: Expr, row: Row): Truth {
    MeaningUnder(fl, e, Reader(fl, row))
  }

  // No operator the evaluator refuses.
  predicate Supported(e: Expr) {
    match e
    case Binary(left, And, right) => Supported(left) && Supported(right)
    case Binary(left, Or, right) => Supported(left) && Supported(right)
    case Binary(_, bop, _) => bop.Cmp?
    case Unary(Not, operand) => Supported(operand)
    case Nested(inner) => Supported(inner)
    case _ => true
  }

  lemma {:induction false} SupportedSucceeds(fl: Floats, e: Expr, row: Row)
    requires Supported(e)
    ensures EvalPredicate(fl, e, row).Ok?
  {
    match e
    case Binary(left, bop, right) =>
      if bop.And? || bop.Or? {
        SupportedSucceeds(fl, left, row);
        SupportedSucceeds(fl, right, row);
      }
    case Unary(uop, operand) =>
      if uop.Not? {
        SupportedSucceeds(fl, operand, row);
      }
    case Nested(inner) => SupportedSucceeds(fl, inner, row);
    case _ =>
  }

  // ------------------------------------------------------------------------
  // A definite truth value is the evaluator's answer
  // ------------------------------------------------------------------------

  predicate IsConnective(e: Expr) {
    e.Nested? || (e.Unary? && e.uop.Not?) || (e.Binary? && (e.bop.And? || e.bop.Or?))
  }

  // A comparison is unknown with a null, and else what the evaluator finds.
  lemma TruthOfCompare(fl: Floats, a: Val, op: Comparison, b: Val)
    ensures CompareTruth(fl, a, op, b) ==
            if a.Null? || b.Null? then Unknown else FromBool(Compare(fl, a, op, b))
    ensures a.Null? || b.Null? ==> !Compare(fl, a, op, b)
  {
    CompareIsRelated(fl, a, op, b);
  }

  lemma InListTruth(fl: Floats, v: Val, list: seq<Expr>, row: Row)
    ensures forall i :: 0 <= i < |list| ==>
              Compare(fl, v, Eq, EvalValue(fl, list[i], row)) ==
              (CompareTruth(fl, v, Eq, EvalValue(fl, list[i], row)) == True)
  {
    forall i | 0 <= i < |list|
      ensures Compare(fl, v, Eq, EvalValue(fl, list[i], row)) ==
              (CompareTruth(fl, v, Eq, EvalValue(fl, list[i], row)) == True)
    {
      TruthOfCompare(fl, v, Eq, EvalValue(fl, list[i], row));
    }
  }

  // What an IN list, and a comparison, BETWEEN or IN atom that is not definite, evaluates to.
  lemma InListAgrees(fl: Floats, e: Expr, row: Row)
    requires e.InList?
    ensures EvalPredicate(fl, e, row) ==
            Ok(if Meaning(fl, e, row) == Unknown then e.negated else Meaning(fl, e, row) == True)
  {
    InListTruth(fl, EvalValue(fl, e.subject, row), e.list, row);
  }

  lemma BetweenAgrees(fl: Floats, e: Expr, row: Row)
    requires e.Between?
    ensures EvalPredicate(fl, e, row) ==
            Ok(if Meaning(fl, e, row) == Unknown then e.negated else Meaning(fl, e, row) == True)
  {
    var v := EvalValue(fl, e.subject, row);
    TruthOfCompare(fl, v, GtEq, EvalValue(fl, e.low, row));
    TruthOfCompare(fl, v, LtEq, EvalValue(fl, e.high, row));
  }

  lemma ComparisonAgrees(fl: Floats, e: Expr, row: Row)
    requires e.Binary? && e.bop.Cmp?
    ensures EvalPredicate(fl, e, row) == Ok(Meaning(fl, e, row) == True)
  {
    TruthOfCompare(fl, EvalValue(fl, e.left, row), e.bop.op, EvalValue(fl, e.right, row));
  }

  // A bare value and a null test.
  lemma OtherAtomAgrees(fl: Floats, e: Expr, row: Row)
    requires !IsConnective(e) && !e.Binary? && !e.Between? && !e.InList? && !e.LikePattern?
    ensures EvalPredicate(fl, e, row) == Ok(Meaning(fl, e, row) == True)
  {
  }

  lemma AtomAgrees(fl: Floats, e: Expr, row: Row)
    requires !IsConnective(e) && EvalPredicate(fl, e, row).Ok? && Meaning(fl, e, row) != Unknown
    ensures EvalPredicate(fl, e, row) == Ok(Meaning(fl, e, row) == True)
  {
    match e
    case Binary(_, _, _) => ComparisonAgrees(fl, e, row);
    case Between(_, _, _, _) => BetweenAgrees(fl, e, row);
    case InList(_, _, _) => InListAgrees(fl, e, row);
    case LikePattern(_, subject, pattern) =>
      Like.GlobLikeIsLike(ShowValue(fl, EvalValue(fl, subject, row)), ShowValue(fl, EvalValue(fl, pattern, row)));
    case _ => OtherAtomAgrees(fl, e, row);
  }

  // Whenever the condition is definitely true or definitely false, the evaluator says the same.
  lemma {:induction false} DefiniteAgrees(fl: Floats, e: Expr, row: Row)
    requires EvalPredicate(fl, e, row).Ok? && Meaning(fl, e, row) != Unknown
    ensures EvalPredicate(fl, e, row) == Ok(Meaning(fl, e, row) == True)
  {
    if !IsConnective(e) {
      AtomAgrees(fl, e, row);
    } else if e.Nested? {
      DefiniteAgrees(fl, e.inner, row);
    } else if e.Unary? {
      DefiniteAgrees(fl, e.operand, row);
    } else {
      if Meaning(fl, e.left, row) != Unknown {
        DefiniteAgrees(fl, e.left, row);
      }
      if EvalPredicate(fl, e.right, row).Ok? && Meaning(fl, e.right, row) != Unknown {
        DefiniteAgrees(fl, e.right, row);
      }
    }
  }

  // ------------------------------------------------------------------------
  // Where an unknown condition falls
  // ------------------------------------------------------------------------

  // Every atom that is unknown on the row evaluates to the side that rejects the row: false under
  // an even number of NOTs, true under an odd number.
  ghost predicate Trusted(fl: Floats, e: Expr, row: Row, positive: bool) {
    match e
    case Binary(left, And, right) => Trusted(fl, left, row, positive) && Trusted(fl, right, row, positive)
    case Binary(left, Or, right) => Trusted(fl, left, row, positive) && Trusted(fl, right, row, positive)
    case Unary(Not, operand) => Trusted(fl, operand, row, !positive)
    case Nested(inner) => Trusted(fl, inner, row, positive)
    case _ => Meaning(fl, e, row) == Unknown ==> EvalPredicate(fl, e, row) != Ok(positive)
  }

  lemma {:induction false} UnknownRejects(fl: Floats, e: Expr, row: Row, positive: bool)
    requires EvalPredicate(fl, e, row).Ok? && Meaning(fl, e, row) == Unknown && Trusted(fl, e, row, positive)
    ensures EvalPredicate(fl, e, row) == Ok(!positive)
    decreases e, 0
  {
    if e.Nested? {
      UnknownRejects(fl, e.inner, row, positive);
    } else if e.Unary? && e.uop.Not? {
      UnknownRejects(fl, e.operand, row, !positive);
    } else if IsConnective(e) {
      SideOf(fl, e.left, row, positive);
      if EvalPredicate(fl, e.right, row).Ok? {
        SideOf(fl, e.right, row, positive);
      }
    }
  }

  lemma {:induction false} SideOf(fl: Floats, e: Expr, row: Row, positive: bool)
    requires EvalPredicate(fl, e, row).Ok? && Trusted(fl, e, row, positive)
    ensures EvalPredicate(fl, e, row) ==
            Ok(if Meaning(fl, e, row) == Unknown then !positive else Meaning(fl, e, row) == True)
    decreases e, 1
  {
    if Meaning(fl, e, row) == Unknown {
      UnknownRejects(fl, e, row, positive);
    } else {
      DefiniteAgrees(fl, e, row);
    }
  }

  // On such a row the predicate passes exactly when it is true.
  lemma TrustedIsExact(fl: Floats, e: Expr, row: Row)
    requires Supported(e) && Trusted(fl, e, row, true)
    ensures Passes(fl, e, row) <==> Meaning(fl, e, row) == True
  {
    SupportedSucceeds(fl, e, row);
    SideOf(fl, e, row, true);
  }

  // No NOT, no negated form, no LIKE.
  predicate Positive(e: Expr) {
    match e
    case Binary(left, And, right) => Positive(left) && Positive(right)
    case Binary(left, Or, right) => Positive(left) && Positive(right)
    case Unary(uop, _) => !uop.Not?
    case Between(negated, _, _, _) => !negated
    case InList(negated, _, _) => !negated
    case LikePattern(_, _, _) => false
    case Nested(inner) => Positive(inner)
    case _ => true
  }

  // An unknown atom without a NOT of its own evaluates to false, LIKE apart.
  lemma UnknownAtomIsFalse(fl: Floats, e: Expr, row: Row)
    requires !IsConnective(e) && Positive(e) && Meaning(fl, e, row) == Unknown
    ensures EvalPredicate(fl, e, row) != Ok(true)
  {
    match e
    case Binary(_, bop, _) =>
      if bop.Cmp? {
        ComparisonAgrees(fl, e, row);
      }
    case Between(_, _, _, _) => BetweenAgrees(fl, e, row);
    case InList(_, _, _) => InListAgrees(fl, e, row);
    case _ => OtherAtomAgrees(fl, e, row);
  }

  lemma {:induction false} PositiveIsTrusted(fl: Floats, e: Expr, row: Row)
    requires Positive(e)
    ensures Trusted(fl, e, row, true)
  {
    if e.Nested? {
      PositiveIsTrusted(fl, e.inner, row);
    } else if IsConnective(e) {
      PositiveIsTrusted(fl, e.left, row);
      PositiveIsTrusted(fl, e.right, row);
    } else if Meaning(fl, e, row) == Unknown {
      UnknownAtomIsFalse(fl, e, row);
    }
  }

  // Without NOT and LIKE a row passes exactly when the condition is true.
  lemma PositiveIsExact(fl: Floats, e: Expr, row: Row)
    requires Supported(e) && Positive(e)
    ensures Passes(fl, e, row) <==> Meaning(fl, e, row) == True
  {
    PositiveIsTrusted(fl, e, row);
    TrustedIsExact(fl, e, row);
  }

  // ------------------------------------------------------------------------
  // LIKE on nulls
  // ------------------------------------------------------------------------

  predicate OnlyPercent(p: string) {
    forall i :: 0 <= i < |p| ==> p[i] == '%'
  }

  lemma {:induction false} EmptyTextLike(p: string, pi: nat)
    requires pi <= |p|
    ensures Like.GlobLikeChars("", 0, p, pi) <==> OnlyPercent(p[pi..])
    decreases |p| - pi
  {
    if pi < |p| {
      EmptyTextLike(p, pi + 1);
      assert p[pi..] == [p[pi]] + p[pi + 1..];
    }
  }

  // A null is matched as the empty text. LIKE is exact when neither side is null; with a null it
  // is exact when the empty text decides the way that rejects the row.
  lemma LikeExactlyWhen(fl: Floats, e: Expr, row: Row)
    requires e.LikePattern?
    ensures var v, p := EvalValue(fl, e.subject, row), EvalValue(fl, e.pattern, row);
            (Passes(fl, e, row) <==> Meaning(fl, e, row) == True) <==>
            if v.Null? then OnlyPercent(ShowValue(fl, p)) == e.negated
            else p.Null? ==> (ShowValue(fl, v) == "") == e.negated
  {
    var v, p := EvalValue(fl, e.subject, row), EvalValue(fl, e.pattern, row);
    Like.GlobLikeIsLike(ShowValue(fl, v), ShowValue(fl, p));
    EmptyTextLike(ShowValue(fl, p), 0);
    assert ShowValue(fl, p)[0..] == ShowValue(fl, p);
  }
}
