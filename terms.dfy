/** The values the MathJSON evaluator computes with, and Python's arithmetic
    operators on them as parser.py uses them (mathjson2qubo/parser.py:21-22).

    A pyqubo expression is kept as a syntax tree (Express); what it means is
    given by Value, its value under an assignment of reals to the labels of
    the unknowns. Every operator is proved to agree with real arithmetic on
    those values. */
module Terms {
  import opened Errors

  /** A pyqubo expression: an unknown (Binary or Spin, by label), a numeric
      constant, or a sum, product or positive power of expressions. */
  datatype Express =
    | Binary(name: string)
    | Spin(name: string)
    | Const(value: real)
    | Add(left: Express, right: Express)
    | Mul(left: Express, right: Express)
    | Pow(base: Express, exponent: nat)

  /** What parse_mathjson returns: a Python float, a list of ints (built only
      by `list`), a pyqubo expression, or a whole array (a numpy array of
      constants or a pyqubo Array of unknowns). */
  datatype Term =
    | Num(r: real)
    | IntList(items: seq<int>)
    | Sym(e: Express)
    | Arr(elems: seq<Term>)

  /** The terms arithmetic is defined on: floats and expressions. */
  predicate IsScalar(t: Term) {
    t.Num? || t.Sym?
  }

  /** A float used where pyqubo expects an expression becomes a constant. */
  function Lift(t: Term): Express
    requires IsScalar(t)
  {
    if t.Num? then Const(t.r) else t.e
  }

  /** x to the k-th power; never zero unless x is. */
  function RealPow(x: real, k: nat): (p: real)
    ensures x != 0.0 ==> p != 0.0
    ensures x == 0.0 && k > 0 ==> p == 0.0
  {
    if k == 0 then 1.0 else x * RealPow(x, k - 1)
  }

  /** The value of an expression when every unknown takes the value that the
      assignment gives its label. */
  function Value(e: Express, a: string -> real): real {
    match e
    case Binary(l) => a(l)
    case Spin(l) => a(l)
    case Const(c) => c
    case Add(x, y) => Value(x, a) + Value(y, a)
    case Mul(x, y) => Value(x, a) * Value(y, a)
    case Pow(x, k) => RealPow(Value(x, a), k)
  }

  function ScalarValue(t: Term, a: string -> real): real
    requires IsScalar(t)
  {
    if t.Num? then t.r else Value(t.e, a)
  }

  /** Lifting a float to a constant expression keeps its value. */
  lemma LiftValue(t: Term)
    requires IsScalar(t)
    ensures forall v :: Value(Lift(t), v) == ScalarValue(t, v)
  {
  }

  /** float.is_integer */
  predicate IsInteger(x: real) {
    x == x.Floor as real
  }

  /** int(x) on a float: truncation toward zero, not rounding. */
  function Trunc(x: real): (n: int)
    ensures 0.0 <= x ==> 0 <= n && n as real <= x < n as real + 1.0
    ensures x < 0.0 ==> n <= 0 && n as real - 1.0 < x <= n as real
    ensures IsInteger(x) ==> n as real == x
  {
    if x >= 0.0 then x.Floor
    else
      var f := (-x).Floor;
      assert f as real <= -x < f as real + 1.0;
      assert IsInteger(x) ==> -x == (-x.Floor) as real;
      -f
  }

  /** Python's `a + b` on terms: floats add, lists concatenate, a list with
      anything else is a TypeError, and expressions build a pyqubo sum. */
  function Plus(a: Term, b: Term): (r: Result<Term>)
    ensures IsScalar(a) && IsScalar(b) ==>
      r.Ok? && IsScalar(r.value) &&
      forall v :: ScalarValue(r.value, v) == ScalarValue(a, v) + ScalarValue(b, v)
    ensures a.Num? && b.Num? ==> r.Ok? && r.value.Num?
    ensures a.IntList? && b.IntList? ==> r == Ok(IntList(a.items + b.items))
    ensures !a.Arr? && !b.Arr? && a.IntList? != b.IntList? ==> r == Err(Raised("TypeError"))
  {
    if a.Arr? || b.Arr? then Err(Unmodelled("arithmetic on a whole array"))
    else if a.IntList? && b.IntList? then Ok(IntList(a.items + b.items))
    else if a.IntList? || b.IntList? then Err(Raised("TypeError"))
    else if a.Num? && b.Num? then Ok(Num(a.r + b.r))
    else LiftValue(a); LiftValue(b); Ok(Sym(Add(Lift(a), Lift(b))))
  }

  /** Python's `a * b` on terms: a list times a float, a list or an
      expression is a TypeError. */
  function Times(a: Term, b: Term): (r: Result<Term>)
    ensures IsScalar(a) && IsScalar(b) ==>
      r.Ok? && IsScalar(r.value) &&
      forall v :: ScalarValue(r.value, v) == ScalarValue(a, v) * ScalarValue(b, v)
    ensures a.Num? && b.Num? ==> r.Ok? && r.value.Num?
    ensures !a.Arr? && !b.Arr? && (a.IntList? || b.IntList?) ==> r == Err(Raised("TypeError"))
  {
    if a.Arr? || b.Arr? then Err(Unmodelled("arithmetic on a whole array"))
    else if a.IntList? || b.IntList? then Err(Raised("TypeError"))
    else if a.Num? && b.Num? then Ok(Num(a.r * b.r))
    else LiftValue(a); LiftValue(b); Ok(Sym(Mul(Lift(a), Lift(b))))
  }

  /** Python's `a - b` on terms; lists do not support it. */
  function Minus(a: Term, b: Term): (r: Result<Term>)
    ensures IsScalar(a) && IsScalar(b) ==>
      r.Ok? && IsScalar(r.value) &&
      forall v :: ScalarValue(r.value, v) == ScalarValue(a, v) - ScalarValue(b, v)
    ensures a.Num? && b.Num? ==> r.Ok? && r.value.Num?
    ensures !a.Arr? && !b.Arr? && (a.IntList? || b.IntList?) ==> r == Err(Raised("TypeError"))
  {
    if a.Arr? || b.Arr? then Err(Unmodelled("arithmetic on a whole array"))
    else if a.IntList? || b.IntList? then Err(Raised("TypeError"))
    else if a.Num? && b.Num? then Ok(Num(a.r - b.r))
    else
      LiftValue(a); LiftValue(b);
      assert forall v :: Value(Mul(Const(-1.0), Lift(b)), v) == -Value(Lift(b), v);
      Ok(Sym(Add(Lift(a), Mul(Const(-1.0), Lift(b)))))
  }

  /** Python's `a / b` on terms. A zero float divisor raises
      ZeroDivisionError, which _fn_divide turns into code 5001; pyqubo divides
      an expression by a float only. */
  function Quotient(a: Term, b: Term): (r: Result<Term>)
    ensures IsScalar(a) && b == Num(0.0) ==> r == Err(Code(ZeroDivision))
    ensures IsScalar(a) && b.Num? && b.r != 0.0 ==>
      r.Ok? && IsScalar(r.value) &&
      forall v :: ScalarValue(r.value, v) == ScalarValue(a, v) / b.r
    ensures IsScalar(a) && b.Sym? ==> r.Err?
  {
    if a.Arr? || b.Arr? then Err(Unmodelled("arithmetic on a whole array"))
    else if a.IntList? || b.IntList? then Err(Raised("TypeError"))
    else if b.Sym? then Err(Raised("TypeError"))
    else if b.r == 0.0 then Err(Code(ZeroDivision))
    else if a.Num? then Ok(Num(a.r / b.r))
    else
      assert forall v :: Value(a.e, v) * (1.0 / b.r) == Value(a.e, v) / b.r;
      assert forall v :: Value(Mul(a.e, Const(1.0 / b.r)), v) == Value(a.e, v) * (1.0 / b.r);
      Ok(Sym(Mul(a.e, Const(1.0 / b.r))))
  }

  /** Python's unary `-x` on terms. */
  function Negated(a: Term): (r: Result<Term>)
    ensures IsScalar(a) ==>
      r.Ok? && IsScalar(r.value) && forall v :: ScalarValue(r.value, v) == -ScalarValue(a, v)
    ensures a.IntList? ==> r == Err(Raised("TypeError"))
  {
    match a
    case Num(x) => Ok(Num(-x))
    case Sym(e) =>
      assert forall v :: Value(Mul(Const(-1.0), e), v) == -Value(e, v);
      Ok(Sym(Mul(Const(-1.0), e)))
    case IntList(_) => Err(Raised("TypeError"))
    case Arr(_) => Err(Unmodelled("arithmetic on a whole array"))
  }

  /** Python's int(x) on a term: only a float converts. */
  function Truncated(a: Term): (r: Result<int>)
    ensures a.Num? ==> r == Ok(Trunc(a.r))
    ensures a.IntList? || a.Sym? ==> r == Err(Raised("TypeError"))
  {
    match a
    case Num(x) => Ok(Trunc(x))
    case IntList(_) => Err(Raised("TypeError"))
    case Sym(_) => Err(Raised("TypeError"))
    case Arr(_) => Err(Unmodelled("int() of a whole array"))
  }

  /** Python's `base ** k` with an int exponent k. A float raised to a
      negative power is a reciprocal, and 0.0 to a negative power raises
      ZeroDivisionError; pyqubo's power is described for k >= 1 only. */
  function Power(base: Term, k: int): (r: Result<Term>)
    ensures base.Num? && k >= 0 ==> r == Ok(Num(RealPow(base.r, k)))
    ensures base.Num? && k < 0 && base.r == 0.0 ==> r == Err(Raised("ZeroDivisionError"))
    ensures base.Num? && k < 0 && base.r != 0.0 ==> r == Ok(Num(1.0 / RealPow(base.r, -k)))
    ensures base.Sym? && k >= 1 ==>
      r.Ok? && r.value.Sym? && forall v :: Value(r.value.e, v) == RealPow(Value(base.e, v), k)
  {
    match base
    case Num(x) =>
      if k >= 0 then Ok(Num(RealPow(x, k)))
      else if x == 0.0 then Err(Raised("ZeroDivisionError"))
      else Ok(Num(1.0 / RealPow(x, -k)))
    case Sym(e) =>
      if k >= 1 then Ok(Sym(Pow(e, k)))
      else Err(Unmodelled("power of an expression with an exponent below 1"))
    case IntList(_) => Err(Raised("TypeError"))
    case Arr(_) => Err(Unmodelled("power of a whole array"))
  }

  /** Python's `t[k]` with one int index on an array: a negative index counts
      from the end, and an index outside -n..n-1 is an IndexError. Indexing
      a float or an expression is a TypeError. parser.py maps both to code
      3002. */
  function Index(t: Term, k: int): (r: Result<Term>)
    ensures t.Arr? && 0 <= k < |t.elems| ==> r == Ok(t.elems[k])
    ensures t.Arr? && -|t.elems| <= k < 0 ==> r == Ok(t.elems[|t.elems| + k])
    ensures t.Arr? && (k >= |t.elems| || k < -|t.elems|) ==> r == Err(Code(IndexOutOfRange))
    ensures !t.Arr? ==> r == Err(Code(IndexOutOfRange))
  {
    if !t.Arr? then Err(Code(IndexOutOfRange))
    else if 0 <= k < |t.elems| then Ok(t.elems[k])
    else if -|t.elems| <= k < 0 then Ok(t.elems[|t.elems| + k])
    else Err(Code(IndexOutOfRange))
  }

  /** Python's `t[(k1, ..., km)]` on nested arrays: one index per level, in
      order; the empty tuple selects the whole array. */
  function IndexPath(t: Term, ks: seq<int>): Result<Term>
    decreases |ks|
  {
    if ks == [] then Ok(t)
    else
      var u :- Index(t, ks[0]);
      IndexPath(u, ks[1..])
  }

  /** Indexing with a tuple is indexing with its entries one after another. */
  lemma {:induction false} IndexPathAppend(t: Term, ks: seq<int>, k: int)
    ensures IndexPath(t, ks + [k]) ==
      (match IndexPath(t, ks) case Ok(u) => Index(u, k) case Err(e) => Err(e))
    decreases |ks|
  {
    if ks == [] {
      assert ks + [k] == [k];
      assert IndexPath(t, [k]) == (var u :- Index(t, k); IndexPath(u, []));
    } else {
      assert (ks + [k])[0] == ks[0] && (ks + [k])[1..] == ks[1..] + [k];
      match Index(t, ks[0])
      case Ok(u) => IndexPathAppend(u, ks[1..], k);
      case Err(e) =>
    }
  }
}
