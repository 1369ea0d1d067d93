/** The MathJSON evaluator: Parser.parse_mathjson and the helpers it
    dispatches to (mathjson2qubo/parser.py:102-254). Evaluation is a pure
    walk over the node tree, given the environment built at construction
    and the current index scope (symbol to bound surface index). */
module Evaluator {
  import opened Errors
  import opened Terms
  import opened Environment

  /** A MathJSON object: which of the keys sym, sub, num, fn, arg and sup it
      has, and their values. */
  datatype Node = Node(
    sym: Option<string>,
    sub: Option<Node>,
    num: Option<real>,
    fn: Option<string>,
    arg: Option<Args>,
    sup: Option<Node>)

  /** The list under an `arg` key. */
  datatype Args = Args(items: seq<Node>)

  /** The validated header of a sum: its index symbol and the 0-based range
      lo..hi-1 handed to pyqubo's Sum. */
  datatype Binder = Binder(index: string, lo: int, hi: int)

  /** The names in the function table (the `funcs` property). */
  const FunctionNames: set<string> := {"add", "multiply", "subtract", "divide", "negate", "list"}

  /** functools.reduce(op, ts) without an initial value: a left fold; an
      empty list raises TypeError. */
  function Reduce(op: (Term, Term) -> Result<Term>, ts: seq<Term>): Result<Term>
    decreases |ts|
  {
    if |ts| == 0 then Err(Raised("TypeError"))
    else if |ts| == 1 then Ok(ts[0])
    else
      var acc :- Reduce(op, ts[..|ts| - 1]);
      op(acc, ts[|ts| - 1])
  }

  /** map(lambda x: -x, ts), failing at the first argument that has no negation. */
  function NegateAll(ts: seq<Term>): (r: Result<seq<Term>>)
    ensures r.Ok? ==> |r.value| == |ts| && forall i :: 0 <= i < |ts| ==> Negated(ts[i]) == Ok(r.value[i])
    ensures (forall i :: 0 <= i < |ts| ==> IsScalar(ts[i])) ==> r.Ok?
  {
    if ts == [] then Ok([])
    else
      var n :- Negated(ts[0]);
      var rest :- NegateAll(ts[1..]);
      Ok([n] + rest)
  }

  /** list(map(int, ts)), failing at the first argument that is not a float. */
  function TruncateAll(ts: seq<Term>): (r: Result<seq<int>>)
    ensures r.Ok? ==> |r.value| == |ts| && forall i :: 0 <= i < |ts| ==> Truncated(ts[i]) == Ok(r.value[i])
    ensures (forall i :: 0 <= i < |ts| ==> ts[i].Num?) ==> r.Ok?
  {
    if ts == [] then Ok([])
    else
      var k :- Truncated(ts[0]);
      var rest :- TruncateAll(ts[1..]);
      Ok([k] + rest)
  }

  /** The function table applied to already evaluated arguments
      (mathjson2qubo/parser.py:102-132). A name outside the table is a
      KeyError; subtract and divide with fewer than two arguments are an
      IndexError, and they ignore any argument after the second. */
  function Apply(name: string, args: seq<Term>): (r: Result<Term>)
    ensures name !in FunctionNames ==> r == Err(Raised("KeyError"))
    ensures name in {"subtract", "divide"} && |args| < 2 ==> r == Err(Raised("IndexError"))
    ensures name == "divide" && |args| >= 2 && IsScalar(args[0]) && args[1] == Num(0.0) ==>
      r == Err(Code(ZeroDivision))
  {
    if name == "add" then Reduce(Plus, args)
    else if name == "multiply" then Reduce(Times, args)
    else if name == "subtract" then
      if |args| < 2 then Err(Raised("IndexError")) else Minus(args[0], args[1])
    else if name == "divide" then
      if |args| < 2 then Err(Raised("IndexError")) else Quotient(args[0], args[1])
    else if name == "negate" then
      var ns :- NegateAll(args);
      Reduce(Plus, ns)
    else if name == "list" then
      var ks :- TruncateAll(args);
      Ok(IntList(ks))
    else Err(Raised("KeyError"))
  }

  /** The 0-based index tuple a subscript term denotes
      (mathjson2qubo/parser.py:201-209): every entry of a list minus one, or
      an integral float minus one; anything else is code 6001. */
  function SubscriptPath(t: Term): (r: Result<seq<int>>)
    ensures t.IntList? ==>
      r.Ok? && |r.value| == |t.items| && forall i :: 0 <= i < |t.items| ==> r.value[i] == t.items[i] - 1
    ensures t.Num? && IsInteger(t.r) ==> r == Ok([t.r.Floor - 1])
    ensures t.Num? && !IsInteger(t.r) ==> r == Err(Code(SubscriptNotInteger))
    ensures t.Sym? || t.Arr? ==> r == Err(Code(SubscriptNotInteger))
  {
    match t
    case IntList(ks) => Ok(seq(|ks|, i requires 0 <= i < |ks| => ks[i] - 1))
    case Num(x) => if IsInteger(x) then Ok([Trunc(x) - 1]) else Err(Code(SubscriptNotInteger))
    case _ => Err(Code(SubscriptNotInteger))
  }

  /** parse_mathjson (mathjson2qubo/parser.py:219-254). A sum node returns
      before superscript handling; otherwise the base is resolved by Base,
      a `sup` is applied to it, and a node that yields nothing is code 2001. */
  function Parse(env: Env, n: Node, scope: map<string, int>): Result<Term>
    decreases n, 3, 0
  {
    if n.sym.None? && n.num.None? && n.fn == Some("sum") then SumFn(env, n, scope)
    else
      var base :- Base(env, n, scope);
      if n.sup.Some? then Sup(env, base, n)
      else if base.None? then Err(Code(NoSymNumFn))
      else Ok(base.value)
  }

  /** The sym > num > fn dispatch of parse_mathjson, before any superscript.
      A symbol bound in the scope is that index as a float, whatever the
      environment or a `sub` say; None stands for Python's `result = None`. */
  function Base(env: Env, n: Node, scope: map<string, int>): Result<Option<Term>>
    decreases n, 2, 0
  {
    if n.sym.Some? then
      var s := n.sym.value;
      if s in scope then Ok(Some(Num(scope[s] as real)))
      else if n.sub.Some? then
        var t :- Sub(env, n, scope);
        Ok(Some(t))
      else if s in env.values then Ok(Some(env.values[s]))
      else Err(Code(VariableNotFound))
    else if n.num.Some? then Ok(Some(Num(n.num.value)))
    else if n.fn.Some? then
      if n.arg.None? then Err(Raised("KeyError"))
      else
        var ts :- EvalArgs(env, n, 0, scope);
        var t :- Apply(n.fn.value, ts);
        Ok(Some(t))
    else Ok(None)
  }

  /** The arguments n.arg[k..], evaluated left to right with the same scope. */
  function EvalArgs(env: Env, n: Node, k: nat, scope: map<string, int>): Result<seq<Term>>
    requires n.arg.Some?
    decreases n, 0, |n.arg.value.items| - k
  {
    if k >= |n.arg.value.items| then Ok([])
    else
      var t :- Parse(env, n.arg.value.items[k], scope);
      var rest :- EvalArgs(env, n, k + 1, scope);
      Ok([t] + rest)
  }

  /** _sub (mathjson2qubo/parser.py:200-217): evaluate the subscript with the
      current scope, turn it into a 0-based index tuple, then index the
      declared value. An undeclared symbol is code 3001; an index out of
      range, or indexing something that is not an array, is code 3002. */
  function Sub(env: Env, n: Node, scope: map<string, int>): Result<Term>
    decreases n, 1, 0
  {
    if n.sub.None? then Err(Raised("KeyError"))
    else
      var t :- Parse(env, n.sub.value, scope);
      var path :- SubscriptPath(t);
      if n.sym.None? then Err(Raised("KeyError"))
      else if n.sym.value !in env.values then Err(Code(VariableNotFound))
      else IndexPath(env.values[n.sym.value], path)
  }

  /** _sup (mathjson2qubo/parser.py:186-198), called without the scope: a list
      base is code 7001 before the exponent is looked at; an exponent that is
      an expression or a list is code 7002; an expression raised to an
      exponent whose int() is 3 or more is code 7003. A missing base (Python
      None) reaches `None ** k`, a TypeError. */
  function Sup(env: Env, base: Option<Term>, n: Node): Result<Term>
    decreases n, 1, 0
  {
    if base.Some? && base.value.IntList? then Err(Code(BaseIsList))
    else if n.sup.None? then Err(Raised("KeyError"))
    else
      var e :- Parse(env, n.sup.value, map[]);
      if e.Sym? || e.IntList? then Err(Code(ExponentNotNumber))
      else
        var k :- Truncated(e);
        if base.None? then Err(Raised("TypeError"))
        else if k >= 3 && base.value.Sym? then Err(Code(CubicTerm))
        else Power(base.value, k)
  }

  /** The checks of _fn_sum, in the order the code makes them
      (mathjson2qubo/parser.py:135-175). Both bounds are evaluated without
      the scope. */
  function SumBinder(env: Env, n: Node): Result<Binder>
    decreases n, 0, 0
  {
    if n.sub.None? || n.sup.None? then Err(Code(SumNeedsSubAndSup))
    else
      var sub := n.sub.value;
      if sub.fn.None? then Err(Raised("KeyError"))
      else if sub.fn.value != "equal" then Err(Code(SumSubNotEqual))
      else if sub.arg.None? then Err(Raised("KeyError"))
      else if |sub.arg.value.items| == 0 then Err(Raised("IndexError"))
      else if sub.arg.value.items[0].sym.None? then Err(Code(SumIndexNotSymbol))
      else if |sub.arg.value.items| != 2 then Err(Code(SumEqualNotTwoArgs))
      else
        var start :- Parse(env, sub.arg.value.items[1], map[]);
        var end :- Parse(env, n.sup.value, map[]);
        if !(start.Num? && IsInteger(start.r)) then Err(Code(SumStartNotInteger))
        else if !(end.Num? && IsInteger(end.r)) then Err(Code(SumEndNotInteger))
        else Ok(Binder(sub.arg.value.items[0].sym.value, Trunc(start.r) - 1, Trunc(end.r)))
  }

  /** The scope one iteration of a sum sees: dict({idx: i}, **scope), so an
      outer binding of the same symbol takes precedence. */
  function IterationScope(idx: string, i: int, scope: map<string, int>): map<string, int> {
    map[idx := i] + scope
  }

  /** The body n.arg[0] evaluated once per 0-based index i in lo..hi-1, with
      surface index i + 1 bound, in ascending order. */
  function EvalBodies(env: Env, n: Node, idx: string, scope: map<string, int>, lo: int, hi: int): Result<seq<Term>>
    decreases n, 0, hi - lo
  {
    if lo >= hi then Ok([])
    else if n.arg.None? then Err(Raised("KeyError"))
    else if |n.arg.value.items| == 0 then Err(Raised("IndexError"))
    else
      var t :- Parse(env, n.arg.value.items[0], IterationScope(idx, lo + 1, scope));
      var rest :- EvalBodies(env, n, idx, scope, lo + 1, hi);
      Ok([t] + rest)
  }

  /** _fn_sum: pyqubo's Sum over the validated range, taken as the bodies'
      results added up from the left. */
  function SumFn(env: Env, n: Node, scope: map<string, int>): Result<Term>
    decreases n, 1, 0
  {
    var b :- SumBinder(env, n);
    var ts :- EvalBodies(env, n, b.index, scope, b.lo, b.hi);
    Reduce(Plus, ts)
  }

  // ---------------------------------------------------------------------
  // The function table

  predicate AllScalar(ts: seq<Term>) {
    forall i :: 0 <= i < |ts| ==> IsScalar(ts[i])
  }

  /** The values of scalar terms under an assignment, added from the left. */
  function SumOf(ts: seq<Term>, v: string -> real): real
    requires AllScalar(ts)
    decreases |ts|
  {
    if ts == [] then 0.0 else SumOf(ts[..|ts| - 1], v) + ScalarValue(ts[|ts| - 1], v)
  }

  /** The values of scalar terms under an assignment, multiplied from the left. */
  function ProductOf(ts: seq<Term>, v: string -> real): real
    requires AllScalar(ts)
    decreases |ts|
  {
    if ts == [] then 1.0 else ProductOf(ts[..|ts| - 1], v) * ScalarValue(ts[|ts| - 1], v)
  }

  /** The lists joined end to end. */
  function Concat(ts: seq<Term>): seq<int>
    decreases |ts|
  {
    if ts == [] then []
    else Concat(ts[..|ts| - 1]) + (if ts[|ts| - 1].IntList? then ts[|ts| - 1].items else [])
  }

  /** Folding + over scalars denotes the sum of their values. */
  lemma {:induction false} PlusFoldIsSum(ts: seq<Term>)
    requires ts != [] && AllScalar(ts)
    ensures Reduce(Plus, ts).Ok? && IsScalar(Reduce(Plus, ts).value)
    ensures forall v :: ScalarValue(Reduce(Plus, ts).value, v) == SumOf(ts, v)
    decreases |ts|
  {
    if |ts| > 1 {
      var p := ts[..|ts| - 1];
      assert AllScalar(p);
      PlusFoldIsSum(p);
    } else {
      assert ts[..0] == [];
    }
  }

  /** Folding * over scalars denotes the product of their values. */
  lemma {:induction false} TimesFoldIsProduct(ts: seq<Term>)
    requires ts != [] && AllScalar(ts)
    ensures Reduce(Times, ts).Ok? && IsScalar(Reduce(Times, ts).value)
    ensures forall v :: ScalarValue(Reduce(Times, ts).value, v) == ProductOf(ts, v)
    decreases |ts|
  {
    if |ts| > 1 {
      var p := ts[..|ts| - 1];
      assert AllScalar(p);
      TimesFoldIsProduct(p);
    } else {
      assert ts[..0] == [];
    }
  }

  /** Folding + over lists concatenates them. */
  lemma {:induction false} PlusFoldConcatenates(ts: seq<Term>)
    requires ts != [] && forall i :: 0 <= i < |ts| ==> ts[i].IntList?
    ensures Reduce(Plus, ts) == Ok(IntList(Concat(ts)))
    decreases |ts|
  {
    if |ts| > 1 {
      PlusFoldConcatenates(ts[..|ts| - 1]);
    } else {
      assert ts[..0] == [];
      assert Concat(ts) == Concat([]) + ts[0].items == ts[0].items;
      assert Reduce(Plus, ts) == Ok(ts[0]);
      assert ts[0] == IntList(ts[0].items);
    }
  }

  /** A sum of negations is the negated sum. */
  lemma {:induction false} SumOfNegations(ts: seq<Term>, ns: seq<Term>)
    requires |ns| == |ts| && AllScalar(ts) && AllScalar(ns)
    requires forall i, v :: 0 <= i < |ts| ==> ScalarValue(ns[i], v) == -ScalarValue(ts[i], v)
    ensures forall v :: SumOf(ns, v) == -SumOf(ts, v)
    decreases |ts|
  {
    if ts != [] {
      SumOfNegations(ts[..|ts| - 1], ns[..|ns| - 1]);
    }
  }

  /** add of scalars is their sum; add of lists is their concatenation; add
      of nothing is a TypeError. */
  lemma {:induction false} AddIsSum(ts: seq<Term>)
    ensures ts == [] ==> Apply("add", ts) == Err(Raised("TypeError"))
    ensures ts != [] && AllScalar(ts) ==>
      Apply("add", ts).Ok? && IsScalar(Apply("add", ts).value) &&
      forall v :: ScalarValue(Apply("add", ts).value, v) == SumOf(ts, v)
    ensures ts != [] && (forall i :: 0 <= i < |ts| ==> ts[i].IntList?) ==>
      Apply("add", ts) == Ok(IntList(Concat(ts)))
  {
    if ts != [] && AllScalar(ts) {
      PlusFoldIsSum(ts);
    }
    if ts != [] && (forall i :: 0 <= i < |ts| ==> ts[i].IntList?) {
      PlusFoldConcatenates(ts);
    }
  }

  /** multiply of scalars is their product; multiply of nothing is a TypeError. */
  lemma {:induction false} MultiplyIsProduct(ts: seq<Term>)
    ensures ts == [] ==> Apply("multiply", ts) == Err(Raised("TypeError"))
    ensures ts != [] && AllScalar(ts) ==>
      Apply("multiply", ts).Ok? && IsScalar(Apply("multiply", ts).value) &&
      forall v :: ScalarValue(Apply("multiply", ts).value, v) == ProductOf(ts, v)
  {
    if ts != [] && AllScalar(ts) {
      TimesFoldIsProduct(ts);
    }
  }

  /** subtract and divide look at the first two arguments only. */
  lemma {:induction false} SubtractDivideUseTwo(ts: seq<Term>)
    requires |ts| >= 2 && IsScalar(ts[0]) && IsScalar(ts[1])
    ensures Apply("subtract", ts) == Apply("subtract", ts[..2])
    ensures Apply("divide", ts) == Apply("divide", ts[..2])
    ensures Apply("subtract", ts).Ok? && IsScalar(Apply("subtract", ts).value) &&
      forall v :: ScalarValue(Apply("subtract", ts).value, v) == ScalarValue(ts[0], v) - ScalarValue(ts[1], v)
    ensures ts[1].Num? && ts[1].r != 0.0 ==>
      Apply("divide", ts).Ok? && IsScalar(Apply("divide", ts).value) &&
      forall v :: ScalarValue(Apply("divide", ts).value, v) == ScalarValue(ts[0], v) / ts[1].r
  {
  }

  /** negate of scalars is the sum of their negations, that is the negated sum. */
  lemma {:induction false} NegateIsNegatedSum(ts: seq<Term>)
    requires ts != [] && AllScalar(ts)
    ensures Apply("negate", ts).Ok? && IsScalar(Apply("negate", ts).value)
    ensures forall v :: ScalarValue(Apply("negate", ts).value, v) == -SumOf(ts, v)
  {
    var ns := NegateAll(ts).value;
    assert forall i :: 0 <= i < |ts| ==> Negated(ts[i]) == Ok(ns[i]);
    assert AllScalar(ns);
    PlusFoldIsSum(ns);
    SumOfNegations(ts, ns);
  }

  /** list truncates every float argument toward zero, in order. */
  lemma {:induction false} ListIsTruncation(ts: seq<Term>)
    requires forall i :: 0 <= i < |ts| ==> ts[i].Num?
    ensures Apply("list", ts).Ok? && Apply("list", ts).value.IntList?
    ensures |Apply("list", ts).value.items| == |ts|
    ensures forall i :: 0 <= i < |ts| ==> Apply("list", ts).value.items[i] == Trunc(ts[i].r)
  {
    var ks := TruncateAll(ts).value;
    assert forall i :: 0 <= i < |ts| ==> Truncated(ts[i]) == Ok(ks[i]);
  }

  // ---------------------------------------------------------------------
  // Dispatch

  predicate IsSumNode(n: Node) {
    n.sym.None? && n.num.None? && n.fn == Some("sum")
  }

  /** A node with only `sym`. */
  function SymNode(s: string): Node {
    Node(Some(s), None, None, None, None, None)
  }

  /** A node with only `num`. */
  function NumNode(x: real): Node {
    Node(None, None, Some(x), None, None, None)
  }

  /** sym > num > fn: a symbol makes num and fn irrelevant, and a number
      makes fn irrelevant. */
  lemma {:induction false} Priority(env: Env, n: Node, scope: map<string, int>)
    ensures n.sym.Some? ==>
      Parse(env, n, scope) == Parse(env, n.(num := None, fn := None, arg := None), scope)
    ensures n.sym.None? && n.num.Some? ==>
      Parse(env, n, scope) == Parse(env, n.(fn := None, arg := None), scope)
  {
    if n.sym.Some? {
      var m := n.(num := None, fn := None, arg := None);
      assert Sub(env, n, scope) == Sub(env, m, scope);
      assert Base(env, n, scope) == Base(env, m, scope);
      assert forall b :: Sup(env, b, n) == Sup(env, b, m);
    } else if n.num.Some? {
      var m := n.(fn := None, arg := None);
      assert Base(env, n, scope) == Base(env, m, scope);
      assert forall b :: Sup(env, b, n) == Sup(env, b, m);
    }
  }

  /** A bare symbol is its bound index when the scope has it, else its
      declared value, else code 3001. A bound index also wins over a `sub`. */
  lemma {:induction false} SymbolLookup(env: Env, n: Node, scope: map<string, int>)
    requires n.sym.Some? && n.sup.None?
    ensures n.sym.value in scope ==> Parse(env, n, scope) == Ok(Num(scope[n.sym.value] as real))
    ensures n.sym.value !in scope && n.sub.None? && n.sym.value in env.values ==>
      Parse(env, n, scope) == Ok(env.values[n.sym.value])
    ensures n.sym.value !in scope && n.sub.None? && n.sym.value !in env.values ==>
      Parse(env, n, scope) == Err(Code(VariableNotFound))
  {
  }

  /** A number literal is that float; a node with none of sym, num, fn and
      sup is code 2001; a `sup` without a base never succeeds. */
  lemma {:induction false} LiteralAndMalformed(env: Env, n: Node, scope: map<string, int>)
    ensures n.sym.None? && n.num.Some? && n.sup.None? ==> Parse(env, n, scope) == Ok(Num(n.num.value))
    ensures n.sym.None? && n.num.None? && n.fn.None? && n.sup.None? ==>
      Parse(env, n, scope) == Err(Code(NoSymNumFn))
    ensures n.sym.None? && n.num.None? && n.fn.None? && n.sup.Some? ==> Parse(env, n, scope).Err?
  {
  }

  /** EvalArgs succeeds with the arguments' values when each argument does. */
  lemma {:induction false} EvalArgsAll(env: Env, n: Node, k: nat, scope: map<string, int>, ts: seq<Term>)
    requires n.arg.Some? && k <= |n.arg.value.items| && |ts| == |n.arg.value.items| - k
    requires forall i :: 0 <= i < |ts| ==> Parse(env, n.arg.value.items[k + i], scope) == Ok(ts[i])
    ensures EvalArgs(env, n, k, scope) == Ok(ts)
    decreases |n.arg.value.items| - k
  {
    if k < |n.arg.value.items| {
      assert Parse(env, n.arg.value.items[k], scope) == Ok(ts[0]);
      assert forall i :: 0 <= i < |ts| - 1 ==> Parse(env, n.arg.value.items[k + 1 + i], scope) == Ok(ts[1..][i]) by {
        forall i | 0 <= i < |ts| - 1 ensures Parse(env, n.arg.value.items[k + 1 + i], scope) == Ok(ts[1..][i]) {
          assert k + 1 + i == k + (i + 1);
        }
      }
      EvalArgsAll(env, n, k + 1, scope, ts[1..]);
      assert ts == [ts[0]] + ts[1..];
    }
  }

  /** EvalArgs stops at the first argument that fails, with its error. */
  lemma {:induction false} EvalArgsFirstError(env: Env, n: Node, k: nat, scope: map<string, int>, j: nat)
    requires n.arg.Some? && k <= j < |n.arg.value.items|
    requires forall i :: k <= i < j ==> Parse(env, n.arg.value.items[i], scope).Ok?
    requires Parse(env, n.arg.value.items[j], scope).Err?
    ensures EvalArgs(env, n, k, scope) == Err(Parse(env, n.arg.value.items[j], scope).error)
    decreases j - k
  {
    if k < j {
      EvalArgsFirstError(env, n, k + 1, scope, j);
    }
  }

  /** A function call evaluates its arguments left to right with the same
      scope and applies the table entry to their values; the first failing
      argument decides the error even before an unknown name is noticed. */
  lemma {:induction false} FunctionCall(env: Env, n: Node, scope: map<string, int>, ts: seq<Term>)
    requires n.sym.None? && n.num.None? && n.fn.Some? && n.fn.value != "sum" && n.sup.None?
    requires n.arg.Some? && |ts| == |n.arg.value.items|
    requires forall i :: 0 <= i < |ts| ==> Parse(env, n.arg.value.items[i], scope) == Ok(ts[i])
    ensures Parse(env, n, scope) == Apply(n.fn.value, ts)
  {
    EvalArgsAll(env, n, 0, scope, ts);
  }

  lemma {:induction false} FunctionCallFails(env: Env, n: Node, scope: map<string, int>, j: nat)
    requires n.sym.None? && n.num.None? && n.fn.Some? && n.fn.value != "sum"
    requires n.arg.Some? && j < |n.arg.value.items|
    requires forall i :: 0 <= i < j ==> Parse(env, n.arg.value.items[i], scope).Ok?
    requires Parse(env, n.arg.value.items[j], scope).Err?
    ensures Parse(env, n, scope) == Err(Parse(env, n.arg.value.items[j], scope).error)
  {
    EvalArgsFirstError(env, n, 0, scope, j);
  }

  // ---------------------------------------------------------------------
  // Subscripts

  /** A symbol with a subscript that the scope does not bind is resolved by _sub. */
  lemma {:induction false} ParseSubscripted(env: Env, n: Node, scope: map<string, int>)
    requires n.sym.Some? && n.sym.value !in scope && n.sub.Some? && n.sup.None?
    ensures Parse(env, n, scope) == Sub(env, n, scope)
  {
    assert Base(env, n, scope) == (var t :- Sub(env, n, scope); Ok(Some(t)));
  }

  /** x_t: the subscript is evaluated with the current scope and checked
      before the symbol is looked up; a float subscript k selects 0-based
      element k - 1 and a list selects one element per level. */
  lemma {:induction false} Subscript(env: Env, n: Node, scope: map<string, int>)
    requires n.sym.Some? && n.sym.value !in scope && n.sub.Some? && n.sup.None?
    requires Parse(env, n.sub.value, scope).Ok?
    ensures var t := Parse(env, n.sub.value, scope).value;
      t.Sym? || t.Arr? || (t.Num? && !IsInteger(t.r)) ==>
        Parse(env, n, scope) == Err(Code(SubscriptNotInteger))
    ensures var t := Parse(env, n.sub.value, scope).value;
      (t.IntList? || (t.Num? && IsInteger(t.r))) && n.sym.value !in env.values ==>
        Parse(env, n, scope) == Err(Code(VariableNotFound))
    ensures var t := Parse(env, n.sub.value, scope).value;
      t.Num? && IsInteger(t.r) && n.sym.value in env.values ==>
        Parse(env, n, scope) == Index(env.values[n.sym.value], t.r.Floor - 1)
    ensures var t := Parse(env, n.sub.value, scope).value;
      t.IntList? && n.sym.value in env.values ==>
        Parse(env, n, scope) ==
          IndexPath(env.values[n.sym.value], seq(|t.items|, i requires 0 <= i < |t.items| => t.items[i] - 1))
  {
    ParseSubscripted(env, n, scope);
    var t := Parse(env, n.sub.value, scope).value;
    if t.Num? && IsInteger(t.r) && n.sym.value in env.values {
      var u := env.values[n.sym.value];
      assert IndexPath(u, [t.r.Floor - 1]) == (var w :- Index(u, t.r.Floor - 1); IndexPath(w, []));
    }
    if t.IntList? && n.sym.value in env.values {
      assert SubscriptPath(t) == Ok(seq(|t.items|, i requires 0 <= i < |t.items| => t.items[i] - 1));
    }
  }

  /** On a declared one-dimensional array of size m, x_k with 1 <= k <= m is
      the unknown named x[k-1]; x_(m+1) is code 3002; and x_0, which the code
      does not reject, counts from the end and is x[m-1]. */
  lemma {:induction false} VectorElement(env: Env, s: string, kind: string, m: nat, k: int, scope: map<string, int>)
    requires s !in scope && s in env.values && env.values[s] == Grid(s, kind, [m])
    ensures 1 <= k <= m ==>
      Parse(env, Node(Some(s), Some(NumNode(k as real)), None, None, None, None), scope) ==
        Ok(Sym(Unknown(kind, s + Brackets([k - 1]))))
    ensures k == m + 1 ==>
      Parse(env, Node(Some(s), Some(NumNode(k as real)), None, None, None, None), scope) ==
        Err(Code(IndexOutOfRange))
    ensures k == 0 && m > 0 ==>
      Parse(env, Node(Some(s), Some(NumNode(k as real)), None, None, None, None), scope) ==
        Ok(Sym(Unknown(kind, s + Brackets([m - 1]))))
  {
    var g := Grid(s, kind, [m]);
    VectorIndex(env, s, kind, m, k, scope);
    GridRowLength(s, kind, m);
    if 1 <= k <= m {
      assert g.elems[k - 1] == Grid(s + Brackets([k - 1]), kind, []);
    }
    if k == 0 && m > 0 {
      assert g.elems[m - 1] == Grid(s + Brackets([m - 1]), kind, []);
    }
  }

  /** x_k on a declared one-dimensional array is its element k - 1, the
      subscript indexing Python-style. */
  lemma {:induction false} VectorIndex(env: Env, s: string, kind: string, m: nat, k: int, scope: map<string, int>)
    requires s !in scope && s in env.values && env.values[s] == Grid(s, kind, [m])
    ensures Parse(env, Node(Some(s), Some(NumNode(k as real)), None, None, None, None), scope) ==
      Index(Grid(s, kind, [m]), k - 1)
  {
    var n := Node(Some(s), Some(NumNode(k as real)), None, None, None, None);
    assert Parse(env, n.sub.value, scope) == Ok(Num(k as real));
    assert IsInteger(k as real) && (k as real).Floor == k;
    Subscript(env, n, scope);
  }

  // ---------------------------------------------------------------------
  // Superscripts

  /** x^e on a resolved base b: a list base is code 7001 whatever the
      exponent; an expression or list exponent is code 7002; an expression
      raised to int(e) >= 3 is code 7003; otherwise the base is raised to
      int(e). The exponent is evaluated in the empty scope. */
  lemma {:induction false} Superscript(env: Env, n: Node, scope: map<string, int>, b: Term)
    requires !IsSumNode(n) && n.sup.Some? && Base(env, n, scope) == Ok(Some(b))
    ensures b.IntList? ==> Parse(env, n, scope) == Err(Code(BaseIsList))
    ensures !b.IntList? && Parse(env, n.sup.value, map[]).Err? ==>
      Parse(env, n, scope) == Err(Parse(env, n.sup.value, map[]).error)
    ensures var e := Parse(env, n.sup.value, map[]);
      !b.IntList? && e.Ok? && (e.value.Sym? || e.value.IntList?) ==>
        Parse(env, n, scope) == Err(Code(ExponentNotNumber))
    ensures var e := Parse(env, n.sup.value, map[]);
      b.Sym? && e.Ok? && e.value.Num? && Trunc(e.value.r) >= 3 ==>
        Parse(env, n, scope) == Err(Code(CubicTerm))
    ensures var e := Parse(env, n.sup.value, map[]);
      !b.IntList? && e.Ok? && e.value.Num? && !(Trunc(e.value.r) >= 3 && b.Sym?) ==>
        Parse(env, n, scope) == Power(b, Trunc(e.value.r))
  {
  }

  /** A quadratic term: an unknown squared denotes the square of its value. */
  lemma {:induction false} Square(env: Env, n: Node, scope: map<string, int>, b: Term)
    requires !IsSumNode(n) && n.sup == Some(NumNode(2.0)) && Base(env, n, scope) == Ok(Some(b)) && b.Sym?
    ensures Parse(env, n, scope).Ok? && Parse(env, n, scope).value.Sym?
    ensures forall v :: Value(Parse(env, n, scope).value.e, v) == Value(b.e, v) * Value(b.e, v)
  {
    assert Parse(env, NumNode(2.0), map[]) == Ok(Num(2.0));
    assert Trunc(2.0) == 2;
    Superscript(env, n, scope, b);
    assert forall w: real :: RealPow(w, 2) == w * w by {
      forall w: real ensures RealPow(w, 2) == w * w {
        assert RealPow(w, 2) == w * RealPow(w, 1);
        assert RealPow(w, 1) == w * RealPow(w, 0);
      }
    }
  }

  /** The exponent never sees a sum index: inside a sum over i, x^i looks i
      up among the declarations, so an undeclared i is code 3001. */
  lemma {:induction false} ExponentIgnoresScope(env: Env, n: Node, scope: map<string, int>, i: string, b: Term)
    requires !IsSumNode(n) && n.sup == Some(SymNode(i)) && Base(env, n, scope) == Ok(Some(b)) && !b.IntList?
    requires i in scope && i !in env.values
    ensures Parse(env, n, scope) == Err(Code(VariableNotFound))
  {
    assert Parse(env, SymNode(i), map[]) == Err(Code(VariableNotFound));
  }

  // ---------------------------------------------------------------------
  // Sums

  /** The sum sub^{end} body with sub = equal(idx, start). */
  function SumNode(idx: string, start: Node, end: Node, body: Node): Node {
    Node(None, Some(Node(None, None, None, Some("equal"), Some(Args([SymNode(idx), start])), None)),
      None, Some("sum"), Some(Args([body])), Some(end))
  }

  /** Both keys are present and the subscript is an `equal` call with arguments. */
  predicate EqualHeader(n: Node) {
    n.sub.Some? && n.sup.Some? && n.sub.value.fn == Some("equal") && n.sub.value.arg.Some?
  }

  /** The `equal` call compares an index symbol with a start bound. */
  predicate BinderShape(n: Node) {
    EqualHeader(n) && |n.sub.value.arg.value.items| == 2 && n.sub.value.arg.value.items[0].sym.Some?
  }

  function StartBound(n: Node): Node
    requires BinderShape(n)
  {
    n.sub.value.arg.value.items[1]
  }

  /** A sum node is _fn_sum: the header first, then the bodies. */
  lemma {:induction false} ParseSum(env: Env, n: Node, scope: map<string, int>)
    requires IsSumNode(n)
    ensures Parse(env, n, scope) == SumFn(env, n, scope)
    ensures SumBinder(env, n).Err? ==> Parse(env, n, scope) == Err(SumBinder(env, n).error)
  {
  }

  /** The checks of a sum in the order the code makes them; both bounds are
      evaluated, start first, before either is checked to be integral. */
  lemma {:induction false} SumChecks(env: Env, n: Node, scope: map<string, int>)
    requires IsSumNode(n)
    ensures n.sub.None? || n.sup.None? ==> Parse(env, n, scope) == Err(Code(SumNeedsSubAndSup))
    ensures n.sub.Some? && n.sup.Some? && n.sub.value.fn.Some? && n.sub.value.fn.value != "equal" ==>
      Parse(env, n, scope) == Err(Code(SumSubNotEqual))
    ensures EqualHeader(n) && |n.sub.value.arg.value.items| > 0 ==>
      (n.sub.value.arg.value.items[0].sym.None? ==> Parse(env, n, scope) == Err(Code(SumIndexNotSymbol))) &&
      (n.sub.value.arg.value.items[0].sym.Some? && |n.sub.value.arg.value.items| != 2 ==>
        Parse(env, n, scope) == Err(Code(SumEqualNotTwoArgs)))
    ensures BinderShape(n) ==>
      var start := Parse(env, StartBound(n), map[]);
      var end := Parse(env, n.sup.value, map[]);
      (start.Err? ==> Parse(env, n, scope) == Err(start.error)) &&
      (start.Ok? && end.Err? ==> Parse(env, n, scope) == Err(end.error)) &&
      (start.Ok? && end.Ok? && !(start.value.Num? && IsInteger(start.value.r)) ==>
        Parse(env, n, scope) == Err(Code(SumStartNotInteger))) &&
      (start.Ok? && start.value.Num? && IsInteger(start.value.r) && end.Ok? &&
        !(end.value.Num? && IsInteger(end.value.r)) ==>
          Parse(env, n, scope) == Err(Code(SumEndNotInteger)))
  {
    ParseSum(env, n, scope);
  }

  /** A validated header binds the index symbol of the `equal` call, and its
      range stands for the integral bounds: 0-based lo is start - 1 and hi is
      end. */
  lemma {:induction false} SumBounds(env: Env, n: Node)
    requires SumBinder(env, n).Ok?
    ensures BinderShape(n)
    ensures SumBinder(env, n).value.index == n.sub.value.arg.value.items[0].sym.value
    ensures Parse(env, StartBound(n), map[]) == Ok(Num((SumBinder(env, n).value.lo + 1) as real))
    ensures Parse(env, n.sup.value, map[]) == Ok(Num(SumBinder(env, n).value.hi as real))
  {
  }

  /** Conversely, integral bounds p and q always validate, to the range
      p - 1 .. q. */
  lemma {:induction false} IntegralBounds(env: Env, n: Node, p: int, q: int)
    requires BinderShape(n)
    requires Parse(env, StartBound(n), map[]) == Ok(Num(p as real))
    requires Parse(env, n.sup.value, map[]) == Ok(Num(q as real))
    ensures SumBinder(env, n) == Ok(Binder(n.sub.value.arg.value.items[0].sym.value, p - 1, q))
  {
    assert IsInteger(p as real) && Trunc(p as real) == p;
    assert IsInteger(q as real) && Trunc(q as real) == q;
  }

  /** The header never sees the scope: a sum whose header fails fails the
      same way in every scope. */
  lemma {:induction false} SumHeaderIgnoresScope(env: Env, n: Node, s1: map<string, int>, s2: map<string, int>)
    requires IsSumNode(n) && SumBinder(env, n).Err?
    ensures Parse(env, n, s1) == Parse(env, n, s2) == Err(SumBinder(env, n).error)
  {
    ParseSum(env, n, s1);
    ParseSum(env, n, s2);
  }

  /** Inside an outer sum over j, an inner sum whose end bound is j looks j
      up among the declarations: an undeclared j is code 3001. */
  lemma {:induction false} BoundSeesNoIndex(env: Env, idx: string, start: Node, j: string, body: Node, scope: map<string, int>)
    requires j in scope && j !in env.values && Parse(env, start, map[]).Ok?
    ensures Parse(env, SumNode(idx, start, SymNode(j), body), scope) == Err(Code(VariableNotFound))
  {
    var n := SumNode(idx, start, SymNode(j), body);
    assert BinderShape(n) && StartBound(n) == start;
    assert Parse(env, SymNode(j), map[]) == Err(Code(VariableNotFound));
    SumChecks(env, n, scope);
  }

  /** An outer binding of the index symbol takes precedence over the
      iteration's; otherwise the iteration binds it and leaves the rest. */
  lemma {:induction false} OuterScopeWins(idx: string, i: int, scope: map<string, int>)
    ensures idx in scope ==> IterationScope(idx, i, scope) == scope
    ensures idx !in scope ==> IterationScope(idx, i, scope) == scope[idx := i]
  {
    if idx in scope {
      assert IterationScope(idx, i, scope).Keys == scope.Keys;
    } else {
      assert IterationScope(idx, i, scope).Keys == scope[idx := i].Keys;
    }
  }

  /** EvalBodies from lo on, the body for surface index j giving ts[j - lo - 1]. */
  lemma {:induction false} EvalBodiesFrom(env: Env, n: Node, idx: string, scope: map<string, int>,
                                           lo: int, hi: int, ts: seq<Term>)
    requires n.arg.Some? && |n.arg.value.items| > 0 && lo <= hi && |ts| == hi - lo
    requires forall j :: lo < j <= hi ==>
      Parse(env, n.arg.value.items[0], IterationScope(idx, j, scope)) == Ok(ts[j - lo - 1])
    ensures EvalBodies(env, n, idx, scope, lo, hi) == Ok(ts)
    decreases hi - lo
  {
    if lo < hi {
      assert Parse(env, n.arg.value.items[0], IterationScope(idx, lo + 1, scope)) == Ok(ts[0]);
      forall j | lo + 1 < j <= hi
        ensures Parse(env, n.arg.value.items[0], IterationScope(idx, j, scope)) == Ok(ts[1..][j - (lo + 1) - 1])
      {
        assert ts[1..][j - (lo + 1) - 1] == ts[j - lo - 1];
      }
      EvalBodiesFrom(env, n, idx, scope, lo + 1, hi, ts[1..]);
      assert ts == [ts[0]] + ts[1..];
    }
  }

  /** EvalBodies yields the bodies' values in index order when each succeeds. */
  lemma {:induction false} EvalBodiesAll(env: Env, n: Node, idx: string, scope: map<string, int>,
                      lo: int, hi: int, ts: seq<Term>)
    requires n.arg.Some? && |n.arg.value.items| > 0 && lo <= hi && |ts| == hi - lo
    requires forall k :: 0 <= k < |ts| ==>
      Parse(env, n.arg.value.items[0], IterationScope(idx, lo + k + 1, scope)) == Ok(ts[k])
    ensures EvalBodies(env, n, idx, scope, lo, hi) == Ok(ts)
  {
    forall j | lo < j <= hi
      ensures Parse(env, n.arg.value.items[0], IterationScope(idx, j, scope)) == Ok(ts[j - lo - 1])
    {
      assert lo + (j - lo - 1) + 1 == j;
    }
    EvalBodiesFrom(env, n, idx, scope, lo, hi, ts);
  }

  /** A sum over an empty range reaches reduce over nothing: a TypeError. */
  lemma {:induction false} EmptySum(env: Env, n: Node, scope: map<string, int>)
    requires IsSumNode(n) && SumBinder(env, n).Ok? && SumBinder(env, n).value.lo >= SumBinder(env, n).value.hi
    ensures Parse(env, n, scope) == Err(Raised("TypeError"))
  {
    ParseSum(env, n, scope);
    var b := SumBinder(env, n).value;
    assert EvalBodies(env, n, b.index, scope, b.lo, b.hi) == Ok([]);
  }

  /** A sum is the left fold of + over its bodies, the body evaluated for
      surface index lo + 1 + k as its k-th term with the index bound in
      front of the outer scope; over scalars it denotes the sum of their
      values. */
  lemma {:induction false} SumIsFold(env: Env, n: Node, scope: map<string, int>, ts: seq<Term>)
    requires IsSumNode(n) && SumBinder(env, n).Ok? && n.arg.Some? && |n.arg.value.items| > 0
    requires SumBinder(env, n).value.lo <= SumBinder(env, n).value.hi
    requires |ts| == SumBinder(env, n).value.hi - SumBinder(env, n).value.lo
    requires forall k :: 0 <= k < |ts| ==>
      Parse(env, n.arg.value.items[0],
        IterationScope(SumBinder(env, n).value.index, SumBinder(env, n).value.lo + k + 1, scope)) == Ok(ts[k])
    ensures Parse(env, n, scope) == Reduce(Plus, ts)
    ensures ts != [] && AllScalar(ts) ==>
      Parse(env, n, scope).Ok? && IsScalar(Parse(env, n, scope).value) &&
      forall v :: ScalarValue(Parse(env, n, scope).value, v) == SumOf(ts, v)
  {
    var b := SumBinder(env, n).value;
    EvalBodiesAll(env, n, b.index, scope, b.lo, b.hi, ts);
    if ts != [] && AllScalar(ts) {
      PlusFoldIsSum(ts);
    }
  }

  /** When the scope already binds the index symbol every iteration sees the
      same binding, so the sum adds up copies of one body value. */
  lemma {:induction false} ShadowedSum(env: Env, n: Node, scope: map<string, int>, t: Term)
    requires IsSumNode(n) && SumBinder(env, n).Ok? && n.arg.Some? && |n.arg.value.items| > 0
    requires SumBinder(env, n).value.index in scope
    requires SumBinder(env, n).value.lo <= SumBinder(env, n).value.hi
    requires Parse(env, n.arg.value.items[0], scope) == Ok(t)
    ensures Parse(env, n, scope) ==
      Reduce(Plus, seq(SumBinder(env, n).value.hi - SumBinder(env, n).value.lo, _ => t))
  {
    var b := SumBinder(env, n).value;
    var ts := seq(b.hi - b.lo, _ => t);
    ShadowedBodies(env, n.arg.value.items[0], b.index, scope, b.lo, t, ts);
    SumIsFold(env, n, scope, ts);
  }

  /** With the index symbol bound outside, every iteration's body has the value
      it has in the outer scope. */
  lemma {:induction false} ShadowedBodies(env: Env, body: Node, idx: string, scope: map<string, int>, lo: int, t: Term, ts: seq<Term>)
    requires idx in scope && Parse(env, body, scope) == Ok(t)
    requires forall k :: 0 <= k < |ts| ==> ts[k] == t
    ensures forall k :: 0 <= k < |ts| ==> Parse(env, body, IterationScope(idx, lo + k + 1, scope)) == Ok(ts[k])
  {
    forall k | 0 <= k < |ts| ensures Parse(env, body, IterationScope(idx, lo + k + 1, scope)) == Ok(ts[k]) {
      OuterScopeWins(idx, lo + k + 1, scope);
    }
  }

  predicate AllRowsScalar(tss: seq<seq<Term>>) {
    forall k :: 0 <= k < |tss| ==> AllScalar(tss[k])
  }

  /** The values of a table of scalar terms, row sums added from the left. */
  function DoubleSumOf(tss: seq<seq<Term>>, v: string -> real): real
    requires AllRowsScalar(tss)
    decreases |tss|
  {
    if tss == [] then 0.0 else DoubleSumOf(tss[..|tss| - 1], v) + SumOf(tss[|tss| - 1], v)
  }

  lemma {:induction false} SumOfRowSums(tss: seq<seq<Term>>, ts: seq<Term>)
    requires |ts| == |tss| && AllRowsScalar(tss) && AllScalar(ts)
    requires forall k, v :: 0 <= k < |ts| ==> ScalarValue(ts[k], v) == SumOf(tss[k], v)
    ensures forall v :: SumOf(ts, v) == DoubleSumOf(tss, v)
    decreases |ts|
  {
    if ts != [] {
      SumOfRowSums(tss[..|tss| - 1], ts[..|ts| - 1]);
    }
  }

  /** An inner sum over a non-empty range of scalar bodies is a scalar: their sum. */
  lemma {:induction false} RowSum(env: Env, m: Node, scope: map<string, int>, row: seq<Term>)
    requires IsSumNode(m) && SumBinder(env, m).Ok? && m.arg.Some? && |m.arg.value.items| > 0
    requires var c := SumBinder(env, m).value;
      c.lo < c.hi && |row| == c.hi - c.lo && AllScalar(row) &&
      forall l :: 0 <= l < |row| ==>
        Parse(env, m.arg.value.items[0], IterationScope(c.index, c.lo + l + 1, scope)) == Ok(row[l])
    ensures Parse(env, m, scope).Ok? && IsScalar(Parse(env, m, scope).value)
    ensures forall v :: ScalarValue(Parse(env, m, scope).value, v) == SumOf(row, v)
  {
    SumIsFold(env, m, scope, row);
  }

  /** A sum whose body is itself a sum denotes the double sum of the inner
      body's values, the inner body seeing both indices. */
  lemma {:induction false} DoubleSum(env: Env, n: Node, scope: map<string, int>, tss: seq<seq<Term>>)
    requires IsSumNode(n) && SumBinder(env, n).Ok? && n.arg.Some? && |n.arg.value.items| > 0
    requires var m := n.arg.value.items[0];
      IsSumNode(m) && SumBinder(env, m).Ok? && m.arg.Some? && |m.arg.value.items| > 0
    requires var b := SumBinder(env, n).value;
      b.lo < b.hi && |tss| == b.hi - b.lo && AllRowsScalar(tss)
    requires var b := SumBinder(env, n).value;
      var m := n.arg.value.items[0];
      var c := SumBinder(env, m).value;
      c.lo < c.hi &&
      forall k :: 0 <= k < |tss| ==>
        (|tss[k]| == c.hi - c.lo &&
         forall l :: 0 <= l < |tss[k]| ==>
           Parse(env, m.arg.value.items[0],
             IterationScope(c.index, c.lo + l + 1, IterationScope(b.index, b.lo + k + 1, scope))) == Ok(tss[k][l]))
    ensures Parse(env, n, scope).Ok? && IsScalar(Parse(env, n, scope).value)
    ensures forall v :: ScalarValue(Parse(env, n, scope).value, v) == DoubleSumOf(tss, v)
  {
    var b := SumBinder(env, n).value;
    var ts := RowValues(env, n.arg.value.items[0], b.index, b.lo, scope, tss);
    SumIsFold(env, n, scope, ts);
    SumOfRowSums(tss, ts);
  }

  /** The values of an inner sum for each outer iteration, one per row of
      the table of its bodies' values. */
  lemma {:induction false} RowValues(env: Env, m: Node, idx: string, lo: int, scope: map<string, int>, tss: seq<seq<Term>>)
    returns (ts: seq<Term>)
    requires IsSumNode(m) && SumBinder(env, m).Ok? && m.arg.Some? && |m.arg.value.items| > 0
    requires AllRowsScalar(tss)
    requires var c := SumBinder(env, m).value;
      c.lo < c.hi &&
      forall k :: 0 <= k < |tss| ==>
        (|tss[k]| == c.hi - c.lo &&
         forall l :: 0 <= l < |tss[k]| ==>
           Parse(env, m.arg.value.items[0],
             IterationScope(c.index, c.lo + l + 1, IterationScope(idx, lo + k + 1, scope))) == Ok(tss[k][l]))
    ensures |ts| == |tss| && AllScalar(ts)
    ensures forall k :: 0 <= k < |ts| ==> Parse(env, m, IterationScope(idx, lo + k + 1, scope)) == Ok(ts[k])
    ensures forall k, v :: 0 <= k < |ts| ==> ScalarValue(ts[k], v) == SumOf(tss[k], v)
  {
    ts := seq(|tss|, k requires 0 <= k < |tss| =>
      var r := Parse(env, m, IterationScope(idx, lo + k + 1, scope));
      if r.Ok? then r.value else Num(0.0));
    forall k | 0 <= k < |tss|
      ensures Parse(env, m, IterationScope(idx, lo + k + 1, scope)) == Ok(ts[k])
      ensures IsScalar(ts[k]) && forall v :: ScalarValue(ts[k], v) == SumOf(tss[k], v)
    {
      RowSum(env, m, IterationScope(idx, lo + k + 1, scope), tss[k]);
    }
  }

  /** The unknowns s[0], ..., s[m-1] of a one-dimensional array. */
  function Column(s: string, kind: string, m: nat): (col: seq<Term>)
    ensures |col| == m && AllScalar(col)
  {
    seq(m, k requires 0 <= k < m => Sym(Unknown(kind, s + Brackets([k]))))
  }

  /** The k-th body of sum_{i=1}^{m} s_i sees i bound to k + 1 and selects
      the unknown s[k]. */
  lemma {:induction false} VectorBody(env: Env, s: string, kind: string, m: nat, i: string, scope: map<string, int>, k: nat)
    requires s != i && s !in scope && i !in scope && k < m
    requires s in env.values && env.values[s] == Grid(s, kind, [m])
    ensures Parse(env, Node(Some(s), Some(SymNode(i)), None, None, None, None), IterationScope(i, k + 1, scope)) ==
      Ok(Sym(Unknown(kind, s + Brackets([k]))))
  {
    var body := Node(Some(s), Some(SymNode(i)), None, None, None, None);
    var sc := IterationScope(i, k + 1, scope);
    assert i in sc && sc[i] == k + 1 && s !in sc;
    assert Parse(env, SymNode(i), sc) == Ok(Num((k + 1) as real));
    assert IsInteger((k + 1) as real) && ((k + 1) as real).Floor == k + 1;
    Subscript(env, body, sc);
    GridAt(s, kind, [m], [k]);
    IndexPathAppend(Grid(s, kind, [m]), [], k);
    assert [] + [k] == [k];
  }

  /** sum_{i=1}^{m} s_i over a declared array of size m denotes the sum of
      all its unknowns. */
  lemma {:induction false} SumOverVector(env: Env, s: string, kind: string, m: nat, i: string, scope: map<string, int>)
    requires s != i && s !in scope && i !in scope && m >= 1
    requires s in env.values && env.values[s] == Grid(s, kind, [m])
    ensures var n := SumNode(i, NumNode(1.0), NumNode(m as real), Node(Some(s), Some(SymNode(i)), None, None, None, None));
      Parse(env, n, scope).Ok? && IsScalar(Parse(env, n, scope).value) &&
      forall v :: ScalarValue(Parse(env, n, scope).value, v) == SumOf(Column(s, kind, m), v)
  {
    var body := Node(Some(s), Some(SymNode(i)), None, None, None, None);
    var n := SumNode(i, NumNode(1.0), NumNode(m as real), body);
    assert BinderShape(n) && StartBound(n) == NumNode(1.0);
    assert Parse(env, NumNode(1.0), map[]) == Ok(Num((1 as int) as real));
    assert Parse(env, NumNode(m as real), map[]) == Ok(Num(m as real));
    IntegralBounds(env, n, 1, m);
    var col := Column(s, kind, m);
    forall k | 0 <= k < m
      ensures Parse(env, body, IterationScope(i, 0 + k + 1, scope)) == Ok(col[k])
    {
      VectorBody(env, s, kind, m, i, scope, k);
    }
    SumIsFold(env, n, scope, col);
  }
}
