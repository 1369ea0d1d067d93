/** The evaluator's environment: what Parser.__init__ builds from the
    variable and constant declarations (mathjson2qubo/parser.py:50-100).
    Each declared symbol becomes an attribute of the parser object; the model
    keeps them in a map from symbol to value. A later declaration of a symbol
    replaces an earlier one, and constants are declared after variables. */
module Environment {
  import opened Errors
  import opened Terms

  /** The `size` field of a variable declaration: a JSON int, a list, or
      anything else. */
  datatype Size = IntSize(n: int) | ListSize(dims: seq<int>) | OtherSize

  datatype Variable = Variable(symbol: string, dimension: int, kind: string, size: Size)

  /** A number or a nested list of numbers, as given for an array constant. */
  datatype NumTree = Leaf(x: real) | Branch(items: seq<NumTree>)

  /** The `values` field of a constant declaration. */
  datatype Values = Number(x: real) | Listed(items: seq<NumTree>) | OtherValues

  datatype Constant = Constant(symbol: string, values: Values)

  /** The parser's state after construction: the kind of the first variable
      (later used to choose QUBO or Ising form) and the declared symbols. */
  datatype Env = Env(vartype: string, values: map<string, Term>)

  /** Decimal digits of a natural number, as Python's str() writes them. */
  function NatToString(n: nat): (s: string)
    ensures |s| > 0
    ensures forall i :: 0 <= i < |s| ==> '0' <= s[i] <= '9'
  {
    var d := ((n % 10) + '0' as int) as char;
    if n < 10 then [d] else NatToString(n / 10) + [d]
  }

  /** One unknown of an array: Spin for kind "SPIN", Binary otherwise. */
  function Unknown(kind: string, name: string): Express {
    if kind == "SPIN" then Spin(name) else Binary(name)
  }

  /** The bracketed suffix that names one element of a pyqubo array. */
  function Brackets(path: seq<nat>): string {
    if path == [] then "" else "[" + NatToString(path[0]) + "]" + Brackets(path[1..])
  }

  /** A pyqubo array of the given shape whose elements are unknowns named
      `name[i][j]...`; a non-positive extent gives an empty level. */
  function Grid(name: string, kind: string, shape: seq<int>): Term
    decreases |shape|, 1, 0
  {
    if shape == [] then Sym(Unknown(kind, name))
    else Arr(GridRow(name, kind, shape, 0))
  }

  function GridRow(name: string, kind: string, shape: seq<int>, i: nat): (row: seq<Term>)
    requires shape != []
    ensures |row| == if shape[0] <= i then 0 else shape[0] - i
    ensures forall k :: 0 <= k < |row| ==>
      row[k] == Grid(name + Brackets([i + k]), kind, shape[1..])
    decreases |shape|, 0, if shape[0] <= i then 0 else shape[0] - i
  {
    if shape[0] <= i then []
    else
      assert Brackets([i]) == "[" + NatToString(i) + "]" + Brackets([]);
      [Grid(name + Brackets([i]), kind, shape[1..])] + GridRow(name, kind, shape, i + 1)
  }

  /** pyqubo's Array.create; it is taken to accept only the two kinds. */
  function ArrayCreate(name: string, shape: seq<int>, kind: string): Result<Term> {
    if kind != "SPIN" && kind != "BINARY" then Err(Raised("ValueError"))
    else Ok(Grid(name, kind, shape))
  }

  /** What one variable declaration binds its symbol to, or why it is
      rejected (mathjson2qubo/parser.py:58-91). */
  function VariableValue(v: Variable): Result<Term> {
    if |v.symbol| != 1 then Err(Code(SymbolNotOneCharacter))
    else if v.dimension == 0 then Ok(Sym(Unknown(v.kind, v.symbol)))
    else if v.dimension == 1 then
      match v.size
      case IntSize(n) => ArrayCreate(v.symbol, [n], v.kind)
      case _ => Err(Code(OneDimensionNeedsIntSize))
    else if v.dimension >= 2 then
      match v.size
      case ListSize(dims) => ArrayCreate(v.symbol, dims, v.kind)
      case _ => Err(Code(ManyDimensionsNeedListSize))
    else Err(Code(NegativeDimension))
  }

  /** np.array of a nested list. */
  function TreeTerm(t: NumTree): Term {
    match t
    case Leaf(x) => Num(x)
    case Branch(items) => Arr(seq(|items|, i requires 0 <= i < |items| => TreeTerm(items[i])))
  }

  /** What one constant declaration binds its symbol to
      (mathjson2qubo/parser.py:96-100). A value that is neither a number nor a
      list leaves `const` as it was: the previous constant's value, or, for the
      first constant, a name the exec'd assignment cannot find (NameError). */
  function ConstantValue(c: Constant, previous: Option<Term>): Result<Term> {
    match c.values
    case Number(x) => Ok(Num(x))
    case Listed(items) => Ok(Arr(seq(|items|, i requires 0 <= i < |items| => TreeTerm(items[i]))))
    case OtherValues =>
      if previous.Some? then Ok(previous.value) else Err(Raised("NameError"))
  }

  /** The variables loop as a left fold: the first rejected declaration
      decides the error. */
  function DeclareVariables(vs: seq<Variable>): Result<map<string, Term>>
    decreases |vs|
  {
    if vs == [] then Ok(map[])
    else
      var m :- DeclareVariables(vs[..|vs| - 1]);
      var t :- VariableValue(vs[|vs| - 1]);
      Ok(m[vs[|vs| - 1].symbol := t])
  }

  /** The constants loop as a left fold over a map already holding the
      variables; it also yields the loop's final `const`. */
  function DeclareConstants(m: map<string, Term>, cs: seq<Constant>): Result<(map<string, Term>, Option<Term>)>
    decreases |cs|
  {
    if cs == [] then Ok((m, None))
    else
      var (m', last) :- DeclareConstants(m, cs[..|cs| - 1]);
      var t :- ConstantValue(cs[|cs| - 1], last);
      Ok((m'[cs[|cs| - 1].symbol := t], Some(t)))
  }

  /** Parser(variables, constants) as a value. */
  function Init(vs: seq<Variable>, cs: seq<Constant>): Result<Env> {
    if |vs| == 0 then Err(Code(VariableRequired))
    else
      var m :- DeclareVariables(vs);
      var (m', _) :- DeclareConstants(m, cs);
      Ok(Env(vs[0].kind, m'))
  }

  /** Parser.__init__: one pass over the variables, then one over the
      constants, stopping at the first rejected declaration. */
  method NewParser(vs: seq<Variable>, cs: seq<Constant>) returns (r: Result<Env>)
    ensures r == Init(vs, cs)
  {
    if |vs| == 0 {
      return Err(Code(VariableRequired));
    }
    var vartype := vs[0].kind;
    var values: map<string, Term> := map[];
    var i := 0;
    while i < |vs|
      invariant 0 <= i <= |vs|
      invariant DeclareVariables(vs[..i]) == Ok(values)
    {
      assert vs[..i + 1][..i] == vs[..i];
      var t := VariableValue(vs[i]);
      if t.Err? {
        VariablesErrorPersists(vs, i + 1);
        return Err(t.error);
      }
      values := values[vs[i].symbol := t.value];
      i := i + 1;
    }
    assert vs[..i] == vs;
    var last: Option<Term> := None;
    var j := 0;
    while j < |cs|
      invariant 0 <= j <= |cs|
      invariant DeclareVariables(vs) == Ok(DeclaredBy(vs))
      invariant DeclareConstants(DeclaredBy(vs), cs[..j]) == Ok((values, last))
    {
      assert cs[..j + 1][..j] == cs[..j];
      var t := ConstantValue(cs[j], last);
      if t.Err? {
        ConstantsErrorPersists(DeclaredBy(vs), cs, j + 1);
        return Err(t.error);
      }
      values := values[cs[j].symbol := t.value];
      last := Some(t.value);
      j := j + 1;
    }
    assert cs[..j] == cs;
    r := Ok(Env(vartype, values));
  }

  /** The map the variables loop builds when every declaration is accepted. */
  function DeclaredBy(vs: seq<Variable>): map<string, Term> {
    var m := DeclareVariables(vs);
    if m.Ok? then m.value else map[]
  }

  lemma {:induction false} VariablesErrorPersists(vs: seq<Variable>, i: nat)
    requires i <= |vs| && DeclareVariables(vs[..i]).Err?
    ensures DeclareVariables(vs) == DeclareVariables(vs[..i])
    decreases |vs| - i
  {
    if i < |vs| {
      assert vs[..i + 1][..i] == vs[..i];
      VariablesErrorPersists(vs, i + 1);
    } else {
      assert vs[..i] == vs;
    }
  }

  lemma {:induction false} ConstantsErrorPersists(m: map<string, Term>, cs: seq<Constant>, j: nat)
    requires j <= |cs| && DeclareConstants(m, cs[..j]).Err?
    ensures DeclareConstants(m, cs) == DeclareConstants(m, cs[..j])
    decreases |cs| - j
  {
    if j < |cs| {
      assert cs[..j + 1][..j] == cs[..j];
      ConstantsErrorPersists(m, cs, j + 1);
    } else {
      assert cs[..j] == cs;
    }
  }

  /** The name of an element is the name of its row followed by the rest. */
  lemma BracketsCons(name: string, path: seq<nat>)
    requires path != []
    ensures name + Brackets(path) == name + Brackets([path[0]]) + Brackets(path[1..])
  {
    assert Brackets([path[0]]) == "[" + NatToString(path[0]) + "]" by {
      assert [path[0]][1..] == [];
    }
  }

  /** Element path of a declared array: along every dimension the 0-based
      index selects the unknown named `symbol[i][j]...`. */
  lemma {:induction false} GridAt(name: string, kind: string, shape: seq<int>, path: seq<nat>)
    requires |path| == |shape|
    requires forall d :: 0 <= d < |shape| ==> path[d] < shape[d]
    ensures IndexPath(Grid(name, kind, shape), path) == Ok(Sym(Unknown(kind, name + Brackets(path))))
    decreases |shape|
  {
    if shape == [] {
      assert name + Brackets(path) == name;
    } else {
      var row := GridRow(name, kind, shape, 0);
      var inner := name + Brackets([path[0]]);
      assert Index(Grid(name, kind, shape), path[0]) == Ok(Grid(inner, kind, shape[1..]));
      assert IndexPath(Grid(name, kind, shape), path) == IndexPath(Grid(inner, kind, shape[1..]), path[1..]);
      assert forall d :: 0 <= d < |shape[1..]| ==> path[1..][d] < shape[1..][d] by {
        forall d | 0 <= d < |shape[1..]| ensures path[1..][d] < shape[1..][d] {
          assert path[1..][d] == path[d + 1] && shape[1..][d] == shape[d + 1];
        }
      }
      GridAt(inner, kind, shape[1..], path[1..]);
      BracketsCons(name, path);
    }
  }

  /** A one-dimensional array of size n has n elements; index n (surface
      subscript n + 1) is out of range. */
  lemma GridRowLength(name: string, kind: string, n: nat)
    ensures Grid(name, kind, [n]).Arr? && |Grid(name, kind, [n]).elems| == n
    ensures Index(Grid(name, kind, [n]), n) == Err(Code(IndexOutOfRange))
  {
  }

  /** Construction fails on an empty variable list with code 1001, and
      otherwise at the first rejected variable with that variable's error:
      1002 for a symbol that is not one character, 1003 for a negative
      dimension, 1004 for dimension 1 without an int size, 1005 for a larger
      dimension without a list size. */
  lemma {:induction false} InitRejects(vs: seq<Variable>, cs: seq<Constant>, k: nat)
    requires k < |vs|
    requires forall j :: 0 <= j < k ==> VariableValue(vs[j]).Ok?
    requires VariableValue(vs[k]).Err?
    ensures Init([], cs) == Err(Code(VariableRequired))
    ensures Init(vs, cs) == Err(VariableValue(vs[k]).error)
    ensures |vs[k].symbol| != 1 ==> Init(vs, cs) == Err(Code(SymbolNotOneCharacter))
    ensures |vs[k].symbol| == 1 && vs[k].dimension < 0 ==> Init(vs, cs) == Err(Code(NegativeDimension))
    ensures |vs[k].symbol| == 1 && vs[k].dimension == 1 && !vs[k].size.IntSize? ==>
      Init(vs, cs) == Err(Code(OneDimensionNeedsIntSize))
    ensures |vs[k].symbol| == 1 && vs[k].dimension >= 2 && !vs[k].size.ListSize? ==>
      Init(vs, cs) == Err(Code(ManyDimensionsNeedListSize))
  {
    VariablesPrefixOk(vs, k);
    var m := DeclareVariables(vs[..k]).value;
    assert vs[..k + 1][..k] == vs[..k];
    assert DeclareVariables(vs[..k + 1]) == Err(VariableValue(vs[k]).error);
    VariablesErrorPersists(vs, k + 1);
  }

  lemma {:induction false} VariablesPrefixOk(vs: seq<Variable>, k: nat)
    requires k <= |vs|
    requires forall j :: 0 <= j < k ==> VariableValue(vs[j]).Ok?
    ensures DeclareVariables(vs[..k]).Ok?
  {
    if k > 0 {
      VariablesPrefixOk(vs, k - 1);
      assert vs[..k][..k - 1] == vs[..k - 1];
    }
  }

  lemma {:induction false} VariablesOkOnlyIfAllOk(vs: seq<Variable>, j: nat)
    requires j < |vs| && DeclareVariables(vs).Ok?
    ensures VariableValue(vs[j]).Ok?
    decreases |vs|
  {
    var p := vs[..|vs| - 1];
    if j < |vs| - 1 {
      assert p[j] == vs[j];
      VariablesOkOnlyIfAllOk(p, j);
    }
  }

  /** The constants loop fails exactly when the first constant has a value
      that is neither a number nor a list. */
  lemma {:induction false} ConstantsOk(m: map<string, Term>, cs: seq<Constant>)
    ensures DeclareConstants(m, cs).Ok? <==> (|cs| > 0 ==> !cs[0].values.OtherValues?)
    ensures DeclareConstants(m, cs).Ok? && |cs| > 0 ==> DeclareConstants(m, cs).value.1.Some?
    decreases |cs|
  {
    if |cs| > 1 {
      var p := cs[..|cs| - 1];
      assert p[0] == cs[0];
      ConstantsOk(m, p);
    } else if |cs| == 1 {
      assert cs[..0] == [];
    }
  }

  /** A later constant that is neither a number nor a list rebinds its symbol
      to the value of the constant before it. */
  lemma ConstantsReuse(m: map<string, Term>, cs: seq<Constant>, c: Constant)
    requires cs != [] && DeclareConstants(m, cs).Ok? && c.values.OtherValues?
    ensures DeclareConstants(m, cs + [c]).Ok?
    ensures DeclareConstants(m, cs + [c]).value.0 ==
      DeclareConstants(m, cs).value.0[c.symbol := DeclareConstants(m, cs).value.1.value]
  {
    ConstantsOk(m, cs);
    assert (cs + [c])[..|cs + [c]| - 1] == cs;
  }

  /** Construction succeeds exactly when there is a variable, every variable
      is accepted and the first constant (if any) is a number or a list. */
  lemma InitSucceeds(vs: seq<Variable>, cs: seq<Constant>)
    ensures Init(vs, cs).Ok? <==>
      |vs| > 0 && (forall j :: 0 <= j < |vs| ==> VariableValue(vs[j]).Ok?) &&
      (|cs| > 0 ==> !cs[0].values.OtherValues?)
    ensures Init(vs, cs).Ok? ==> Init(vs, cs).value.vartype == vs[0].kind
  {
    if |vs| > 0 {
      if forall j :: 0 <= j < |vs| ==> VariableValue(vs[j]).Ok? {
        VariablesPrefixOk(vs, |vs|);
        assert vs[..|vs|] == vs;
        ConstantsOk(DeclareVariables(vs).value, cs);
      } else if DeclareVariables(vs).Ok? {
        var j :| 0 <= j < |vs| && !VariableValue(vs[j]).Ok?;
        VariablesOkOnlyIfAllOk(vs, j);
      }
    }
  }

  /** Index k holds the last declaration of symbol s. */
  predicate LastVariable(vs: seq<Variable>, k: int, s: string) {
    0 <= k < |vs| && vs[k].symbol == s && forall j :: k < j < |vs| ==> vs[j].symbol != s
  }

  predicate LastConstant(cs: seq<Constant>, k: int, s: string) {
    0 <= k < |cs| && cs[k].symbol == s && forall j :: k < j < |cs| ==> cs[j].symbol != s
  }

  /** One step of the variables fold. */
  lemma VariablesStep(vs: seq<Variable>)
    requires vs != [] && DeclareVariables(vs).Ok?
    ensures DeclareVariables(vs[..|vs| - 1]).Ok? && VariableValue(vs[|vs| - 1]).Ok?
    ensures DeclareVariables(vs).value ==
      DeclareVariables(vs[..|vs| - 1]).value[vs[|vs| - 1].symbol := VariableValue(vs[|vs| - 1]).value]
  {
  }

  /** The variables loop binds exactly the declared symbols. */
  lemma {:induction false} VariablesDeclare(vs: seq<Variable>, s: string)
    requires DeclareVariables(vs).Ok?
    ensures s in DeclareVariables(vs).value <==> exists j :: 0 <= j < |vs| && vs[j].symbol == s
    decreases |vs|
  {
    if vs != [] {
      VariablesStep(vs);
      VariablesDeclare(vs[..|vs| - 1], s);
      if vs[|vs| - 1].symbol != s {
        ExistsInPrefix(vs, s);
      }
    }
  }

  /** The last variable of a symbol decides its value. */
  lemma {:induction false} VariablesLast(vs: seq<Variable>, s: string, k: nat)
    requires DeclareVariables(vs).Ok? && LastVariable(vs, k, s)
    ensures VariableValue(vs[k]).Ok?
    ensures s in DeclareVariables(vs).value && DeclareVariables(vs).value[s] == VariableValue(vs[k]).value
    decreases |vs|
  {
    var n := |vs| - 1;
    VariablesStep(vs);
    if k < n {
      var p := vs[..n];
      assert LastVariable(p, k, s) by {
        forall j | k < j < |p| ensures p[j].symbol != s { assert p[j] == vs[j]; }
      }
      assert p[k] == vs[k];
      VariablesLast(p, s, k);
    }
  }

  lemma VariablesBind(vs: seq<Variable>, s: string)
    requires DeclareVariables(vs).Ok?
    ensures s in DeclareVariables(vs).value <==> exists j :: 0 <= j < |vs| && vs[j].symbol == s
    ensures forall k :: LastVariable(vs, k, s) ==>
      VariableValue(vs[k]).Ok? &&
      s in DeclareVariables(vs).value && DeclareVariables(vs).value[s] == VariableValue(vs[k]).value
  {
    VariablesDeclare(vs, s);
    forall k | LastVariable(vs, k, s)
      ensures VariableValue(vs[k]).Ok? &&
        s in DeclareVariables(vs).value && DeclareVariables(vs).value[s] == VariableValue(vs[k]).value
    {
      VariablesLast(vs, s, k);
    }
  }

  lemma ExistsInPrefix(vs: seq<Variable>, s: string)
    requires vs != [] && vs[|vs| - 1].symbol != s
    ensures (exists j :: 0 <= j < |vs| && vs[j].symbol == s) <==>
      (var p := vs[..|vs| - 1]; exists j :: 0 <= j < |p| && p[j].symbol == s)
  {
    var p := vs[..|vs| - 1];
    if exists j :: 0 <= j < |vs| && vs[j].symbol == s {
      var j :| 0 <= j < |vs| && vs[j].symbol == s;
      assert p[j] == vs[j];
    }
    if exists j :: 0 <= j < |p| && p[j].symbol == s {
      var j :| 0 <= j < |p| && p[j].symbol == s;
      assert p[j] == vs[j];
    }
  }

  /** One step of the constants fold. */
  lemma ConstantsStep(m0: map<string, Term>, cs: seq<Constant>)
    requires cs != [] && DeclareConstants(m0, cs).Ok?
    ensures DeclareConstants(m0, cs[..|cs| - 1]).Ok?
    ensures var (m, last) := DeclareConstants(m0, cs[..|cs| - 1]).value;
      ConstantValue(cs[|cs| - 1], last).Ok? &&
      DeclareConstants(m0, cs).value.0 == m[cs[|cs| - 1].symbol := ConstantValue(cs[|cs| - 1], last).value]
  {
  }

  /** A symbol no constant names keeps what the variables gave it. */
  lemma {:induction false} ConstantsKeep(m0: map<string, Term>, cs: seq<Constant>, s: string)
    requires DeclareConstants(m0, cs).Ok?
    requires forall j :: 0 <= j < |cs| ==> cs[j].symbol != s
    ensures s in DeclareConstants(m0, cs).value.0 <==> s in m0
    ensures s in m0 ==> DeclareConstants(m0, cs).value.0[s] == m0[s]
    decreases |cs|
  {
    if cs != [] {
      var p := cs[..|cs| - 1];
      ConstantsStep(m0, cs);
      assert forall j :: 0 <= j < |p| ==> p[j] == cs[j];
      ConstantsKeep(m0, p, s);
    }
  }

  /** A symbol some constant names is bound. */
  lemma {:induction false} ConstantsDeclare(m0: map<string, Term>, cs: seq<Constant>, s: string, j: nat)
    requires DeclareConstants(m0, cs).Ok?
    requires j < |cs| && cs[j].symbol == s
    ensures s in DeclareConstants(m0, cs).value.0
    decreases |cs|
  {
    var n := |cs| - 1;
    ConstantsStep(m0, cs);
    if j < n {
      var p := cs[..n];
      assert p[j] == cs[j];
      ConstantsDeclare(m0, p, s, j);
    }
  }

  /** The last constant of a symbol decides its value. */
  lemma {:induction false} ConstantsLast(m0: map<string, Term>, cs: seq<Constant>, s: string, k: nat)
    requires DeclareConstants(m0, cs).Ok?
    requires LastConstant(cs, k, s) && !cs[k].values.OtherValues?
    ensures s in DeclareConstants(m0, cs).value.0
    ensures DeclareConstants(m0, cs).value.0[s] == ConstantValue(cs[k], None).value
    decreases |cs|
  {
    var n := |cs| - 1;
    ConstantsStep(m0, cs);
    if k < n {
      var p := cs[..n];
      assert LastConstant(p, k, s) by {
        forall j | k < j < |p| ensures p[j].symbol != s { assert p[j] == cs[j]; }
      }
      assert p[k] == cs[k];
      ConstantsLast(m0, p, s, k);
    }
  }

  lemma ConstantsBind(m0: map<string, Term>, cs: seq<Constant>, s: string)
    requires DeclareConstants(m0, cs).Ok?
    ensures (forall j :: 0 <= j < |cs| ==> cs[j].symbol != s) ==>
      (s in DeclareConstants(m0, cs).value.0 <==> s in m0) &&
      (s in m0 ==> DeclareConstants(m0, cs).value.0[s] == m0[s])
    ensures (exists j :: 0 <= j < |cs| && cs[j].symbol == s) ==> s in DeclareConstants(m0, cs).value.0
    ensures forall k :: LastConstant(cs, k, s) && !cs[k].values.OtherValues? ==>
      s in DeclareConstants(m0, cs).value.0 &&
      DeclareConstants(m0, cs).value.0[s] == ConstantValue(cs[k], None).value
  {
    if forall j :: 0 <= j < |cs| ==> cs[j].symbol != s {
      ConstantsKeep(m0, cs, s);
    }
    if exists j :: 0 <= j < |cs| && cs[j].symbol == s {
      var j :| 0 <= j < |cs| && cs[j].symbol == s;
      ConstantsDeclare(m0, cs, s, j);
    }
    forall k | LastConstant(cs, k, s) && !cs[k].values.OtherValues?
      ensures s in DeclareConstants(m0, cs).value.0 &&
        DeclareConstants(m0, cs).value.0[s] == ConstantValue(cs[k], None).value
    {
      ConstantsLast(m0, cs, s, k);
    }
  }

  /** After construction a symbol is bound exactly when some declaration
      names it; the last constant of that symbol wins over everything, and
      with no constant the last variable of that symbol wins. */
  lemma InitLookup(vs: seq<Variable>, cs: seq<Constant>, env: Env, s: string)
    requires Init(vs, cs) == Ok(env)
    ensures s in env.values <==>
      (exists j :: 0 <= j < |vs| && vs[j].symbol == s) || (exists j :: 0 <= j < |cs| && cs[j].symbol == s)
    ensures forall k :: LastConstant(cs, k, s) && !cs[k].values.OtherValues? ==>
      s in env.values && env.values[s] == ConstantValue(cs[k], None).value
    ensures (forall j :: 0 <= j < |cs| ==> cs[j].symbol != s) ==>
      forall k :: LastVariable(vs, k, s) ==>
        VariableValue(vs[k]).Ok? && s in env.values && env.values[s] == VariableValue(vs[k]).value
  {
    var m := DeclareVariables(vs).value;
    VariablesBind(vs, s);
    ConstantsBind(m, cs, s);
  }

  /** A single scalar declaration binds its symbol to one Spin for kind
      "SPIN" and to one Binary for any other kind. */
  lemma ScalarDeclaration(v: Variable)
    requires |v.symbol| == 1 && v.dimension == 0
    ensures Init([v], []) == Ok(Env(v.kind, map[v.symbol :=
      Sym(if v.kind == "SPIN" then Spin(v.symbol) else Binary(v.symbol))]))
  {
    assert [v][..0] == [];
    assert DeclareVariables([v]) == Ok(map[v.symbol := Sym(Unknown(v.kind, v.symbol))]);
    assert DeclareConstants(map[v.symbol := Sym(Unknown(v.kind, v.symbol))], []).Ok?;
  }
}
