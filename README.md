# mathjson2qubo in Dafny

This project models the core of mathjson2qubo. That library turns a cost
function written as MathJSON (a JSON encoding of formulas, with `sym`,
`num`, `fn`, `arg`, `sub` and `sup` keys) into a pyqubo expression, and
turns pyqubo's QUBO output into a square coefficient matrix. The model has
two halves:

- **The parser** (`mathjson2qubo/parser.py`).
  - `Parser.__init__` builds an environment from variable and constant
    declarations and fails with codes 1001–1005.
  - `parse_mathjson` walks a MathJSON tree. It dispatches on `sym` > `num` > `fn`.
  - It evaluates subscripts (codes 6001, 3001, 3002) and superscripts
    (7001–7003).
  - It applies the function table `add`, `multiply`, `subtract`, `divide`
    (5001), `negate` and `list`.
  - It expands `sum` nodes (4001–4006) into the left fold of their bodies.
    Each body is evaluated in the scope `dict({idx: i + 1}, **index)`.
- **The assembler** (`mathjson2qubo/model.py`).
  - It reduces a tuple of coefficient dicts and numbers to a label set, a
    pair-keyed coefficient dict and a constant.
  - It numbers the labels in the order of a numeric-aware sort key, so
    `x[2]` comes before `x[10]`.
  - It writes each coefficient symmetrically into a zero-initialised
    n-by-n matrix. A later write overwrites an earlier one.

Modules, one file each:

| file | module | models |
|---|---|---|
| `errors.dfy` | `Errors` | `Option`, the error type (`Code(n)` for the library's numbered errors, `Raised(name)` for the Python exceptions the code lets escape, `Unmodelled(what)` for pyqubo/numpy results outside the model), `Result` |
| `terms.dfy` | `Terms` | the values the evaluator computes with: floats, int lists, pyqubo expressions, arrays; Python's `+ * - / ** int()` and indexing on them |
| `environment.dfy` | `Environment` | `Parser.__init__`: the method `NewParser` with its two loops, specified by the function `Init` |
| `evaluator.dfy` | `Evaluator` | `parse_mathjson`, `_sub`, `_sup`, `_fn_sum`, `funcs` and the `_fn_*` table, as mutually recursive functions |
| `dicts.dfy` | `Dicts` | a Python dict as an insertion-ordered association list: `d[k] = v`, `d[k]`, `d.update(e)` |
| `labels.dfy` | `Labels` | `_make_stracture`, `_sort_label`, `_make_new_label2index_sorted`: the `\w+` tokeniser, the sort key and its order, the label index |
| `assembly.dfy` | `Assembly` | `_make_label_quadratic_from_dict`, `_make_label_quadratic_from_tuple`, `_make_mat_from_l_quad`, `make_model_from_tuple` |

The parser code is pure after construction, so it is modelled as functions
over an environment value. A scope `None` and an empty dict behave the same
in the code, so the scope is one `map<string, int>`. The loops of
`__init__` and of model.py are methods with loop invariants. Each method is
proved against a specification function or a direct characterisation of
its result. `_make_mat_from_l_quad` fills an `array2<real>`.

Some behaviours of the code are modelled as written:

- A sum's bounds are evaluated without the current scope
  (`mathjson2qubo/parser.py:161-162`).
- So are exponents (`mathjson2qubo/parser.py:246`, where `_sup` gets no scope).
- Inside a nested sum, a bound or an exponent that uses an outer index is
  code 3001, unless that symbol is also declared.
- A subscript of 0 becomes index −1. Python then takes the last element,
  so `x_0` on an array of size m is `x[m-1]` rather than an error.
- `subtract` and `divide` ignore any argument after the second. With fewer
  than two arguments they raise a raw IndexError, not a numbered error.

## Model

| member | source | states |
|---|---|---|
| Environment.Init | mathjson2qubo/parser.py:50-100 | definition of construction; characterised by InitRejects, InitSucceeds and InitLookup, and computed by NewParser |
| Environment.VariableValue | mathjson2qubo/parser.py:58-91 | definition of one variable declaration; characterised by InitRejects, ScalarDeclaration, GridAt and GridRowLength |
| Environment.DeclareVariables | mathjson2qubo/parser.py:57-92 | definition of the variables loop; characterised by VariablesBind, VariablesDeclare, VariablesLast, VariablesPrefixOk, VariablesOkOnlyIfAllOk and VariablesErrorPersists |
| Environment.ConstantValue | mathjson2qubo/parser.py:96-100 | definition of one constant declaration; characterised by ConstantsOk, ConstantsReuse and ConstantsLast |
| Environment.DeclareConstants | mathjson2qubo/parser.py:95-100 | definition of the constants loop; characterised by ConstantsOk, ConstantsReuse, ConstantsBind, ConstantsKeep, ConstantsDeclare, ConstantsLast and ConstantsErrorPersists |
| Terms.Plus | mathjson2qubo/parser.py:114 | `a + b`: two scalars give a scalar whose value is the sum, two floats a float; two int lists concatenate; an int list with a non-list is a TypeError |
| Terms.Times | mathjson2qubo/parser.py:117 | `a * b`: two scalars give a scalar whose value is the product, two floats a float; any int list operand is a TypeError |
| Terms.Minus | mathjson2qubo/parser.py:120 | `a - b`: two scalars give a scalar whose value is the difference, two floats a float; any int list operand is a TypeError |
| Terms.Negated | mathjson2qubo/parser.py:129 | `-a`: a scalar gives a scalar with the negated value; an int list is a TypeError |
| Terms.Truncated | mathjson2qubo/parser.py:132 | `int(a)`: a float gives its truncation toward zero; an int list or an expression is a TypeError |
| Terms.IndexPath | mathjson2qubo/parser.py:211 | definition of tuple indexing; characterised by IndexPathAppend and GridAt |
| Evaluator.Parse | mathjson2qubo/parser.py:219-254 | definition of `parse_mathjson`; characterised by Priority, SymbolLookup, LiteralAndMalformed, FunctionCall, FunctionCallFails, Subscript, Superscript and ParseSum |
| Evaluator.Base | mathjson2qubo/parser.py:219-243 | definition of a node's value before its superscript; characterised by Priority, SymbolLookup, LiteralAndMalformed and FunctionCall |
| Evaluator.Sub | mathjson2qubo/parser.py:200-217 | definition of `_sub`; characterised by Subscript, VectorIndex and VectorElement |
| Evaluator.Sup | mathjson2qubo/parser.py:186-198 | definition of `_sup`; characterised by Superscript, Square and ExponentIgnoresScope |
| Evaluator.SumBinder | mathjson2qubo/parser.py:134-175 | definition of a sum's header checks and range; characterised by SumChecks, SumBounds, IntegralBounds, SumHeaderIgnoresScope and BoundSeesNoIndex |
| Evaluator.IterationScope | mathjson2qubo/parser.py:180-183 | definition of one iteration's scope; characterised by OuterScopeWins |
| Evaluator.EvalBodies | mathjson2qubo/parser.py:177-184 | definition of the bodies over the range; characterised by EvalBodiesAll, EvalBodiesFrom and ShadowedBodies |
| Evaluator.SumFn | mathjson2qubo/parser.py:134-184 | definition of `_fn_sum`; characterised by SumIsFold, EmptySum, ShadowedSum, DoubleSum and SumOverVector |
| Evaluator.Reduce | mathjson2qubo/parser.py:113-117 | definition of `functools.reduce` without an initial value; characterised by PlusFoldIsSum, TimesFoldIsProduct, PlusFoldConcatenates, AddIsSum, MultiplyIsProduct and EmptySum |
| Evaluator.EvalArgs | mathjson2qubo/parser.py:240-242 | definition of the argument list; characterised by EvalArgsAll and EvalArgsFirstError |
| Dicts.Put | mathjson2qubo/model.py:21-25 | definition of `d[k] = v`; characterised by PutGet, PutKeys, PutSame and PutOther |
| Dicts.Update | mathjson2qubo/model.py:37 | definition of `d.update(e)`; characterised by UpdateGet and UpdateSnoc |
| Labels.Tokenize | mathjson2qubo/model.py:72-73 | definition of a label's sort key; characterised by Runs, RunsJoin, RunsSplit, ArrayLabelKey, WordExample and NumericAwareOrder |
| Labels.KeyLess | mathjson2qubo/model.py:65 | definition of tuple comparison on keys; characterised by KeyLessIrreflexive, KeyLessTransitive, KeyLessTotal and NumericAwareOrder |
| Labels.SortByKey | mathjson2qubo/model.py:65 | definition of `sorted(..., key=...)`; characterised by InsertSorted and SortByKeyCorrect |
| Labels.Enumerate | mathjson2qubo/model.py:60 | definition of the enumeration dict; characterised by EnumerateKeys, EnumerateAt and EnumeratePositions |
| Assembly.DictQuadratic | mathjson2qubo/model.py:15-27 | definition of one dict's coefficients; characterised by DictQuadraticStep, DictQuadraticKeys, DictQuadraticHas, DictQuadraticLast and DictQuadraticLookup |
| Assembly.Merged | mathjson2qubo/model.py:34-38 | definition of the merged coefficients; characterised by MergedDistinct, MergedKeys, MergedLast, MergedLookup and MergedLabels |
| Assembly.NumberSum | mathjson2qubo/model.py:39-40 | definition of the constant; characterised by TupleStep and LabelQuadraticFromTuple |
| Assembly.Cell | mathjson2qubo/model.py:49-54 | definition of a matrix cell; characterised by CellStep, CellSymmetric, CellUntouched, CellLastWrite and OverwriteExample, and computed by FillMatrix |
| Environment.NewParser | mathjson2qubo/parser.py:50-100 | the constructor's two loops compute exactly `Init`: 1001 on no variables, else the first rejected variable's error, else the first constant error, else the environment |
| Environment.InitRejects | mathjson2qubo/parser.py:51-91 | with no variables the result is code 1001; the first rejected variable decides the error: 1002 for a symbol not one character long, 1003 for a negative dimension, 1004 for dimension 1 without an int size, 1005 for dimension ≥ 2 without a list size |
| Environment.InitSucceeds | mathjson2qubo/parser.py:51-100 | construction succeeds exactly when there is a variable, every variable is accepted and the first constant is a number or a list; `vartype` is the first variable's type |
| Environment.InitLookup | mathjson2qubo/parser.py:92-100 | after construction a symbol is bound exactly when some declaration names it; the last constant of a symbol wins over any variable of it; without a constant the last variable wins |
| Environment.ConstantsOk | mathjson2qubo/parser.py:95-100 | the constants loop fails exactly when the first constant is neither a number nor a list, with NameError, because the exec'd assignment finds no `const`; after a success with at least one constant there is a last value |
| Environment.ConstantsReuse | mathjson2qubo/parser.py:95-100 | a later constant that is neither a number nor a list succeeds and binds its symbol to the previous constant's value |
| Environment.VariablesBind | mathjson2qubo/parser.py:57-92 | the variables loop binds exactly the declared symbols, each to the value of its last declaration |
| Environment.VariablesDeclare | mathjson2qubo/parser.py:57-92 | a symbol is bound by the variables loop exactly when some declaration names it |
| Environment.VariablesLast | mathjson2qubo/parser.py:57-92 | a symbol holds the value of the last declaration naming it, so a redeclaration overwrites |
| Environment.ConstantsBind | mathjson2qubo/parser.py:95-100 | the constants loop keeps symbols no constant names and binds each constant symbol to its last declaration's value |
| Environment.ConstantsKeep | mathjson2qubo/parser.py:95-100 | a symbol no constant names keeps its variable binding or stays unbound |
| Environment.ConstantsDeclare | mathjson2qubo/parser.py:95-100 | every symbol some constant names is bound after the loop |
| Environment.ConstantsLast | mathjson2qubo/parser.py:95-100 | a symbol whose last constant is a number or a list holds that constant's value, replacing a variable of the same name |
| Environment.VariablesErrorPersists | mathjson2qubo/parser.py:57-91 | once a variable is rejected the loop's result is that error, whatever follows |
| Environment.ConstantsErrorPersists | mathjson2qubo/parser.py:95-100 | once a constant fails the loop's result is that error, whatever follows |
| Environment.VariablesPrefixOk | mathjson2qubo/parser.py:57-92 | a prefix of accepted variables is declared without error |
| Environment.VariablesOkOnlyIfAllOk | mathjson2qubo/parser.py:57-92 | the variables loop succeeds only when every declaration is accepted |
| Environment.ScalarDeclaration | mathjson2qubo/parser.py:63-67 | a dimension-0 variable is one Spin for type "SPIN" and one Binary for any other type |
| Environment.GridAt | mathjson2qubo/parser.py:68-82 | the element of a declared array at an in-range 0-based path is the unknown named `x[i][j]...` of the declared type |
| Environment.GridRowLength | mathjson2qubo/parser.py:68-72 | a one-dimensional array of size n has n elements, and 0-based index n is code 3002 |
| Terms.Index | mathjson2qubo/parser.py:210-217 | indexing an array with k in range gives element k; a negative k counts from the end; out of range or indexing a non-array is code 3002 |
| Terms.IndexPathAppend | mathjson2qubo/parser.py:203-211 | indexing with a tuple is indexing level by level |
| Terms.Trunc | mathjson2qubo/parser.py:204-207 | `int()` of a float truncates toward zero and is exact on integral floats |
| Terms.Quotient | mathjson2qubo/parser.py:122-126 | a zero divisor is code 5001; a nonzero float divisor divides the value |
| Terms.Power | mathjson2qubo/parser.py:198 | `base ** k`: floats by repeated product (negative k as a reciprocal, 0 to a negative power a ZeroDivisionError); an expression to k ≥ 1 has the k-th power as value |
| Evaluator.Apply | mathjson2qubo/parser.py:102-132 | a name outside the table is a KeyError; subtract/divide with fewer than two arguments are an IndexError; division by float zero is code 5001 |
| Evaluator.NegateAll | mathjson2qubo/parser.py:129 | negating every argument succeeds on scalars and yields each argument's negation |
| Evaluator.TruncateAll | mathjson2qubo/parser.py:132 | truncating every argument succeeds on floats and yields each one's `int()` |
| Evaluator.PlusFoldIsSum | mathjson2qubo/parser.py:114 | the `+` fold of scalars denotes the sum of their values |
| Evaluator.TimesFoldIsProduct | mathjson2qubo/parser.py:117 | the `*` fold of scalars denotes the product of their values |
| Evaluator.PlusFoldConcatenates | mathjson2qubo/parser.py:114 | the `+` fold of int lists is their concatenation |
| Evaluator.SumOfNegations | mathjson2qubo/parser.py:129 | the sum of the negations is the negated sum |
| Evaluator.AddIsSum | mathjson2qubo/parser.py:113-114 | `add` of no arguments is a TypeError; of scalars, their sum; of int lists, their concatenation |
| Evaluator.MultiplyIsProduct | mathjson2qubo/parser.py:116-117 | `multiply` of no arguments is a TypeError; of scalars, their product |
| Evaluator.SubtractDivideUseTwo | mathjson2qubo/parser.py:119-126 | subtract and divide depend on the first two arguments only; subtract denotes a − b; divide by a nonzero float denotes a / b |
| Evaluator.NegateIsNegatedSum | mathjson2qubo/parser.py:128-129 | `negate` of scalars denotes minus their sum |
| Evaluator.ListIsTruncation | mathjson2qubo/parser.py:131-132 | `list` of floats is the list of their truncations |
| Evaluator.SubscriptPath | mathjson2qubo/parser.py:201-209 | a list subscript is each entry minus one; an integral float k is index k − 1; anything else is code 6001 |
| Evaluator.Priority | mathjson2qubo/parser.py:220-243 | a node with `sym` evaluates as if it had no `num`, `fn` or `arg`; a node with `num` and no `sym` as if it had no `fn` or `arg` |
| Evaluator.SymbolLookup | mathjson2qubo/parser.py:221-233 | a symbol in the scope is its bound index as a float (even with a `sub`); else its declared value; else code 3001 |
| Evaluator.LiteralAndMalformed | mathjson2qubo/parser.py:234-252 | a `num` node is that float; a node without `sym`, `num` or `fn` is code 2001, and with a `sup` it fails too |
| Evaluator.EvalArgsAll | mathjson2qubo/parser.py:240-242 | arguments that all evaluate give exactly their values, in order |
| Evaluator.EvalArgsFirstError | mathjson2qubo/parser.py:240-242 | the first failing argument's error is the result |
| Evaluator.FunctionCall | mathjson2qubo/parser.py:236-243 | a non-sum `fn` node is the table entry applied to its arguments evaluated in the same scope |
| Evaluator.FunctionCallFails | mathjson2qubo/parser.py:240-243 | a failing argument makes the call fail with that argument's error, before the name is looked up |
| Evaluator.Subscript | mathjson2qubo/parser.py:200-217 | a non-integral or symbolic subscript is 6001; an undeclared symbol is 3001; otherwise the declared value indexed at k − 1 (or each list entry minus one) |
| Evaluator.VectorElement | mathjson2qubo/parser.py:207-217 | on an array of size m, `x_k` with 1 ≤ k ≤ m is the unknown `x[k-1]`; `x_(m+1)` is 3002; `x_0` is `x[m-1]` |
| Evaluator.VectorIndex | mathjson2qubo/parser.py:207-217 | `x_k` on a one-dimensional array is its element k - 1 under Python indexing |
| Evaluator.Superscript | mathjson2qubo/parser.py:186-198 | a list base is 7001; an exponent error propagates; an expression or list exponent is 7002; an expression to int(e) ≥ 3 is 7003; otherwise the base to the power int(e) |
| Evaluator.Square | mathjson2qubo/parser.py:194-198 | an expression squared denotes the square of its value |
| Evaluator.ExponentIgnoresScope | mathjson2qubo/parser.py:245-246 | an exponent naming a scope-bound index that is not declared is code 3001: the exponent does not see the scope |
| Evaluator.ParseSum | mathjson2qubo/parser.py:237-238 | a sum node goes to the sum evaluation and skips superscript handling; a failing header is the result |
| Evaluator.SumChecks | mathjson2qubo/parser.py:135-172 | the header checks in order: 4001 without `sub` or `sup`, 4002 for a non-equal `sub`, 4003 for a non-symbol index, 4004 for an equation not of two elements, bound errors start first, 4005 for a non-integral start, 4006 for a non-integral end |
| Evaluator.SumBounds | mathjson2qubo/parser.py:160-175 | an accepted header binds the index symbol to 0-based range start − 1 .. end, both bounds evaluated in the empty scope |
| Evaluator.IntegralBounds | mathjson2qubo/parser.py:160-175 | integral bounds p and q give the range p − 1 .. q |
| Evaluator.SumHeaderIgnoresScope | mathjson2qubo/parser.py:160-172 | a failing header fails the same way in every scope |
| Evaluator.BoundSeesNoIndex | mathjson2qubo/parser.py:162 | an end bound naming an outer index that is not declared is code 3001 |
| Evaluator.OuterScopeWins | mathjson2qubo/parser.py:182 | the iteration scope is the outer scope when it already binds the index, else the outer scope plus the index |
| Evaluator.EvalBodiesAll | mathjson2qubo/parser.py:177-184 | bodies that evaluate give their values in ascending index order |
| Evaluator.EvalBodiesFrom | mathjson2qubo/parser.py:177-184 | from any start of the range, bodies that evaluate give their values in index order |
| Evaluator.EmptySum | mathjson2qubo/parser.py:177-184 | an empty range is a TypeError (the fold has no first element) |
| Evaluator.SumIsFold | mathjson2qubo/parser.py:177-184 | a sum is the `+` fold of its bodies evaluated at surface indices lo + 1 .. hi, and denotes the sum of their values |
| Evaluator.ShadowedSum | mathjson2qubo/parser.py:180-183 | when the scope already binds the index, every iteration sees that binding and the sum adds copies of one body value |
| Evaluator.ShadowedBodies | mathjson2qubo/parser.py:180-183 | with the index bound outside, each iteration's body has its outer-scope value |
| Evaluator.SumOfRowSums | mathjson2qubo/parser.py:177-184 | the sum of the row sums is the double sum |
| Evaluator.DoubleSum | mathjson2qubo/parser.py:177-184 | a sum whose body is a sum denotes the double sum of the inner body, which sees both indices |
| Evaluator.RowSum | mathjson2qubo/parser.py:177-184 | an inner sum over a non-empty range of scalar bodies is the scalar sum of their values |
| Evaluator.SumOverVector | mathjson2qubo/parser.py:177-184 | `sum_{i=1}^{m} x_i` over an array of size m denotes the sum of all m unknowns |
| Dicts.IndexOf | mathjson2qubo/model.py:18-25 | the position of a present key is where it first occurs |
| Dicts.PutGet | mathjson2qubo/model.py:18-25 | `d[k] = v` keeps keys distinct and in place, appends a new key, binds k to v and leaves the others alone |
| Dicts.PutKeys | mathjson2qubo/model.py:18-25 | `d[k] = v` keeps the keys distinct and adds exactly k |
| Dicts.PutSame | mathjson2qubo/model.py:18-25 | after `d[k] = v`, k holds v |
| Dicts.PutOther | mathjson2qubo/model.py:18-25 | after `d[k] = v`, any other present key keeps its value |
| Dicts.UpdateGet | mathjson2qubo/model.py:37 | after `d.update(e)` the keys are those of d and e, e's keys hold e's values, the others keep d's |
| Dicts.UpdateSnoc | mathjson2qubo/model.py:37 | updating with one more entry is one more assignment |
| Labels.Runs | mathjson2qubo/model.py:72 | `re.findall(r"\w+")`: every run is a nonempty string of word characters |
| Labels.RunsJoin | mathjson2qubo/model.py:72 | the runs joined are exactly the word characters of the label, in order |
| Labels.RunsSplit | mathjson2qubo/model.py:72 | a non-word character separates runs |
| Labels.DigitsOfNat | mathjson2qubo/model.py:73 | `int(str(n)) == n` |
| Labels.ArrayLabelKey | mathjson2qubo/model.py:72-73 | the key of the array label `name[i][j]...` is the word `name` followed by the indices as ints |
| Labels.NumericAwareOrder | mathjson2qubo/model.py:65-73 | `x[2]` is keyed (x, 2) and `x[10]` (x, 10), and `x[2]` sorts first although the string "x[10]" is less than "x[2]" |
| Labels.WordExample | mathjson2qubo/model.py:72-73 | `x10` is keyed by the single word "x10" |
| Labels.KeyLessIrreflexive | mathjson2qubo/model.py:65 | the key order is irreflexive |
| Labels.KeyLessTransitive | mathjson2qubo/model.py:65 | the key order is transitive |
| Labels.KeyLessTotal | mathjson2qubo/model.py:65 | distinct keys are comparable |
| Labels.InsertSorted | mathjson2qubo/model.py:65 | inserting into a key-sorted list keeps it sorted |
| Labels.SortByKeyCorrect | mathjson2qubo/model.py:65 | sorting by key gives a key-sorted permutation of the items |
| Labels.MakeStructure | mathjson2qubo/model.py:69-74 | one entry per label, keys distinct, each label mapped to its key |
| Labels.SortLabel | mathjson2qubo/model.py:63-66 | every label exactly once, in ascending key order |
| Labels.EnumeratePositions | mathjson2qubo/model.py:60 | enumerating a list of distinct labels maps each to its position |
| Labels.EnumerateKeys | mathjson2qubo/model.py:60 | the enumeration has exactly the listed labels as keys |
| Labels.EnumerateAt | mathjson2qubo/model.py:60 | without repeats each label maps to its own position |
| Labels.SortedLabelsUnique | mathjson2qubo/model.py:63-66 | when no two labels share a key, the sorted order is unique |
| Labels.SortedHeads | mathjson2qubo/model.py:63-66 | two key-ordered listings of labels with distinct keys start with the same label |
| Labels.SortedTail | mathjson2qubo/model.py:63-66 | dropping the first label of a key-ordered listing leaves a key-ordered listing of the other labels |
| Labels.Label2Index | mathjson2qubo/model.py:58-60 | a bijection from the labels onto 0..n−1 in which a smaller key has a smaller number, the enumeration of a sorted listing |
| Assembly.DictQuadraticLookup | mathjson2qubo/model.py:18-25 | one key per stored pair; each pair holds the value of the last entry stored under it |
| Assembly.DictQuadraticStep | mathjson2qubo/model.py:18-25 | one more entry is one assignment to its slot, and none for a key that is neither a tuple nor a string |
| Assembly.DictQuadraticKeys | mathjson2qubo/model.py:18-25 | the dict has distinct keys, exactly the stored pairs |
| Assembly.DictQuadraticDistinct | mathjson2qubo/model.py:18-25 | the dict made from one dict has distinct keys |
| Assembly.DictQuadraticHas | mathjson2qubo/model.py:18-25 | a pair is a key exactly when some entry is stored under it |
| Assembly.DictQuadraticLast | mathjson2qubo/model.py:18-25 | a pair holds the value of the last entry stored under it; a string key and its self-pair share a slot |
| Assembly.LabelQuadraticFromDict | mathjson2qubo/model.py:15-27 | the labels are those of the tuple and string keys; a tuple key is kept, a string key l is stored as (l, l); other keys are skipped; the last entry per pair wins |
| Assembly.MergedLookup | mathjson2qubo/model.py:34-38 | the merged dict has the pairs of all dicts, each with the value from the last dict that stores it |
| Assembly.MergedKeys | mathjson2qubo/model.py:34-38 | the merged dict has distinct keys, exactly the pairs some dict stores |
| Assembly.MergedDistinct | mathjson2qubo/model.py:34-38 | the merged dict has distinct keys |
| Assembly.MergedLast | mathjson2qubo/model.py:34-38 | a pair holds what the last dict storing it says, replacing earlier dicts' values |
| Assembly.MergedLabels | mathjson2qubo/model.py:34-38 | every key of the merged dict names labels of the label set |
| Assembly.LabelQuadraticFromTuple | mathjson2qubo/model.py:30-43 | any element neither dict nor number is a TypeError; otherwise the labels of all dicts, their merged dict and the sum of the numbers |
| Assembly.TupleStep | mathjson2qubo/model.py:34-40 | one more element merges its dict into the coefficients or adds its number to the constant |
| Assembly.CellStep | mathjson2qubo/model.py:50-54 | walking one more entry changes exactly the cells it touches |
| Assembly.CellSymmetric | mathjson2qubo/model.py:53-54 | the matrix is symmetric |
| Assembly.CellUntouched | mathjson2qubo/model.py:49 | a cell no entry names stays 0 |
| Assembly.CellLastWrite | mathjson2qubo/model.py:53-54 | a cell holds the value of the last entry naming it: writes overwrite, they do not add up |
| Assembly.OverwriteExample | mathjson2qubo/model.py:53-54 | entries (a, b) → 1 then (b, a) → 2 leave 2, not 3, on both sides |
| Assembly.MakeMatFromLQuad | mathjson2qubo/model.py:46-55 | a key label missing from the index is a KeyError; else an n-by-n matrix over the sorted label index whose every cell is the last value written to it, symmetric |
| Assembly.FillMatrix | mathjson2qubo/model.py:49-54 | a key label missing from the index is a KeyError; else a zero matrix in which every cell holds the last value written to it, 0 when none is |
| Assembly.MakeModelFromTuple | mathjson2qubo/model.py:9-12 | a TypeError from the reduction, or the matrix, the sum of the numbers and a sorted index over exactly the labels the dicts name; no KeyError can occur |

## Left out

- pyqubo's `Express`, `Array` and `Sum` are modelled by a small expression datatype with a value semantics. Compilation, and pyqubo's own simplification, are not modelled.
- pyqubo's `Sum(start, end, f)` is taken to evaluate f at each index in order and fold the results with `+`, with no initial value. pyqubo's source is not part of this model. Evaluator.EmptySum's TypeError for an empty range rests on that assumption.
- Indexing a pyqubo `Array` is taken to follow Python list indexing, negative indices included. The `x_0` behaviour (Evaluator.VectorElement) rests on that assumption.
- `Array.create` is taken to accept only the types "SPIN" and "BINARY" and to raise ValueError otherwise.
- Arithmetic between an array and anything is outside the model: numpy broadcasting and pyqubo arrays give `Unmodelled` results.
- So is a pyqubo expression raised to an exponent ≤ 0.
- Floats are exact reals. There is no IEEE rounding, overflow or NaN.
- Constant arrays keep their entries as floats. The integer dtype numpy would give an all-int list is not modelled.
- Attribute access through `exec`/`eval` is a map from symbol to value. A symbol that is not a Python identifier (such as "1") makes the `exec` or `eval` raise SyntaxError (`mathjson2qubo/parser.py:92`, `:100`, `:211`, `:229`); the model binds and looks it up like any other key. The code can also reach other attributes of the parser object (such as `vartype`, `funcs` or methods) through a MathJSON symbol; that is not modelled.
- `\w` and `str.isdigit` are modelled on ASCII only: letters, digits and the underscore. Non-ASCII word characters and digits are not.
- Labels.TokenLess: comparing an int token with a string token raises TypeError in Python. The model orders every int before every string instead.
- Labels.SortLabel: the order among labels with equal keys comes from Python's set iteration order, which the model leaves unspecified (MakeStructure picks labels in an arbitrary order). Stability of the sort is not stated. Labels.SortedLabelsUnique shows the order is fixed when keys are distinct.
- Assembly.LabelQuadraticFromDict: tuple keys are modelled as pairs only. A tuple key of another length is not modelled.
- Evaluator.Apply: `subtract` and `divide` do not check their argument count. The model follows the code: extra arguments are ignored, and too few are an IndexError.
- Environment.VariableValue: the length of a size list is not checked against the dimension. The code does not check it either.
- The number types the code accepts (`int`, `float`, `numbers.Real`, `np.number`, and `bool` as an int) are one `real` in the model.
- `parse_to_pyqubo_model`, `solve` and `parse_to_matrix` (`mathjson2qubo/parser.py:256-316`) are wrappers over pyqubo's compiler and annealer. They are foreign calls and not modelled.
- `mathjson2qubo/errors.py` and `mathjson2qubo/parser_exeptions.py` hold only exception class declarations. The numbered codes are carried by `Errors.Error`.
