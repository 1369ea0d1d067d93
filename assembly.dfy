/** The assembler of model.py (mathjson2qubo/model.py:9-55): the output of
    pyqubo's to_qubo, a tuple of coefficient dicts and numbers, is reduced to
    a label set, a pair-keyed coefficient dict and a constant, and the
    coefficients are written into a square matrix indexed by sorted label. */
module Assembly {
  import opened Errors
  import opened Dicts
  import Labels

  /** A key of a coefficient dict: a tuple of two labels, a single label, or
      anything else, which the reduction skips. */
  datatype Key = Pair(first: string, second: string) | Single(name: string) | OtherKey

  /** An element of the tuple: a coefficient dict, a real number, or anything else. */
  datatype Element = Coefficients(entries: seq<(Key, real)>) | Number(x: real) | OtherElement

  /** The reduced coefficients: every (a, b) pair is a key. */
  type Quadratic = Dict<(string, string), real>

  /** The label set, the coefficient dict and the constant of a tuple. */
  datatype Reduction = Reduction(labels: set<string>, quadratic: Quadratic, constant: real)

  /** The matrix and the label index it is laid out by. */
  datatype Assembled = Assembled(matrix: array2<real>, index: map<string, nat>)

  /** make_model_from_tuple's (matrix, const, label index). */
  datatype Model = Model(matrix: array2<real>, constant: real, index: map<string, nat>)

  // ---------------------------------------------------------------------
  // One dict

  /** The pair an entry is stored under: a tuple key as it is, a string key
      as its self-pair; other keys are not stored. */
  function Slot(k: Key): Option<(string, string)> {
    match k
    case Pair(a, b) => Some((a, b))
    case Single(l) => Some((l, l))
    case OtherKey => None
  }

  /** The labels a key adds to the label set. */
  function KeyLabels(k: Key): set<string> {
    match k
    case Pair(a, b) => {a, b}
    case Single(l) => {l}
    case OtherKey => {}
  }

  /** The assignments quadratic[...] = value made while walking a dict, in order. */
  function Assignments(obj: seq<(Key, real)>): Quadratic
    decreases |obj|
  {
    if obj == [] then []
    else
      var prefix := Assignments(obj[..|obj| - 1]);
      var e := obj[|obj| - 1];
      match Slot(e.0)
      case Some(p) => prefix + [(p, e.1)]
      case None => prefix
  }

  /** The coefficient dict made from one dict of the tuple. */
  function DictQuadratic(obj: seq<(Key, real)>): Quadratic {
    Update([], Assignments(obj))
  }

  /** Some entry of the dict is stored under p. */
  predicate Stores(obj: seq<(Key, real)>, p: (string, string)) {
    exists i :: 0 <= i < |obj| && Slot(obj[i].0) == Some(p)
  }

  /** Entry i is the last one stored under p. */
  predicate LastStore(obj: seq<(Key, real)>, p: (string, string), i: int) {
    0 <= i < |obj| && Slot(obj[i].0) == Some(p) &&
    forall j :: i < j < |obj| ==> Slot(obj[j].0) != Some(p)
  }

  /** One more entry is one more assignment, to its slot if it has one. */
  lemma DictQuadraticStep(obj: seq<(Key, real)>)
    requires obj != []
    ensures Slot(obj[|obj| - 1].0).Some? ==>
      DictQuadratic(obj) == Put(DictQuadratic(obj[..|obj| - 1]), Slot(obj[|obj| - 1].0).value, obj[|obj| - 1].1)
    ensures Slot(obj[|obj| - 1].0).None? ==> DictQuadratic(obj) == DictQuadratic(obj[..|obj| - 1])
  {
    var e := obj[|obj| - 1];
    if Slot(e.0).Some? {
      UpdateSnoc([], Assignments(obj[..|obj| - 1]), Slot(e.0).value, e.1);
    }
  }

  /** A pair is stored under by a dict when it is by its prefix or its last entry. */
  lemma StoresSnoc(obj: seq<(Key, real)>, p: (string, string))
    requires obj != []
    ensures Stores(obj, p) <==> Stores(obj[..|obj| - 1], p) || Slot(obj[|obj| - 1].0) == Some(p)
  {
    var n := |obj| - 1;
    var pre := obj[..n];
    if Stores(pre, p) {
      var i :| 0 <= i < n && Slot(pre[i].0) == Some(p);
      assert obj[i] == pre[i];
    }
    if Stores(obj, p) && Slot(obj[n].0) != Some(p) {
      var i :| 0 <= i < |obj| && Slot(obj[i].0) == Some(p);
      assert pre[i] == obj[i];
    }
  }

  /** The dict made from one dict has distinct keys. */
  lemma {:induction false} DictQuadraticDistinct(obj: seq<(Key, real)>)
    ensures DistinctKeys(DictQuadratic(obj))
    decreases |obj|
  {
    if obj != [] {
      var e := obj[|obj| - 1];
      DictQuadraticDistinct(obj[..|obj| - 1]);
      DictQuadraticStep(obj);
      if Slot(e.0).Some? {
        PutKeys(DictQuadratic(obj[..|obj| - 1]), Slot(e.0).value, e.1);
      }
    }
  }

  /** The keys of the dict made from one dict are the stored pairs. */
  lemma {:induction false} DictQuadraticHas(obj: seq<(Key, real)>, p: (string, string))
    ensures HasKey(DictQuadratic(obj), p) <==> Stores(obj, p)
    decreases |obj|
  {
    if obj != [] {
      var pre := obj[..|obj| - 1];
      var e := obj[|obj| - 1];
      DictQuadraticHas(pre, p);
      DictQuadraticStep(obj);
      StoresSnoc(obj, p);
      if Slot(e.0).Some? {
        DictQuadraticDistinct(pre);
        PutKeys(DictQuadratic(pre), Slot(e.0).value, e.1);
      }
    }
  }

  /** The dict made from one dict has distinct keys, one per stored pair. */
  lemma DictQuadraticKeys(obj: seq<(Key, real)>)
    ensures DistinctKeys(DictQuadratic(obj))
    ensures forall p :: HasKey(DictQuadratic(obj), p) <==> Stores(obj, p)
  {
    DictQuadraticDistinct(obj);
    forall p ensures HasKey(DictQuadratic(obj), p) <==> Stores(obj, p) {
      DictQuadraticHas(obj, p);
    }
  }

  /** Each stored pair holds the value of the last entry stored under it (a
      string key l and a tuple key (l, l) share a slot). */
  lemma {:induction false} DictQuadraticLast(obj: seq<(Key, real)>, p: (string, string), i: nat)
    requires LastStore(obj, p, i)
    ensures HasKey(DictQuadratic(obj), p) && Get(DictQuadratic(obj), p) == obj[i].1
    decreases |obj|
  {
    var n := |obj| - 1;
    var pre := obj[..n];
    var e := obj[n];
    DictQuadraticStep(obj);
    DictQuadraticDistinct(pre);
    if i < n {
      assert LastStore(pre, p, i) by {
        forall j | i < j < |pre| ensures Slot(pre[j].0) != Some(p) { assert pre[j] == obj[j]; }
      }
      assert pre[i] == obj[i];
      DictQuadraticLast(pre, p, i);
      if Slot(e.0).Some? {
        PutOther(DictQuadratic(pre), Slot(e.0).value, e.1, p);
      }
    } else {
      PutSame(DictQuadratic(pre), p, e.1);
    }
  }

  /** The dict made from one dict has one key per stored pair, and each
      pair holds the value of the last entry stored under it. */
  lemma DictQuadraticLookup(obj: seq<(Key, real)>)
    ensures DistinctKeys(DictQuadratic(obj))
    ensures forall p :: HasKey(DictQuadratic(obj), p) <==> Stores(obj, p)
    ensures forall p, i :: LastStore(obj, p, i) ==> HasKey(DictQuadratic(obj), p) && Get(DictQuadratic(obj), p) == obj[i].1
  {
    DictQuadraticKeys(obj);
    forall p, i | LastStore(obj, p, i) ensures HasKey(DictQuadratic(obj), p) && Get(DictQuadratic(obj), p) == obj[i].1 {
      DictQuadraticLast(obj, p, i);
    }
  }

  /** _make_label_quadratic_from_dict (mathjson2qubo/model.py:15-27). */
  method LabelQuadraticFromDict(obj: seq<(Key, real)>) returns (labels: set<string>, quadratic: Quadratic)
    ensures forall l :: l in labels <==> exists i :: 0 <= i < |obj| && l in KeyLabels(obj[i].0)
    ensures quadratic == DictQuadratic(obj)
    ensures DistinctKeys(quadratic)
    ensures forall p :: HasKey(quadratic, p) <==> Stores(obj, p)
    ensures forall p, i :: LastStore(obj, p, i) ==> HasKey(quadratic, p) && Get(quadratic, p) == obj[i].1
  {
    labels := {};
    quadratic := [];
    var i := 0;
    while i < |obj|
      invariant 0 <= i <= |obj|
      invariant forall l :: l in labels <==> exists j :: 0 <= j < i && l in KeyLabels(obj[j].0)
      invariant quadratic == DictQuadratic(obj[..i])
    {
      var key, value := obj[i].0, obj[i].1;
      assert obj[..i + 1][..i] == obj[..i];
      if Slot(key).Some? {
        UpdateSnoc([], Assignments(obj[..i]), Slot(key).value, value);
      }
      match key {
        case Pair(a, b) =>
          labels := labels + {a, b};
          quadratic := Put(quadratic, (a, b), value);
        case Single(l) =>
          labels := labels + {l};
          quadratic := Put(quadratic, (l, l), value);
        case OtherKey =>
      }
      i := i + 1;
    }
    assert obj[..i] == obj;
    DictQuadraticLookup(obj);
  }

  // ---------------------------------------------------------------------
  // The tuple

  /** Element e is a dict that stores something under p. */
  predicate Carries(e: Element, p: (string, string)) {
    e.Coefficients? && Stores(e.entries, p)
  }

  /** Element i is the last dict of the tuple that stores under p. */
  predicate LastCarrier(obj: seq<Element>, p: (string, string), i: int) {
    0 <= i < |obj| && Carries(obj[i], p) &&
    forall j :: i < j < |obj| ==> !Carries(obj[j], p)
  }

  /** Some key of some dict of the tuple names label l. */
  predicate Mentions(obj: seq<Element>, l: string) {
    exists i, k :: 0 <= i < |obj| && obj[i].Coefficients? && 0 <= k < |obj[i].entries| &&
      l in KeyLabels(obj[i].entries[k].0)
  }

  /** The sum of the numbers of the tuple, in order, starting from 0. */
  function NumberSum(obj: seq<Element>): real
    decreases |obj|
  {
    if obj == [] then 0.0
    else NumberSum(obj[..|obj| - 1]) + (if obj[|obj| - 1].Number? then obj[|obj| - 1].x else 0.0)
  }

  /** The coefficient dict of the tuple: quadratic.update(...) with each dict in turn. */
  function Merged(obj: seq<Element>): Quadratic
    decreases |obj|
  {
    if obj == [] then []
    else
      var q := Merged(obj[..|obj| - 1]);
      var e := obj[|obj| - 1];
      if e.Coefficients? then Update(q, DictQuadratic(e.entries)) else q
  }

  /** Some dict of the tuple stores under p. */
  predicate Carried(obj: seq<Element>, p: (string, string)) {
    exists i :: 0 <= i < |obj| && Carries(obj[i], p)
  }

  /** A pair is carried by a tuple when it is by its prefix or its last element. */
  lemma CarriedSnoc(obj: seq<Element>, p: (string, string))
    requires obj != []
    ensures Carried(obj, p) <==> Carried(obj[..|obj| - 1], p) || Carries(obj[|obj| - 1], p)
  {
    var n := |obj| - 1;
    var pre := obj[..n];
    if Carried(pre, p) {
      var i :| 0 <= i < n && Carries(pre[i], p);
      assert obj[i] == pre[i];
    }
    if Carried(obj, p) && !Carries(obj[n], p) {
      var i :| 0 <= i < |obj| && Carries(obj[i], p);
      assert pre[i] == obj[i];
    }
  }

  /** The merged dict has distinct keys. */
  lemma {:induction false} MergedDistinct(obj: seq<Element>)
    ensures DistinctKeys(Merged(obj))
    decreases |obj|
  {
    if obj != [] {
      var e := obj[|obj| - 1];
      MergedDistinct(obj[..|obj| - 1]);
      if e.Coefficients? {
        DictQuadraticDistinct(e.entries);
        UpdateGet(Merged(obj[..|obj| - 1]), DictQuadratic(e.entries));
      }
    }
  }

  /** The merged dict has distinct keys, one for each pair some dict stores under. */
  lemma {:induction false} MergedKeys(obj: seq<Element>)
    ensures DistinctKeys(Merged(obj))
    ensures forall p :: HasKey(Merged(obj), p) <==> Carried(obj, p)
    decreases |obj|
  {
    if obj != [] {
      var n := |obj| - 1;
      var pre := obj[..n];
      var e := obj[n];
      MergedKeys(pre);
      forall p ensures Carried(obj, p) <==> Carried(pre, p) || Carries(e, p) {
        CarriedSnoc(obj, p);
      }
      if e.Coefficients? {
        var d := DictQuadratic(e.entries);
        assert Merged(obj) == Update(Merged(pre), d);
        DictQuadraticKeys(e.entries);
        UpdateGet(Merged(pre), d);
        forall p ensures HasKey(Merged(obj), p) <==> HasKey(Merged(pre), p) || Carries(e, p) {
          assert HasKey(Merged(obj), p) <==> HasKey(Merged(pre), p) || HasKey(d, p);
        }
      } else {
        assert Merged(obj) == Merged(pre);
      }
    }
  }

  /** A pair holds what the last dict storing it says: a later dict's value
      replaces an earlier one's. */
  lemma {:induction false} MergedLast(obj: seq<Element>, p: (string, string), i: nat, k: nat)
    requires LastCarrier(obj, p, i) && LastStore(obj[i].entries, p, k)
    ensures HasKey(Merged(obj), p) && Get(Merged(obj), p) == obj[i].entries[k].1
    decreases |obj|
  {
    var n := |obj| - 1;
    var pre := obj[..n];
    var e := obj[n];
    MergedDistinct(pre);
    if e.Coefficients? {
      DictQuadraticKeys(e.entries);
      UpdateGet(Merged(pre), DictQuadratic(e.entries));
    }
    if i == n {
      DictQuadraticLast(e.entries, p, k);
    } else {
      assert LastCarrier(pre, p, i) by {
        forall j | i < j < |pre| ensures !Carries(pre[j], p) { assert pre[j] == obj[j]; }
      }
      assert pre[i] == obj[i];
      MergedLast(pre, p, i, k);
    }
  }

  /** The merged dict has a key for each pair some dict stores under, and
      the pair holds what the last dict storing it says. */
  lemma MergedLookup(obj: seq<Element>)
    ensures DistinctKeys(Merged(obj))
    ensures forall p :: HasKey(Merged(obj), p) <==> exists i :: 0 <= i < |obj| && Carries(obj[i], p)
    ensures forall p, i, k :: LastCarrier(obj, p, i) && LastStore(obj[i].entries, p, k) ==>
      HasKey(Merged(obj), p) && Get(Merged(obj), p) == obj[i].entries[k].1
  {
    MergedKeys(obj);
    forall p, i, k | LastCarrier(obj, p, i) && LastStore(obj[i].entries, p, k)
      ensures HasKey(Merged(obj), p) && Get(Merged(obj), p) == obj[i].entries[k].1
    {
      MergedLast(obj, p, i, k);
    }
  }

  /** The dict's keys name only labels of the tuple. */
  lemma MergedLabels(obj: seq<Element>)
    ensures forall j :: 0 <= j < |Merged(obj)| ==>
      Mentions(obj, Merged(obj)[j].0.0) && Mentions(obj, Merged(obj)[j].0.1)
  {
    MergedLookup(obj);
    var q := Merged(obj);
    forall j | 0 <= j < |q| ensures Mentions(obj, q[j].0.0) && Mentions(obj, q[j].0.1) {
      var p := q[j].0;
      assert HasKey(q, p);
      var i :| 0 <= i < |obj| && Carries(obj[i], p);
      var k :| 0 <= k < |obj[i].entries| && Slot(obj[i].entries[k].0) == Some(p);
      assert p.0 in KeyLabels(obj[i].entries[k].0) && p.1 in KeyLabels(obj[i].entries[k].0);
    }
  }

  /** Mentions of a prefix grow by the labels of the next element. */
  lemma MentionsSnoc(obj: seq<Element>, i: nat, l: string)
    requires i < |obj|
    ensures Mentions(obj[..i + 1], l) <==>
      (Mentions(obj[..i], l) ||
       (obj[i].Coefficients? && exists k :: 0 <= k < |obj[i].entries| && l in KeyLabels(obj[i].entries[k].0)))
  {
    var a, b := obj[..i], obj[..i + 1];
    if Mentions(b, l) {
      var j, k :| 0 <= j < |b| && b[j].Coefficients? && 0 <= k < |b[j].entries| && l in KeyLabels(b[j].entries[k].0);
      if j < i { assert a[j] == b[j]; }
    }
    if Mentions(a, l) {
      var j, k :| 0 <= j < |a| && a[j].Coefficients? && 0 <= k < |a[j].entries| && l in KeyLabels(a[j].entries[k].0);
      assert b[j] == a[j];
    }
    if obj[i].Coefficients? && exists k :: 0 <= k < |obj[i].entries| && l in KeyLabels(obj[i].entries[k].0) {
      var k :| 0 <= k < |obj[i].entries| && l in KeyLabels(obj[i].entries[k].0);
      assert b[i] == obj[i];
    }
  }

  /** One more element of the tuple merges its dict or adds its number. */
  lemma TupleStep(obj: seq<Element>, i: nat)
    requires i < |obj|
    ensures Merged(obj[..i + 1]) ==
      if obj[i].Coefficients? then Update(Merged(obj[..i]), DictQuadratic(obj[i].entries)) else Merged(obj[..i])
    ensures NumberSum(obj[..i + 1]) == NumberSum(obj[..i]) + if obj[i].Number? then obj[i].x else 0.0
  {
    assert obj[..i + 1][..i] == obj[..i];
  }

  /** _make_label_quadratic_from_tuple (mathjson2qubo/model.py:30-43): any
      element that is neither a dict nor a number is a TypeError; otherwise
      the labels of all dicts, their merged coefficients and the sum of the
      numbers. */
  method LabelQuadraticFromTuple(obj: seq<Element>) returns (r: Result<Reduction>)
    ensures r.Err? <==> exists i :: 0 <= i < |obj| && obj[i].OtherElement?
    ensures r.Err? ==> r.error == Raised("TypeError")
    ensures r.Ok? ==> r.value.constant == NumberSum(obj)
    ensures r.Ok? ==> forall l :: l in r.value.labels <==> Mentions(obj, l)
    ensures r.Ok? ==> r.value.quadratic == Merged(obj)
  {
    var labels: set<string> := {};
    var quadratic: Quadratic := [];
    var constant := 0.0;
    var i := 0;
    while i < |obj|
      invariant 0 <= i <= |obj|
      invariant forall j :: 0 <= j < i ==> !obj[j].OtherElement?
      invariant forall l :: l in labels <==> Mentions(obj[..i], l)
      invariant quadratic == Merged(obj[..i])
      invariant constant == NumberSum(obj[..i])
    {
      TupleStep(obj, i);
      forall l ensures Mentions(obj[..i + 1], l) <==>
        (Mentions(obj[..i], l) ||
         (obj[i].Coefficients? && exists k :: 0 <= k < |obj[i].entries| && l in KeyLabels(obj[i].entries[k].0)))
      {
        MentionsSnoc(obj, i, l);
      }
      match obj[i] {
        case Coefficients(entries) =>
          var labSet, qua := LabelQuadraticFromDict(entries);
          quadratic := Update(quadratic, qua);
          labels := labels + labSet;
        case Number(x) =>
          constant := constant + x;
        case OtherElement =>
          return Err(Raised("TypeError"));
      }
      i := i + 1;
    }
    assert obj[..i] == obj;
    r := Ok(Reduction(labels, quadratic, constant));
  }

  // ---------------------------------------------------------------------
  // The matrix

  /** Entry key p writes cell (x, y): its labels sit at x and y in either order. */
  predicate Touches(p: (string, string), index: map<string, nat>, x: nat, y: nat) {
    p.0 in index && p.1 in index &&
    ((index[p.0] == x && index[p.1] == y) || (index[p.0] == y && index[p.1] == x))
  }

  /** What cell (x, y) holds after the dict is walked: the value of the last
      entry touching it, 0 when none does. */
  function Cell(quadratic: Quadratic, index: map<string, nat>, x: nat, y: nat): real
    decreases |quadratic|
  {
    if quadratic == [] then 0.0
    else
      var e := quadratic[|quadratic| - 1];
      if Touches(e.0, index, x, y) then e.1 else Cell(quadratic[..|quadratic| - 1], index, x, y)
  }

  /** Walking one more entry changes exactly the cells it touches. */
  lemma CellStep(quadratic: Quadratic, index: map<string, nat>, k: nat, x: nat, y: nat)
    requires k < |quadratic|
    ensures Cell(quadratic[..k + 1], index, x, y) ==
      if Touches(quadratic[k].0, index, x, y) then quadratic[k].1 else Cell(quadratic[..k], index, x, y)
  {
    assert quadratic[..k + 1][..k] == quadratic[..k];
  }

  /** The matrix is symmetric. */
  lemma {:induction false} CellSymmetric(quadratic: Quadratic, index: map<string, nat>, x: nat, y: nat)
    ensures Cell(quadratic, index, x, y) == Cell(quadratic, index, y, x)
    decreases |quadratic|
  {
    if quadratic != [] {
      CellSymmetric(quadratic[..|quadratic| - 1], index, x, y);
    }
  }

  /** A cell no entry touches stays 0. */
  lemma {:induction false} CellUntouched(quadratic: Quadratic, index: map<string, nat>, x: nat, y: nat)
    requires forall k :: 0 <= k < |quadratic| ==> !Touches(quadratic[k].0, index, x, y)
    ensures Cell(quadratic, index, x, y) == 0.0
    decreases |quadratic|
  {
    if quadratic != [] {
      var pre := quadratic[..|quadratic| - 1];
      forall k | 0 <= k < |pre| ensures !Touches(pre[k].0, index, x, y) {
        assert pre[k] == quadratic[k];
      }
      CellUntouched(pre, index, x, y);
    }
  }

  /** A cell holds the value of the last entry touching it: a later write
      replaces an earlier one, nothing is added up. */
  lemma {:induction false} CellLastWrite(quadratic: Quadratic, index: map<string, nat>, x: nat, y: nat, k: nat)
    requires k < |quadratic| && Touches(quadratic[k].0, index, x, y)
    requires forall j :: k < j < |quadratic| ==> !Touches(quadratic[j].0, index, x, y)
    ensures Cell(quadratic, index, x, y) == quadratic[k].1
    decreases |quadratic|
  {
    var n := |quadratic| - 1;
    if k < n {
      var pre := quadratic[..n];
      assert pre[k] == quadratic[k];
      forall j | k < j < |pre| ensures !Touches(pre[j].0, index, x, y) {
        assert pre[j] == quadratic[j];
      }
      CellLastWrite(pre, index, x, y, k);
    }
  }

  /** {("a", "b"): 1.0, ("b", "a"): 2.0} with a at 0 and b at 1 puts 2.0,
      not 3.0, on both sides of the diagonal. */
  lemma OverwriteExample()
    ensures Cell([(("a", "b"), 1.0), (("b", "a"), 2.0)], map["a" := 0, "b" := 1], 0, 1) == 2.0
    ensures Cell([(("a", "b"), 1.0), (("b", "a"), 2.0)], map["a" := 0, "b" := 1], 1, 0) == 2.0
  {
  }

  /** The loop of _make_mat_from_l_quad (mathjson2qubo/model.py:51-54) over
      an index whose positions are below spins: a key label missing from the
      index is a KeyError; otherwise a zero spins-by-spins matrix with each
      entry (a, b) -> v written at [a][b] and [b][a] in the dict's order. */
  method FillMatrix(quadratic: Quadratic, index: map<string, nat>, spins: nat) returns (r: Result<array2<real>>)
    requires forall l :: l in index ==> index[l] < spins
    ensures r.Err? <==>
      exists k :: 0 <= k < |quadratic| && (quadratic[k].0.0 !in index || quadratic[k].0.1 !in index)
    ensures r.Err? ==> r.error == Raised("KeyError")
    ensures r.Ok? ==> fresh(r.value) && r.value.Length0 == spins && r.value.Length1 == spins
    ensures r.Ok? ==> forall x, y :: 0 <= x < spins && 0 <= y < spins ==>
      r.value[x, y] == Cell(quadratic, index, x, y)
  {
    var matrix := new real[spins, spins]((i, j) => 0.0);
    var k := 0;
    while k < |quadratic|
      invariant 0 <= k <= |quadratic|
      invariant forall j :: 0 <= j < k ==> quadratic[j].0.0 in index && quadratic[j].0.1 in index
      invariant forall x, y :: 0 <= x < spins && 0 <= y < spins ==> matrix[x, y] == Cell(quadratic[..k], index, x, y)
    {
      var p, v := quadratic[k].0, quadratic[k].1;
      if p.0 !in index || p.1 !in index {
        return Err(Raised("KeyError"));
      }
      var x := index[p.0];
      var y := index[p.1];
      forall a, b | 0 <= a < spins && 0 <= b < spins
        ensures Cell(quadratic[..k + 1], index, a, b) ==
          if (a == x && b == y) || (a == y && b == x) then v else Cell(quadratic[..k], index, a, b)
      {
        CellStep(quadratic, index, k, a, b);
      }
      matrix[x, y] := v;
      matrix[y, x] := v;
      k := k + 1;
    }
    assert quadratic[..k] == quadratic;
    r := Ok(matrix);
  }

  /** _make_mat_from_l_quad (mathjson2qubo/model.py:46-55): a key label
      missing from the label set is a KeyError; otherwise an n-by-n matrix
      over the sorted label index holding, in each cell, the last entry
      written there, the same on both sides of the diagonal. */
  method MakeMatFromLQuad(labels: set<string>, quadratic: Quadratic) returns (r: Result<Assembled>)
    ensures r.Err? <==>
      exists k :: 0 <= k < |quadratic| && (quadratic[k].0.0 !in labels || quadratic[k].0.1 !in labels)
    ensures r.Err? ==> r.error == Raised("KeyError")
    ensures r.Ok? ==> fresh(r.value.matrix) && Labels.IsSortedIndex(labels, r.value.index)
    ensures r.Ok? ==> r.value.matrix.Length0 == |labels| && r.value.matrix.Length1 == |labels|
    ensures r.Ok? ==> forall x, y :: 0 <= x < |labels| && 0 <= y < |labels| ==>
      r.value.matrix[x, y] == Cell(quadratic, r.value.index, x, y) && r.value.matrix[x, y] == r.value.matrix[y, x]
  {
    var index := Labels.Label2Index(labels);
    assert |index| == |labels| by { assert |index.Keys| == |index|; }
    var filled := FillMatrix(quadratic, index, |index|);
    if filled.Err? {
      return Err(filled.error);
    }
    var matrix := filled.value;
    forall x, y | 0 <= x < |labels| && 0 <= y < |labels| ensures matrix[x, y] == matrix[y, x] {
      CellSymmetric(quadratic, index, x, y);
    }
    r := Ok(Assembled(matrix, index));
  }

  /** make_model_from_tuple (mathjson2qubo/model.py:9-12): the TypeError of
      the reduction, or the matrix, the constant and the label index. The
      index covers exactly the labels the dicts name, so no KeyError can
      arise. */
  method MakeModelFromTuple(obj: seq<Element>) returns (r: Result<Model>)
    ensures r.Err? <==> exists i :: 0 <= i < |obj| && obj[i].OtherElement?
    ensures r.Err? ==> r.error == Raised("TypeError")
    ensures r.Ok? ==> fresh(r.value.matrix) && r.value.constant == NumberSum(obj)
    ensures r.Ok? ==> forall l :: l in r.value.index <==> Mentions(obj, l)
    ensures r.Ok? ==> Labels.IsSortedIndex(r.value.index.Keys, r.value.index)
    ensures r.Ok? ==> r.value.matrix.Length0 == |r.value.index| && r.value.matrix.Length1 == |r.value.index|
    ensures r.Ok? ==> forall x, y :: 0 <= x < |r.value.index| && 0 <= y < |r.value.index| ==>
      r.value.matrix[x, y] == Cell(Merged(obj), r.value.index, x, y)
  {
    var reduction := LabelQuadraticFromTuple(obj);
    if reduction.Err? {
      return Err(reduction.error);
    }
    var labels, quadratic, constant := reduction.value.labels, reduction.value.quadratic, reduction.value.constant;
    MergedLabels(obj);
    var assembled := MakeMatFromLQuad(labels, quadratic);
    assert assembled.Ok?;
    var index := assembled.value.index;
    assert index.Keys == labels && |index| == |labels| by { assert |index.Keys| == |index|; }
    r := Ok(Model(assembled.value.matrix, constant, index));
  }
}
