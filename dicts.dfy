/** Python's dict as what model.py relies on: an association list in
    insertion order with distinct keys, where assigning to a present key
    replaces its value in place and assigning to a new key appends it. */
module Dicts {

  type Dict<K(==), V> = seq<(K, V)>

  /** No key occurs twice, as in every Python dict. */
  predicate DistinctKeys<K(==), V(==)>(d: Dict<K, V>) {
    forall i, j :: 0 <= i < j < |d| ==> d[i].0 != d[j].0
  }

  predicate HasKey<K(==), V(==)>(d: Dict<K, V>, k: K) {
    exists i :: 0 <= i < |d| && d[i].0 == k
  }

  /** The position of key k. */
  function IndexOf<K(==), V(==)>(d: Dict<K, V>, k: K): (i: nat)
    requires HasKey(d, k)
    ensures i < |d| && d[i].0 == k && forall j :: 0 <= j < i ==> d[j].0 != k
  {
    if d[0].0 == k then 0
    else
      assert HasKey(d[1..], k) by {
        var i :| 0 <= i < |d| && d[i].0 == k;
        assert d[1..][i - 1].0 == k;
      }
      IndexOf(d[1..], k) + 1
  }

  /** d[k]. */
  function Get<K(==), V(==)>(d: Dict<K, V>, k: K): V
    requires HasKey(d, k)
  {
    d[IndexOf(d, k)].1
  }

  /** d[k] = v. */
  function Put<K(==), V(==)>(d: Dict<K, V>, k: K, v: V): Dict<K, V> {
    if HasKey(d, k) then d[IndexOf(d, k) := (k, v)] else d + [(k, v)]
  }

  /** d.update(e): the entries of e assigned in order. */
  function Update<K(==), V(==)>(d: Dict<K, V>, e: Dict<K, V>): Dict<K, V>
    decreases |e|
  {
    if e == [] then d else Update(Put(d, e[0].0, e[0].1), e[1..])
  }

  /** With distinct keys, the entry at a position is what its key looks up. */
  lemma GetAt<K, V>(d: Dict<K, V>, i: nat)
    requires DistinctKeys(d) && i < |d|
    ensures HasKey(d, d[i].0) && Get(d, d[i].0) == d[i].1
  {
    assert HasKey(d, d[i].0);
  }

  /** Assigning keeps the keys distinct and in their places, adds exactly the
      assigned key (at the end when it is new), binds it to the new value
      and leaves every other key's value alone. */
  lemma PutGet<K, V>(d: Dict<K, V>, k: K, v: V)
    requires DistinctKeys(d)
    ensures DistinctKeys(Put(d, k, v))
    ensures |Put(d, k, v)| == if HasKey(d, k) then |d| else |d| + 1
    ensures forall i :: 0 <= i < |d| ==> Put(d, k, v)[i].0 == d[i].0
    ensures forall x :: HasKey(Put(d, k, v), x) <==> HasKey(d, x) || x == k
    ensures HasKey(Put(d, k, v), k) && Get(Put(d, k, v), k) == v
    ensures forall x :: x != k && HasKey(d, x) ==> Get(Put(d, k, v), x) == Get(d, x)
  {
    var r := Put(d, k, v);
    var n := if HasKey(d, k) then IndexOf(d, k) else |d|;
    assert r[n] == (k, v);
    assert forall i :: 0 <= i < |d| && i != n ==> r[i] == d[i];
    assert DistinctKeys(r);
    GetAt(r, n);
    forall x | HasKey(r, x) ensures HasKey(d, x) || x == k {
      var i :| 0 <= i < |r| && r[i].0 == x;
      if i != n { assert d[i].0 == x; }
    }
    forall x | x != k && HasKey(d, x) ensures HasKey(r, x) && Get(r, x) == Get(d, x) {
      var i := IndexOf(d, x);
      assert r[i] == d[i];
      GetAt(r, i);
    }
  }

  /** Assigning keeps the keys distinct and adds exactly the assigned key. */
  lemma PutKeys<K, V>(d: Dict<K, V>, k: K, v: V)
    requires DistinctKeys(d)
    ensures DistinctKeys(Put(d, k, v))
    ensures forall x :: HasKey(Put(d, k, v), x) <==> HasKey(d, x) || x == k
  {
    PutGet(d, k, v);
  }

  /** The assigned key holds the assigned value. */
  lemma PutSame<K, V>(d: Dict<K, V>, k: K, v: V)
    requires DistinctKeys(d)
    ensures HasKey(Put(d, k, v), k) && Get(Put(d, k, v), k) == v
  {
    PutGet(d, k, v);
  }

  /** Any other key keeps its value. */
  lemma PutOther<K, V>(d: Dict<K, V>, k: K, v: V, x: K)
    requires DistinctKeys(d) && x != k && HasKey(d, x)
    ensures HasKey(Put(d, k, v), x) && Get(Put(d, k, v), x) == Get(d, x)
  {
    PutGet(d, k, v);
  }

  /** After d.update(e) exactly the keys of d and e are present, a key of e
      holds e's value and any other key keeps d's. */
  lemma {:induction false} UpdateGet<K, V>(d: Dict<K, V>, e: Dict<K, V>)
    requires DistinctKeys(d) && DistinctKeys(e)
    ensures DistinctKeys(Update(d, e))
    ensures forall x :: HasKey(Update(d, e), x) <==> HasKey(d, x) || HasKey(e, x)
    ensures forall x :: HasKey(e, x) ==> Get(Update(d, e), x) == Get(e, x)
    ensures forall x :: HasKey(d, x) && !HasKey(e, x) ==> Get(Update(d, e), x) == Get(d, x)
    decreases |e|
  {
    if e != [] {
      var k, v := e[0].0, e[0].1;
      var d' := Put(d, k, v);
      var e' := e[1..];
      PutGet(d, k, v);
      UpdateGet(d', e');
      var u := Update(d, e);
      assert u == Update(d', e');
      forall x ensures HasKey(e, x) <==> x == k || HasKey(e', x) {
        if HasKey(e, x) && x != k {
          var i :| 0 <= i < |e| && e[i].0 == x;
          assert e'[i - 1].0 == x;
        }
        if HasKey(e', x) {
          var i :| 0 <= i < |e'| && e'[i].0 == x;
          assert e[i + 1].0 == x;
        }
      }
      forall x | HasKey(e, x) ensures Get(u, x) == Get(e, x) {
        if x == k {
          GetAt(e, 0);
        } else {
          var i := IndexOf(e', x);
          GetAt(e', i);
          GetAt(e, i + 1);
        }
      }
    }
  }

  /** Updating with one more entry is one more assignment. */
  lemma {:induction false} UpdateSnoc<K, V>(d: Dict<K, V>, e: Dict<K, V>, k: K, v: V)
    ensures Update(d, e + [(k, v)]) == Put(Update(d, e), k, v)
    decreases |e|
  {
    if e == [] {
      assert Update(Put(d, k, v), []) == Put(d, k, v);
    } else {
      assert (e + [(k, v)])[1..] == e[1..] + [(k, v)];
      UpdateSnoc(Put(d, e[0].0, e[0].1), e[1..], k, v);
    }
  }
}
