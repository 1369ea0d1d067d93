/** Label ordering of model.py (mathjson2qubo/model.py:57-74): each label is
    keyed by the tuple of its \w+ runs, all-digit runs read as ints, the
    labels are sorted by that key and numbered in that order. */
module Labels {
  import opened Dicts
  import Environment

  /** One element of a sort key: int(c) for an all-digit run, else the run. */
  datatype Token = Number(n: nat) | Word(w: string)

  /** The key a label sorts by. */
  type Key = seq<Token>

  /** A \w character; only ASCII letters, digits and the underscore are modelled. */
  predicate IsWordChar(c: char) {
    'a' <= c <= 'z' || 'A' <= c <= 'Z' || '0' <= c <= '9' || c == '_'
  }

  predicate IsDigit(c: char) {
    '0' <= c <= '9'
  }

  predicate AllWordChars(s: string) {
    forall i :: 0 <= i < |s| ==> IsWordChar(s[i])
  }

  predicate AllDigits(s: string) {
    forall i :: 0 <= i < |s| ==> IsDigit(s[i])
  }

  /** The length of the leading run of word characters. */
  function RunLength(s: string): (k: nat)
    ensures k <= |s| && AllWordChars(s[..k]) && (k < |s| ==> !IsWordChar(s[k]))
  {
    if s == [] || !IsWordChar(s[0]) then 0
    else
      var k := RunLength(s[1..]);
      assert s[..k + 1] == [s[0]] + s[1..][..k];
      k + 1
  }

  /** re.findall(r"\w+", s): the maximal runs of word characters, left to right. */
  function Runs(s: string): (rs: seq<string>)
    ensures forall i :: 0 <= i < |rs| ==> rs[i] != [] && AllWordChars(rs[i])
    decreases |s|
  {
    if s == [] then []
    else if !IsWordChar(s[0]) then Runs(s[1..])
    else
      var k := RunLength(s);
      [s[..k]] + Runs(s[k..])
  }

  /** int() of a string of decimal digits. */
  function DigitsValue(s: string): nat
    requires AllDigits(s)
    decreases |s|
  {
    if s == [] then 0 else DigitsValue(s[..|s| - 1]) * 10 + (s[|s| - 1] as int - '0' as int)
  }

  function TokenOf(run: string): Token {
    if AllDigits(run) then Number(DigitsValue(run)) else Word(run)
  }

  function Tokens(rs: seq<string>): (ts: Key)
    ensures |ts| == |rs| && forall i :: 0 <= i < |rs| ==> ts[i] == TokenOf(rs[i])
    decreases |rs|
  {
    if rs == [] then [] else [TokenOf(rs[0])] + Tokens(rs[1..])
  }

  /** The key of a label (mathjson2qubo/model.py:72-73). */
  function Tokenize(name: string): Key {
    Tokens(Runs(name))
  }

  // ---------------------------------------------------------------------
  // Runs

  /** A word is one run. */
  lemma RunsOfWord(w: string)
    requires w != [] && AllWordChars(w)
    ensures Runs(w) == [w]
  {
    var k := RunLength(w);
    assert k == |w|;
    assert w[..k] == w && w[k..] == [];
  }

  /** A non-word character separates: the runs on its two sides do not merge. */
  lemma {:induction false} RunsSplit(a: string, c: char, b: string)
    requires !IsWordChar(c)
    ensures Runs(a + [c] + b) == Runs(a) + Runs(b)
    decreases |a|
  {
    if a == [] {
      SkipSeparator(c, b);
    } else if !IsWordChar(a[0]) {
      SkipLeading(a, c, b);
      RunsSplit(a[1..], c, b);
    } else {
      var j := RunLength(a);
      FirstRunSplit(a, c, b);
      RunsSplit(a[j..], c, b);
    }
  }

  /** A leading separator is skipped. */
  lemma SkipSeparator(c: char, b: string)
    requires !IsWordChar(c)
    ensures Runs([] + [c] + b) == Runs(b)
  {
    assert ([] + [c] + b)[1..] == b;
  }

  /** A leading non-word character of a is skipped on both sides. */
  lemma SkipLeading(a: string, c: char, b: string)
    requires a != [] && !IsWordChar(a[0])
    ensures Runs(a + [c] + b) == Runs(a[1..] + [c] + b)
    ensures Runs(a) == Runs(a[1..])
  {
    assert (a + [c] + b)[1..] == a[1..] + [c] + b;
  }

  /** The first run of a + [c] + b, when a starts with a word character, is
      the first run of a. */
  lemma FirstRunSplit(a: string, c: char, b: string)
    requires !IsWordChar(c) && a != [] && IsWordChar(a[0])
    ensures Runs(a + [c] + b) == [a[..RunLength(a)]] + Runs(a[RunLength(a)..] + [c] + b)
  {
    var s := a + [c] + b;
    var j := RunLength(a);
    if j < |a| {
      assert s[..j] == a[..j] && s[j] == a[j];
    } else {
      assert s[..j] == a && s[j] == c;
    }
    RunLengthIs(s, j);
    assert s[..j] == a[..j];
    assert s[j..] == a[j..] + [c] + b;
  }

  /** The run length is fixed by where the first non-word character is. */
  lemma RunLengthIs(s: string, j: nat)
    requires j < |s| && AllWordChars(s[..j]) && !IsWordChar(s[j])
    ensures RunLength(s) == j
  {
    var k := RunLength(s);
    assert forall i :: 0 <= i < j ==> IsWordChar(s[i]) by {
      forall i | 0 <= i < j ensures IsWordChar(s[i]) { assert s[..j][i] == s[i]; }
    }
    assert forall i :: 0 <= i < k ==> IsWordChar(s[i]) by {
      forall i | 0 <= i < k ensures IsWordChar(s[i]) { assert s[..k][i] == s[i]; }
    }
  }

  /** The runs joined are exactly the word characters of s, in order. */
  function WordChars(s: string): string
    decreases |s|
  {
    if s == [] then [] else if IsWordChar(s[0]) then [s[0]] + WordChars(s[1..]) else WordChars(s[1..])
  }

  function Join(rs: seq<string>): string
    decreases |rs|
  {
    if rs == [] then [] else rs[0] + Join(rs[1..])
  }

  lemma {:induction false} WordCharsOfWord(w: string)
    requires AllWordChars(w)
    ensures WordChars(w) == w
    decreases |w|
  {
    if w != [] {
      WordCharsOfWord(w[1..]);
    }
  }

  lemma {:induction false} WordCharsAppend(a: string, b: string)
    ensures WordChars(a + b) == WordChars(a) + WordChars(b)
    decreases |a|
  {
    if a != [] {
      assert (a + b)[0] == a[0] && (a + b)[1..] == a[1..] + b;
      WordCharsAppend(a[1..], b);
      if IsWordChar(a[0]) {
        assert WordChars(a + b) == [a[0]] + WordChars(a[1..] + b);
        assert WordChars(a) == [a[0]] + WordChars(a[1..]);
      } else {
        assert WordChars(a + b) == WordChars(a[1..] + b);
      }
    } else {
      assert a + b == b;
    }
  }

  lemma {:induction false} RunsJoin(s: string)
    ensures Join(Runs(s)) == WordChars(s)
    decreases |s|
  {
    if s != [] {
      if !IsWordChar(s[0]) {
        RunsJoin(s[1..]);
      } else {
        var k := RunLength(s);
        RunsJoin(s[k..]);
        assert s == s[..k] + s[k..];
        WordCharsAppend(s[..k], s[k..]);
        WordCharsOfWord(s[..k]);
        assert Runs(s)[1..] == Runs(s[k..]);
      }
    }
  }

  // ---------------------------------------------------------------------
  // Integer runs

  /** int(str(n)) == n. */
  lemma {:induction false} DigitsOfNat(n: nat)
    ensures AllDigits(Environment.NatToString(n))
    ensures DigitsValue(Environment.NatToString(n)) == n
    decreases n
  {
    var s := Environment.NatToString(n);
    if n >= 10 {
      DigitsOfNat(n / 10);
      assert s[..|s| - 1] == Environment.NatToString(n / 10);
    }
  }

  /** The decimal strings of an index path. */
  function IndexRuns(path: seq<nat>): (rs: seq<string>)
    ensures |rs| == |path| && forall i :: 0 <= i < |path| ==> rs[i] == Environment.NatToString(path[i])
    decreases |path|
  {
    if path == [] then [] else [Environment.NatToString(path[0])] + IndexRuns(path[1..])
  }

  /** An index path as integer tokens. */
  function Numbers(path: seq<nat>): (ts: Key)
    ensures |ts| == |path| && forall i :: 0 <= i < |path| ==> ts[i] == Number(path[i])
    decreases |path|
  {
    if path == [] then [] else [Number(path[0])] + Numbers(path[1..])
  }

  /** The runs of the suffix [i][j]... are the indices' decimal strings. */
  lemma {:induction false} BracketsRuns(path: seq<nat>)
    ensures Runs(Environment.Brackets(path)) == IndexRuns(path)
    decreases |path|
  {
    if path != [] {
      var d := Environment.NatToString(path[0]);
      var rest := Environment.Brackets(path[1..]);
      assert Environment.Brackets(path) == "[" + d + "]" + rest;
      assert ("[" + d + "]" + rest)[1..] == d + [']'] + rest;
      DigitsOfNat(path[0]);
      assert AllWordChars(d);
      RunsSplit(d, ']', rest);
      RunsOfWord(d);
      BracketsRuns(path[1..]);
    }
  }

  /** The runs of name[i][j]... are the name followed by the indices. */
  lemma ArrayLabelRuns(name: string, path: seq<nat>)
    requires name != [] && AllWordChars(name)
    ensures Runs(name + Environment.Brackets(path)) == [name] + IndexRuns(path)
  {
    BracketsRuns(path);
    RunsOfWord(name);
    var b := Environment.Brackets(path);
    if path != [] {
      assert b == [b[0]] + b[1..] && b[0] == '[';
      assert name + b == name + ['['] + b[1..];
      RunsSplit(name, '[', b[1..]);
      assert Runs(b) == Runs(b[1..]);
    } else {
      assert name + b == name;
    }
  }

  /** Integer runs become their values. */
  lemma {:induction false} IndexTokens(path: seq<nat>)
    ensures Tokens(IndexRuns(path)) == Numbers(path)
    decreases |path|
  {
    if path != [] {
      DigitsOfNat(path[0]);
      IndexTokens(path[1..]);
      assert IndexRuns(path)[1..] == IndexRuns(path[1..]);
    }
  }

  /** The pyqubo name of an array element, name[i][j]..., is keyed by the
      word name followed by the indices as ints; so array elements of one
      name sort by their index paths. */
  lemma ArrayLabelKey(name: string, path: seq<nat>)
    requires name != [] && AllWordChars(name) && !AllDigits(name)
    ensures Tokenize(name + Environment.Brackets(path)) == [Word(name)] + Numbers(path)
  {
    ArrayLabelRuns(name, path);
    IndexTokens(path);
    assert ([name] + IndexRuns(path))[1..] == IndexRuns(path);
  }

  // ---------------------------------------------------------------------
  // Order

  /** Python's str < : code point by code point, a proper prefix first. */
  predicate StrLess(s: string, t: string)
    decreases |s|
  {
    if s == [] then t != []
    else if t == [] then false
    else s[0] < t[0] || (s[0] == t[0] && StrLess(s[1..], t[1..]))
  }

  /** Tokens: ints by value, strings as str; an int is taken to precede a
      string, where Python would raise TypeError. */
  predicate TokenLess(a: Token, b: Token) {
    match a
    case Number(x) => b.Word? || x < b.n
    case Word(s) => b.Word? && StrLess(s, b.w)
  }

  /** Python's tuple < over tokens: lexicographic, a proper prefix first. */
  predicate KeyLess(a: Key, b: Key)
    decreases |a|
  {
    if a == [] then b != []
    else if b == [] then false
    else TokenLess(a[0], b[0]) || (a[0] == b[0] && KeyLess(a[1..], b[1..]))
  }

  lemma {:induction false} StrLessIrreflexive(s: string)
    ensures !StrLess(s, s)
    decreases |s|
  {
    if s != [] { StrLessIrreflexive(s[1..]); }
  }

  lemma {:induction false} StrLessTransitive(a: string, b: string, c: string)
    requires StrLess(a, b) && StrLess(b, c)
    ensures StrLess(a, c)
    decreases |a|
  {
    if a != [] && a[0] == b[0] && b[0] == c[0] {
      StrLessTransitive(a[1..], b[1..], c[1..]);
    }
  }

  lemma {:induction false} StrLessTotal(a: string, b: string)
    requires a != b
    ensures StrLess(a, b) || StrLess(b, a)
    decreases |a|
  {
    if a != [] && b != [] && a[0] == b[0] {
      assert a == [a[0]] + a[1..] && b == [b[0]] + b[1..];
      StrLessTotal(a[1..], b[1..]);
    }
  }

  lemma TokenLessOrder(a: Token, b: Token, c: Token)
    ensures !TokenLess(a, a)
    ensures TokenLess(a, b) && TokenLess(b, c) ==> TokenLess(a, c)
    ensures a != b ==> TokenLess(a, b) || TokenLess(b, a)
  {
    if a.Word? { StrLessIrreflexive(a.w); }
    if a.Word? && b.Word? && c.Word? && TokenLess(a, b) && TokenLess(b, c) {
      StrLessTransitive(a.w, b.w, c.w);
    }
    if a.Word? && b.Word? && a != b { StrLessTotal(a.w, b.w); }
  }

  lemma {:induction false} KeyLessIrreflexive(a: Key)
    ensures !KeyLess(a, a)
    decreases |a|
  {
    if a != [] {
      TokenLessOrder(a[0], a[0], a[0]);
      KeyLessIrreflexive(a[1..]);
    }
  }

  lemma {:induction false} KeyLessTransitive(a: Key, b: Key, c: Key)
    requires KeyLess(a, b) && KeyLess(b, c)
    ensures KeyLess(a, c)
    decreases |a|
  {
    if a != [] {
      TokenLessOrder(a[0], b[0], c[0]);
      if a[0] == b[0] && b[0] == c[0] {
        KeyLessTransitive(a[1..], b[1..], c[1..]);
      }
    }
  }

  lemma {:induction false} KeyLessTotal(a: Key, b: Key)
    requires a != b
    ensures KeyLess(a, b) || KeyLess(b, a)
    decreases |a|
  {
    if a != [] && b != [] {
      TokenLessOrder(a[0], b[0], b[0]);
      if a[0] == b[0] {
        assert a == [a[0]] + a[1..] && b == [b[0]] + b[1..];
        KeyLessTotal(a[1..], b[1..]);
      }
    }
  }

  /** The element x[d] is keyed by ("x", d). */
  lemma ArrayKeyExample(d: nat)
    ensures Tokenize("x[" + Environment.NatToString(d) + "]") == [Word("x"), Number(d)]
  {
    XIsName();
    ElementName("x", d);
    ArrayLabelKey("x", [d]);
    assert "x" + "[" == "x[";
    assert Numbers([d]) == [Number(d)];
  }

  /** "x" is a word and not a number. */
  lemma XIsName()
    ensures "x" != [] && AllWordChars("x") && !AllDigits("x")
  {
    assert IsWordChar("x"[0]);
    assert !IsDigit("x"[0]);
  }

  /** The element of name at d is named name[d]. */
  lemma ElementName(name: string, d: nat)
    ensures name + Environment.Brackets([d]) == name + "[" + Environment.NatToString(d) + "]"
  {
    assert Environment.Brackets([d]) == "[" + Environment.NatToString(d) + "]" by {
      assert Environment.Brackets([d][1..]) == [];
    }
  }

  /** A name like x10 is one word, not split at its digits. */
  lemma WordExample()
    ensures Tokenize("x10") == [Word("x10")]
  {
    assert AllWordChars("x10") by {
      assert IsWordChar("x10"[0]) && IsWordChar("x10"[1]) && IsWordChar("x10"[2]);
    }
    RunsOfWord("x10");
    assert !AllDigits("x10") by { assert !IsDigit("x10"[0]); }
  }

  lemma StrExample()
    ensures StrLess("x[10]", "x[2]")
  {
    assert "x[10]"[1..] == "[10]" && "x[2]"[1..] == "[2]";
    assert "[10]"[1..] == "10]" && "[2]"[1..] == "2]";
    assert StrLess("10]", "2]");
  }

  lemma KeyExample()
    ensures KeyLess([Word("x"), Number(2)], [Word("x"), Number(10)])
  {
    var a: Key := [Word("x"), Number(2)];
    var b: Key := [Word("x"), Number(10)];
    assert a[1..] == [Number(2)] && b[1..] == [Number(10)];
    assert KeyLess([Number(2)], [Number(10)]);
  }

  /** x[2] sorts before x[10], although the string "x[10]" is less than "x[2]". */
  lemma NumericAwareOrder()
    ensures Tokenize("x[2]") == [Word("x"), Number(2)]
    ensures Tokenize("x[10]") == [Word("x"), Number(10)]
    ensures KeyLess(Tokenize("x[2]"), Tokenize("x[10]"))
    ensures StrLess("x[10]", "x[2]")
  {
    ArrayKeyExample(2);
    ArrayKeyExample(10);
    assert Environment.NatToString(2) == "2";
    assert Environment.NatToString(10) == "10" by { assert Environment.NatToString(1) == "1"; }
    assert "x[" + "2" + "]" == "x[2]" && "x[" + "10" + "]" == "x[10]";
    KeyExample();
    StrExample();
  }

  // ---------------------------------------------------------------------
  // Sorting

  /** An item of structure.items(): a label and its key. */
  type Entry = (string, Key)

  predicate SortedByKey(es: seq<Entry>) {
    forall i, j :: 0 <= i < j < |es| ==> !KeyLess(es[j].1, es[i].1)
  }

  /** Place e after every entry whose key is not greater. */
  function Insert(es: seq<Entry>, e: Entry): seq<Entry>
    decreases |es|
  {
    if es == [] then [e]
    else if KeyLess(e.1, es[0].1) then [e] + es
    else [es[0]] + Insert(es[1..], e)
  }

  /** sorted(items, key=lambda x: x[1]): a stable insertion sort. */
  function SortByKey(es: seq<Entry>): seq<Entry>
    decreases |es|
  {
    if es == [] then [] else Insert(SortByKey(es[..|es| - 1]), es[|es| - 1])
  }

  /** Inserting adds exactly e. */
  lemma {:induction false} InsertMembers(es: seq<Entry>, e: Entry)
    ensures multiset(Insert(es, e)) == multiset(es) + multiset{e}
    decreases |es|
  {
    if es != [] && !KeyLess(e.1, es[0].1) {
      InsertMembers(es[1..], e);
      assert es == [es[0]] + es[1..];
    }
  }

  /** An entry no greater than all of a sorted list may go in front of it. */
  lemma SortedCons(x: Entry, t: seq<Entry>)
    requires SortedByKey(t)
    requires forall j :: 0 <= j < |t| ==> !KeyLess(t[j].1, x.1)
    ensures SortedByKey([x] + t)
  {
    var r := [x] + t;
    forall i, j | 0 <= i < j < |r| ensures !KeyLess(r[j].1, r[i].1) {
      assert r[j] == t[j - 1];
      if i > 0 { assert r[i] == t[i - 1]; }
    }
  }

  lemma {:induction false} InsertSorted(es: seq<Entry>, e: Entry)
    requires SortedByKey(es)
    ensures SortedByKey(Insert(es, e))
    decreases |es|
  {
    if es != [] {
      if KeyLess(e.1, es[0].1) {
        forall j | 0 <= j < |es| ensures !KeyLess(es[j].1, e.1) {
          if j > 0 {
            assert !KeyLess(es[j].1, es[0].1);
          }
          if KeyLess(es[j].1, e.1) {
            KeyLessTransitive(es[j].1, e.1, es[0].1);
          }
          KeyLessIrreflexive(es[0].1);
        }
        SortedCons(e, es);
      } else {
        var tail := Insert(es[1..], e);
        InsertSorted(es[1..], e);
        InsertMembers(es[1..], e);
        forall j | 0 <= j < |tail| ensures !KeyLess(tail[j].1, es[0].1) {
          assert tail[j] in multiset(es[1..]) + multiset{e};
          if tail[j] != e {
            var k :| 0 <= k < |es[1..]| && es[1..][k] == tail[j];
            assert es[k + 1] == tail[j];
          }
        }
        SortedCons(es[0], tail);
      }
    }
  }

  /** The sort is ordered by key and a permutation of its input. */
  lemma {:induction false} SortByKeyCorrect(es: seq<Entry>)
    ensures SortedByKey(SortByKey(es))
    ensures multiset(SortByKey(es)) == multiset(es)
    decreases |es|
  {
    if es != [] {
      var p := es[..|es| - 1];
      SortByKeyCorrect(p);
      InsertSorted(SortByKey(p), es[|es| - 1]);
      InsertMembers(SortByKey(p), es[|es| - 1]);
      assert es == p + [es[|es| - 1]];
    }
  }

  // ---------------------------------------------------------------------
  // The structure, the sorted labels and the index

  predicate Distinct(s: seq<string>) {
    forall i, j :: 0 <= i < j < |s| ==> s[i] != s[j]
  }

  /** The labels of a set listed once each, ordered by key. */
  ghost predicate SortedLabels(labels: set<string>, s: seq<string>) {
    Distinct(s) && (forall l :: l in labels <==> l in s) &&
    forall i, j :: 0 <= i < j < |s| ==> !KeyLess(Tokenize(s[j]), Tokenize(s[i]))
  }

  /** _make_stracture (mathjson2qubo/model.py:69-74): one entry per label,
      keyed by Tokenize; the set is visited in an unspecified order. */
  method MakeStructure(labels: set<string>) returns (structure: Dict<string, Key>)
    ensures DistinctKeys(structure) && |structure| == |labels|
    ensures forall l :: l in labels <==> HasKey(structure, l)
    ensures forall i :: 0 <= i < |structure| ==> structure[i].1 == Tokenize(structure[i].0)
  {
    structure := [];
    var rest := labels;
    while rest != {}
      invariant rest <= labels && DistinctKeys(structure)
      invariant |structure| + |rest| == |labels|
      invariant forall l :: l in labels <==> HasKey(structure, l) || l in rest
      invariant forall l :: l in rest ==> !HasKey(structure, l)
      invariant forall i :: 0 <= i < |structure| ==> structure[i].1 == Tokenize(structure[i].0)
      decreases |rest|
    {
      var l :| l in rest;
      PutGet(structure, l, Tokenize(l));
      structure := Put(structure, l, Tokenize(l));
      rest := rest - {l};
    }
  }

  /** Entries that are a permutation of entries with distinct labels have
      distinct labels too. */
  lemma PermutationDistinct(a: seq<Entry>, b: seq<Entry>)
    requires multiset(a) == multiset(b) && DistinctKeys(b)
    ensures DistinctKeys(a)
  {
    forall i, j | 0 <= i < j < |a| ensures a[i].0 != a[j].0 {
      assert a[i] in multiset(b) && a[j] in multiset(b);
      var p :| 0 <= p < |b| && b[p] == a[i];
      var q :| 0 <= q < |b| && b[q] == a[j];
      DistinctCount(b, a[i]);
      RepeatCount(a, i, j);
    }
  }

  lemma {:induction false} DistinctCount(b: seq<Entry>, x: Entry)
    requires DistinctKeys(b)
    ensures multiset(b)[x] <= 1
    decreases |b|
  {
    if b != [] {
      var p := b[..|b| - 1];
      DistinctCount(p, x);
      assert b == p + [b[|b| - 1]];
      if b[|b| - 1] == x {
        forall k | 0 <= k < |p| ensures p[k] != x {
          assert p[k] == b[k];
        }
      }
    }
  }

  lemma RepeatCount(a: seq<Entry>, i: nat, j: nat)
    requires i < j < |a|
    ensures a[i] == a[j] ==> multiset(a)[a[i]] >= 2
  {
    assert a == a[..i] + [a[i]] + a[i + 1..j] + [a[j]] + a[j + 1..];
  }

  /** A permutation has the same length and the same entries. */
  lemma SameEntries(a: seq<Entry>, b: seq<Entry>)
    requires multiset(a) == multiset(b)
    ensures |a| == |b| && forall x :: x in a <==> x in b
  {
    assert |multiset(a)| == |multiset(b)|;
    forall x ensures x in a <==> x in b {
      assert x in a <==> x in multiset(a);
      assert x in b <==> x in multiset(b);
    }
  }

  /** The labels of entries that are exactly the labels of a set. */
  lemma ItemLabels(labels: set<string>, items: seq<Entry>, sorted: seq<string>)
    requires forall l :: l in labels <==> exists x :: x in items && x.0 == l
    requires |sorted| == |items| && forall i :: 0 <= i < |items| ==> sorted[i] == items[i].0
    ensures forall l :: l in labels <==> l in sorted
  {
    forall l | l in labels ensures l in sorted {
      var x :| x in items && x.0 == l;
      var i :| 0 <= i < |items| && items[i] == x;
      assert sorted[i] == l;
    }
    forall l | l in sorted ensures l in labels {
      var i :| 0 <= i < |sorted| && sorted[i] == l;
      assert items[i] in items;
    }
  }

  /** Entries with the same members as the structure carry its labels and keys. */
  lemma StructureItems(labels: set<string>, structure: Dict<string, Key>, items: seq<Entry>)
    requires forall l :: l in labels <==> HasKey(structure, l)
    requires forall i :: 0 <= i < |structure| ==> structure[i].1 == Tokenize(structure[i].0)
    requires forall x :: x in items <==> x in structure
    ensures forall i :: 0 <= i < |items| ==> items[i].1 == Tokenize(items[i].0)
    ensures forall l :: l in labels <==> exists x :: x in items && x.0 == l
  {
    forall i | 0 <= i < |items| ensures items[i].1 == Tokenize(items[i].0) {
      assert items[i] in items;
      var k :| 0 <= k < |structure| && structure[k] == items[i];
    }
    forall l ensures l in labels <==> exists x :: x in items && x.0 == l {
      if l in labels {
        var k := IndexOf(structure, l);
        assert structure[k] in structure;
      }
      if exists x :: x in items && x.0 == l {
        var x :| x in items && x.0 == l;
        var k :| 0 <= k < |structure| && structure[k] == x;
        assert HasKey(structure, l);
      }
    }
  }

  /** _sort_label (mathjson2qubo/model.py:63-66): every label once, ordered
      by key. */
  method SortLabel(labels: set<string>) returns (sorted: seq<string>)
    ensures |sorted| == |labels| && SortedLabels(labels, sorted)
  {
    var structure := MakeStructure(labels);
    var items := SortByKey(structure);
    SortByKeyCorrect(structure);
    PermutationDistinct(items, structure);
    SameEntries(items, structure);
    StructureItems(labels, structure, items);
    sorted := seq(|items|, i requires 0 <= i < |items| => items[i].0);
    ItemLabels(labels, items, sorted);
  }

  /** {key: num for num, key in enumerate(s)}; a repeated key keeps its last position. */
  function Enumerate(s: seq<string>): map<string, nat>
    decreases |s|
  {
    if s == [] then map[] else Enumerate(s[..|s| - 1])[s[|s| - 1] := |s| - 1]
  }

  /** The keys of the enumeration are the listed labels. */
  lemma {:induction false} EnumerateKeys(s: seq<string>)
    ensures forall l :: l in Enumerate(s) <==> l in s
    decreases |s|
  {
    if s != [] {
      var p := s[..|s| - 1];
      EnumerateKeys(p);
      assert s == p + [s[|s| - 1]];
    }
  }

  /** Without repeats, each label maps to its own position. */
  lemma {:induction false} EnumerateAt(s: seq<string>)
    requires Distinct(s)
    ensures forall i :: 0 <= i < |s| ==> s[i] in Enumerate(s) && Enumerate(s)[s[i]] == i
    decreases |s|
  {
    if s != [] {
      var n := |s| - 1;
      var p := s[..n];
      assert Distinct(p) by {
        forall i, j | 0 <= i < j < |p| ensures p[i] != p[j] { assert p[i] == s[i] && p[j] == s[j]; }
      }
      EnumerateAt(p);
      forall i | 0 <= i < n ensures Enumerate(s)[s[i]] == i {
        assert p[i] == s[i] && s[i] != s[n];
      }
    }
  }

  lemma EnumeratePositions(s: seq<string>)
    requires Distinct(s)
    ensures Enumerate(s).Keys == set l | l in s
    ensures forall i :: 0 <= i < |s| ==> Enumerate(s)[s[i]] == i
  {
    EnumerateKeys(s);
    EnumerateAt(s);
  }

  /** Two key-ordered listings of the same labels agree when no two labels
      share a key: the order is determined. */
  lemma {:induction false} SortedLabelsUnique(labels: set<string>, s: seq<string>, t: seq<string>)
    requires SortedLabels(labels, s) && SortedLabels(labels, t)
    requires forall a, b :: a in labels && b in labels && a != b ==> Tokenize(a) != Tokenize(b)
    ensures s == t
    decreases |s|
  {
    assert s != [] ==> s[0] in labels && t != [];
    assert t != [] ==> t[0] in labels && s != [];
    if s != [] {
      SortedHeads(labels, s, t);
      SortedTail(labels, s);
      SortedTail(labels, t);
      SortedLabelsUnique(labels - {s[0]}, s[1..], t[1..]);
      assert s == [s[0]] + s[1..] && t == [t[0]] + t[1..];
    }
  }

  /** Two key-ordered listings of labels with distinct keys start alike. */
  lemma SortedHeads(labels: set<string>, s: seq<string>, t: seq<string>)
    requires SortedLabels(labels, s) && SortedLabels(labels, t) && s != [] && t != []
    requires forall a, b :: a in labels && b in labels && a != b ==> Tokenize(a) != Tokenize(b)
    ensures s[0] == t[0]
  {
    if s[0] != t[0] {
      assert s[0] in labels && t[0] in labels;
      assert s[0] in t && t[0] in s;
      var j :| 0 <= j < |t| && t[j] == s[0];
      var i :| 0 <= i < |s| && s[i] == t[0];
      assert !KeyLess(Tokenize(s[0]), Tokenize(t[0]));
      assert !KeyLess(Tokenize(t[0]), Tokenize(s[0]));
      KeyLessTotal(Tokenize(s[0]), Tokenize(t[0]));
    }
  }

  /** Dropping the first label of a key-ordered listing lists the other labels. */
  lemma SortedTail(labels: set<string>, s: seq<string>)
    requires SortedLabels(labels, s) && s != []
    ensures SortedLabels(labels - {s[0]}, s[1..])
  {
    forall l ensures l in labels - {s[0]} <==> l in s[1..] {
      if l in s[1..] {
        var i :| 0 <= i < |s[1..]| && s[1..][i] == l;
        assert s[i + 1] == l;
      }
      if l in s && l != s[0] {
        var i :| 0 <= i < |s| && s[i] == l;
        assert s[1..][i - 1] == l;
      }
    }
    forall i, j | 0 <= i < j < |s[1..]| ensures s[1..][i] != s[1..][j] && !KeyLess(Tokenize(s[1..][j]), Tokenize(s[1..][i])) {
      assert s[1..][i] == s[i + 1] && s[1..][j] == s[j + 1];
    }
  }

  /** What the label index promises: a bijection from the labels onto
      0..n-1 that numbers them in key order, as enumerate over a sorted
      listing does. */
  ghost predicate IsSortedIndex(labels: set<string>, index: map<string, nat>) {
    index.Keys == labels &&
    (forall l :: l in labels ==> index[l] < |labels|) &&
    (forall a, b :: a in labels && b in labels && a != b ==> index[a] != index[b]) &&
    (forall a, b :: a in labels && b in labels && KeyLess(Tokenize(a), Tokenize(b)) ==> index[a] < index[b]) &&
    exists s :: SortedLabels(labels, s) && index == Enumerate(s)
  }

  /** _make_new_label2index_sorted (mathjson2qubo/model.py:58-60): a
      bijection from the labels onto 0..n-1 that numbers them in key order. */
  method Label2Index(labels: set<string>) returns (index: map<string, nat>)
    ensures index.Keys == labels
    ensures forall l :: l in labels ==> index[l] < |labels|
    ensures forall a, b :: a in labels && b in labels && a != b ==> index[a] != index[b]
    ensures forall a, b :: a in labels && b in labels && KeyLess(Tokenize(a), Tokenize(b)) ==> index[a] < index[b]
    ensures exists s :: SortedLabels(labels, s) && index == Enumerate(s)
  {
    var sorted := SortLabel(labels);
    index := Enumerate(sorted);
    EnumeratePositions(sorted);
    assert index.Keys == labels;
    forall l | l in labels ensures index[l] < |labels| {
      var i :| 0 <= i < |sorted| && sorted[i] == l;
    }
    forall a, b | a in labels && b in labels && a != b ensures index[a] != index[b] {
      var i :| 0 <= i < |sorted| && sorted[i] == a;
      var j :| 0 <= j < |sorted| && sorted[j] == b;
    }
    forall a, b | a in labels && b in labels && KeyLess(Tokenize(a), Tokenize(b)) ensures index[a] < index[b] {
      var i :| 0 <= i < |sorted| && sorted[i] == a;
      var j :| 0 <= j < |sorted| && sorted[j] == b;
      if i == j {
        KeyLessIrreflexive(Tokenize(a));
      }
    }
  }
}
