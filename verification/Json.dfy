/** JSON values and the structural comparison that decides whether a setting has changed. */
module Json {

  datatype Json =
    | JNull
    | JBool(b: bool)
    | JNum(n: real)
    | JStr(s: string)
    | JArr(items: seq<Json>)
    | JObj(fields: seq<Field>)

  datatype Field = Field(key: string, value: Json)

  predicate IsContainer(j: Json) {
    j.JArr? || j.JObj?
  }

  // ----- Keys -----

  function Digit(d: nat): char
    requires d < 10
  {
    ['0', '1', '2', '3', '4', '5', '6', '7', '8', '9'][d]
  }

  /** An array index as JavaScript names it. */
  function IndexKey(i: nat): (k: string)
    ensures k != ""
  {
    if i < 10 then [Digit(i)] else IndexKey(i / 10) + [Digit(i % 10)]
  }

  lemma {:induction false} IndexKeyInjective(i: nat, j: nat)
    requires IndexKey(i) == IndexKey(j)
    ensures i == j
  {
    var a, b := IndexKey(i), IndexKey(j);
    assert a[|a| - 1] == Digit(i % 10) && b[|b| - 1] == Digit(j % 10);
    if i >= 10 && j >= 10 {
      assert a[..|a| - 1] == IndexKey(i / 10) && b[..|b| - 1] == IndexKey(j / 10);
      IndexKeyInjective(i / 10, j / 10);
    } else {
      KeyLengths(i);
      KeyLengths(j);
    }
  }

  lemma KeyLengths(i: nat)
    ensures |IndexKey(i)| == 1 <==> i < 10
  {
  }

  /** The own properties of a container: an array's are named by its indices. */
  function Entries(j: Json): (es: seq<Field>)
    requires IsContainer(j)
    ensures forall e :: e in es ==> e.value < j
  {
    match j
    case JArr(items) => seq(|items|, i requires 0 <= i < |items| => Field(IndexKey(i), items[i]))
    case JObj(fields) => fields
  }

  predicate HasKey(es: seq<Field>, k: string) {
    exists i :: 0 <= i < |es| && es[i].key == k
  }

  function Lookup(es: seq<Field>, k: string): (v: Json)
    requires HasKey(es, k)
    ensures exists i :: 0 <= i < |es| && es[i] == Field(k, v)
  {
    if es[0].key == k then es[0].value
    else
      assert HasKey(es[1..], k) by {
        var i :| 0 <= i < |es| && es[i].key == k;
        assert es[1..][i - 1].key == k;
      }
      var v := Lookup(es[1..], k);
      assert exists i :: 0 <= i < |es| && es[i] == Field(k, v) by {
        var i :| 0 <= i < |es[1..]| && es[1..][i] == Field(k, v);
        assert es[i + 1] == Field(k, v);
      }
      v
  }

  function KeySet(es: seq<Field>): set<string> {
    set i | 0 <= i < |es| :: es[i].key
  }

  predicate DistinctKeys(es: seq<Field>) {
    forall i, j :: 0 <= i < j < |es| ==> es[i].key != es[j].key
  }

  /** Objects hold each key once. */
  predicate WellFormed(j: Json)
    decreases j
  {
    IsContainer(j) ==> DistinctKeys(Entries(j)) && forall e :: e in Entries(j) ==> WellFormed(e.value)
  }

  lemma LookupAt(es: seq<Field>, i: nat)
    requires DistinctKeys(es) && i < |es|
    ensures HasKey(es, es[i].key) && Lookup(es, es[i].key) == es[i].value
  {
    assert HasKey(es, es[i].key);
    var v := Lookup(es, es[i].key);
    var j :| 0 <= j < |es| && es[j] == Field(es[i].key, v);
    assert !(i < j) && !(j < i);
  }

  // ----- Comparison -----

  /** `isEqual`: primitives by value, containers by their keys and then value by value. */
  predicate IsEqual(a: Json, b: Json)
    decreases a
  {
    if !IsContainer(a) || !IsContainer(b) then a == b
    else
      var x, y := Entries(a), Entries(b);
      |x| == |y| && forall i :: 0 <= i < |x| ==>
          HasKey(y, x[i].key) && (assert x[i] in x; IsEqual(x[i].value, Lookup(y, x[i].key)))
  }

  // ----- What it decides -----

  /** A value with arrays read as objects keyed by index. */
  datatype Tree = Leaf(value: Json) | Node(children: map<string, Tree>)

  function Normal(j: Json): Tree
    decreases j
  {
    if !IsContainer(j) then Leaf(j)
    else
      var es := Entries(j);
      Node(map k | k in KeySet(es) :: assert HasKey(es, k); LookupIn(es, k); Normal(Lookup(es, k)))
  }

  lemma LookupIn(es: seq<Field>, k: string)
    requires HasKey(es, k)
    ensures Field(k, Lookup(es, k)) in es
  {
  }

  lemma {:induction false} KeySetSize(es: seq<Field>)
    requires DistinctKeys(es)
    ensures |KeySet(es)| == |es|
  {
    if es == [] {
      assert KeySet(es) == {};
    } else {
      var init := es[..|es| - 1];
      KeySetSize(init);
      assert KeySet(es) == KeySet(init) + {es[|es| - 1].key} by {
        forall k | k in KeySet(es) ensures k in KeySet(init) + {es[|es| - 1].key} {
          var i :| 0 <= i < |es| && es[i].key == k;
          if i < |init| { assert init[i].key == k; }
        }
        forall k | k in KeySet(init) ensures k in KeySet(es) {
          var i :| 0 <= i < |init| && init[i].key == k;
          assert es[i].key == k;
        }
      }
      assert es[|es| - 1].key !in KeySet(init);
    }
  }

  lemma SameSizeSubset<T>(a: set<T>, b: set<T>)
    requires a <= b && |a| == |b|
    ensures a == b
  {
    assert b == a + (b - a);
    assert |b - a| == 0;
  }

  /** Two containers with equally many keys, each of the first a key of the second, have the same keys. */
  lemma SameKeys(x: seq<Field>, y: seq<Field>)
    requires DistinctKeys(x) && DistinctKeys(y) && |x| == |y|
    requires forall i :: 0 <= i < |x| ==> HasKey(y, x[i].key)
    ensures KeySet(x) == KeySet(y)
  {
    KeySetSize(x);
    KeySetSize(y);
    forall k | k in KeySet(x) ensures k in KeySet(y) {
      var i :| 0 <= i < |x| && x[i].key == k;
      var j :| 0 <= j < |y| && y[j].key == x[i].key;
      assert y[j].key in KeySet(y);
    }
    SameSizeSubset(KeySet(x), KeySet(y));
  }

  lemma HasKeyIsKeySet(es: seq<Field>, k: string)
    ensures HasKey(es, k) <==> k in KeySet(es)
  {
  }

  /** The comparison is right about the i-th entry of x, if y has its key. */
  ghost predicate RightAt(x: seq<Field>, y: seq<Field>, i: nat)
    requires i < |x|
  {
    HasKey(y, x[i].key) ==>
      (IsEqual(x[i].value, Lookup(y, x[i].key)) <==> Normal(x[i].value) == Normal(Lookup(y, x[i].key)))
  }

  lemma ChildAt(j: Json, i: nat)
    requires IsContainer(j) && DistinctKeys(Entries(j)) && i < |Entries(j)|
    ensures var e := Entries(j)[i];
            e.key in Normal(j).children && Normal(j).children[e.key] == Normal(e.value)
  {
    var es := Entries(j);
    LookupAt(es, i);
    HasKeyIsKeySet(es, es[i].key);
  }

  lemma ChildOf(j: Json, k: string)
    requires IsContainer(j) && HasKey(Entries(j), k)
    ensures k in Normal(j).children && Normal(j).children[k] == Normal(Lookup(Entries(j), k))
  {
    HasKeyIsKeySet(Entries(j), k);
  }

  lemma EqualAt(a: Json, b: Json, i: nat)
    requires IsContainer(a) && IsContainer(b) && IsEqual(a, b) && i < |Entries(a)|
    ensures var k := Entries(a)[i].key;
            HasKey(Entries(b), k) && IsEqual(Entries(a)[i].value, Lookup(Entries(b), k))
  {
  }

  lemma SameChild(a: Json, b: Json, i: nat)
    requires IsContainer(a) && IsContainer(b) && DistinctKeys(Entries(a)) && DistinctKeys(Entries(b))
    requires i < |Entries(a)| && RightAt(Entries(a), Entries(b), i) && IsEqual(a, b)
    ensures var k := Entries(a)[i].key;
            k in Normal(a).children && k in Normal(b).children && Normal(a).children[k] == Normal(b).children[k]
  {
    EqualAt(a, b, i);
    ChildAt(a, i);
    ChildOf(b, Entries(a)[i].key);
  }

  lemma SameNodes(a: Tree, b: Tree)
    requires a.Node? && b.Node? && a.children.Keys == b.children.Keys
    requires forall k :: k in a.children ==> a.children[k] == b.children[k]
    ensures a == b
  {
    assert a.children == b.children;
  }

  lemma EqualGivesSameTree(a: Json, b: Json)
    requires IsContainer(a) && IsContainer(b) && DistinctKeys(Entries(a)) && DistinctKeys(Entries(b))
    requires forall i :: 0 <= i < |Entries(a)| ==> RightAt(Entries(a), Entries(b), i)
    requires IsEqual(a, b)
    ensures Normal(a) == Normal(b)
  {
    var x, y := Entries(a), Entries(b);
    forall i | 0 <= i < |x| ensures HasKey(y, x[i].key) { EqualAt(a, b, i); }
    SameKeys(x, y);
    var s, t := Normal(a), Normal(b);
    forall k | k in s.children ensures s.children[k] == t.children[k] {
      var i :| 0 <= i < |x| && x[i].key == k;
      SameChild(a, b, i);
    }
    SameNodes(s, t);
  }

  lemma SameTreeGivesEqual(a: Json, b: Json)
    requires IsContainer(a) && IsContainer(b) && DistinctKeys(Entries(a)) && DistinctKeys(Entries(b))
    requires forall i :: 0 <= i < |Entries(a)| ==> RightAt(Entries(a), Entries(b), i)
    requires Normal(a) == Normal(b)
    ensures IsEqual(a, b)
  {
    var x, y := Entries(a), Entries(b);
    assert KeySet(x) == Normal(a).children.Keys == Normal(b).children.Keys == KeySet(y);
    KeySetSize(x);
    KeySetSize(y);
    forall i | 0 <= i < |x| ensures HasKey(y, x[i].key) && IsEqual(x[i].value, Lookup(y, x[i].key)) {
      assert x[i].key in KeySet(x);
      HasKeyIsKeySet(y, x[i].key);
      ChildAt(a, i);
      ChildOf(b, x[i].key);
      assert RightAt(x, y, i);
    }
  }

  /**
   * `isEqual` holds exactly when the two values are the same tree with arrays read as objects keyed
   * by index: so it is blind to key order, and `[]` equals `{}`.
   */
  lemma {:induction false} IsEqualExactly(a: Json, b: Json)
    requires WellFormed(a) && WellFormed(b)
    ensures IsEqual(a, b) <==> Normal(a) == Normal(b)
    decreases a
  {
    if IsContainer(a) && IsContainer(b) {
      var x, y := Entries(a), Entries(b);
      forall i | 0 <= i < |x| ensures RightAt(x, y, i) {
        assert x[i] in x;
        if HasKey(y, x[i].key) {
          LookupIn(y, x[i].key);
          IsEqualExactly(x[i].value, Lookup(y, x[i].key));
        }
      }
      if IsEqual(a, b) { EqualGivesSameTree(a, b); }
      if Normal(a) == Normal(b) { SameTreeGivesEqual(a, b); }
    }
  }

  /** `isEqual` is an equivalence relation on JSON values. */
  lemma IsEqualIsEquivalence(a: Json, b: Json, c: Json)
    requires WellFormed(a) && WellFormed(b) && WellFormed(c)
    ensures IsEqual(a, a)
    ensures IsEqual(a, b) ==> IsEqual(b, a)
    ensures IsEqual(a, b) && IsEqual(b, c) ==> IsEqual(a, c)
  {
    IsEqualExactly(a, a);
    IsEqualExactly(a, b);
    IsEqualExactly(b, a);
    IsEqualExactly(b, c);
    IsEqualExactly(a, c);
  }
}
