/** Cell values of a table, their order, and sorting by lists of values. */
module Values {

  /** A nullable cell. `Null` is the polars null; integers are reals with no fraction. */
  datatype Value = Null | Num(n: real) | Str(s: string)

  // ----- The order polars sorts by: nulls first, then ascending -----

  predicate StrLe(a: string, b: string) {
    if a == [] then true
    else if b == [] then false
    else if a[0] != b[0] then a[0] < b[0]
    else StrLe(a[1..], b[1..])
  }

  predicate ValueLe(a: Value, b: Value) {
    match (a, b)
    case (Null, _) => true
    case (_, Null) => false
    case (Num(x), Num(y)) => x <= y
    case (Num(_), Str(_)) => true
    case (Str(_), Num(_)) => false
    case (Str(x), Str(y)) => StrLe(x, y)
  }

  lemma {:induction false} StrLeAntisymmetric(a: string, b: string)
    requires StrLe(a, b) && StrLe(b, a)
    ensures a == b
  {
    if a != [] && b != [] {
      StrLeAntisymmetric(a[1..], b[1..]);
      assert a == [a[0]] + a[1..];
      assert b == [b[0]] + b[1..];
    }
  }

  lemma {:induction false} StrLeTransitive(a: string, b: string, c: string)
    requires StrLe(a, b) && StrLe(b, c)
    ensures StrLe(a, c)
  {
    if a != [] && b != [] && c != [] && a[0] == b[0] == c[0] {
      StrLeTransitive(a[1..], b[1..], c[1..]);
    }
  }

  lemma {:induction false} StrLeTotal(a: string, b: string)
    ensures StrLe(a, b) || StrLe(b, a)
  {
    if a != [] && b != [] && a[0] == b[0] {
      StrLeTotal(a[1..], b[1..]);
    }
  }

  lemma ValueLeAntisymmetric(a: Value, b: Value)
    requires ValueLe(a, b) && ValueLe(b, a)
    ensures a == b
  {
    if a.Str? && b.Str? { StrLeAntisymmetric(a.s, b.s); }
  }

  lemma ValueLeTransitive(a: Value, b: Value, c: Value)
    requires ValueLe(a, b) && ValueLe(b, c)
    ensures ValueLe(a, c)
  {
    if a.Str? && b.Str? && c.Str? { StrLeTransitive(a.s, b.s, c.s); }
  }

  lemma ValueLeTotal(a: Value, b: Value)
    ensures ValueLe(a, b) || ValueLe(b, a)
  {
    if a.Str? && b.Str? { StrLeTotal(a.s, b.s); }
  }

  /** Strings are in dictionary order: a prefix first, else by the first character that differs. */
  lemma {:induction false} StrLeMeaning(a: string, b: string)
    ensures StrLe(a, b) <==>
            a <= b || exists k :: 0 <= k < |a| && k < |b| && a[..k] == b[..k] && a[k] < b[k]
  {
    if a != [] && b != [] {
      var x, y := a[1..], b[1..];
      assert a == [a[0]] + x && b == [b[0]] + y;
      if a[0] == b[0] {
        StrLeMeaning(x, y);
        assert a <= b <==> x <= y;
        if k :| 0 <= k < |x| && k < |y| && x[..k] == y[..k] && x[k] < y[k] {
          assert a[..k + 1] == [a[0]] + x[..k] == b[..k + 1] && a[k + 1] < b[k + 1];
        }
        if k :| 0 <= k < |a| && k < |b| && a[..k] == b[..k] && a[k] < b[k] {
          assert x[..k - 1] == a[..k][1..] == y[..k - 1] && x[k - 1] < y[k - 1];
        }
      } else {
        assert a[..0] == b[..0];
        forall k | 0 < k < |a| && k < |b| ensures a[..k] != b[..k] { assert a[..k][0] == a[0] && b[..k][0] == b[0]; }
      }
    }
  }

  /** One sort column: nulls come first whether or not the column is descending. */
  predicate CellLe(desc: bool, a: Value, b: Value) {
    if a == Null then true
    else if b == Null then false
    else if desc then ValueLe(b, a)
    else ValueLe(a, b)
  }

  /** Lexicographic order of two sort keys, one direction per column. */
  predicate KeyLe(desc: seq<bool>, a: seq<Value>, b: seq<Value>)
    requires |desc| == |a| == |b|
  {
    if a == [] then true
    else if a[0] != b[0] then CellLe(desc[0], a[0], b[0])
    else KeyLe(desc[1..], a[1..], b[1..])
  }

  lemma CellLeLaws(desc: bool, a: Value, b: Value, c: Value)
    ensures CellLe(desc, a, b) || CellLe(desc, b, a)
    ensures CellLe(desc, a, b) && CellLe(desc, b, a) ==> a == b
    ensures CellLe(desc, a, b) && CellLe(desc, b, c) ==> CellLe(desc, a, c)
  {
    ValueLeTotal(a, b);
    if ValueLe(a, b) && ValueLe(b, a) { ValueLeAntisymmetric(a, b); }
    if ValueLe(a, b) && ValueLe(b, c) { ValueLeTransitive(a, b, c); }
    if ValueLe(c, b) && ValueLe(b, a) { ValueLeTransitive(c, b, a); }
  }

  lemma {:induction false} KeyLeTotal(desc: seq<bool>, a: seq<Value>, b: seq<Value>)
    requires |desc| == |a| == |b|
    ensures KeyLe(desc, a, b) || KeyLe(desc, b, a)
  {
    if a != [] {
      CellLeLaws(desc[0], a[0], b[0], b[0]);
      if a[0] == b[0] { KeyLeTotal(desc[1..], a[1..], b[1..]); }
    }
  }

  /** Keys that agree up to a column are ordered by that column. */
  lemma {:induction false} KeyLeAt(desc: seq<bool>, a: seq<Value>, b: seq<Value>, p: nat)
    requires |desc| == |a| == |b| && p < |a| && KeyLe(desc, a, b)
    requires forall q :: 0 <= q < p ==> a[q] == b[q]
    ensures CellLe(desc[p], a[p], b[p])
  {
    if p > 0 {
      KeyLeAt(desc[1..], a[1..], b[1..], p - 1);
    } else {
      CellLeLaws(desc[0], a[0], b[0], b[0]);
    }
  }

  lemma {:induction false} KeyLeAntisymmetric(desc: seq<bool>, a: seq<Value>, b: seq<Value>)
    requires |desc| == |a| == |b|
    requires KeyLe(desc, a, b) && KeyLe(desc, b, a)
    ensures a == b
  {
    if a != [] {
      CellLeLaws(desc[0], a[0], b[0], b[0]);
      KeyLeAntisymmetric(desc[1..], a[1..], b[1..]);
      assert a == [a[0]] + a[1..] && b == [b[0]] + b[1..];
    }
  }

  lemma {:induction false} KeyLeTransitive(desc: seq<bool>, a: seq<Value>, b: seq<Value>, c: seq<Value>)
    requires |desc| == |a| == |b| == |c|
    requires KeyLe(desc, a, b) && KeyLe(desc, b, c)
    ensures KeyLe(desc, a, c)
  {
    if a != [] {
      CellLeLaws(desc[0], a[0], b[0], c[0]);
      if a[0] == b[0] == c[0] { KeyLeTransitive(desc[1..], a[1..], b[1..], c[1..]); }
    }
  }

  // ----- Sorted lists of distinct values: `sorted(column.unique())` -----

  ghost predicate Ascending(vs: seq<Value>) {
    forall i, j :: 0 <= i < j < |vs| ==> ValueLe(vs[i], vs[j]) && vs[i] != vs[j]
  }

  function InsertValue(v: Value, vs: seq<Value>): (r: seq<Value>)
    requires Ascending(vs)
    ensures Ascending(r)
    ensures forall x :: x in r <==> x == v || x in vs
  {
    if vs == [] then [v]
    else if v == vs[0] then vs
    else if ValueLe(v, vs[0]) then
      assert forall k :: 0 <= k < |vs| ==> ValueLe(v, vs[k]) && v != vs[k] by { InsertFront(v, vs); }
      [v] + vs
    else
      var rest := InsertValue(v, vs[1..]);
      assert forall k :: 0 <= k < |rest| ==> ValueLe(vs[0], rest[k]) && rest[k] != vs[0] by {
        ValueLeTotal(v, vs[0]);
        forall k | 0 <= k < |rest| ensures ValueLe(vs[0], rest[k]) && rest[k] != vs[0] {
          assert rest[k] in rest;
        }
      }
      [vs[0]] + rest
  }

  lemma InsertFront(v: Value, vs: seq<Value>)
    requires Ascending(vs) && vs != [] && ValueLe(v, vs[0]) && v != vs[0]
    ensures forall k :: 0 <= k < |vs| ==> ValueLe(v, vs[k]) && v != vs[k]
  {
    forall k | 0 <= k < |vs| ensures ValueLe(v, vs[k]) && v != vs[k] {
      if k > 0 {
        ValueLeTransitive(v, vs[0], vs[k]);
        if v == vs[k] { ValueLeAntisymmetric(vs[0], vs[k]); }
      }
    }
  }

  /** The distinct values of a column, ascending. */
  function SortedUnique(vs: seq<Value>): (r: seq<Value>)
    ensures Ascending(r)
    ensures forall x :: x in r <==> x in vs
  {
    if vs == [] then [] else InsertValue(vs[0], SortedUnique(vs[1..]))
  }
}
