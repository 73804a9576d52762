/** Tables, filters and grouping: the polars operations the query planner is compiled to. */
module Tables {
  import opened Common
  import opened Values
  import opened Aggregates

  type Row = map<string, Value>

  function Get(r: Row, col: string): Value {
    if col in r then r[col] else Null
  }

  function Column(rows: seq<Row>, col: string): seq<Value> {
    seq(|rows|, i requires 0 <= i < |rows| => Get(rows[i], col))
  }

  function KeyOf(r: Row, cols: seq<string>): (k: seq<Value>)
    ensures |k| == |cols|
  {
    seq(|cols|, i requires 0 <= i < |cols| => Get(r, cols[i]))
  }

  /** The rows whose `cols` hold exactly `key`, in table order. */
  function RowsWhere(rows: seq<Row>, cols: seq<string>, key: seq<Value>): (r: seq<Row>)
    ensures forall x :: x in r <==> x in rows && KeyOf(x, cols) == key
  {
    if rows == [] then []
    else (if KeyOf(rows[0], cols) == key then [rows[0]] else []) + RowsWhere(rows[1..], cols, key)
  }

  /** The distinct keys in order of first appearance: `group_by(cols, maintain_order=True)`. */
  function GroupKeys(rows: seq<Row>, cols: seq<string>): (ks: seq<seq<Value>>)
    ensures Distinct(ks)
    ensures forall k :: k in ks <==> exists r :: r in rows && KeyOf(r, cols) == k
  {
    if rows == [] then []
    else
      var init := rows[..|rows| - 1];
      var last := rows[|rows| - 1];
      var ks := GroupKeys(init, cols);
      assert forall r :: r in rows <==> r in init || r == last by {
        assert rows == init + [last];
      }
      if KeyOf(last, cols) in ks then ks else ks + [KeyOf(last, cols)]
  }

  lemma {:induction false} RowsWhereAll(rows: seq<Row>)
    ensures RowsWhere(rows, [], []) == rows
  {
    if rows != [] {
      RowsWhereAll(rows[1..]);
      assert KeyOf(rows[0], []) == [];
      assert rows == [rows[0]] + rows[1..];
    }
  }

  /** A group is the rows at ascending positions: those, and all of those, whose columns hold the key. */
  lemma {:induction false} RowsWhereAt(rows: seq<Row>, cols: seq<string>, key: seq<Value>) returns (at: seq<nat>)
    ensures Picks(at, rows, RowsWhere(rows, cols, key))
    ensures forall i: nat :: i in at <==> i < |rows| && KeyOf(rows[i], cols) == key
  {
    if rows == [] { return []; }
    var rest := RowsWhereAt(rows[1..], cols, key);
    var picked := KeyOf(rows[0], cols) == key;
    assert [rows[0]] + rows[1..] == rows;
    PicksMore(rest, rows[0], rows[1..], RowsWhere(rows[1..], cols, key), picked);
    at := Later(rest, picked);
  }

  /** The groups are listed in the order in which the table first names them. */
  lemma {:induction false} GroupsInOrder(rows: seq<Row>, cols: seq<string>, a: nat, b: nat) returns (i: nat)
    requires a < b < |GroupKeys(rows, cols)|
    ensures i < |rows| && KeyOf(rows[i], cols) == GroupKeys(rows, cols)[a]
    ensures forall j :: 0 <= j <= i ==> KeyOf(rows[j], cols) != GroupKeys(rows, cols)[b]
  {
    var n := |rows| - 1;
    var init, ks := rows[..n], GroupKeys(rows[..n], cols);
    if b < |ks| {
      i := GroupsInOrder(init, cols, a, b);
    } else {
      assert ks[a] in ks;
      var r :| r in init && KeyOf(r, cols) == ks[a];
      i :| 0 <= i < |init| && init[i] == r;
      forall j | 0 <= j <= i ensures KeyOf(rows[j], cols) != KeyOf(rows[n], cols) {
        assert init[j] in init && rows[j] == init[j];
      }
    }
  }

  /** Narrowing a group by one more column. */
  lemma {:induction false} RowsWhereExtend(rows: seq<Row>, cols: seq<string>, key: seq<Value>, col: string, v: Value)
    requires |key| == |cols|
    ensures RowsWhere(RowsWhere(rows, cols, key), [col], [v]) == RowsWhere(rows, cols + [col], key + [v])
  {
    if rows != [] {
      var r := rows[0];
      RowsWhereExtend(rows[1..], cols, key, col, v);
      KeyOfExtend(r, cols, col);
      assert KeyOf(r, [col]) == [Get(r, col)];
      assert KeyOf(r, cols + [col]) == key + [v] <==> KeyOf(r, cols) == key && Get(r, col) == v by {
        if KeyOf(r, cols + [col]) == key + [v] {
          assert (KeyOf(r, cols) + [Get(r, col)])[..|cols|] == KeyOf(r, cols);
          assert (key + [v])[..|cols|] == key;
          assert (KeyOf(r, cols) + [Get(r, col)])[|cols|] == (key + [v])[|cols|];
        }
      }
      assert [r][1..] == [];
      var tail := RowsWhere(rows[1..], cols, key);
      assert ([r] + tail)[1..] == tail && [] + tail == tail;
      assert [v][0] == v;
      assert [Get(r, col)] == [v] <==> Get(r, col) == v by { assert [Get(r, col)][0] == Get(r, col); }
    }
  }

  lemma KeyOfExtend(r: Row, cols: seq<string>, col: string)
    ensures KeyOf(r, cols + [col]) == KeyOf(r, cols) + [Get(r, col)]
  {
  }

  // ----- The partition law -----

  /** Each part of `rows` under `cols`, aggregated on its own. */
  function PartAggregates(agg: Agg, rows: seq<Row>, col: string, cols: seq<string>,
                          keys: seq<seq<Value>>): (r: seq<Value>)
    ensures |r| == |keys|
  {
    seq(|keys|, i requires 0 <= i < |keys| => Aggregate(agg, Column(RowsWhere(rows, cols, keys[i]), col)))
  }

  /**
   * Aggregating a table equals combining the aggregates of its parts, for any list of distinct
   * keys that covers every row. Keys with no rows contribute the identity.
   */
  lemma {:induction false} PartitionAggregate(
      agg: Agg, rows: seq<Row>, col: string, cols: seq<string>, keys: seq<seq<Value>>)
    requires Decomposable(agg) && Distinct(keys)
    requires forall r :: r in rows ==> KeyOf(r, cols) in keys
    ensures Aggregate(agg, Column(rows, col)) == CombineAll(agg, PartAggregates(agg, rows, col, cols, keys))
  {
    var parts := PartAggregates(agg, rows, col, cols, keys);
    if rows == [] {
      forall i | 0 <= i < |keys| ensures parts[i] == Identity(agg) {
        assert RowsWhere(rows, cols, keys[i]) == [];
      }
      CombineIdentities(agg, parts);
    } else {
      var r := rows[0];
      PartitionAggregate(agg, rows[1..], col, cols, keys);
      assert KeyOf(r, cols) in keys;
      var j :| 0 <= j < |keys| && keys[j] == KeyOf(r, cols);
      var cell := Aggregate(agg, [Get(r, col)]);
      assert Column(rows, col) == [Get(r, col)] + Column(rows[1..], col);
      AggregateCons(agg, Get(r, col), Column(rows[1..], col));
      PartsGrow(agg, rows, col, cols, keys, j);
      CombineAllUpdate(agg, PartAggregates(agg, rows[1..], col, cols, keys), j, cell);
    }
  }

  lemma PartsGrow(agg: Agg, rows: seq<Row>, col: string, cols: seq<string>, keys: seq<seq<Value>>, j: nat)
    requires Decomposable(agg) && Distinct(keys) && rows != []
    requires j < |keys| && keys[j] == KeyOf(rows[0], cols)
    ensures var before := PartAggregates(agg, rows[1..], col, cols, keys);
            PartAggregates(agg, rows, col, cols, keys) ==
            before[j := Combine(agg, Aggregate(agg, [Get(rows[0], col)]), before[j])]
  {
    forall i | 0 <= i < |keys|
      ensures i != j ==> keys[i] != KeyOf(rows[0], cols)
    {
      assert i < j || j < i || i == j;
    }
    forall i | 0 <= i < |keys|
      ensures PartAggregates(agg, rows, col, cols, keys)[i] ==
              if i == j then Combine(agg, Aggregate(agg, [Get(rows[0], col)]),
                  PartAggregates(agg, rows[1..], col, cols, keys)[i])
              else PartAggregates(agg, rows[1..], col, cols, keys)[i]
    {
      PartGrows(agg, rows, col, cols, keys[i]);
    }
  }

  /** Adding a row changes the part it belongs to and no other. */
  lemma PartGrows(agg: Agg, rows: seq<Row>, col: string, cols: seq<string>, key: seq<Value>)
    requires Decomposable(agg) && rows != []
    ensures var part := Aggregate(agg, Column(RowsWhere(rows[1..], cols, key), col));
            Aggregate(agg, Column(RowsWhere(rows, cols, key), col)) ==
            if KeyOf(rows[0], cols) == key
            then Combine(agg, Aggregate(agg, [Get(rows[0], col)]), part)
            else part
  {
    var r, part := rows[0], RowsWhere(rows[1..], cols, key);
    if KeyOf(r, cols) == key {
      assert Column([r] + part, col) == [Get(r, col)] + Column(part, col);
      AggregateCons(agg, Get(r, col), Column(part, col));
    } else {
      assert [] + part == part;
    }
  }

  // ----- Filters -----

  /** `[column, op, value]`; a missing value is `Null`. */
  datatype Filter = Filter(col: string, op: string, value: Value)

  /** Polars booleans are three-valued. */
  datatype Kleene = False | True | Unknown

  function And(a: Kleene, b: Kleene): Kleene {
    if a == False || b == False then False
    else if a == Unknown || b == Unknown then Unknown
    else True
  }

  predicate IsFilterOp(op: string) {
    op in {"==", "!=", ">", "<", ">=", "<="}
  }

  predicate Holds(op: string, a: Value, b: Value)
    requires IsFilterOp(op)
  {
    if op == "==" then a == b
    else if op == "!=" then a != b
    else if op == ">" then !ValueLe(a, b)
    else if op == "<" then !ValueLe(b, a)
    else if op == ">=" then ValueLe(b, a)
    else ValueLe(a, b)
  }

  function Compare(op: string, a: Value, b: Value): Kleene
    requires IsFilterOp(op)
  {
    if a == Null || b == Null then Unknown else if Holds(op, a, b) then True else False
  }

  /** Filters with no value, and filters with an operator the server does not know, keep every row. */
  predicate Passes(r: Row, f: Filter) {
    f.value == Null || !IsFilterOp(f.op) || (Get(r, f.col) != Null && Holds(f.op, Get(r, f.col), f.value))
  }

  predicate PassesAll(r: Row, filters: seq<Filter>) {
    forall f :: f in filters ==> Passes(r, f)
  }

  function FilterRows(rows: seq<Row>, filters: seq<Filter>): (kept: seq<Row>)
    ensures forall x :: x in kept <==> x in rows && PassesAll(x, filters)
  {
    if rows == [] then []
    else (if PassesAll(rows[0], filters) then [rows[0]] else []) + FilterRows(rows[1..], filters)
  }

  /** Builds one boolean column by conjoining the terms, then keeps the rows where it is true. */
  method ApplyFilters(rows: seq<Row>, filters: seq<Filter>) returns (kept: seq<Row>)
    ensures kept == FilterRows(rows, filters)
  {
    if filters == [] {
      NoFilters(rows);
      return rows;
    }
    var mask := seq(|rows|, i => True);
    for n := 0 to |filters|
      invariant |mask| == |rows|
      invariant forall i :: 0 <= i < |rows| ==> (mask[i] == True <==> PassesAll(rows[i], filters[..n]))
    {
      var f := filters[n];
      assert filters[..n + 1] == filters[..n] + [f];
      assert forall i :: 0 <= i < |rows| ==>
          (PassesAll(rows[i], filters[..n + 1]) <==> PassesAll(rows[i], filters[..n]) && Passes(rows[i], f));
      if f.value == Null { continue; }
      if IsFilterOp(f.op) {
        mask := seq(|rows|, i requires 0 <= i < |rows| && |mask| == |rows| =>
          And(mask[i], Compare(f.op, Get(rows[i], f.col), f.value)));
      }
    }
    assert filters[..|filters|] == filters;
    kept := [];
    var i := |rows|;
    while i > 0
      invariant 0 <= i <= |rows|
      invariant kept == FilterRows(rows[i..], filters)
    {
      i := i - 1;
      assert rows[i..][1..] == rows[i + 1..];
      if mask[i] == True { kept := [rows[i]] + kept; }
    }
    assert rows[0..] == rows;
  }

  lemma {:induction false} NoFilters(rows: seq<Row>)
    ensures FilterRows(rows, []) == rows
  {
    if rows != [] {
      NoFilters(rows[1..]);
      assert rows == [rows[0]] + rows[1..];
    }
  }

  lemma {:induction false} FilterRowsCompose(rows: seq<Row>, fs: seq<Filter>, gs: seq<Filter>)
    ensures FilterRows(rows, fs + gs) == FilterRows(FilterRows(rows, fs), gs)
  {
    if rows != [] {
      FilterRowsCompose(rows[1..], fs, gs);
      var r, tail := rows[0], FilterRows(rows[1..], fs);
      assert PassesAll(r, fs + gs) <==> PassesAll(r, fs) && PassesAll(r, gs) by {
        assert forall f :: f in fs + gs <==> f in fs || f in gs;
      }
      assert ([r] + tail)[1..] == tail && [] + tail == tail;
    }
  }

  /** What each operator asks of a number in the column, in the order of the reals. */
  predicate Compares(op: string, x: real, y: real) {
    || (op == "==" && x == y) || (op == "!=" && x != y)
    || (op == ">" && x > y) || (op == ">=" && x >= y) || (op == "<" && x < y) || (op == "<=" && x <= y)
  }

  /**
   * A filter of a column of numbers keeps the rows at ascending positions: exactly those whose cell is
   * there and compares with the filter's number as the operator says.
   */
  lemma NumberFilterKeeps(rows: seq<Row>, col: string, op: string, y: real) returns (at: seq<nat>)
    requires op in {"==", "!=", ">", ">=", "<", "<="}
    requires forall r :: r in rows ==> !Get(r, col).Str?
    ensures Picks(at, rows, FilterRows(rows, [Filter(col, op, Num(y))]))
    ensures forall i: nat :: i in at <==> i < |rows| && Get(rows[i], col).Num? && Compares(op, Get(rows[i], col).n, y)
  {
    var f := Filter(col, op, Num(y));
    at := FilterRowsAt(rows, [f]);
    forall i: nat | i < |rows|
      ensures PassesAll(rows[i], [f]) <==> Get(rows[i], col).Num? && Compares(op, Get(rows[i], col).n, y)
    {
      assert rows[i] in rows && f in [f];
    }
  }

  /** The kept rows stay in table order, each as often as it was there. */
  lemma {:induction false} FilterRowsAt(rows: seq<Row>, filters: seq<Filter>) returns (at: seq<nat>)
    ensures Picks(at, rows, FilterRows(rows, filters))
    ensures forall i: nat :: i in at <==> i < |rows| && PassesAll(rows[i], filters)
  {
    if rows == [] { return []; }
    var rest := FilterRowsAt(rows[1..], filters);
    var picked := PassesAll(rows[0], filters);
    assert [rows[0]] + rows[1..] == rows;
    PicksMore(rest, rows[0], rows[1..], FilterRows(rows[1..], filters), picked);
    at := Later(rest, picked);
  }

  /** One equality per column: the filter form of a group key. */
  function KeyFilters(cols: seq<string>, key: seq<Value>): (fs: seq<Filter>)
    requires |cols| == |key|
    ensures |fs| == |cols|
  {
    seq(|cols|, i requires 0 <= i < |cols| => Filter(cols[i], "==", key[i]))
  }

  /** Equality filters select exactly a group, provided no key is null. */
  lemma {:induction false} KeyFiltersSelectGroup(rows: seq<Row>, cols: seq<string>, key: seq<Value>)
    requires |cols| == |key| && Null !in key
    ensures FilterRows(rows, KeyFilters(cols, key)) == RowsWhere(rows, cols, key)
  {
    if rows != [] {
      KeyFiltersSelectGroup(rows[1..], cols, key);
      var r, fs := rows[0], KeyFilters(cols, key);
      assert PassesAll(r, fs) <==> KeyOf(r, cols) == key by {
        if PassesAll(r, fs) {
          forall i | 0 <= i < |cols| ensures KeyOf(r, cols)[i] == key[i] {
            assert fs[i] in fs && key[i] in key;
          }
        }
        if KeyOf(r, cols) == key {
          forall f | f in fs ensures Passes(r, f) {
            var i :| 0 <= i < |fs| && fs[i] == f;
            assert KeyOf(r, cols)[i] == key[i] && key[i] in key;
          }
        }
      }
    }
  }
}
