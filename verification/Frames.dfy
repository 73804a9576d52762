/** Result frames of the query planner: their rows, names and sort orders. */
module Frames {
  import opened Common
  import opened Values
  import opened Aggregates
  import opened Tables

  /** A result row: `__GROUPING_ID__`, the `__ROW_PATH_i__` cells, and the data cells. */
  datatype OutRow = OutRow(gid: nat, path: seq<Value>, cells: seq<Value>)

  /** `names` are the data columns, in order. */
  datatype Frame = Frame(names: seq<string>, rows: seq<OutRow>)

  // ----- Aggregate expressions -----

  /** `expr.filter(split == value)`, or no filter at all. */
  datatype Only = Everything | Where(col: string, value: Value)

  datatype AggExpr = AggExpr(name: string, col: string, agg: Agg, only: Only)

  /** A comparison with null is never true, so it selects no row. */
  function Select(rows: seq<Row>, only: Only): seq<Row> {
    match only
    case Everything => rows
    case Where(col, value) => if value == Null then [] else RowsWhere(rows, [col], [value])
  }

  function Eval(rows: seq<Row>, e: AggExpr): Value {
    Aggregate(e.agg, Column(Select(rows, e.only), e.col))
  }

  function Cells(rows: seq<Row>, exprs: seq<AggExpr>): (cells: seq<Value>)
    ensures |cells| == |exprs|
  {
    seq(|exprs|, i requires 0 <= i < |exprs| => Eval(rows, exprs[i]))
  }

  function Names(exprs: seq<AggExpr>): (names: seq<string>)
    ensures |names| == |exprs|
  {
    seq(|exprs|, i requires 0 <= i < |exprs| => exprs[i].name)
  }

  /** Taking a group and restricting to a split value commute. */
  lemma {:induction false} SelectCommutes(rows: seq<Row>, only: Only, cols: seq<string>, key: seq<Value>)
    ensures Select(RowsWhere(rows, cols, key), only) == RowsWhere(Select(rows, only), cols, key)
  {
    if rows != [] && only.Where? && only.value != Null {
      SelectCommutes(rows[1..], only, cols, key);
      var r, c, k := rows[0], [only.col], [only.value];
      var byKey, byOnly := RowsWhere(rows[1..], cols, key), RowsWhere(rows[1..], c, k);
      assert ([r] + byKey)[1..] == byKey && [] + byKey == byKey;
      assert ([r] + byOnly)[1..] == byOnly && [] + byOnly == byOnly;
    }
  }

  // ----- Sorting -----

  /** Sort by the row path (every level ascending), or by data cells with a direction each. */
  datatype SortSpec = ByPath | ByCells(cols: seq<nat>, desc: seq<bool>)

  predicate Sortable(spec: SortSpec, n: nat, r: OutRow) {
    match spec
    case ByPath => |r.path| == n
    case ByCells(cols, desc) => |cols| == |desc| && forall c :: c in cols ==> c < |r.cells|
  }

  function Falses(n: nat): (fs: seq<bool>)
    ensures |fs| == n && forall i :: 0 <= i < n ==> !fs[i]
  {
    seq(n, i => false)
  }

  predicate PathLe(a: seq<Value>, b: seq<Value>)
    requires |a| == |b|
  {
    KeyLe(Falses(|a|), a, b)
  }

  function SortKey(spec: SortSpec, n: nat, r: OutRow): (k: seq<Value>)
    requires Sortable(spec, n, r)
    ensures |k| == |Directions(spec, n)|
  {
    match spec
    case ByPath => r.path
    case ByCells(cols, desc) => seq(|cols|, i requires 0 <= i < |cols| => assert cols[i] in cols; r.cells[cols[i]])
  }

  function Directions(spec: SortSpec, n: nat): seq<bool> {
    match spec
    case ByPath => Falses(n)
    case ByCells(_, desc) => desc
  }

  predicate RowLe(spec: SortSpec, n: nat, a: OutRow, b: OutRow)
    requires Sortable(spec, n, a) && Sortable(spec, n, b)
  {
    KeyLe(Directions(spec, n), SortKey(spec, n, a), SortKey(spec, n, b))
  }

  ghost predicate AllSortable(spec: SortSpec, n: nat, rows: seq<OutRow>) {
    forall r :: r in rows ==> Sortable(spec, n, r)
  }

  ghost predicate IsSorted(spec: SortSpec, n: nat, rows: seq<OutRow>) {
    && AllSortable(spec, n, rows)
    && forall i, j :: 0 <= i < j < |rows| ==>
        Sortable(spec, n, rows[i]) && Sortable(spec, n, rows[j]) && RowLe(spec, n, rows[i], rows[j])
  }

  /** What `df.sort` promises: some sorted permutation. The order of ties is not specified. */
  ghost predicate IsSortOf(spec: SortSpec, n: nat, sorted: seq<OutRow>, rows: seq<OutRow>) {
    IsSorted(spec, n, sorted) && multiset(sorted) == multiset(rows)
  }

  method Insert(spec: SortSpec, n: nat, sorted: seq<OutRow>, r: OutRow) returns (out: seq<OutRow>)
    requires IsSorted(spec, n, sorted) && Sortable(spec, n, r)
    ensures IsSortOf(spec, n, out, sorted + [r])
  {
    var i := 0;
    while i < |sorted| && RowLe(spec, n, sorted[i], r)
      invariant 0 <= i <= |sorted|
      invariant forall k :: 0 <= k < i ==> Sortable(spec, n, sorted[k]) && RowLe(spec, n, sorted[k], r)
    {
      i := i + 1;
    }
    out := sorted[..i] + [r] + sorted[i..];
    InsertKeepsOrder(spec, n, sorted, r, i);
    assert sorted == sorted[..i] + sorted[i..];
  }

  lemma RestFollows(spec: SortSpec, n: nat, sorted: seq<OutRow>, r: OutRow, i: nat, k: nat)
    requires IsSorted(spec, n, sorted) && Sortable(spec, n, r) && i <= k < |sorted|
    requires Sortable(spec, n, sorted[i]) && !RowLe(spec, n, sorted[i], r)
    ensures Sortable(spec, n, sorted[k]) && RowLe(spec, n, r, sorted[k])
  {
    assert sorted[k] in sorted;
    KeyLeTotal(Directions(spec, n), SortKey(spec, n, sorted[i]), SortKey(spec, n, r));
    if i < k {
      assert RowLe(spec, n, sorted[i], sorted[k]);
      KeyLeTransitive(Directions(spec, n), SortKey(spec, n, r), SortKey(spec, n, sorted[i]),
          SortKey(spec, n, sorted[k]));
    }
  }

  lemma InsertKeepsOrder(spec: SortSpec, n: nat, sorted: seq<OutRow>, r: OutRow, i: nat)
    requires IsSorted(spec, n, sorted) && Sortable(spec, n, r) && i <= |sorted|
    requires forall k :: 0 <= k < i ==> Sortable(spec, n, sorted[k]) && RowLe(spec, n, sorted[k], r)
    requires i < |sorted| ==> Sortable(spec, n, sorted[i]) && !RowLe(spec, n, sorted[i], r)
    ensures IsSorted(spec, n, sorted[..i] + [r] + sorted[i..])
  {
    forall k | i <= k < |sorted| ensures Sortable(spec, n, sorted[k]) && RowLe(spec, n, r, sorted[k]) {
      RestFollows(spec, n, sorted, r, i, k);
    }
    BetweenIsSorted(spec, n, sorted, r, i);
  }

  lemma BetweenIsSorted(spec: SortSpec, n: nat, sorted: seq<OutRow>, r: OutRow, i: nat)
    requires IsSorted(spec, n, sorted) && Sortable(spec, n, r) && i <= |sorted|
    requires forall k :: 0 <= k < i ==> Sortable(spec, n, sorted[k]) && RowLe(spec, n, sorted[k], r)
    requires forall k :: i <= k < |sorted| ==> Sortable(spec, n, sorted[k]) && RowLe(spec, n, r, sorted[k])
    ensures IsSorted(spec, n, sorted[..i] + [r] + sorted[i..])
  {
    var out := sorted[..i] + [r] + sorted[i..];
    forall x | x in out ensures Sortable(spec, n, x) {}
    forall a, b | 0 <= a < b < |out|
      ensures Sortable(spec, n, out[a]) && Sortable(spec, n, out[b]) && RowLe(spec, n, out[a], out[b])
    {
      assert out[a] == if a < i then sorted[a] else if a == i then r else sorted[a - 1];
      assert out[b] == if b < i then sorted[b] else if b == i then r else sorted[b - 1];
    }
  }

  /** Stands in for the polars sort; callers see only its contract. */
  method Sort(spec: SortSpec, n: nat, rows: seq<OutRow>) returns (out: seq<OutRow>)
    requires AllSortable(spec, n, rows)
    ensures IsSortOf(spec, n, out, rows)
  {
    out := [];
    for i := 0 to |rows|
      invariant IsSortOf(spec, n, out, rows[..i])
    {
      var before := out;
      out := Insert(spec, n, before, rows[i]);
      assert rows[..i + 1] == rows[..i] + [rows[i]];
    }
    assert rows[..|rows|] == rows;
  }

  // ----- Strictly ascending lists of rows -----

  ghost predicate StrictlyAscending(n: nat, rows: seq<OutRow>) {
    && (forall r :: r in rows ==> |r.path| == n)
    && forall i, j :: 0 <= i < j < |rows| ==>
         |rows[i].path| == |rows[j].path| && PathLe(rows[i].path, rows[j].path) && rows[i].path != rows[j].path
  }

  /** Two strictly ascending lists of the same rows are the same list. */
  lemma {:induction false} AscendingUnique(n: nat, xs: seq<OutRow>, ys: seq<OutRow>)
    requires StrictlyAscending(n, xs) && StrictlyAscending(n, ys)
    requires forall r :: r in xs <==> r in ys
    ensures xs == ys
  {
    assert xs == [] <==> ys == [] by {
      assert xs != [] ==> xs[0] in xs;
      assert ys != [] ==> ys[0] in ys;
    }
    if xs != [] {
      assert xs[0] in xs && ys[0] in ys;
      assert xs[0] == ys[0] by {
        var i :| 0 <= i < |ys| && ys[i] == xs[0];
        var j :| 0 <= j < |xs| && xs[j] == ys[0];
        if i > 0 && j > 0 { KeyLeAntisymmetric(Falses(n), xs[0].path, ys[0].path); }
      }
      forall r | r in xs[1..] ensures r in ys[1..] {
        var k :| 1 <= k < |xs| && xs[k] == r;
        assert r in xs && r.path != xs[0].path;
      }
      forall r | r in ys[1..] ensures r in xs[1..] {
        var k :| 1 <= k < |ys| && ys[k] == r;
        assert r in ys && r.path != ys[0].path;
      }
      AscendingUnique(n, xs[1..], ys[1..]);
      assert xs == [xs[0]] + xs[1..] && ys == [ys[0]] + ys[1..];
    }
  }

  lemma {:induction false} MultiplicityOfDistinct<T>(xs: seq<T>)
    ensures Distinct(xs) <==> forall x :: x in xs ==> multiset(xs)[x] == 1
  {
    if xs != [] {
      var rest := xs[1..];
      assert xs == [xs[0]] + rest;
      MultiplicityOfDistinct(rest);
      if Distinct(xs) {
        assert xs[0] !in rest;
        forall x | x in xs ensures multiset(xs)[x] == 1 {
          if x != xs[0] { assert x in rest; }
        }
      }
      if forall x :: x in xs ==> multiset(xs)[x] == 1 {
        assert multiset(xs)[xs[0]] == 1 + multiset(rest)[xs[0]];
        forall x | x in rest ensures multiset(rest)[x] == 1 {
          assert x in xs;
          assert multiset(xs)[x] == 1;
          assert x in multiset(rest);
        }
        assert xs[0] !in multiset(rest);
        forall i, j | 0 <= i < j < |xs| ensures xs[i] != xs[j] {
          assert xs[j] == rest[j - 1] && rest[j - 1] in rest;
          if i > 0 { assert xs[i] == rest[i - 1]; }
        }
      }
    }
  }

  /** A sort of distinct rows whose paths tell them apart is strictly ascending and has the same rows. */
  lemma SortOfDistinctIsStrict(n: nat, sorted: seq<OutRow>, rows: seq<OutRow>)
    requires IsSortOf(ByPath, n, sorted, rows) && Distinct(rows)
    requires forall a, b :: a in rows && b in rows && a.path == b.path ==> a == b
    ensures StrictlyAscending(n, sorted)
    ensures forall r :: r in sorted <==> r in rows
  {
    forall r ensures r in sorted <==> r in rows {
      assert r in sorted <==> r in multiset(sorted);
      assert r in rows <==> r in multiset(rows);
    }
    MultiplicityOfDistinct(rows);
    MultiplicityOfDistinct(sorted);
    forall i, j | 0 <= i < j < |sorted|
      ensures |sorted[i].path| == |sorted[j].path| && PathLe(sorted[i].path, sorted[j].path) &&
          sorted[i].path != sorted[j].path
    {
      assert sorted[i] in sorted && sorted[j] in sorted;
      assert RowLe(ByPath, n, sorted[i], sorted[j]);
    }
  }
}
