/** What the rows and cells of a view show, said by the rows of its table and the order of the reals. */
module ViewCells {
  import opened Common
  import opened Values
  import opened Aggregates
  import opened Tables
  import opened Frames
  import opened Planner
  import opened RollupTree
  import opened Views
  import opened PolarsServer

  // ----- Columns -----

  /** The split values of the filtered table, ascending. */
  function Splits(t: Table, cfg: ViewConfig): seq<Value>
    requires cfg.splitBy != []
  {
    SplitValues(FilterRows(t.rows, cfg.filters), cfg.splitBy[0])
  }

  /** How many blocks of data columns a view has: one for each split value, or one. */
  function Blocks(t: Table, cfg: ViewConfig): nat {
    if cfg.splitBy == [] then 1 else |Splits(t, cfg)|
  }

  /** Where block b shows data column j. */
  function ColumnIndex(cfg: ViewConfig, b: nat, j: nat): nat {
    b * |DataColumns(cfg)| + j
  }

  /**
   * A view's columns are its blocks of data columns, one after the other. Each shows its data column by
   * the aggregate configured for it, else by the sum of a column of numbers and the count of any other.
   */
  lemma ColumnAt(repr: real -> string, t: Table, cfg: ViewConfig, b: nat, j: nat) returns (agg: Agg)
    requires b < Blocks(t, cfg) && j < |DataColumns(cfg)|
    ensures var exprs := ViewExprs(repr, t, cfg, FilterRows(t.rows, cfg.filters));
            var c, col := ColumnIndex(cfg, b, j), DataColumns(cfg)[j];
            && |exprs| == Blocks(t, cfg) * |DataColumns(cfg)| && c < |exprs|
            && (cfg.splitBy == [] ==> exprs[c] == AggExpr(ColAlias(col), col, agg, Everything))
            && (cfg.splitBy != [] ==>
                  var sv := Splits(t, cfg)[b];
                  exprs[c] == AggExpr(Show(repr, sv) + "_" + ColAlias(col), col, agg, Where(cfg.splitBy[0], sv)))
    ensures IsChosen(t, cfg, DataColumns(cfg)[j], agg)
  {
    var cols := DataColumns(cfg);
    agg := AggFor(t, cfg.aggregates, cols[j]);
    if cfg.splitBy != [] {
      SplitColumnAt(repr, t, cfg.aggregates, cols, cfg.splitBy[0], Splits(t, cfg), b, j);
    }
  }

  /** The aggregate configured for the column, else the default for its type. */
  predicate IsChosen(t: Table, cfg: ViewConfig, col: string, agg: Agg) {
    if col in cfg.aggregates then agg == cfg.aggregates[col]
    else if col in t.types && t.types[col] == Number then agg == Sum
    else agg == Count
  }

  // ----- Aggregated cells -----

  /** The row belongs to the cell: it passes the filters and has the first k path cells and the split value. */
  predicate InCell(r: Row, cfg: ViewConfig, path: seq<Value>, k: nat, sv: Value) {
    && PassesAll(r, cfg.filters)
    && k <= |path| && k <= |cfg.groupBy| && (forall m :: 0 <= m < k ==> Get(r, cfg.groupBy[m]) == path[m])
    && (cfg.splitBy != [] ==> sv != Null && Get(r, cfg.splitBy[0]) == sv)
  }

  function CellsAt(rows: seq<Row>, at: seq<nat>, col: string): (vs: seq<Value>)
    requires forall i :: 0 <= i < |at| ==> at[i] < |rows|
    ensures |vs| == |at|
  {
    seq(|at|, i requires 0 <= i < |at| => Get(rows[at[i]], col))
  }

  /** Picking from a pick. */
  lemma PicksThrough<T>(at: seq<nat>, xs: seq<T>, mid: seq<T>, inner: seq<nat>, out: seq<T>) returns (all: seq<nat>)
    requires Picks(at, xs, mid) && Picks(inner, mid, out)
    ensures Picks(all, xs, out)
    ensures forall i: nat :: i in all <==> exists j: nat :: j in inner && j < |at| && at[j] == i
  {
    all := seq(|inner|, n requires 0 <= n < |inner| => at[inner[n]]);
    forall i: nat ensures i in all <==> exists j: nat :: j in inner && j < |at| && at[j] == i {
      if i in all {
        var n :| 0 <= n < |all| && all[n] == i;
        assert inner[n] in inner;
      }
      if j: nat :| j in inner && j < |at| && at[j] == i {
        var n :| 0 <= n < |inner| && inner[n] == j;
        assert all[n] == i;
      }
    }
  }

  /** The rows an expression is evaluated on for a group, found in the filtered table. */
  lemma SelectedAt(rows: seq<Row>, cols: seq<string>, key: seq<Value>, only: Only) returns (at: seq<nat>)
    requires |key| == |cols|
    ensures Picks(at, rows, Select(RowsWhere(rows, cols, key), only))
    ensures forall i: nat :: i in at <==>
        i < |rows| && KeyOf(rows[i], cols) == key &&
        (only.Where? ==> only.value != Null && Get(rows[i], only.col) == only.value)
  {
    match only
    case Everything => at := RowsWhereAt(rows, cols, key);
    case Where(c, v) =>
      if v == Null { return []; }
      RowsWhereExtend(rows, cols, key, c, v);
      at := RowsWhereAt(rows, cols + [c], key + [v]);
      forall i: nat | i < |rows|
        ensures KeyOf(rows[i], cols + [c]) == key + [v] <==> KeyOf(rows[i], cols) == key && Get(rows[i], c) == v
      {
        KeyOfExtend(rows[i], cols, c);
        EndsOf(KeyOf(rows[i], cols), Get(rows[i], c), key, v);
      }
  }

  lemma EndsOf<T>(a: seq<T>, x: T, b: seq<T>, y: T)
    requires |a| == |b|
    ensures a + [x] == b + [y] <==> a == b && x == y
  {
    if a + [x] == b + [y] {
      assert (a + [x])[..|a|] == a && (b + [y])[..|b|] == b;
      assert (a + [x])[|a|] == x && (b + [y])[|b|] == y;
    }
  }

  /** The same in the table, before the filters. */
  lemma CellRowsAt(cfg: ViewConfig, rows: seq<Row>, path: seq<Value>, key: seq<Value>, sv: Value) returns (at: seq<nat>)
    requires key <= path && |key| <= |cfg.groupBy|
    ensures var only := if cfg.splitBy == [] then Everything else Where(cfg.splitBy[0], sv);
            Picks(at, rows, Select(RowsWhere(FilterRows(rows, cfg.filters), cfg.groupBy[..|key|], key), only))
    ensures forall i: nat :: i in at <==> i < |rows| && InCell(rows[i], cfg, path, |key|, sv)
  {
    var only := if cfg.splitBy == [] then Everything else Where(cfg.splitBy[0], sv);
    var kept, gb := FilterRows(rows, cfg.filters), cfg.groupBy[..|key|];
    var passing := FilterRowsAt(rows, cfg.filters);
    var inside := SelectedAt(kept, gb, key, only);
    at := PicksThrough(passing, rows, kept, inside, Select(RowsWhere(kept, gb, key), only));
    forall i: nat | i < |rows| ensures i in at <==> InCell(rows[i], cfg, path, |key|, sv) {
      InCellMeans(cfg, rows[i], path, key, sv, only);
      if i in passing { FoundAt(passing, rows, kept, inside, i); }
    }
  }

  /** A place of a pick's pick is known by its element. */
  lemma FoundAt(passing: seq<nat>, rows: seq<Row>, kept: seq<Row>, inside: seq<nat>, i: nat)
    requires Picks(passing, rows, kept) && i in passing
    ensures exists j: nat :: j < |passing| && passing[j] == i && kept[j] == rows[i] &&
              (j in inside <==> exists n: nat :: n in inside && n < |passing| && passing[n] == i)
  {
    var j: nat :| j < |passing| && passing[j] == i;
    PlaceIsUnique(passing, rows, kept, i, j);
  }

  lemma PlaceIsUnique<T>(at: seq<nat>, xs: seq<T>, out: seq<T>, i: nat, j: nat)
    requires Picks(at, xs, out) && j < |at| && at[j] == i
    ensures forall n :: 0 <= n < |at| && at[n] == i ==> n == j
  {
    forall n | 0 <= n < |at| && at[n] == i ensures n == j {
      assert !(n < j) && !(j < n);
    }
  }

  lemma InCellMeans(cfg: ViewConfig, r: Row, path: seq<Value>, key: seq<Value>, sv: Value, only: Only)
    requires key <= path && |key| <= |cfg.groupBy|
    requires only == if cfg.splitBy == [] then Everything else Where(cfg.splitBy[0], sv)
    ensures InCell(r, cfg, path, |key|, sv) <==>
            && PassesAll(r, cfg.filters) && KeyOf(r, cfg.groupBy[..|key|]) == key
            && (only.Where? ==> only.value != Null && Get(r, only.col) == only.value)
  {
    assert forall m :: 0 <= m < |key| ==> KeyOf(r, cfg.groupBy[..|key|])[m] == Get(r, cfg.groupBy[m]);
  }

  lemma ColumnIsCellsAt(rows: seq<Row>, at: seq<nat>, out: seq<Row>, col: string)
    requires Picks(at, rows, out)
    ensures Column(out, col) == CellsAt(rows, at, col)
  {
  }

  /**
   * Every cell of an aggregated view is the aggregate of its column over the table's rows that pass the
   * filters, agree with the row's path in the group columns down to the row's level, and have the split
   * value: the first and the last of them in table order, the number of non-null cells, their total and
   * mean, the least and the greatest. The row's grouping id tells its level.
   */
  lemma CellMeaning(repr: real -> string, t: Table, cfg: ViewConfig, f: Frame, r: nat, b: nat, j: nat)
    returns (k: nat, agg: Agg, at: seq<nat>)
    requires IsView(repr, t, cfg, f) && (cfg.mode == Total || cfg.groupBy != [])
    requires r < |f.rows| && b < Blocks(t, cfg) && j < |DataColumns(cfg)|
    ensures ColumnIndex(cfg, b, j) < |f.names| && |f.names| == |f.rows[r].cells|
    ensures IsChosen(t, cfg, DataColumns(cfg)[j], agg)
    ensures f.names[ColumnIndex(cfg, b, j)] == ColumnName(repr, t, cfg, b, j)
    ensures IsLevelOf(cfg, f.rows[r], k)
    ensures forall m, n :: 0 <= m < n < |at| ==> at[m] < at[n]
    ensures forall i: nat :: i in at <==> i < |t.rows| && InCell(t.rows[i], cfg, f.rows[r].path, k, SplitAt(t, cfg, b))
    ensures forall m :: 0 <= m < |at| ==> at[m] < |t.rows|
    ensures IsAggregate(agg, CellsAt(t.rows, at, DataColumns(cfg)[j]), f.rows[r].cells[ColumnIndex(cfg, b, j)])
  {
    var rows, c, col := FilterRows(t.rows, cfg.filters), ColumnIndex(cfg, b, j), DataColumns(cfg)[j];
    var exprs := ViewExprs(repr, t, cfg, rows);
    agg := ColumnAt(repr, t, cfg, b, j);
    var key := KeyBehind(repr, t, cfg, f, r);
    k := |key|;
    at := CellRowsAt(cfg, t.rows, f.rows[r].path, key, SplitAt(t, cfg, b));
    ShownCell(rows, cfg, key, exprs, f.rows[r].cells, c);
    ColumnIsCellsAt(t.rows, at, Select(RowsWhere(rows, cfg.groupBy[..k], key), exprs[c].only), col);
    AggregateMeaning(agg, CellsAt(t.rows, at, col));
  }

  /** The split value of a block. */
  function SplitAt(t: Table, cfg: ViewConfig, b: nat): Value
    requires b < Blocks(t, cfg)
  {
    if cfg.splitBy == [] then Null else Splits(t, cfg)[b]
  }

  function ColumnName(repr: real -> string, t: Table, cfg: ViewConfig, b: nat, j: nat): string
    requires b < Blocks(t, cfg) && j < |DataColumns(cfg)|
  {
    (if cfg.splitBy == [] then "" else Show(repr, Splits(t, cfg)[b]) + "_") + ColAlias(DataColumns(cfg)[j])
  }

  /** The row is k levels deep: its path has k keys and then nulls, and its grouping id says so. */
  predicate IsLevelOf(cfg: ViewConfig, o: OutRow, k: nat) {
    && k <= |cfg.groupBy|
    && if cfg.mode == Total then k == 0 else
         && |o.path| == |cfg.groupBy| && o.gid == GroupingId(|cfg.groupBy|, k)
         && forall m :: k <= m < |cfg.groupBy| ==> o.path[m] == Null
  }

  lemma ShownCell(rows: seq<Row>, cfg: ViewConfig, key: seq<Value>, exprs: seq<AggExpr>, cells: seq<Value>, c: nat)
    requires |key| <= |cfg.groupBy| && cells == Cells(RowsWhere(rows, cfg.groupBy[..|key|], key), exprs) && c < |exprs|
    ensures cells[c] == Aggregate(exprs[c].agg,
        Column(Select(RowsWhere(rows, cfg.groupBy[..|key|], key), exprs[c].only), exprs[c].col))
  {
  }

  /** The key behind a row of an aggregated view, and its cells. */
  lemma KeyBehind(repr: real -> string, t: Table, cfg: ViewConfig, f: Frame, r: nat) returns (key: seq<Value>)
    requires IsView(repr, t, cfg, f) && (cfg.mode == Total || cfg.groupBy != []) && r < |f.rows|
    ensures key <= f.rows[r].path && IsLevelOf(cfg, f.rows[r], |key|)
    ensures var rows := FilterRows(t.rows, cfg.filters);
            f.rows[r].cells == Cells(RowsWhere(rows, cfg.groupBy[..|key|], key), ViewExprs(repr, t, cfg, rows))
  {
    if cfg.mode == Total {
      key := [];
      assert cfg.groupBy[..0] == [];
      RowsWhereAll(FilterRows(t.rows, cfg.filters));
    } else {
      key := ViewRowsAreNodes(repr, t, cfg, f, r);
    }
  }

  // ----- Ungrouped rows -----

  /**
   * An ungrouped view shows every row that passes the filters once, in table order when it has no sort
   * keys: each column its cell, and with a split only where the split column has the column's value.
   */
  lemma UngroupedRows(repr: real -> string, t: Table, cfg: ViewConfig, f: Frame) returns (from: seq<nat>)
    requires IsView(repr, t, cfg, f) && cfg.mode != Total && cfg.groupBy == [] && f.names != []
    ensures var rows := FilterRows(t.rows, cfg.filters);
            && |from| == |f.rows| == |rows| && Distinct(from)
            && (forall r :: 0 <= r < |from| ==> from[r] < |rows| && ShowsRow(t, cfg, rows[from[r]], f.rows[r]))
            && (UsedSortKeys(repr, t, cfg, rows) == [] ==> forall r :: 0 <= r < |from| ==> from[r] == r)
  {
    var rows := FilterRows(t.rows, cfg.filters);
    var exprs := ViewExprs(repr, t, cfg, rows);
    var base := WhenRows(rows, exprs);
    assert |base| == |rows|;
    if UsedSortKeys(repr, t, cfg, rows) == [] {
      from := seq(|rows|, r => r);
    } else {
      from := Places(f.rows, base);
    }
    SizeOf(f.rows, base);
    forall r | 0 <= r < |from| ensures ShowsRow(t, cfg, rows[from[r]], f.rows[r]) {
      assert f.rows[r] == base[from[r]] == WhenRow(rows[from[r]], exprs);
      WhenRowShows(repr, t, cfg, rows[from[r]]);
    }
  }

  /** Each column shows the row's own cell, with a split only where the row has the column's split value. */
  ghost predicate ShowsRow(t: Table, cfg: ViewConfig, r: Row, o: OutRow) {
    && |o.cells| == Blocks(t, cfg) * |DataColumns(cfg)|
    && forall b: nat, j: nat :: b < Blocks(t, cfg) && j < |DataColumns(cfg)| ==>
         && ColumnIndex(cfg, b, j) < |o.cells|
         && o.cells[ColumnIndex(cfg, b, j)] ==
              if cfg.splitBy == [] || (Splits(t, cfg)[b] != Null && Get(r, cfg.splitBy[0]) == Splits(t, cfg)[b])
              then Get(r, DataColumns(cfg)[j]) else Null
  }

  lemma WhenRowShows(repr: real -> string, t: Table, cfg: ViewConfig, r: Row)
    requires ViewExprs(repr, t, cfg, FilterRows(t.rows, cfg.filters)) != []
    ensures ShowsRow(t, cfg, r, WhenRow(r, ViewExprs(repr, t, cfg, FilterRows(t.rows, cfg.filters))))
  {
    forall b: nat, j: nat | b < Blocks(t, cfg) && j < |DataColumns(cfg)|
      ensures var o := WhenRow(r, ViewExprs(repr, t, cfg, FilterRows(t.rows, cfg.filters)));
              && ColumnIndex(cfg, b, j) < |o.cells|
              && o.cells[ColumnIndex(cfg, b, j)] ==
                   if cfg.splitBy == [] || (Splits(t, cfg)[b] != Null && Get(r, cfg.splitBy[0]) == Splits(t, cfg)[b])
                   then Get(r, DataColumns(cfg)[j]) else Null
    {
      var agg := ColumnAt(repr, t, cfg, b, j);
    }
  }

  lemma SizeOf<T>(a: seq<T>, b: seq<T>)
    requires multiset(a) == multiset(b)
    ensures |a| == |b|
  {
    assert |multiset(a)| == |a| && |multiset(b)| == |b|;
  }

  // ----- Sorted rows -----

  function CellOf(o: OutRow, c: nat): Value {
    if c < |o.cells| then o.cells[c] else Null
  }

  predicate IsOn(e: SortEntry, names: seq<string>, hidden: bool) {
    e.direction != "none" && SortName(hidden, e.col) in names
  }

  lemma {:induction false} SortKeysPrefix(sort: seq<SortEntry>, names: seq<string>, hidden: bool, k: nat)
    requires k <= |sort|
    ensures SortKeys(sort[..k], names, hidden) <= SortKeys(sort, names, hidden)
  {
    if k < |sort| {
      SortKeysPrefix(sort[..|sort| - 1], names, hidden, k);
      assert sort[..|sort| - 1][..k] == sort[..k];
    } else {
      assert sort[..k] == sort;
    }
  }

  /** The k-th entry's sort key comes after those of the entries before it. */
  lemma SortKeysAt(sort: seq<SortEntry>, names: seq<string>, hidden: bool, k: nat)
    requires k < |sort| && IsOn(sort[k], names, hidden)
    ensures var ks, before := SortKeys(sort, names, hidden), SortKeys(sort[..k], names, hidden);
            && |before| < |ks| && ks[..|before|] == before
            && ks[|before|] == CellSort(IndexOf(names, SortName(hidden, sort[k].col)), IsDescending(sort[k].direction))
  {
    var ks, before, more := SortKeys(sort, names, hidden), SortKeys(sort[..k], names, hidden), sort[..k + 1];
    SortKeysPrefix(sort, names, hidden, k);
    SortKeysPrefix(sort, names, hidden, k + 1);
    assert more[..k] == sort[..k] && more[k] == sort[k];
    assert SortKeys(more, names, hidden)[|before|] == ks[|before|];
  }

  lemma {:induction false} SortKeyIsOfEntry(sort: seq<SortEntry>, names: seq<string>, hidden: bool, q: nat)
    returns (m: nat)
    requires q < |SortKeys(sort, names, hidden)|
    ensures m < |sort| && IsOn(sort[m], names, hidden)
    ensures SortKeys(sort, names, hidden)[q].col == IndexOf(names, SortName(hidden, sort[m].col))
  {
    var last := |sort| - 1;
    if q < |SortKeys(sort[..last], names, hidden)| {
      m := SortKeyIsOfEntry(sort[..last], names, hidden, q);
    } else {
      m := last;
    }
  }

  /** The rows hold the same in every column that one of the entries sorts by. */
  ghost predicate Tie(sort: seq<SortEntry>, names: seq<string>, hidden: bool, a: OutRow, b: OutRow) {
    forall m :: 0 <= m < |sort| && IsOn(sort[m], names, hidden) ==>
      var c := IndexOf(names, SortName(hidden, sort[m].col)); CellOf(a, c) == CellOf(b, c)
  }

  /** Of two rows in order, an entry orders those that tie on the entries before it. */
  lemma SortedBy(sort: seq<SortEntry>, names: seq<string>, hidden: bool, n: nat, a: OutRow, b: OutRow, k: nat)
    requires k < |sort| && IsOn(sort[k], names, hidden)
    requires var spec := CellSpec(SortKeys(sort, names, hidden));
             Sortable(spec, n, a) && Sortable(spec, n, b) && RowLe(spec, n, a, b)
    requires Tie(sort[..k], names, hidden, a, b)
    ensures var c := IndexOf(names, SortName(hidden, sort[k].col));
            CellLe(IsDescending(sort[k].direction), CellOf(a, c), CellOf(b, c))
  {
    var ks, before := SortKeys(sort, names, hidden), SortKeys(sort[..k], names, hidden);
    var spec := CellSpec(ks);
    SortKeysAt(sort, names, hidden, k);
    SortKeyCells(ks, n, a);
    SortKeyCells(ks, n, b);
    forall q | 0 <= q < |before| ensures SortKey(spec, n, a)[q] == SortKey(spec, n, b)[q] {
      var m := SortKeyIsOfEntry(sort[..k], names, hidden, q);
      assert ks[q] == before[q];
    }
    KeyLeAt(spec.desc, SortKey(spec, n, a), SortKey(spec, n, b), |before|);
  }

  lemma SortKeyCells(ks: seq<CellSort>, n: nat, o: OutRow)
    requires Sortable(CellSpec(ks), n, o)
    ensures |SortKey(CellSpec(ks), n, o)| == |ks|
    ensures forall q :: 0 <= q < |ks| ==> SortKey(CellSpec(ks), n, o)[q] == CellOf(o, ks[q].col)
  {
    var spec := CellSpec(ks);
    forall q | 0 <= q < |ks| ensures SortKey(spec, n, o)[q] == CellOf(o, ks[q].col) {
      assert spec.cols[q] in spec.cols;
    }
  }

  /** The first row's cell may stand before the second's: nulls first, then as the direction says. */
  predicate MayPrecede(direction: string, x: Value, y: Value) {
    && (y == Null ==> x == Null)
    && (direction == "desc" || direction == "col desc" ==>
          (x.Num? && y.Num? ==> x.n >= y.n) && (x.Str? && y.Str? ==> StrLe(y.s, x.s)))
    && (direction != "desc" && direction != "col desc" ==>
          (x.Num? && y.Num? ==> x.n <= y.n) && (x.Str? && y.Str? ==> StrLe(x.s, y.s)))
  }

  lemma FirstIndex(names: seq<string>, c: nat)
    requires Distinct(names) && c < |names|
    ensures IndexOf(names, names[c]) == c
  {
    var i := IndexOf(names, names[c]);
    assert i == c || i < c || c < i;
  }

  /** The rows of an unsplit view agree in the column of each of the first k sort entries that has one. */
  ghost predicate AgreeBefore(cfg: ViewConfig, f: Frame, k: nat, a: OutRow, b: OutRow)
    requires k <= |cfg.sort|
  {
    forall m, d :: 0 <= m < k && 0 <= d < |f.names| ==>
      cfg.sort[m].direction != "none" && ColAlias(cfg.sort[m].col) == f.names[d] ==> CellOf(a, d) == CellOf(b, d)
  }

  /**
   * An explicit sort is by its first entry, then among rows that agree there by the next, and so on;
   * "desc" and "col desc" put the greater number first, every other direction the smaller one, and
   * nulls are first in both. In a rollup this is so of all rows but those whose path is all null.
   */
  lemma SortDirection(repr: real -> string, t: Table, cfg: ViewConfig, f: Frame, k: nat, c: nat, i: nat, j: nat)
    requires IsView(repr, t, cfg, f) && cfg.mode != Total && cfg.splitBy == [] && Distinct(f.names)
    requires k < |cfg.sort| && cfg.sort[k].direction != "none"
    requires c < |f.names| && f.names[c] == ColAlias(cfg.sort[k].col)
    requires i < j < |f.rows| && AgreeBefore(cfg, f, k, f.rows[i], f.rows[j])
    requires cfg.groupBy != [] && cfg.mode == Rollup ==> exists v :: v in f.rows[i].path && v != Null
    ensures c < |f.rows[i].cells| && c < |f.rows[j].cells|
    ensures MayPrecede(cfg.sort[k].direction, f.rows[i].cells[c], f.rows[j].cells[c])
  {
    var ks := SortKeys(cfg.sort, f.names, false);
    SortKeysAt(cfg.sort, f.names, false, k);
    FirstIndex(f.names, c);
    AgreeingRowsTie(cfg, f, k, f.rows[i], f.rows[j]);
    SortedPart(repr, t, cfg, f, i, j);
    SortedBy(cfg.sort, f.names, false, |cfg.groupBy|, f.rows[i], f.rows[j], k);
    RowsFit(repr, t, cfg, f, i);
    RowsFit(repr, t, cfg, f, j);
    DirectionOf(cfg.sort[k].direction, f.rows[i].cells[c], f.rows[j].cells[c]);
  }

  lemma DirectionOf(direction: string, x: Value, y: Value)
    requires CellLe(IsDescending(direction), x, y)
    ensures MayPrecede(direction, x, y)
  {
  }

  lemma AgreeingRowsTie(cfg: ViewConfig, f: Frame, k: nat, a: OutRow, b: OutRow)
    requires k <= |cfg.sort| && AgreeBefore(cfg, f, k, a, b)
    ensures Tie(cfg.sort[..k], f.names, false, a, b)
  {
    forall m | 0 <= m < k && IsOn(cfg.sort[m], f.names, false)
      ensures var d := IndexOf(f.names, ColAlias(cfg.sort[m].col)); CellOf(a, d) == CellOf(b, d)
    {
      assert f.names[IndexOf(f.names, ColAlias(cfg.sort[m].col))] == ColAlias(cfg.sort[m].col);
    }
  }

  /** The rows of an unsplit view are sorted by cells; in a rollup, those after the totals are. */
  lemma SortedPart(repr: real -> string, t: Table, cfg: ViewConfig, f: Frame, i: nat, j: nat)
    requires IsView(repr, t, cfg, f) && cfg.mode != Total && cfg.splitBy == [] && i < j < |f.rows|
    requires SortKeys(cfg.sort, f.names, false) != []
    requires cfg.groupBy != [] && cfg.mode == Rollup ==> exists v :: v in f.rows[i].path && v != Null
    ensures var spec, n := CellSpec(SortKeys(cfg.sort, f.names, false)), |cfg.groupBy|;
            Sortable(spec, n, f.rows[i]) && Sortable(spec, n, f.rows[j]) && RowLe(spec, n, f.rows[i], f.rows[j])
  {
    var ks := SortKeys(cfg.sort, f.names, false);
    if cfg.groupBy != [] && cfg.mode == Rollup {
      assert !IsTotalRow(f.rows[i]);
      var rows := FilterRows(t.rows, cfg.filters);
      AfterTotals(ks, |cfg.groupBy|, f.rows, RollupRows(rows, cfg.groupBy, ViewExprs(repr, t, cfg, rows)), i, j);
    } else {
      assert IsSorted(CellSpec(ks), |cfg.groupBy|, f.rows);
    }
  }

  lemma AfterTotals(ks: seq<CellSort>, n: nat, out: seq<OutRow>, base: seq<OutRow>, i: nat, j: nat)
    requires IsGroupedSort(ks, n, out, base) && ks != [] && i < j < |out| && !IsTotalRow(out[i])
    ensures Sortable(CellSpec(ks), n, out[i]) && Sortable(CellSpec(ks), n, out[j])
    ensures RowLe(CellSpec(ks), n, out[i], out[j])
  {
    var totals := TotalsOf(base, true);
    var first := |totals|;
    assert out[..first] == totals;
    var o := out[i];
    assert i < first ==> o in totals && IsTotalRow(o);
    assert out[first..][i - first] == out[i] && out[first..][j - first] == out[j];
  }

  /** Every row has a cell for each name. */
  lemma RowsFit(repr: real -> string, t: Table, cfg: ViewConfig, f: Frame, r: nat)
    requires IsView(repr, t, cfg, f) && cfg.mode != Total && r < |f.rows|
    ensures |f.rows[r].cells| == |f.names|
  {
    if cfg.groupBy == [] {
      var rows := FilterRows(t.rows, cfg.filters);
      var exprs := ViewExprs(repr, t, cfg, rows);
      var base := WhenRows(rows, exprs);
      assert forall o :: o in base ==> |o.cells| == |exprs|;
      assert multiset(f.rows) == multiset(base);
      SameMembers(f.rows, base);
      assert f.rows[r] in f.rows;
    } else {
      var key := ViewRowsAreNodes(repr, t, cfg, f, r);
    }
  }

  // ----- Flat views with a split -----

  /** The unsplit aggregate of a column over a group, by which flat views with a split sort. */
  function GroupTotal(t: Table, cfg: ViewConfig, key: seq<Value>, col: string): Value {
    var rows := RowsWhere(FilterRows(t.rows, cfg.filters), cfg.groupBy, key);
    Aggregate(AggFor(t, cfg.aggregates, col), Column(rows, col))
  }

  ghost predicate TotalsAgreeBefore(t: Table, cfg: ViewConfig, k: nat, a: seq<Value>, b: seq<Value>)
    requires k <= |cfg.sort|
  {
    forall m :: 0 <= m < k && cfg.sort[m].direction != "none" && cfg.sort[m].col in DataColumns(cfg) ==>
      GroupTotal(t, cfg, a, cfg.sort[m].col) == GroupTotal(t, cfg, b, cfg.sort[m].col)
  }

  /** A hidden column of a wide row holds the group's unsplit aggregate. */
  lemma HiddenCell(repr: real -> string, t: Table, cfg: ViewConfig, key: seq<Value>, col: string)
    requires cfg.splitBy != [] && cfg.mode == Flat && "" !in DataColumns(cfg) && |key| == |cfg.groupBy|
    requires col in DataColumns(cfg)
    ensures var rows := FilterRows(t.rows, cfg.filters);
            var all := WideExprs(repr, t, cfg);
            && HiddenName(col) in Names(all)
            && CellOf(NodeRow(rows, cfg.groupBy, all, key), IndexOf(Names(all), HiddenName(col))) ==
               GroupTotal(t, cfg, key, col)
  {
    var rows, cols := FilterRows(t.rows, cfg.filters), DataColumns(cfg);
    var exprs, hidden := ViewExprs(repr, t, cfg, rows), HiddenExprs(t, cfg.aggregates, cols);
    var all := exprs + hidden;
    HiddenNames(exprs, t, cfg.aggregates, cols, col);
    HiddenNameIsNotPrinted(repr, t, cfg, rows, col);
    var p := IndexOf(Names(all), HiddenName(col));
    HiddenIndex(exprs, t, cfg.aggregates, cols, col, p);
    assert cfg.groupBy[..|key|] == cfg.groupBy;
    ShownCell(rows, cfg, key, all, NodeRow(rows, cfg.groupBy, all, key).cells, p);
  }

  lemma HiddenIndex(exprs: seq<AggExpr>, t: Table, aggs: map<string, Agg>, cols: seq<string>, col: string, p: nat)
    requires HiddenName(col) !in Names(exprs)
    requires var all := exprs + HiddenExprs(t, aggs, cols); p < |all| && Names(all)[p] == HiddenName(col)
    ensures (exprs + HiddenExprs(t, aggs, cols))[p] == AggExpr(HiddenName(col), col, AggFor(t, aggs, col), Everything)
  {
    var hidden := HiddenExprs(t, aggs, cols);
    assert Names(exprs + hidden) == Names(exprs) + Names(hidden);
    assert p >= |exprs| by { if p < |exprs| { assert false; } }
    assert (exprs + hidden)[p] == hidden[p - |exprs|];
    HiddenNameInjective(cols[p - |exprs|], col);
  }

  lemma HiddenIsOn(repr: real -> string, t: Table, cfg: ViewConfig, e: SortEntry)
    requires cfg.splitBy != [] && "" !in DataColumns(cfg)
    ensures IsOn(e, Names(WideExprs(repr, t, cfg)), true) <==> e.direction != "none" && e.col in DataColumns(cfg)
  {
    var rows := FilterRows(t.rows, cfg.filters);
    HiddenNames(ViewExprs(repr, t, cfg, rows), t, cfg.aggregates, DataColumns(cfg), e.col);
    HiddenNameIsNotPrinted(repr, t, cfg, rows, e.col);
  }

  /**
   * A flat view with a split is sorted in the same way by the unsplit aggregates of its groups, which
   * it does not show: those of the groups behind its rows.
   */
  lemma SplitSortDirection(repr: real -> string, t: Table, cfg: ViewConfig, f: Frame, k: nat, i: nat, j: nat)
    returns (a: seq<Value>, b: seq<Value>)
    requires IsView(repr, t, cfg, f) && cfg.mode == Flat && cfg.groupBy != [] && cfg.splitBy != []
    requires "" !in DataColumns(cfg)
    requires k < |cfg.sort| && cfg.sort[k].direction != "none" && cfg.sort[k].col in DataColumns(cfg)
    requires i < j < |f.rows|
    ensures f.rows[i].path == a && f.rows[j].path == b
    ensures TotalsAgreeBefore(t, cfg, k, a, b) ==>
              MayPrecede(cfg.sort[k].direction, GroupTotal(t, cfg, a, cfg.sort[k].col),
                         GroupTotal(t, cfg, b, cfg.sort[k].col))
  {
    var rows := FilterRows(t.rows, cfg.filters);
    var names := Names(WideExprs(repr, t, cfg));
    HiddenIsOn(repr, t, cfg, cfg.sort[k]);
    SortKeysAt(cfg.sort, names, true, k);
    var wide := WideRows(repr, t, cfg, f);
    a := LeafKey(rows, cfg.groupBy, WideExprs(repr, t, cfg), wide, i);
    b := LeafKey(rows, cfg.groupBy, WideExprs(repr, t, cfg), wide, j);
    if TotalsAgreeBefore(t, cfg, k, a, b) {
      AgreeingTotalsTie(repr, t, cfg, k, a, b);
      assert Sortable(CellSpec(SortKeys(cfg.sort, names, true)), |cfg.groupBy|, wide[i]);
      SortedBy(cfg.sort, names, true, |cfg.groupBy|, wide[i], wide[j], k);
      HiddenCell(repr, t, cfg, a, cfg.sort[k].col);
      HiddenCell(repr, t, cfg, b, cfg.sort[k].col);
    }
  }

  /** The visible columns and the hidden ones. */
  function WideExprs(repr: real -> string, t: Table, cfg: ViewConfig): seq<AggExpr> {
    ViewExprs(repr, t, cfg, FilterRows(t.rows, cfg.filters)) + HiddenExprs(t, cfg.aggregates, DataColumns(cfg))
  }

  /** The rows before the hidden columns are dropped. */
  lemma WideRows(repr: real -> string, t: Table, cfg: ViewConfig, f: Frame) returns (wide: seq<OutRow>)
    requires IsView(repr, t, cfg, f) && cfg.mode == Flat && cfg.groupBy != [] && cfg.splitBy != []
    requires SortKeys(cfg.sort, Names(WideExprs(repr, t, cfg)), true) != []
    ensures |wide| == |f.rows| && forall r :: 0 <= r < |wide| ==> wide[r].path == f.rows[r].path
    ensures IsSortOf(CellSpec(SortKeys(cfg.sort, Names(WideExprs(repr, t, cfg)), true)), |cfg.groupBy|, wide,
        LevelRows(FilterRows(t.rows, cfg.filters), cfg.groupBy, WideExprs(repr, t, cfg), |cfg.groupBy|))
  {
    var rows, gb := FilterRows(t.rows, cfg.filters), cfg.groupBy;
    var exprs, all := ViewExprs(repr, t, cfg, rows), WideExprs(repr, t, cfg);
    assert IsHiddenSort(t, cfg, exprs, rows, f);
    wide :| IsSortOf(CellSpec(SortKeys(cfg.sort, Names(all), true)), |gb|, wide, LevelRows(rows, gb, all, |gb|))
      && (forall o :: o in wide ==> |exprs| <= |o.cells|) && f.rows == DropHidden(wide, |exprs|);
  }

  lemma AgreeingTotalsTie(repr: real -> string, t: Table, cfg: ViewConfig, k: nat, a: seq<Value>, b: seq<Value>)
    requires cfg.splitBy != [] && cfg.mode == Flat && "" !in DataColumns(cfg)
    requires |a| == |b| == |cfg.groupBy| && k <= |cfg.sort| && TotalsAgreeBefore(t, cfg, k, a, b)
    ensures var rows, all := FilterRows(t.rows, cfg.filters), WideExprs(repr, t, cfg);
            Tie(cfg.sort[..k], Names(all), true, NodeRow(rows, cfg.groupBy, all, a), NodeRow(rows, cfg.groupBy, all, b))
  {
    var rows, all := FilterRows(t.rows, cfg.filters), WideExprs(repr, t, cfg);
    forall m | 0 <= m < k && IsOn(cfg.sort[m], Names(all), true)
      ensures var d := IndexOf(Names(all), HiddenName(cfg.sort[m].col));
              CellOf(NodeRow(rows, cfg.groupBy, all, a), d) == CellOf(NodeRow(rows, cfg.groupBy, all, b), d)
    {
      HiddenIsOn(repr, t, cfg, cfg.sort[m]);
      HiddenCell(repr, t, cfg, a, cfg.sort[m].col);
      HiddenCell(repr, t, cfg, b, cfg.sort[m].col);
    }
  }

  lemma LeafKey(rows: seq<Row>, gb: seq<string>, exprs: seq<AggExpr>, wide: seq<OutRow>, i: nat)
    returns (key: seq<Value>)
    requires multiset(wide) == multiset(LevelRows(rows, gb, exprs, |gb|)) && i < |wide|
    ensures |key| == |gb| && wide[i].path == key && wide[i] == NodeRow(rows, gb, exprs, key)
  {
    SameMembers(wide, LevelRows(rows, gb, exprs, |gb|));
    LevelRowsAreNodes(rows, gb, exprs, |gb|);
    assert wide[i] in wide;
    key :| IsNode(rows, gb, key) && |key| == |gb| && wide[i] == NodeRow(rows, gb, exprs, key);
  }
}
