/** Building a view: which builder runs, how its result is sorted, and what the result is. */
module Views {
  import opened Common
  import opened Values
  import opened Aggregates
  import opened Tables
  import opened Frames
  import opened Planner
  import opened RollupTree

  // ----- Sort configuration -----

  datatype CellSort = CellSort(col: nat, desc: bool)

  function IndexOf(names: seq<string>, x: string): (i: nat)
    requires x in names
    ensures i < |names| && names[i] == x
  {
    if names[0] == x then 0 else 1 + IndexOf(names[1..], x)
  }

  function SortName(hidden: bool, col: string): string {
    if hidden then HiddenName(col) else ColAlias(col)
  }

  predicate IsDescending(direction: string) {
    direction in {"desc", "col desc"}
  }

  /** The entries that name a column of the frame and are not switched off, in order. */
  function SortKeys(sort: seq<SortEntry>, names: seq<string>, hidden: bool): (ks: seq<CellSort>)
    ensures forall k :: k in ks ==> k.col < |names|
  {
    if sort == [] then []
    else
      var e := sort[|sort| - 1];
      SortKeys(sort[..|sort| - 1], names, hidden) +
      if e.direction != "none" && SortName(hidden, e.col) in names
      then [CellSort(IndexOf(names, SortName(hidden, e.col)), IsDescending(e.direction))]
      else []
  }

  method GatherSortKeys(sort: seq<SortEntry>, names: seq<string>, hidden: bool) returns (ks: seq<CellSort>)
    ensures ks == SortKeys(sort, names, hidden)
  {
    ks := [];
    for i := 0 to |sort|
      invariant ks == SortKeys(sort[..i], names, hidden)
    {
      assert sort[..i + 1][..i] == sort[..i];
      var e := sort[i];
      if e.direction != "none" {
        var name := SortName(hidden, e.col);
        if name in names {
          ks := ks + [CellSort(IndexOf(names, name), IsDescending(e.direction))];
        }
      }
    }
    assert sort[..|sort|] == sort;
  }

  function CellSpec(ks: seq<CellSort>): SortSpec {
    ByCells(seq(|ks|, i requires 0 <= i < |ks| => ks[i].col), seq(|ks|, i requires 0 <= i < |ks| => ks[i].desc))
  }

  function LeafSpec(ks: seq<CellSort>): SortSpec {
    if ks == [] then ByPath else CellSpec(ks)
  }

  /** Ungrouped rows keep table order unless a sort applies. */
  ghost predicate IsPlainSort(ks: seq<CellSort>, out: seq<OutRow>, base: seq<OutRow>) {
    if ks == [] then out == base else IsSortOf(CellSpec(ks), 0, out, base)
  }

  predicate IsTotalRow(r: OutRow) {
    forall v :: v in r.path ==> v == Null
  }

  function TotalsOf(rows: seq<OutRow>, total: bool): (r: seq<OutRow>)
    ensures forall o :: o in r <==> o in rows && IsTotalRow(o) == total
  {
    if rows == [] then [] else (if IsTotalRow(rows[0]) == total then [rows[0]] else []) + TotalsOf(rows[1..], total)
  }

  /** Rollup rows: tree order by default; under an explicit sort the grand total stays first. */
  ghost predicate IsGroupedSort(ks: seq<CellSort>, n: nat, out: seq<OutRow>, base: seq<OutRow>) {
    if ks == [] then IsSortOf(ByPath, n, out, base)
    else
      var totals := TotalsOf(base, true);
      totals <= out && IsSortOf(CellSpec(ks), n, out[|totals|..], TotalsOf(base, false))
  }

  lemma {:induction false} TotalsPartition(rows: seq<OutRow>)
    ensures multiset(TotalsOf(rows, true)) + multiset(TotalsOf(rows, false)) == multiset(rows)
  {
    if rows != [] {
      TotalsPartition(rows[1..]);
      assert rows == [rows[0]] + rows[1..];
    }
  }

  /** No sort loses, adds or repeats a row. */
  lemma GroupedSortPermutes(ks: seq<CellSort>, n: nat, out: seq<OutRow>, base: seq<OutRow>)
    requires IsGroupedSort(ks, n, out, base)
    ensures multiset(out) == multiset(base)
    ensures ks != [] ==> multiset(out[..|TotalsOf(base, true)|]) == multiset(TotalsOf(base, true))
  {
    if ks != [] {
      var totals := TotalsOf(base, true);
      assert out == totals + out[|totals|..];
      TotalsPartition(base);
    }
  }

  /** With non-null group keys, the first row of a rollup view is the grand total, whatever the sort. */
  lemma GrandTotalFirst(rows: seq<Row>, gb: seq<string>, exprs: seq<AggExpr>, ks: seq<CellSort>, out: seq<OutRow>)
    requires NonNullKeys(rows, gb)
    requires IsGroupedSort(ks, |gb|, out, RollupRows(rows, gb, exprs))
    ensures out != [] && out[0] == NodeRow(rows, gb, exprs, [])
  {
    var base, top := RollupRows(rows, gb, exprs), NodeRow(rows, gb, exprs, []);
    if ks == [] {
      SortedRollupIsWalk(rows, gb, exprs, out);
    } else {
      var totals := TotalsOf(base, true);
      RollupRowsAreNodes(rows, gb, exprs);
      assert IsNode(rows, gb, []);
      assert top in totals;
      assert totals[0] in totals;
      assert IsTotalRow(totals[0]);
      var d :| IsNode(rows, gb, d) && totals[0] == NodeRow(rows, gb, exprs, d);
      OnlyRootIsTotal(rows, gb, exprs, d);
    }
  }

  lemma OnlyRootIsTotal(rows: seq<Row>, gb: seq<string>, exprs: seq<AggExpr>, d: seq<Value>)
    requires NonNullKeys(rows, gb) && IsNode(rows, gb, d)
    ensures IsTotalRow(NodeRow(rows, gb, exprs, d)) <==> d == []
  {
    KeyHasNoNull(rows, gb, d);
    if d != [] {
      assert NodeRow(rows, gb, exprs, d).path[0] == d[0];
      assert d[0] in NodeRow(rows, gb, exprs, d).path && d[0] in d;
    }
  }

  method ApplyGroupedSort(sort: seq<SortEntry>, n: nat, f: Frame) returns (g: Frame)
    requires AllSortable(ByPath, n, f.rows)
    requires forall r :: r in f.rows ==> |r.cells| == |f.names|
    ensures g.names == f.names
    ensures IsGroupedSort(SortKeys(sort, f.names, false), n, g.rows, f.rows)
  {
    var ks := GatherSortKeys(sort, f.names, false);
    if ks == [] {
      var sorted := Sort(ByPath, n, f.rows);
      return Frame(f.names, sorted);
    }
    var totals, rest := TotalsOf(f.rows, true), TotalsOf(f.rows, false);
    var sorted := Sort(CellSpec(ks), n, rest);
    g := Frame(f.names, totals + sorted);
    assert g.rows[|totals|..] == sorted;
  }

  method ApplyPlainSort(sort: seq<SortEntry>, f: Frame) returns (g: Frame)
    requires forall r :: r in f.rows ==> |r.cells| == |f.names|
    ensures g.names == f.names
    ensures IsPlainSort(SortKeys(sort, f.names, false), g.rows, f.rows)
  {
    if sort == [] { return f; }
    var ks := GatherSortKeys(sort, f.names, false);
    if ks == [] { return f; }
    var sorted := Sort(CellSpec(ks), 0, f.rows);
    g := Frame(f.names, sorted);
  }

  /** Leaf rows arrive sorted by path; an explicit sort replaces that order. */
  method ApplyLeafSort(sort: seq<SortEntry>, hidden: bool, n: nat, f: Frame, ghost base: seq<OutRow>) returns (g: Frame)
    requires IsSortOf(ByPath, n, f.rows, base)
    requires forall r :: r in f.rows ==> |r.cells| == |f.names|
    ensures g.names == f.names
    ensures IsSortOf(LeafSpec(SortKeys(sort, f.names, hidden)), n, g.rows, base)
  {
    var ks := GatherSortKeys(sort, f.names, hidden);
    if ks == [] { return f; }
    var sorted := Sort(CellSpec(ks), n, f.rows);
    g := Frame(f.names, sorted);
  }

  // ----- The visible expressions of a configuration -----

  function DataColumns(cfg: ViewConfig): seq<string> {
    match cfg.mode
    case Total => if cfg.splitBy == [] then cfg.columns else Without(cfg.columns, cfg.splitBy)
    case _ => Without(Without(cfg.columns, cfg.groupBy), cfg.splitBy)
  }

  function ViewExprs(repr: real -> string, t: Table, cfg: ViewConfig, rows: seq<Row>): seq<AggExpr> {
    if cfg.splitBy == [] then PlainExprs(t, cfg.aggregates, DataColumns(cfg))
    else SplitExprs(repr, t, cfg.aggregates, DataColumns(cfg), cfg.splitBy[0], SplitValues(rows, cfg.splitBy[0]))
  }

  function DropHidden(rows: seq<OutRow>, m: nat): (r: seq<OutRow>)
    requires forall o :: o in rows ==> m <= |o.cells|
    ensures |r| == |rows|
  {
    seq(|rows|, i requires 0 <= i < |rows| => assert rows[i] in rows; rows[i].(cells := rows[i].cells[..m]))
  }

  /** One ungrouped row: each column shows its cell only where the split column has its value. */
  function WhenRow(r: Row, exprs: seq<AggExpr>): OutRow {
    OutRow(0, [], seq(|exprs|, j requires 0 <= j < |exprs| =>
      match exprs[j].only
      case Everything => Get(r, exprs[j].col)
      case Where(c, v) => if v != Null && Get(r, c) == v then Get(r, exprs[j].col) else Null))
  }

  function WhenRows(rows: seq<Row>, exprs: seq<AggExpr>): seq<OutRow> {
    if exprs == [] then [] else seq(|rows|, i requires 0 <= i < |rows| => WhenRow(rows[i], exprs))
  }

  /** Column names that start with `__` are neither part of a view's schema nor pushed as data. */
  function ViewSchema(names: seq<string>): (r: seq<string>)
    ensures forall x :: x in r <==> x in names && !("__" <= x)
  {
    if names == [] then []
    else (if "__" <= names[0] then [] else [names[0]]) + ViewSchema(names[1..])
  }

  /** The schema's columns are in the order of the frame's. */
  lemma {:induction false} ViewSchemaAt(names: seq<string>) returns (at: seq<nat>)
    ensures Picks(at, names, ViewSchema(names))
    ensures forall i: nat :: i in at <==> i < |names| && !("__" <= names[i])
  {
    if names == [] { return []; }
    var first, others := names[0], names[1..];
    var picked := !("__" <= first);
    var rest := ViewSchemaAt(others);
    assert [first] + others == names;
    PicksMore(rest, first, others, ViewSchema(others), picked);
    at := Later(rest, picked);
    assert ViewSchema(names) == (if picked then [first] else []) + ViewSchema(others);
    forall i: nat ensures i in at <==> i < |names| && !("__" <= names[i]) {
      if 0 < i < |names| { assert names[i] == others[i - 1]; }
    }
  }

  /** The results that building a view may have; sorts leave the order of ties open. */
  ghost predicate IsView(repr: real -> string, t: Table, cfg: ViewConfig, f: Frame) {
    var rows, n := FilterRows(t.rows, cfg.filters), |cfg.groupBy|;
    var exprs := ViewExprs(repr, t, cfg, rows);
    && f.names == Names(exprs)
    && if cfg.mode == Total then f.rows == TotalRows(rows, exprs)
       else if cfg.groupBy == [] then IsPlainSort(SortKeys(cfg.sort, f.names, false), f.rows, WhenRows(rows, exprs))
       else if cfg.mode == Rollup then
         IsGroupedSort(SortKeys(cfg.sort, f.names, false), n, f.rows, RollupRows(rows, cfg.groupBy, exprs))
       else if cfg.splitBy == [] then
         IsSortOf(LeafSpec(SortKeys(cfg.sort, f.names, false)), n, f.rows, LevelRows(rows, cfg.groupBy, exprs, n))
       else IsHiddenSort(t, cfg, exprs, rows, f)
  }

  /** Flat split views sort by hidden unsplit aggregates, which are then dropped. */
  ghost predicate IsHiddenSort(t: Table, cfg: ViewConfig, exprs: seq<AggExpr>, rows: seq<Row>, f: Frame) {
    var all := exprs + HiddenExprs(t, cfg.aggregates, DataColumns(cfg));
    var spec, level := LeafSpec(SortKeys(cfg.sort, Names(all), true)), LevelRows(rows, cfg.groupBy, all, |cfg.groupBy|);
    exists wide: seq<OutRow> ::
      && IsSortOf(spec, |cfg.groupBy|, wide, level)
      && (forall o :: o in wide ==> |exprs| <= |o.cells|)
      && f.rows == DropHidden(wide, |exprs|)
  }

  // ----- When an explicit sort is obeyed -----

  /** The sort keys that are used for a view: those of no frame in total mode. */
  function UsedSortKeys(repr: real -> string, t: Table, cfg: ViewConfig, rows: seq<Row>): seq<CellSort> {
    var exprs := ViewExprs(repr, t, cfg, rows);
    if cfg.mode == Total then []
    else if cfg.mode == Flat && cfg.groupBy != [] && cfg.splitBy != [] then
      SortKeys(cfg.sort, Names(exprs + HiddenExprs(t, cfg.aggregates, DataColumns(cfg))), true)
    else SortKeys(cfg.sort, Names(exprs), false)
  }

  /**
   * Whether the view obeys a sort by the column. Without a split it must share its alias with a data
   * column, which a group column is not. With a split only flat grouped views can sort, by a data
   * column; or by a column whose hidden name happens to be printed for a split value.
   */
  ghost predicate SortsBy(repr: real -> string, t: Table, cfg: ViewConfig, rows: seq<Row>, col: string) {
    && cfg.mode != Total
    && if cfg.splitBy == [] then exists c :: c in DataColumns(cfg) && ColAlias(c) == ColAlias(col)
       else cfg.mode == Flat && cfg.groupBy != [] &&
            (col in DataColumns(cfg) || HiddenName(col) in Names(ViewExprs(repr, t, cfg, rows)))
  }

  lemma {:induction false} SortKeysExactly(sort: seq<SortEntry>, names: seq<string>, hidden: bool)
    ensures SortKeys(sort, names, hidden) != [] <==>
            exists e :: e in sort && e.direction != "none" && SortName(hidden, e.col) in names
  {
    if sort != [] {
      var init, last := sort[..|sort| - 1], sort[|sort| - 1];
      SortKeysExactly(init, names, hidden);
      assert forall e :: e in sort <==> e in init || e == last by { assert sort == init + [last]; }
    }
  }

  lemma PlainNames(t: Table, aggs: map<string, Agg>, cols: seq<string>, alias: string)
    ensures alias in Names(PlainExprs(t, aggs, cols)) <==> exists c :: c in cols && ColAlias(c) == alias
  {
    var names := Names(PlainExprs(t, aggs, cols));
    assert forall j :: 0 <= j < |cols| ==> names[j] == ColAlias(cols[j]);
    if c :| c in cols && ColAlias(c) == alias {
      var j :| 0 <= j < |cols| && cols[j] == c;
      assert names[j] == alias;
    }
  }

  lemma HiddenNameInjective(a: string, b: string)
    ensures HiddenName(a) == HiddenName(b) <==> a == b
  {
    assert HiddenName(a)[7..|HiddenName(a)| - 2] == a;
    assert HiddenName(b)[7..|HiddenName(b)| - 2] == b;
  }

  lemma HiddenNames(exprs: seq<AggExpr>, t: Table, aggs: map<string, Agg>, cols: seq<string>, col: string)
    ensures HiddenName(col) in Names(exprs + HiddenExprs(t, aggs, cols)) <==>
            col in cols || HiddenName(col) in Names(exprs)
  {
    var hidden := HiddenExprs(t, aggs, cols);
    var names := Names(hidden);
    assert Names(exprs + hidden) == Names(exprs) + names;
    assert forall j :: 0 <= j < |cols| ==> names[j] == HiddenName(cols[j]);
    if col in cols {
      var j :| 0 <= j < |cols| && cols[j] == col;
      assert names[j] == HiddenName(col);
    }
    if HiddenName(col) in names {
      var j :| 0 <= j < |names| && names[j] == HiddenName(col);
      HiddenNameInjective(cols[j], col);
    }
  }

  /** An alias is never printed for a split value: those names all hold the separator `_`. */
  lemma SplitNamesAreNoAliases(repr: real -> string, t: Table, cfg: ViewConfig, rows: seq<Row>, col: string)
    requires cfg.splitBy != []
    ensures ColAlias(col) !in Names(ViewExprs(repr, t, cfg, rows))
  {
    var names := Names(ViewExprs(repr, t, cfg, rows));
    if ColAlias(col) in names {
      var i :| 0 <= i < |names| && names[i] == ColAlias(col);
      SplitNamesHoldSeparator(repr, t, cfg.aggregates, DataColumns(cfg), cfg.splitBy[0],
                              SplitValues(rows, cfg.splitBy[0]), i);
    }
  }

  lemma UsedNames(repr: real -> string, t: Table, cfg: ViewConfig, rows: seq<Row>, col: string)
    requires cfg.mode != Total
    ensures var exprs := ViewExprs(repr, t, cfg, rows);
            if cfg.mode == Flat && cfg.groupBy != [] && cfg.splitBy != [] then
              HiddenName(col) in Names(exprs + HiddenExprs(t, cfg.aggregates, DataColumns(cfg))) <==>
              SortsBy(repr, t, cfg, rows, col)
            else ColAlias(col) in Names(exprs) <==> SortsBy(repr, t, cfg, rows, col)
  {
    if cfg.splitBy == [] {
      PlainNames(t, cfg.aggregates, DataColumns(cfg), ColAlias(col));
    } else {
      SplitNamesAreNoAliases(repr, t, cfg, rows, col);
      HiddenNames(ViewExprs(repr, t, cfg, rows), t, cfg.aggregates, DataColumns(cfg), col);
    }
  }

  /** A view has sort keys exactly if an entry that is switched on names a column it can sort by. */
  lemma SortObeyedExactly(repr: real -> string, t: Table, cfg: ViewConfig, rows: seq<Row>)
    ensures UsedSortKeys(repr, t, cfg, rows) != [] <==>
            exists e :: e in cfg.sort && e.direction != "none" && SortsBy(repr, t, cfg, rows, e.col)
  {
    if cfg.mode != Total {
      var exprs := ViewExprs(repr, t, cfg, rows);
      SortKeysExactly(cfg.sort, Names(exprs), false);
      SortKeysExactly(cfg.sort, Names(exprs + HiddenExprs(t, cfg.aggregates, DataColumns(cfg))), true);
      forall e | e in cfg.sort ensures
        var names := if cfg.mode == Flat && cfg.groupBy != [] && cfg.splitBy != []
                     then Names(exprs + HiddenExprs(t, cfg.aggregates, DataColumns(cfg))) else Names(exprs);
        var hidden := cfg.mode == Flat && cfg.groupBy != [] && cfg.splitBy != [];
        SortName(hidden, e.col) in names <==> SortsBy(repr, t, cfg, rows, e.col)
      {
        UsedNames(repr, t, cfg, rows, e.col);
      }
    }
  }

  /** Rollup views with a split and ungrouped ones ignore every sort entry. */
  lemma SplitIgnoresSort(repr: real -> string, t: Table, cfg: ViewConfig, rows: seq<Row>)
    requires cfg.splitBy != [] && (cfg.groupBy == [] || cfg.mode != Flat)
    ensures UsedSortKeys(repr, t, cfg, rows) == []
  {
    SortObeyedExactly(repr, t, cfg, rows);
  }

  /** The hidden name of a column is printed for a split value only beside a data column without a name. */
  lemma HiddenNameIsNotPrinted(repr: real -> string, t: Table, cfg: ViewConfig, rows: seq<Row>, col: string)
    requires cfg.splitBy != [] && "" !in DataColumns(cfg)
    ensures HiddenName(col) !in Names(ViewExprs(repr, t, cfg, rows))
  {
    var names := Names(ViewExprs(repr, t, cfg, rows));
    if HiddenName(col) in names {
      var i :| 0 <= i < |names| && names[i] == HiddenName(col);
      SplitNamesEndInAlias(repr, t, cfg.aggregates, DataColumns(cfg), cfg.splitBy[0],
                           SplitValues(rows, cfg.splitBy[0]), i);
    }
  }

  lemma {:induction false} SplitNamesEndInAlias(repr: real -> string, t: Table, aggs: map<string, Agg>,
                                                cols: seq<string>, split: string, svs: seq<Value>, i: nat)
    requires i < |SplitExprs(repr, t, aggs, cols, split, svs)| && "" !in cols
    ensures var name := SplitExprs(repr, t, aggs, cols, split, svs)[i].name; |name| > 0 && name[|name| - 1] != '_'
  {
    if svs != [] {
      var last := |svs| - 1;
      var before := SplitExprs(repr, t, aggs, cols, split, svs[..last]);
      if i < |before| {
        SplitNamesEndInAlias(repr, t, aggs, cols, split, svs[..last], i);
      } else {
        var col := cols[i - |before|];
        assert col in cols && |ColAlias(col)| > 0;
        var alias, name := ColAlias(col), SplitName(repr, svs[last], col);
        assert name[|name| - 1] == alias[|alias| - 1] && alias[|alias| - 1] in alias;
      }
    }
  }

  lemma CellsPrefix(rows: seq<Row>, gb: seq<string>, exprs: seq<AggExpr>, hidden: seq<AggExpr>, key: seq<Value>)
    requires |key| <= |gb|
    ensures var wide := NodeRow(rows, gb, exprs + hidden, key);
            wide.(cells := wide.cells[..|exprs|]) == NodeRow(rows, gb, exprs, key)
  {
    var inside := RowsWhere(rows, gb[..|key|], key);
    assert Cells(inside, exprs + hidden)[..|exprs|] == Cells(inside, exprs);
  }

  lemma DroppedIsLeaf(rows: seq<Row>, gb: seq<string>, exprs: seq<AggExpr>, hidden: seq<AggExpr>, w: OutRow)
    requires NodeBetween(rows, gb, exprs + hidden, |gb|, |gb|, w) && |exprs| <= |w.cells|
    ensures NodeBetween(rows, gb, exprs, |gb|, |gb|, w.(cells := w.cells[..|exprs|]))
  {
    var d :| IsNode(rows, gb, d) && |d| == |gb| && w == NodeRow(rows, gb, exprs + hidden, d);
    CellsPrefix(rows, gb, exprs, hidden, d);
  }

  lemma LeafIsDropped(rows: seq<Row>, gb: seq<string>, exprs: seq<AggExpr>, hidden: seq<AggExpr>, o: OutRow)
    returns (w: OutRow)
    requires NodeBetween(rows, gb, exprs, |gb|, |gb|, o)
    ensures NodeBetween(rows, gb, exprs + hidden, |gb|, |gb|, w) && |exprs| <= |w.cells|
    ensures o == w.(cells := w.cells[..|exprs|])
  {
    var d :| IsNode(rows, gb, d) && |d| == |gb| && o == NodeRow(rows, gb, exprs, d);
    w := NodeRow(rows, gb, exprs + hidden, d);
    CellsPrefix(rows, gb, exprs, hidden, d);
  }

  /** Dropping the hidden columns of leaf rows leaves the leaf rows of the visible ones, in the same order. */
  lemma DroppedLeaves(rows: seq<Row>, gb: seq<string>, exprs: seq<AggExpr>, hidden: seq<AggExpr>, wide: seq<OutRow>)
    requires StrictlyAscending(|gb|, wide) && forall o :: o in wide ==> |exprs| <= |o.cells|
    requires forall o :: o in wide <==> NodeBetween(rows, gb, exprs + hidden, |gb|, |gb|, o)
    ensures StrictlyAscending(|gb|, DropHidden(wide, |exprs|))
    ensures forall o :: o in DropHidden(wide, |exprs|) <==> NodeBetween(rows, gb, exprs, |gb|, |gb|, o)
  {
    var flat, n := DropHidden(wide, |exprs|), |gb|;
    assert forall i :: 0 <= i < |wide| ==> flat[i].path == wide[i].path && wide[i] in wide;
    forall o | o in flat ensures NodeBetween(rows, gb, exprs, n, n, o) {
      var i :| 0 <= i < |flat| && flat[i] == o;
      DroppedIsLeaf(rows, gb, exprs, hidden, wide[i]);
    }
    forall o | NodeBetween(rows, gb, exprs, n, n, o) ensures o in flat {
      var w := LeafIsDropped(rows, gb, exprs, hidden, o);
      assert w in wide;
      var i :| 0 <= i < |wide| && wide[i] == w;
      assert flat[i] == o;
    }
  }

  /**
   * Without sort keys a view is in its default order: table order if ungrouped, the walk of the group
   * tree in rollup mode, and by path in flat mode.
   */
  lemma DefaultOrder(repr: real -> string, t: Table, cfg: ViewConfig, f: Frame)
    requires IsView(repr, t, cfg, f) && cfg.mode != Total
    requires UsedSortKeys(repr, t, cfg, FilterRows(t.rows, cfg.filters)) == []
    ensures var rows := FilterRows(t.rows, cfg.filters);
            var exprs := ViewExprs(repr, t, cfg, rows);
            && (cfg.groupBy == [] ==> f.rows == WhenRows(rows, exprs))
            && (cfg.groupBy != [] && NonNullKeys(rows, cfg.groupBy) ==>
                  f.rows == if cfg.mode == Rollup then Walk(rows, cfg.groupBy, exprs, [])
                            else Leaves(Walk(rows, cfg.groupBy, exprs, [])))
  {
    var rows, gb := FilterRows(t.rows, cfg.filters), cfg.groupBy;
    var exprs := ViewExprs(repr, t, cfg, rows);
    if gb != [] && NonNullKeys(rows, gb) {
      if cfg.mode == Rollup {
        SortedRollupIsWalk(rows, gb, exprs, f.rows);
      } else {
        if cfg.splitBy == [] {
          SortedLevelIsStrict(rows, gb, exprs, f.rows);
        } else {
          var hidden := HiddenExprs(t, cfg.aggregates, DataColumns(cfg));
          assert IsHiddenSort(t, cfg, exprs, rows, f);
          var wide: seq<OutRow> :| IsSortOf(ByPath, |gb|, wide, LevelRows(rows, gb, exprs + hidden, |gb|))
            && (forall o :: o in wide ==> |exprs| <= |o.cells|) && f.rows == DropHidden(wide, |exprs|);
          SortedLevelIsStrict(rows, gb, exprs + hidden, wide);
          DroppedLeaves(rows, gb, exprs, hidden, wide);
        }
        StrictLeavesAreOfWalk(rows, gb, exprs, f.rows);
      }
    }
  }

  lemma {:induction false} SplitNamesHoldSeparator(repr: real -> string, t: Table, aggs: map<string, Agg>,
                                                   cols: seq<string>, split: string, svs: seq<Value>, i: nat)
    requires i < |SplitExprs(repr, t, aggs, cols, split, svs)|
    ensures '_' in SplitExprs(repr, t, aggs, cols, split, svs)[i].name
  {
    if svs != [] {
      var last := |svs| - 1;
      var before := SplitExprs(repr, t, aggs, cols, split, svs[..last]);
      if i < |before| {
        SplitNamesHoldSeparator(repr, t, aggs, cols, split, svs[..last], i);
      } else {
        var name := SplitName(repr, svs[last], cols[i - |before|]);
        assert name[|Show(repr, svs[last])|] == '_';
      }
    }
  }
}
