/** The polars virtual server: named tables and the views built from them. */
module PolarsServer {
  import opened Common
  import opened Values
  import opened Aggregates
  import opened Tables
  import opened Frames
  import opened Planner
  import opened RollupTree
  import opened Views

  lemma RollupShape(rows: seq<Row>, gb: seq<string>, exprs: seq<AggExpr>)
    ensures forall o :: o in RollupRows(rows, gb, exprs) ==> |o.path| == |gb| && |o.cells| == |exprs|
  {
    RollupRowsAreNodes(rows, gb, exprs);
  }

  lemma LevelShape(rows: seq<Row>, gb: seq<string>, exprs: seq<AggExpr>, k: nat)
    requires k <= |gb|
    ensures forall o :: o in LevelRows(rows, gb, exprs, k) ==> |o.path| == |gb| && |o.cells| == |exprs|
  {
    LevelRowsAreNodes(rows, gb, exprs, k);
  }

  lemma SameMembers<T>(a: seq<T>, b: seq<T>)
    requires multiset(a) == multiset(b)
    ensures forall x :: x in a <==> x in b
  {
    forall x ensures x in a <==> x in b {
      assert x in a <==> x in multiset(a);
      assert x in b <==> x in multiset(b);
    }
  }

  class PolarsHandler {
    const repr: real -> string
    const parse: ExprParser
    var tables: map<string, Table>
    var views: map<string, Frame>
    var viewSchemas: map<string, seq<string>>

    constructor (repr: real -> string, parse: ExprParser, tables: map<string, Table>)
      ensures this.repr == repr && this.parse == parse && this.tables == tables
      ensures views == map[] && viewSchemas == map[]
    {
      this.repr, this.parse := repr, parse;
      this.tables := tables;
      views, viewSchemas := map[], map[];
    }

    method BuildRollup(t: Table, rows: seq<Row>, cfg: ViewConfig, exprs: seq<AggExpr>) returns (f: Frame)
      requires cfg.groupBy != []
      ensures f.names == Names(exprs)
      ensures IsGroupedSort(SortKeys(cfg.sort, f.names, false), |cfg.groupBy|, f.rows,
          RollupRows(rows, cfg.groupBy, exprs))
    {
      var out := RollupLevels(rows, cfg.groupBy, exprs);
      RollupShape(rows, cfg.groupBy, exprs);
      f := ApplyGroupedSort(cfg.sort, |cfg.groupBy|, Frame(Names(exprs), out));
    }

    method BuildLeaves(rows: seq<Row>, cfg: ViewConfig, exprs: seq<AggExpr>, hidden: bool) returns (f: Frame)
      requires cfg.groupBy != []
      ensures f.names == Names(exprs)
      ensures IsSortOf(LeafSpec(SortKeys(cfg.sort, f.names, hidden)), |cfg.groupBy|, f.rows,
          LevelRows(rows, cfg.groupBy, exprs, |cfg.groupBy|))
    {
      var n := |cfg.groupBy|;
      var leaves := BuildLevel(rows, cfg.groupBy, exprs, n);
      LevelShape(rows, cfg.groupBy, exprs, n);
      var sorted := Sort(ByPath, n, leaves);
      SameMembers(sorted, leaves);
      f := ApplyLeafSort(cfg.sort, hidden, n, Frame(Names(exprs), sorted), leaves);
    }

    method BuildHiddenLeaves(t: Table, rows: seq<Row>, cfg: ViewConfig, exprs: seq<AggExpr>, cols: seq<string>)
      returns (f: Frame)
      requires cfg.groupBy != [] && cols == DataColumns(cfg)
      ensures f.names == Names(exprs)
      ensures IsHiddenSort(t, cfg, exprs, rows, f)
    {
      var hidden := HiddenAggExprs(t, cfg.aggregates, cols);
      var wide := BuildLeaves(rows, cfg, exprs + hidden, true);
      LevelShape(rows, cfg.groupBy, exprs + hidden, |cfg.groupBy|);
      SameMembers(wide.rows, LevelRows(rows, cfg.groupBy, exprs + hidden, |cfg.groupBy|));
      f := Frame(Names(exprs), DropHidden(wide.rows, |exprs|));
    }

    method VisibleExprs(t: Table, rows: seq<Row>, cfg: ViewConfig, cols: seq<string>) returns (exprs: seq<AggExpr>)
      requires cols == DataColumns(cfg)
      ensures exprs == ViewExprs(repr, t, cfg, rows)
    {
      if cfg.splitBy == [] {
        exprs := PlainAggExprs(t, cfg.aggregates, cols);
      } else {
        exprs := SplitAggExprs(repr, t, cfg.aggregates, cols, cfg.splitBy[0], SplitValues(rows, cfg.splitBy[0]));
      }
    }

    /** Picks the builder and the sort by the rollup mode and by what the configuration groups and splits by. */
    method BuildView(t: Table, cfg: ViewConfig) returns (f: Frame)
      ensures IsView(repr, t, cfg, f)
    {
      var rows := ApplyFilters(t.rows, cfg.filters);
      var cols := DataColumns(cfg);
      var exprs := VisibleExprs(t, rows, cfg, cols);
      if cfg.mode == Total {
        f := Frame(Names(exprs), TotalRows(rows, exprs));
      } else if cfg.groupBy == [] {
        f := ApplyPlainSort(cfg.sort, Frame(Names(exprs), WhenRows(rows, exprs)));
      } else if cfg.mode == Rollup {
        f := BuildRollup(t, rows, cfg, exprs);
      } else if cfg.splitBy == [] {
        f := BuildLeaves(rows, cfg, exprs, false);
      } else {
        f := BuildHiddenLeaves(t, rows, cfg, exprs, cols);
      }
    }

    /**
     * Builds and stores a view of the table with its computed columns; an unknown table or an
     * expression that does not parse is an error that changes nothing.
     */
    method TableMakeView(tableName: string, viewName: string, expressions: seq<Expression>, cfg: ViewConfig)
      returns (ok: bool)
      modifies this`views, this`viewSchemas
      ensures ok == (tableName in tables && AllParse(parse, expressions))
      ensures !ok ==> views == old(views) && viewSchemas == old(viewSchemas)
      ensures ok ==> viewName in views
      ensures ok ==> IsView(repr, WithColumns(parse, tables[tableName], expressions), cfg, views[viewName])
      ensures ok ==> views == old(views)[viewName := views[viewName]]
      ensures ok ==> viewSchemas == old(viewSchemas)[viewName := ViewSchema(views[viewName].names)]
    {
      if tableName !in tables { return false; }
      var computed := AddColumns(parse, tables[tableName], expressions);
      if computed.None? { return false; }
      var f := BuildView(computed.value, cfg);
      views := views[viewName := f];
      viewSchemas := viewSchemas[viewName := ViewSchema(f.names)];
      return true;
    }

    method ViewDelete(viewName: string)
      modifies this`views, this`viewSchemas
      ensures views == old(views) - {viewName} && viewSchemas == old(viewSchemas) - {viewName}
    {
      views := views - {viewName};
      viewSchemas := viewSchemas - {viewName};
    }
  }

  // ----- Every row of a grouped view is a node of the group tree -----

  /** The group key behind a row of a grouped view, and the cells it must show. */
  ghost predicate IsRowOf(rows: seq<Row>, gb: seq<string>, exprs: seq<AggExpr>, key: seq<Value>, o: OutRow) {
    IsNode(rows, gb, key) && o == NodeRow(rows, gb, exprs, key)
  }

  lemma ViewRowsAreNodes(repr: real -> string, t: Table, cfg: ViewConfig, f: Frame, r: nat) returns (key: seq<Value>)
    requires IsView(repr, t, cfg, f) && cfg.mode != Total && cfg.groupBy != [] && r < |f.rows|
    ensures var rows := FilterRows(t.rows, cfg.filters);
            IsRowOf(rows, cfg.groupBy, ViewExprs(repr, t, cfg, rows), key, f.rows[r])
    ensures cfg.mode == Flat ==> |key| == |cfg.groupBy|
  {
    var rows, gb := FilterRows(t.rows, cfg.filters), cfg.groupBy;
    var exprs := ViewExprs(repr, t, cfg, rows);
    var o := f.rows[r];
    assert o in f.rows;
    if cfg.mode == Rollup {
      GroupedSortPermutes(SortKeys(cfg.sort, f.names, false), |gb|, f.rows, RollupRows(rows, gb, exprs));
      SameMembers(f.rows, RollupRows(rows, gb, exprs));
      RollupRowsAreNodes(rows, gb, exprs);
      key :| IsNode(rows, gb, key) && o == NodeRow(rows, gb, exprs, key);
    } else if cfg.splitBy == [] {
      SameMembers(f.rows, LevelRows(rows, gb, exprs, |gb|));
      LevelRowsAreNodes(rows, gb, exprs, |gb|);
      key :| IsNode(rows, gb, key) && |key| == |gb| && o == NodeRow(rows, gb, exprs, key);
    } else {
      var hidden := HiddenExprs(t, cfg.aggregates, DataColumns(cfg));
      var level := LevelRows(rows, gb, exprs + hidden, |gb|);
      assert IsHiddenSort(t, cfg, exprs, rows, f);
      var wide: seq<OutRow> :| IsSortOf(LeafSpec(SortKeys(cfg.sort, Names(exprs + hidden), true)), |gb|, wide, level)
        && (forall o :: o in wide ==> |exprs| <= |o.cells|) && f.rows == DropHidden(wide, |exprs|);
      SameMembers(wide, level);
      LevelRowsAreNodes(rows, gb, exprs + hidden, |gb|);
      assert wide[r] in wide;
      key :| IsNode(rows, gb, key) && |key| == |gb| && wide[r] == NodeRow(rows, gb, exprs + hidden, key);
      CellsPrefix(rows, gb, exprs, hidden, key);
    }
  }

  /** And every group of the filtered table has its row in a rollup view. */
  lemma NodeHasRow(repr: real -> string, t: Table, cfg: ViewConfig, f: Frame, key: seq<Value>) returns (r: nat)
    requires IsView(repr, t, cfg, f) && cfg.mode == Rollup && cfg.groupBy != []
    requires IsNode(FilterRows(t.rows, cfg.filters), cfg.groupBy, key)
    ensures var rows := FilterRows(t.rows, cfg.filters);
            r < |f.rows| && f.rows[r] == NodeRow(rows, cfg.groupBy, ViewExprs(repr, t, cfg, rows), key)
  {
    var rows, gb := FilterRows(t.rows, cfg.filters), cfg.groupBy;
    var exprs := ViewExprs(repr, t, cfg, rows);
    var row := NodeRow(rows, gb, exprs, key);
    RollupRowsAreNodes(rows, gb, exprs);
    GroupedSortPermutes(SortKeys(cfg.sort, f.names, false), |gb|, f.rows, RollupRows(rows, gb, exprs));
    SameMembers(f.rows, RollupRows(rows, gb, exprs));
    assert row in f.rows;
    r :| 0 <= r < |f.rows| && f.rows[r] == row;
  }
}
