/** Drilling down: the filter that turns a cell of a view back into rows of its table. */
module CellConfig {
  import opened Common
  import opened Values
  import opened Aggregates
  import opened Tables
  import opened Frames
  import opened Planner
  import opened RollupTree
  import opened Views
  import opened PolarsServer
  import opened DataSlice

  // ----- JSON rows -----

  /** One row object: the `__ROW_PATH__` entry when there is one, then the columns in order. */
  datatype JsonRow = JsonRow(path: Option<seq<Value>>, keys: seq<string>, cells: map<string, Value>)

  ghost predicate WellFormed(s: SliceState, rows: nat) {
    && (forall x :: x in s.order <==> x in s.columns)
    && (forall x :: x in s.columns ==> |s.columns[x]| == rows)
    && (s.rowPath.Some? ==> |s.rowPath.value| <= rows)
  }

  function ToRow(s: SliceState, rows: nat, i: nat): JsonRow
    requires WellFormed(s, rows) && i < rows
  {
    JsonRow(
      if s.rowPath.Some? && i < |s.rowPath.value| then Some(s.rowPath.value[i]) else None,
      s.order,
      map k | k in s.columns :: s.columns[k][i])
  }

  // ----- getCellConfig -----

  /** JavaScript truthiness of a scalar. */
  predicate Truthy(v: Value) {
    match v
    case Null => false
    case Num(x) => x != 0.0
    case Str(s) => s != ""
  }

  /** The values a condition does not let through. */
  predicate IsFalsy(v: Value) {
    v == Null || v == Num(0.0) || v == Str("")
  }

  function SplitOn(s: string, sep: char): (parts: seq<string>)
    ensures parts != []
  {
    if s == "" then [""]
    else
      var rest := SplitOn(s[1..], sep);
      if s[0] == sep then [""] + rest else [[s[0]] + rest[0]] + rest[1..]
  }

  predicate IsDigits(s: string) {
    s != "" && forall i :: 0 <= i < |s| ==> '0' <= s[i] <= '9'
  }

  /** `__ROW_PATH__`, `__ROW_PATH_<digits>__`, `__ID__` and `__GROUPING_ID__`. */
  predicate IsMetaColumn(name: string) {
    || name in {"__ROW_PATH__", "__ID__", "__GROUPING_ID__"}
    || (|name| > 13 && name[..11] == "__ROW_PATH_" && name[|name| - 2..] == "__" && IsDigits(name[11..|name| - 2]))
  }

  /** One equality per group column whose path value is truthy. */
  function RowFilters(gb: seq<string>, path: seq<Value>): (fs: seq<Filter>)
    ensures |fs| <= |path|
  {
    if gb == [] || path == [] then []
    else (if Truthy(path[0]) then [Filter(gb[0], "==", path[0])] else []) + RowFilters(gb[1..], path[1..])
  }

  /** One equality per split column whose part of the column path is non-empty and not meta. */
  function ColumnFilters(splitBy: seq<string>, parts: seq<string>): (fs: seq<Filter>)
    ensures |fs| <= |splitBy|
  {
    if splitBy == [] || parts == [] then []
    else (if parts[0] != "" && !IsMetaColumn(parts[0]) then [Filter(splitBy[0], "==", Str(parts[0]))] else [])
         + ColumnFilters(splitBy[1..], parts[1..])
  }

  function UserKeys(keys: seq<string>): seq<string> {
    if keys == [] then [] else (if IsMetaColumn(keys[0]) then [] else [keys[0]]) + UserKeys(keys[1..])
  }

  /** `columnNames` is empty without a column, and holds `None` when the path is too short. */
  datatype Config = Config(columnNames: seq<Option<string>>, filter: seq<Filter>)

  /** The cell's configuration from the row the view returned; without a row there is an exception. */
  function GetCellConfig(cfg: ViewConfig, rows: seq<JsonRow>, col: int): Option<Config> {
    if rows == [] then None
    else
      var rowFilters := RowFilters(cfg.groupBy, if rows[0].path.Some? then rows[0].path.value else []);
      var userKeys := UserKeys(rows[0].keys);
      if 0 <= col < |userKeys| && userKeys[col] != "" then
        var parts := SplitOn(userKeys[col], '|');
        var name := if |cfg.splitBy| < |parts| then Some(parts[|cfg.splitBy|]) else None;
        Some(Config([name], cfg.filters + rowFilters + ColumnFilters(cfg.splitBy, parts)))
      else
        Some(Config([], cfg.filters + rowFilters))
  }

  // ----- Row paths: what the grouping id lets through -----

  /** Of a row with k of n active groups, only a leaf shows more than its first level. */
  lemma ShownLevels(n: nat, k: nat, level: nat)
    requires k <= n && level < n
    ensures Shown(n, level, GroupingId(n, k)) <==> k == n || (level == 0 && k > 0)
  {
    GroupingIdClosedForm(n, k);
    if k < n {
      if level == 0 {
        if k > 0 { Pow2Grows(0, k); }
      } else {
        assert Pow2(k) <= Pow2(n - 1) by { if k < n - 1 { Pow2Grows(k, n - 1); } }
        assert Pow2(n - level) <= Pow2(n - 1) by { if level > 1 { Pow2Grows(n - level, n - 1); } }
      }
    } else {
      Pow2Grows(0, n - level);
    }
  }

  /** The test is exact for SQL's grouping id, whose n - k low bits are set. */
  lemma ShownLevelsOfSqlMask(n: nat, k: nat, level: nat)
    requires k <= n && level < n
    ensures Shown(n, level, Pow2(n - k) - 1) <==> level < k
  {
    if level < k { Pow2Grows(n - k, n - level); }
    if k < level { Pow2Grows(n - level, n - k); }
  }

  lemma {:induction false} ShownPathOf(n: nat, row: OutRow, k: nat, m: nat)
    requires |row.path| == n && k <= n && row.gid == GroupingId(n, k) && m <= n
    ensures ShownPath(n, row, m) == row.path[..if k == n then m else if k > 0 && m > 0 then 1 else 0]
  {
    if m > 0 {
      ShownPathOf(n, row, k, m - 1);
      ShownLevels(n, k, m - 1);
      assert k == n ==> row.path[..m] == row.path[..m - 1] + [row.path[m - 1]];
      assert row.path[..1] == [] + [row.path[0]];
      assert row.path[..0] == [];
    }
  }

  /** The rows whose whole path is shown: leaves, the grand total and its children. */
  predicate PathComplete(n: nat, gid: nat) {
    gid == 0 || gid + 2 >= Pow2(n)
  }

  lemma PathCompleteMeaning(n: nat, k: nat)
    requires k <= n
    ensures PathComplete(n, GroupingId(n, k)) <==> k == n || k <= 1
    ensures n <= 2 ==> PathComplete(n, GroupingId(n, k))
  {
    GroupingIdClosedForm(n, k);
    GroupingIdInjective(n, k, k);
    assert Pow2(0) == 1 && Pow2(1) == 2;
    if k > 1 { Pow2Grows(1, k); }
  }

  lemma {:induction false} RowFiltersOfTruthyPath(gb: seq<string>, path: seq<Value>)
    requires |path| <= |gb|
    ensures |RowFilters(gb, path)| == |path| <==> forall v :: v in path ==> !IsFalsy(v)
    ensures (forall v :: v in path ==> !IsFalsy(v)) ==> RowFilters(gb, path) == KeyFilters(gb[..|path|], path)
  {
    if path != [] {
      RowFiltersOfTruthyPath(gb[1..], path[1..]);
      assert Truthy(path[0]) <==> !IsFalsy(path[0]);
      assert (forall v :: v in path ==> !IsFalsy(v)) <==>
          !IsFalsy(path[0]) && forall v :: v in path[1..] ==> !IsFalsy(v);
      assert forall v :: v in path <==> v == path[0] || v in path[1..];
      assert gb[1..][..|path[1..]|] == gb[..|path|][1..];
      assert KeyFilters(gb[..|path|], path) ==
          [Filter(gb[0], "==", path[0])] + KeyFilters(gb[..|path|][1..], path[1..]);
    }
  }

  /**
   * The row filters of a cell are the equalities of its own group key exactly when its path is
   * shown in full and holds no empty string, zero or false. With three or more group columns the
   * paths of inner rows are cut to one level, so their filters select too many rows.
   */
  lemma RowFiltersExactly(rows: seq<Row>, gb: seq<string>, exprs: seq<AggExpr>, key: seq<Value>)
    requires IsNode(rows, gb, key)
    ensures var n, row := |gb|, NodeRow(rows, gb, exprs, key);
            RowFilters(gb, ShownPath(n, row, n)) == KeyFilters(gb[..|key|], key) <==>
            PathComplete(n, row.gid) && forall v :: v in key ==> !IsFalsy(v)
  {
    var n, k, row := |gb|, |key|, NodeRow(rows, gb, exprs, key);
    var path := ShownPath(n, row, n);
    ShownPathOf(n, row, k, n);
    PathCompleteMeaning(n, k);
    if PathComplete(n, row.gid) {
      assert path == key;
      RowFiltersOfTruthyPath(gb, key);
    } else {
      assert |path| <= 1 < k;
    }
  }

  // ----- Column paths -----

  predicate CleanSplit(s: string) {
    s != "" && '_' !in s && '|' !in s
  }

  lemma {:induction false} SplitFirst(a: string, b: string)
    requires '|' !in a
    ensures SplitOn(a + "|" + b, '|') == [a] + SplitOn(b, '|')
  {
    var s := a + "|" + b;
    if a == "" {
      assert s == "|" + b && s[1..] == b;
    } else {
      assert s[0] == a[0] && s[1..] == a[1..] + "|" + b;
      assert a[0] in a;
      SplitFirst(a[1..], b);
      assert a == [a[0]] + a[1..];
    }
  }

  lemma {:induction false} SplitFirstShort(a: string, b: string)
    requires '|' in a
    ensures |SplitOn(a + b, '|')[0]| < |a|
  {
    var s := a + b;
    assert s[0] == a[0] && s[1..] == a[1..] + b;
    if a[0] != '|' {
      SplitFirstShort(a[1..], b);
    }
  }

  lemma PipesOfName(sv: string, col: string)
    ensures Pipes(sv + "_" + ColAlias(col)) == Pipes(sv) + "|" + ColAlias(col)
    ensures '_' !in sv ==> Pipes(sv) == sv
    ensures '|' in Pipes(sv) <==> '_' in sv || '|' in sv
  {
    var alias := ColAlias(col);
    forall i | 0 <= i < |alias| ensures alias[i] != '_' { assert alias[i] in alias; }
    assert Pipes(sv + "_" + alias) == Pipes(sv) + "|" + alias;
    if '_' !in sv {
      forall i | 0 <= i < |sv| ensures Pipes(sv)[i] == sv[i] { assert sv[i] in sv; }
    }
    if '_' in sv || '|' in sv {
      var i :| 0 <= i < |sv| && (sv[i] == '_' || sv[i] == '|');
      assert Pipes(sv)[i] == '|';
    }
    if '|' in Pipes(sv) {
      var i :| 0 <= i < |sv| && Pipes(sv)[i] == '|';
      assert sv[i] in sv;
    }
  }

  lemma FirstPart(sv: string, col: string)
    ensures var part := SplitOn(Pipes(sv + "_" + ColAlias(col)), '|')[0];
            if '_' in sv || '|' in sv then |part| < |sv| else part == sv
  {
    PipesOfName(sv, col);
    FirstPartOf(Pipes(sv), ColAlias(col));
  }

  lemma FirstPartOf(a: string, b: string)
    ensures var part := SplitOn(a + "|" + b, '|')[0];
            if '|' in a then |part| < |a| else part == a
  {
    if '|' in a {
      assert a + "|" + b == a + ("|" + b);
      SplitFirstShort(a, "|" + b);
    } else {
      SplitFirst(a, b);
    }
  }

  lemma OneColumnFilter(split: string, parts: seq<string>, sv: string)
    requires parts != []
    ensures ColumnFilters([split], parts) == [Filter(split, "==", Str(sv))] <==>
            parts[0] == sv && sv != "" && !IsMetaColumn(sv)
  {
    assert ColumnFilters([split][1..], parts[1..]) == [];
    if parts[0] != "" && !IsMetaColumn(parts[0]) {
      assert ColumnFilters([split], parts) == [Filter(split, "==", Str(parts[0]))];
      assert ColumnFilters([split], parts)[0].value == Str(parts[0]);
    }
  }

  /**
   * Printing a split value into a column name and parsing it back gives the split value's own
   * filter exactly when the value is non-empty and holds neither separator.
   */
  lemma ColumnFilterExactly(split: string, sv: string, col: string)
    ensures ColumnFilters([split], SplitOn(Pipes(sv + "_" + ColAlias(col)), '|')) == [Filter(split, "==", Str(sv))] <==>
            CleanSplit(sv)
  {
    FirstPart(sv, col);
    OneColumnFilter(split, SplitOn(Pipes(sv + "_" + ColAlias(col)), '|'), sv);
    if IsMetaColumn(sv) { assert sv[0] == '_' && sv[0] in sv; }
  }

  /** Every column filter compares with a string, so one for a numeric split value is never built. */
  lemma {:induction false} ColumnFiltersAreStrings(splitBy: seq<string>, parts: seq<string>)
    ensures forall f :: f in ColumnFilters(splitBy, parts) ==> f.value.Str?
  {
    if splitBy != [] && parts != [] {
      ColumnFiltersAreStrings(splitBy[1..], parts[1..]);
    }
  }

  /**
   * The builders split by the first column alone. With two or more split columns the printed column
   * name is taken for the second one's value: the filter compares that column with the name, and the
   * cell's own column name is not found.
   */
  lemma {:induction false} SecondSplitTakesColumnName(split: seq<string>, sv: string, col: string)
    requires |split| >= 2 && CleanSplit(sv)
    requires col != "" && '|' !in col && !IsMetaColumn(ColAlias(col))
    ensures var parts := SplitOn(Pipes(sv + "_" + ColAlias(col)), '|');
            && ColumnFilters(split, parts) ==
                [Filter(split[0], "==", Str(sv)), Filter(split[1], "==", Str(ColAlias(col)))]
            && |parts| <= |split|
  {
    var alias := ColAlias(col);
    PipesOfName(sv, col);
    SplitFirst(sv, alias);
    SplitNoSeparator(alias);
    assert forall i :: 0 <= i < |col| ==> col[i] in col;
    assert sv[0] != '_' by { assert sv[0] in sv; }
    assert [sv, alias][1..] == [alias] && [alias][1..] == [];
    assert ColumnFilters(split[1..][1..], []) == [];
    assert ColumnFilters(split[1..], [alias]) == [Filter(split[1], "==", Str(alias))];
  }

  // ----- The drill-down theorem -----

  /** The column the builders split by holds clean strings. */
  ghost predicate CleanFirst(rows: seq<Row>, cfg: ViewConfig) {
    cfg.splitBy != [] ==>
      forall r :: r in rows ==> Get(r, cfg.splitBy[0]).Str? && CleanSplit(Get(r, cfg.splitBy[0]).s)
  }

  /** And no other column splits. */
  ghost predicate CleanSplits(rows: seq<Row>, cfg: ViewConfig) {
    |cfg.splitBy| <= 1 && CleanFirst(rows, cfg)
  }

  lemma {:induction false} SplitExprForm(repr: real -> string, t: Table, aggs: map<string, Agg>, cols: seq<string>,
                                         split: string, svs: seq<Value>, i: nat)
    returns (sv: Value, col: string)
    requires i < |SplitExprs(repr, t, aggs, cols, split, svs)|
    ensures sv in svs && col in cols
    ensures SplitExprs(repr, t, aggs, cols, split, svs)[i] == SplitExpr(repr, t, aggs, split, sv, col)
  {
    var last := |svs| - 1;
    var before := SplitExprs(repr, t, aggs, cols, split, svs[..last]);
    if i < |before| {
      sv, col := SplitExprForm(repr, t, aggs, cols, split, svs[..last], i);
    } else {
      sv, col := svs[last], cols[i - |before|];
    }
  }

  /** How a visible column of a drillable view is named, and what it selects. */
  lemma ColumnForm(repr: real -> string, t: Table, cfg: ViewConfig, rows: seq<Row>, c: nat)
    returns (sv: string, col: string)
    requires CleanFirst(rows, cfg) && c < |ViewExprs(repr, t, cfg, rows)|
    ensures var e := ViewExprs(repr, t, cfg, rows)[c];
            && e.col == col
            && (cfg.splitBy == [] ==> e.name == ColAlias(col) && e.only == Everything)
            && (cfg.splitBy != [] ==>
                CleanSplit(sv) && e.name == sv + "_" + ColAlias(col) && e.only == Where(cfg.splitBy[0], Str(sv)))
  {
    if cfg.splitBy == [] {
      sv, col := "", DataColumns(cfg)[c];
    } else {
      var split := cfg.splitBy[0];
      var v;
      v, col := SplitExprForm(repr, t, cfg.aggregates, DataColumns(cfg), split, SplitValues(rows, split), c);
      var r :| r in rows && Get(r, split) == v;
      sv := v.s;
    }
  }

  /** The pushed name of a drillable column has no underscore, so it is neither hidden nor meta. */
  lemma PushedNameForm(repr: real -> string, t: Table, cfg: ViewConfig, rows: seq<Row>, c: nat)
    returns (sv: string, col: string)
    requires CleanFirst(rows, cfg) && c < |ViewExprs(repr, t, cfg, rows)|
    ensures var name := ViewExprs(repr, t, cfg, rows)[c].name;
            && !("__" <= name)
            && !IsMetaColumn(PushName(cfg, name))
            && (cfg.splitBy == [] ==> PushName(cfg, name) == name)
            && (cfg.splitBy != [] ==>
                CleanSplit(sv) && name == sv + "_" + ColAlias(col) && PushName(cfg, name) == sv + "|" + ColAlias(col))
  {
    sv, col := ColumnForm(repr, t, cfg, rows, c);
    var name := ViewExprs(repr, t, cfg, rows)[c].name;
    if cfg.splitBy == [] {
      if name != "" { assert name[0] in name; }
    } else {
      PipesOfName(sv, col);
      assert name[0] == sv[0] && sv[0] in sv;
      assert PushName(cfg, name)[0] == sv[0];
    }
  }

  lemma JoinInjective(a: string, x: string, b: string, y: string)
    requires '|' !in a && '|' !in b && a + "|" + x == b + "|" + y
    ensures a == b && x == y
  {
    FirstPartOf(a, x);
    FirstPartOf(b, y);
    assert (a + "|" + x)[|a| + 1..] == x;
    assert (b + "|" + y)[|b| + 1..] == y;
  }

  lemma PushedNamesDistinct(repr: real -> string, t: Table, cfg: ViewConfig, rows: seq<Row>)
    requires CleanFirst(rows, cfg)
    requires Distinct(Names(ViewExprs(repr, t, cfg, rows)))
    ensures Distinct(PushNames(cfg, Names(ViewExprs(repr, t, cfg, rows))))
  {
    var names := Names(ViewExprs(repr, t, cfg, rows));
    forall i, j | 0 <= i < j < |names| ensures PushNames(cfg, names)[i] != PushNames(cfg, names)[j] {
      var a, x := PushedNameForm(repr, t, cfg, rows, i);
      var b, y := PushedNameForm(repr, t, cfg, rows, j);
      assert names[i] != names[j];
      if cfg.splitBy != [] && PushNames(cfg, names)[i] == PushNames(cfg, names)[j] {
        JoinInjective(a, ColAlias(x), b, ColAlias(y));
      }
    }
  }

  lemma {:induction false} NothingHidden(names: seq<string>)
    requires forall x :: x in names ==> !("__" <= x)
    ensures ViewSchema(names) == names
  {
    if names != [] {
      assert forall x :: x in names[1..] ==> x in names;
      NothingHidden(names[1..]);
      assert names[0] in names && names == [names[0]] + names[1..];
    }
  }

  lemma {:induction false} NothingMeta(names: seq<string>)
    requires forall x :: x in names ==> !IsMetaColumn(x)
    ensures UserKeys(names) == names
  {
    if names != [] {
      NothingMeta(names[1..]);
      assert names[0] in names && names == [names[0]] + names[1..];
    }
  }

  /** The one-row window that getCellConfig reads. */
  function RowWindow(r: nat): Viewport {
    Viewport(r, r + 1, 0, None)
  }

  /** Every column of a drillable view is visible, under distinct pushed names. */
  lemma AllVisible(repr: real -> string, t: Table, cfg: ViewConfig, rows: seq<Row>)
    requires CleanFirst(rows, cfg) && Distinct(Names(ViewExprs(repr, t, cfg, rows)))
    ensures var names := Names(ViewExprs(repr, t, cfg, rows));
            && ViewSchema(names) == names
            && UserKeys(PushNames(cfg, names)) == PushNames(cfg, names)
            && Distinct(PushNames(cfg, names))
  {
    var names := Names(ViewExprs(repr, t, cfg, rows));
    forall i | 0 <= i < |names| ensures !("__" <= names[i]) && !IsMetaColumn(PushName(cfg, names[i])) {
      var _, _ := PushedNameForm(repr, t, cfg, rows, i);
    }
    NothingHidden(names);
    NothingMeta(PushNames(cfg, names));
    PushedNamesDistinct(repr, t, cfg, rows);
  }

  lemma RowWindowIsRow(rows: seq<OutRow>, r: nat)
    requires r < |rows|
    ensures WindowRows(rows, RowWindow(r)) == [rows[r]]
  {
  }

  lemma RowWindowIsWide(names: seq<string>, r: nat)
    requires ViewSchema(names) == names
    ensures WindowColumns(ViewSchema(names), RowWindow(r)) == names
  {
  }

  /** What that window holds for a drillable view: the row's shown path and all its columns. */
  lemma WindowOfRow(repr: real -> string, t: Table, cfg: ViewConfig, rows: seq<Row>, f: Frame, r: nat)
    requires CleanFirst(rows, cfg) && f.names == Names(ViewExprs(repr, t, cfg, rows))
    requires Distinct(f.names) && r < |f.rows|
    requires FrameFits(f, cfg, ViewSchema(f.names))
    ensures var s := SliceOf(f, cfg, ViewSchema(f.names), RowWindow(r));
            && WellFormed(s, 1)
            && s.order == PushNames(cfg, f.names)
            && UserKeys(s.order) == s.order
            && PathOf(s, 0) == ShownPath(|cfg.groupBy|, f.rows[r], |cfg.groupBy|)
  {
    var v := RowWindow(r);
    AllVisible(repr, t, cfg, rows);
    RowWindowIsRow(f.rows, r);
    RowWindowIsWide(f.names, r);
    SliceIsWellFormed(f, cfg, ViewSchema(f.names), v);
    SliceOrder(f, cfg, ViewSchema(f.names), v);
    SliceReads(f, cfg, ViewSchema(f.names), v, 0);
  }

  /** A slice under distinct names has a cell in every column and row, and at most one path a row. */
  lemma SliceIsWellFormed(f: Frame, cfg: ViewConfig, schema: seq<string>, v: Viewport)
    requires FrameFits(f, cfg, schema) && Distinct(PushNames(cfg, WindowColumns(schema, v)))
    ensures WellFormed(SliceOf(f, cfg, schema, v), |WindowRows(f.rows, v)|)
  {
    var cols, rows, s := WindowColumns(schema, v), WindowRows(f.rows, v), SliceOf(f, cfg, schema, v);
    var start := SliceState(FinalPaths(|cfg.groupBy|, rows), [], map[]);
    WindowFits(f, cfg, schema, v);
    if rows == [] {
      NothingToPush(start, cfg, f, cols);
    } else {
      ColumnOrder(start, cfg, f, rows, cols);
      forall x | x in s.columns ensures |s.columns[x]| == |rows| {
        var j :| 0 <= j < |cols| && PushNames(cfg, cols)[j] == x;
        ColumnsAreCells(start, cfg, f, rows, cols, j);
      }
    }
  }

  /**
   * Each cell of the viewport reaches the JSON row of its own row under the pushed name of its own
   * column, and a row's path is the one it shows.
   */
  lemma RowShowsCell(f: Frame, cfg: ViewConfig, v: Viewport, i: nat, j: nat)
    requires FrameFits(f, cfg, f.names) && ViewSchema(f.names) == f.names && Distinct(PushNames(cfg, f.names))
    requires v.startCol <= j < |f.names| && (v.endCol == None || j < v.endCol.value)
    requires i < WindowHeight(|f.rows|, v)
    ensures |f.rows[v.startRow + i].cells| == |f.names| && |f.rows[v.startRow + i].path| == |cfg.groupBy|
    ensures WellFormed(SliceOf(f, cfg, f.names, v), WindowHeight(|f.rows|, v))
    ensures var row := ToRow(SliceOf(f, cfg, f.names, v), WindowHeight(|f.rows|, v), i);
            var o := f.rows[v.startRow + i];
            && PushName(cfg, f.names[j]) in row.cells && row.cells[PushName(cfg, f.names[j])] == o.cells[j]
            && (if row.path.Some? then row.path.value else []) == ShownPath(|cfg.groupBy|, o, |cfg.groupBy|)
  {
    var s := SliceOf(f, cfg, f.names, v);
    SliceShowsCell(f, cfg, v, i, j);
    WindowRowAt(f.rows, v);
    WindowNames(cfg, f.names, v);
    SliceIsWellFormed(f, cfg, f.names, v);
    SliceReads(f, cfg, f.names, v, 0);
    assert WindowRows(f.rows, v)[i] == f.rows[v.startRow + i];
    assert PathOf(s, i) == if s.rowPath.Some? && i < |s.rowPath.value| then s.rowPath.value[i] else [];
  }

  /** The configured filters, then a group key, then a split value, select exactly a cell's rows. */
  lemma CellFilterSelects(rows: seq<Row>, filters: seq<Filter>, cols: seq<string>, key: seq<Value>, only: Only)
    requires |cols| == |key| && Null !in key && (only.Where? ==> only.value != Null)
    ensures FilterRows(rows, filters + KeyFilters(cols, key) + OnlyFilters(only)) ==
            Select(RowsWhere(FilterRows(rows, filters), cols, key), only)
  {
    var inside := RowsWhere(FilterRows(rows, filters), cols, key);
    FilterRowsCompose(rows, filters, KeyFilters(cols, key));
    KeyFiltersSelectGroup(FilterRows(rows, filters), cols, key);
    match only
    case Everything =>
      assert filters + KeyFilters(cols, key) + [] == filters + KeyFilters(cols, key);
    case Where(c, v) =>
      FilterRowsCompose(rows, filters + KeyFilters(cols, key), [Filter(c, "==", v)]);
      KeyFiltersSelectGroup(inside, [c], [v]);
      assert KeyFilters([c], [v]) == [Filter(c, "==", v)];
  }

  function OnlyFilters(only: Only): seq<Filter> {
    match only case Everything => [] case Where(col, v) => [Filter(col, "==", v)]
  }

  lemma ColumnPart(repr: real -> string, t: Table, cfg: ViewConfig, rows: seq<Row>, c: nat)
    requires CleanSplits(rows, cfg) && c < |ViewExprs(repr, t, cfg, rows)|
    ensures var e := ViewExprs(repr, t, cfg, rows)[c];
            && ColumnFilters(cfg.splitBy, SplitOn(PushName(cfg, e.name), '|')) == OnlyFilters(e.only)
            && (cfg.splitBy != [] ==> PushName(cfg, e.name) != "")
  {
    var sv, col := ColumnForm(repr, t, cfg, rows, c);
    if cfg.splitBy != [] {
      assert cfg.splitBy == [cfg.splitBy[0]];
      PipesOfName(sv, col);
      ColumnFilterExactly(cfg.splitBy[0], sv, col);
    }
  }

  /** The filter built from a cell: the configured ones, those of the shown path, and the split value's. */
  lemma CellFilterForm(repr: real -> string, t: Table, cfg: ViewConfig, rows: seq<Row>, f: Frame, r: nat, c: nat)
    requires CleanSplits(rows, cfg) && f.names == Names(ViewExprs(repr, t, cfg, rows))
    requires Distinct(f.names) && r < |f.rows| && c < |f.names|
    requires FrameFits(f, cfg, ViewSchema(f.names))
    ensures var s := SliceOf(f, cfg, ViewSchema(f.names), RowWindow(r));
            && WellFormed(s, 1)
            && var got := GetCellConfig(cfg, [ToRow(s, 1, 0)], c);
            && got.Some?
            && got.value.filter ==
               cfg.filters + RowFilters(cfg.groupBy, ShownPath(|cfg.groupBy|, f.rows[r], |cfg.groupBy|)) +
               OnlyFilters(ViewExprs(repr, t, cfg, rows)[c].only)
  {
    WindowOfRow(repr, t, cfg, rows, f, r);
    var s := SliceOf(f, cfg, ViewSchema(f.names), RowWindow(r));
    ColumnPart(repr, t, cfg, rows, c);
    ConfigOf(cfg, ToRow(s, 1, 0), c);
    assert s.order[c] == PushName(cfg, f.names[c]);
  }

  /**
   * The column name read back for a cell. Without a split it is the printed one exactly if the column
   * has a name without `|`. With one split column it is the source column's own exactly if that holds
   * neither separator. With more split columns there is none, and outside the columns no entry at all.
   */
  lemma ColumnNames(repr: real -> string, t: Table, cfg: ViewConfig, rows: seq<Row>, f: Frame, r: nat, c: int)
    returns (sv: string, col: string)
    requires CleanFirst(rows, cfg) && f.names == Names(ViewExprs(repr, t, cfg, rows))
    requires Distinct(f.names) && r < |f.rows|
    requires FrameFits(f, cfg, ViewSchema(f.names))
    ensures 0 <= c < |f.names| ==>
              && ViewExprs(repr, t, cfg, rows)[c].col == col
              && f.names[c] == if cfg.splitBy == [] then ColAlias(col) else sv + "_" + ColAlias(col)
    ensures var s := SliceOf(f, cfg, ViewSchema(f.names), RowWindow(r));
            && WellFormed(s, 1)
            && var got := GetCellConfig(cfg, [ToRow(s, 1, 0)], c);
            && got.Some?
            && (c < 0 || c >= |f.names| ==> got.value.columnNames == [])
            && (0 <= c < |f.names| ==>
                  && (cfg.splitBy == [] ==>
                      (got.value.columnNames == [Some(ColAlias(col))] <==> col != "" && '|' !in col))
                  && (|cfg.splitBy| == 1 ==>
                      (got.value.columnNames == [Some(col)] <==> '_' !in col && '|' !in col))
                  && (|cfg.splitBy| > 1 && '|' !in col ==> got.value.columnNames == [None]))
  {
    WindowOfRow(repr, t, cfg, rows, f, r);
    var s := SliceOf(f, cfg, ViewSchema(f.names), RowWindow(r));
    var row := ToRow(s, 1, 0);
    sv, col := "", "";
    if 0 <= c < |f.names| {
      sv, col := ColumnForm(repr, t, cfg, rows, c);
      PipesOfName(sv, col);
      assert row.keys[c] == PushName(cfg, f.names[c]);
      NamesOf(cfg, row, c, sv, col);
    } else {
      assert |row.keys| == |f.names|;
      NoColumn(cfg, row, c);
    }
  }

  lemma NoColumn(cfg: ViewConfig, row: JsonRow, c: int)
    requires UserKeys(row.keys) == row.keys && (c < 0 || c >= |row.keys|)
    ensures var got := GetCellConfig(cfg, [row], c); got.Some? && got.value.columnNames == []
  {
  }

  lemma NamesOf(cfg: ViewConfig, row: JsonRow, c: nat, sv: string, col: string)
    requires c < |row.keys| && UserKeys(row.keys) == row.keys
    requires cfg.splitBy == [] ==> row.keys[c] == ColAlias(col)
    requires cfg.splitBy != [] ==> CleanSplit(sv) && row.keys[c] == sv + "|" + ColAlias(col)
    ensures var got := GetCellConfig(cfg, [row], c);
            && got.Some?
            && (cfg.splitBy == [] ==>
                (got.value.columnNames == [Some(ColAlias(col))] <==> col != "" && '|' !in col))
            && (|cfg.splitBy| == 1 ==>
                (got.value.columnNames == [Some(col)] <==> '_' !in col && '|' !in col))
            && (|cfg.splitBy| > 1 && '|' !in col ==> got.value.columnNames == [None])
  {
    NameOf(cfg, sv, col, row.keys[c]);
    ConfigOf(cfg, row, c);
    BarsOfAlias(col);
    var names := GetCellConfig(cfg, [row], c).value.columnNames;
    assert names != [] ==> forall x :: names == [x] <==> names[0] == x;
  }

  /** The part of a printed name that is taken for the column's. */
  lemma NameOf(cfg: ViewConfig, sv: string, col: string, key: string)
    requires cfg.splitBy == [] ==> key == ColAlias(col)
    requires cfg.splitBy != [] ==> CleanSplit(sv) && key == sv + "|" + ColAlias(col)
    ensures var parts := SplitOn(key, '|');
            && (cfg.splitBy == [] ==> (parts[0] == ColAlias(col) <==> '|' !in col))
            && (cfg.splitBy != [] ==> key != "")
            && (|cfg.splitBy| == 1 ==> |parts| > 1 && (parts[1] == col <==> '_' !in col && '|' !in col))
            && (|cfg.splitBy| > 1 && '|' !in col ==> |parts| <= |cfg.splitBy|)
  {
    BarsOfAlias(col);
    SplitNoSeparator(ColAlias(col));
    if cfg.splitBy != [] {
      PipesOfName(sv, col);
      SplitFirst(sv, ColAlias(col));
      ColumnNameExactly(sv, col);
    }
  }

  lemma BarsOfAlias(col: string)
    ensures '|' in ColAlias(col) <==> '|' in col
    ensures ColAlias(col) == "" <==> col == ""
  {
    if '|' in col {
      var i :| 0 <= i < |col| && col[i] == '|';
      assert ColAlias(col)[i] == '|';
    }
    if '|' in ColAlias(col) {
      var i :| 0 <= i < |col| && ColAlias(col)[i] == '|';
      assert col[i] == '|';
    }
  }

  /**
   * The filter built from a cell is the one for its own group and split value exactly when its row
   * shows its whole path and the group's key holds no empty string, zero, false or null.
   */
  lemma CellFilter(repr: real -> string, t: Table, cfg: ViewConfig, rows: seq<Row>, f: Frame, r: nat, c: nat,
                   key: seq<Value>)
    requires CleanSplits(rows, cfg) && f.names == Names(ViewExprs(repr, t, cfg, rows))
    requires r < |f.rows| && IsRowOf(rows, cfg.groupBy, ViewExprs(repr, t, cfg, rows), key, f.rows[r])
    requires Distinct(f.names) && c < |f.names|
    requires FrameFits(f, cfg, ViewSchema(f.names))
    ensures var s := SliceOf(f, cfg, ViewSchema(f.names), RowWindow(r));
            && WellFormed(s, 1)
            && var got := GetCellConfig(cfg, [ToRow(s, 1, 0)], c);
            && got.Some?
            && (got.value.filter ==
                cfg.filters + KeyFilters(cfg.groupBy[..|key|], key) + OnlyFilters(ViewExprs(repr, t, cfg, rows)[c].only)
                <==> PathComplete(|cfg.groupBy|, f.rows[r].gid) && forall v :: v in key ==> !IsFalsy(v))
  {
    var n, exprs := |cfg.groupBy|, ViewExprs(repr, t, cfg, rows);
    CellFilterForm(repr, t, cfg, rows, f, r, c);
    RowFiltersExactly(rows, cfg.groupBy, exprs, key);
    EndsCancel(cfg.filters, RowFilters(cfg.groupBy, ShownPath(n, f.rows[r], n)),
                     KeyFilters(cfg.groupBy[..|key|], key), OnlyFilters(exprs[c].only));
  }

  /** The configuration of a visible column, spelled out. */
  lemma ConfigOf(cfg: ViewConfig, row: JsonRow, c: nat)
    requires c < |row.keys| && UserKeys(row.keys) == row.keys
    requires cfg.splitBy != [] ==> row.keys[c] != ""
    ensures var got := GetCellConfig(cfg, [row], c);
            && got.Some?
            && got.value.filter == cfg.filters + RowFilters(cfg.groupBy, if row.path.Some? then row.path.value else [])
                                   + ColumnFilters(cfg.splitBy, SplitOn(row.keys[c], '|'))
            && got.value.columnNames ==
               if row.keys[c] == "" then []
               else
                 var parts := SplitOn(row.keys[c], '|');
                 [if |cfg.splitBy| < |parts| then Some(parts[|cfg.splitBy|]) else None]
  {
    var fs := cfg.filters + RowFilters(cfg.groupBy, if row.path.Some? then row.path.value else []);
    assert fs + [] == fs;
  }

  /** The group keys are the path cells that are not null. */
  lemma KeyIsTruthy(rows: seq<Row>, gb: seq<string>, exprs: seq<AggExpr>, key: seq<Value>, o: OutRow)
    requires NonNullKeys(rows, gb) && IsRowOf(rows, gb, exprs, key, o)
    requires forall v :: v in o.path ==> v == Null || !IsFalsy(v)
    ensures Null !in key && forall v :: v in key ==> !IsFalsy(v)
  {
    KeyHasNoNull(rows, gb, key);
    forall v | v in key ensures !IsFalsy(v) {
      var i :| 0 <= i < |key| && key[i] == v;
      assert o.path[i] == v;
    }
  }

  /**
   * Drill-down is exact: for any cell of a rollup or flat view whose row shows its whole path, and
   * whose path cells are null or truthy, the filter built from the cell, applied to the source table,
   * selects the cell's own rows; so the column's aggregate over them, whichever it is, gives back the
   * cell's value.
   */
  lemma DrillDownIsExact(repr: real -> string, t: Table, cfg: ViewConfig, f: Frame, r: nat, c: nat)
    requires IsView(repr, t, cfg, f) && cfg.mode != Total && cfg.groupBy != []
    requires CleanSplits(FilterRows(t.rows, cfg.filters), cfg) &&
        NonNullKeys(FilterRows(t.rows, cfg.filters), cfg.groupBy)
    requires Distinct(f.names) && r < |f.rows| && c < |f.names|
    requires PathComplete(|cfg.groupBy|, f.rows[r].gid) && forall v :: v in f.rows[r].path ==> v == Null || !IsFalsy(v)
    ensures FrameFits(f, cfg, ViewSchema(f.names)) && c < |f.rows[r].cells|
    ensures var s := SliceOf(f, cfg, ViewSchema(f.names), RowWindow(r));
            && WellFormed(s, 1)
            && var got := GetCellConfig(cfg, [ToRow(s, 1, 0)], c);
            var e := ViewExprs(repr, t, cfg, FilterRows(t.rows, cfg.filters))[c];
            && got.Some?
            && Aggregate(e.agg, Column(FilterRows(t.rows, got.value.filter), e.col)) == f.rows[r].cells[c]
  {
    var rows := FilterRows(t.rows, cfg.filters);
    var exprs := ViewExprs(repr, t, cfg, rows);
    ViewFits(repr, t, cfg, f);
    var key := ViewRowsAreNodes(repr, t, cfg, f, r);
    KeyIsTruthy(rows, cfg.groupBy, exprs, key, f.rows[r]);
    CellFilter(repr, t, cfg, rows, f, r, c, key);
    var sv, col := ColumnForm(repr, t, cfg, rows, c);
    CellFilterSelects(t.rows, cfg.filters, cfg.groupBy[..|key|], key, exprs[c].only);
  }

  /** Rows of a grouped view have one cell per name and one path cell per group column. */
  lemma ViewFits(repr: real -> string, t: Table, cfg: ViewConfig, f: Frame)
    requires IsView(repr, t, cfg, f) && cfg.mode != Total && cfg.groupBy != []
    ensures FrameFits(f, cfg, ViewSchema(f.names))
  {
    forall o | o in f.rows ensures |o.cells| == |f.names| && |o.path| == |cfg.groupBy| {
      var r :| 0 <= r < |f.rows| && f.rows[r] == o;
      var key := ViewRowsAreNodes(repr, t, cfg, f, r);
    }
  }

  /** In flat mode, and in rollup mode with at most two group columns, every row shows its whole path. */
  lemma PathsCompleteInSmallViews(repr: real -> string, t: Table, cfg: ViewConfig, f: Frame, r: nat)
    requires IsView(repr, t, cfg, f) && cfg.mode != Total && cfg.groupBy != [] && r < |f.rows|
    requires cfg.mode == Flat || |cfg.groupBy| <= 2
    ensures PathComplete(|cfg.groupBy|, f.rows[r].gid)
  {
    var key := ViewRowsAreNodes(repr, t, cfg, f, r);
    PathCompleteMeaning(|cfg.groupBy|, |key|);
  }

  lemma {:induction false} SplitNoSeparator(a: string)
    ensures '|' !in a ==> SplitOn(a, '|') == [a]
    ensures '|' in a ==> |SplitOn(a, '|')[0]| < |a|
  {
    if a != "" {
      SplitNoSeparator(a[1..]);
      assert a == [a[0]] + a[1..];
      assert '|' in a <==> a[0] == '|' || '|' in a[1..];
    }
  }

  /** The column name read back from a split cell is the source column's exactly when it holds neither separator. */
  lemma ColumnNameExactly(sv: string, col: string)
    requires CleanSplit(sv)
    ensures var parts := SplitOn(Pipes(sv + "_" + ColAlias(col)), '|');
            |parts| > 1 && (parts[1] == col <==> '_' !in col && '|' !in col)
  {
    var alias := ColAlias(col);
    PipesOfName(sv, col);
    SplitFirst(sv, alias);
    SplitNoSeparator(alias);
    if '_' !in col {
      forall i | 0 <= i < |col| ensures alias[i] == col[i] { assert col[i] in col; }
      assert alias == col;
    } else {
      var i :| 0 <= i < |col| && col[i] == '_';
      assert alias[i] == '-';
    }
  }

  // ----- Inner rows: the filter selects too much -----

  /** A row with "x" in every group column but the second, and a number to add up. */
  function WitnessRow(gb: seq<string>, second: string, v: real): Row
    requires |gb| > 1
  {
    map c | c in gb + ["v"] :: if c == "v" then Num(v) else if c == gb[1] then Str(second) else Str("x")
  }

  function WitnessTable(gb: seq<string>): Table
    requires |gb| > 1
  {
    Table(map["v" := Number], [WitnessRow(gb, "x", 1.0), WitnessRow(gb, "y", 2.0)])
  }

  function WitnessConfig(gb: seq<string>): ViewConfig {
    ViewConfig(["v"], gb, [], map[], [], [], Rollup)
  }

  function WitnessKey(k: nat): (key: seq<Value>)
    ensures |key| == k && forall i :: 0 <= i < k ==> key[i] == Str("x")
  {
    seq(k, i => Str("x"))
  }

  lemma SumOne(x: real)
    ensures SumOf([Num(x)]) == x
  {
    assert [Num(x)][1..] == [];
  }

  lemma WitnessExprs(repr: real -> string, gb: seq<string>)
    requires |gb| > 1 && "v" !in gb
    ensures ViewExprs(repr, WitnessTable(gb), WitnessConfig(gb), WitnessTable(gb).rows) ==
        [AggExpr("v", "v", Sum, Everything)]
    ensures FilterRows(WitnessTable(gb).rows, []) == WitnessTable(gb).rows
  {
    NoFilters(WitnessTable(gb).rows);
    assert Without(["v"][1..], gb) == [] && Without(["v"], gb) == ["v"];
    assert Without(["v"][1..], []) == [] && Without(["v"], []) == ["v"];
    var alias := ColAlias("v");
    assert alias == ['v'] == "v";
    assert DataColumns(WitnessConfig(gb)) == ["v"];
    assert PlainExprs(WitnessTable(gb), map[], ["v"]) == [AggExpr("v", "v", Sum, Everything)];
  }

  /** Only the first row is in the group of "x" throughout, from two columns on. */
  lemma WitnessGroup(gb: seq<string>, k: nat)
    requires 1 < k <= |gb| && "v" !in gb
    ensures var rows := WitnessTable(gb).rows;
            IsNode(rows, gb, WitnessKey(k)) && RowsWhere(rows, gb[..k], WitnessKey(k)) == [rows[0]]
  {
    var rows, key := WitnessTable(gb).rows, WitnessKey(k);
    forall i | 0 <= i < k ensures Get(rows[0], gb[i]) == Str("x") { assert gb[i] in gb; }
    assert KeyOf(rows[0], gb[..k]) == key && rows[0] in rows;
    assert gb[1] in gb && KeyOf(rows[1], gb[..k])[1] == Str("y") && key[1] == Str("x");
    assert rows[1..] == [rows[1]] && rows[1..][1..] == [];
    assert RowsWhere(rows[1..], gb[..k], key) == [];
  }

  /** Both rows pass the one filter that is left of the path, and they add up to three. */
  lemma WitnessFilter(gb: seq<string>)
    requires |gb| > 1 && "v" !in gb && gb[0] != gb[1]
    ensures var rows := WitnessTable(gb).rows;
            var kept := FilterRows(rows, [Filter(gb[0], "==", Str("x"))]);
            kept == rows && Aggregate(Sum, Column(kept, "v")) == Num(3.0)
  {
    var rows, filter := WitnessTable(gb).rows, [Filter(gb[0], "==", Str("x"))];
    assert gb[0] in gb;
    assert PassesAll(rows[0], filter) && PassesAll(rows[1], filter);
    assert rows[1..] == [rows[1]] && FilterRows(rows[1..], filter) == [rows[1]];
    assert FilterRows(rows, filter) == rows;
    assert Column(rows, "v") == [Num(1.0)] + [Num(2.0)];
    SumOne(2.0);
    assert ([Num(1.0)] + [Num(2.0)])[1..] == [Num(2.0)];
  }

  /** Every view of the witness table has a row for that group, whose cell is the first row's number. */
  lemma WitnessRowIn(repr: real -> string, gb: seq<string>, k: nat, f: Frame) returns (r: nat)
    requires 1 < k <= |gb| && "v" !in gb && IsView(repr, WitnessTable(gb), WitnessConfig(gb), f)
    ensures r < |f.rows| && f.names == ["v"]
    ensures f.rows[r] == NodeRow(WitnessTable(gb).rows, gb, [AggExpr("v", "v", Sum, Everything)], WitnessKey(k))
    ensures f.rows[r].cells == [Num(1.0)]
  {
    var rows, exprs := WitnessTable(gb).rows, [AggExpr("v", "v", Sum, Everything)];
    WitnessExprs(repr, gb);
    WitnessGroup(gb, k);
    r := NodeHasRow(repr, WitnessTable(gb), WitnessConfig(gb), f, WitnessKey(k));
    assert f.names == ["v"];
    WitnessCells(gb, k);
  }

  lemma WitnessCells(gb: seq<string>, k: nat)
    requires 1 < k <= |gb| && "v" !in gb
    ensures NodeRow(WitnessTable(gb).rows, gb, [AggExpr("v", "v", Sum, Everything)], WitnessKey(k)).cells == [Num(1.0)]
  {
    var rows := WitnessTable(gb).rows;
    WitnessGroup(gb, k);
    assert Column([rows[0]], "v") == [Num(1.0)];
    SumOne(1.0);
  }

  lemma WitnessPath(gb: seq<string>, k: nat, row: OutRow)
    requires 1 < k < |gb| == |row.path| && row.gid == GroupingId(|gb|, k) && row.path[0] == Str("x")
    ensures RowFilters(gb, ShownPath(|gb|, row, |gb|)) == [Filter(gb[0], "==", Str("x"))]
  {
    ShownPathOf(|gb|, row, k, |gb|);
    assert ShownPath(|gb|, row, |gb|) == [Str("x")];
    assert RowFilters(gb[1..], [Str("x")][1..]) == [];
  }

  /**
   * For every number of group columns from three on and every level strictly between the first and
   * the leaves, there is a table of two rows whose every view has a cell that shows 1, while the
   * filter `getCellConfig` builds from it selects rows that add up to 3.
   */
  lemma DrillDownFailsAtInnerLevels(repr: real -> string, gb: seq<string>, k: nat, f: Frame) returns (r: nat)
    requires 1 < k < |gb| && "v" !in gb && gb[0] != gb[1]
    requires IsView(repr, WitnessTable(gb), WitnessConfig(gb), f)
    ensures r < |f.rows| && f.rows[r].gid == GroupingId(|gb|, k) && f.rows[r].cells == [Num(1.0)]
    ensures FrameFits(f, WitnessConfig(gb), ViewSchema(f.names))
    ensures var cfg := WitnessConfig(gb);
            var s := SliceOf(f, cfg, ViewSchema(f.names), RowWindow(r));
            && WellFormed(s, 1)
            && var got := GetCellConfig(cfg, [ToRow(s, 1, 0)], 0);
            && got.Some?
            && Aggregate(Sum, Column(FilterRows(WitnessTable(gb).rows, got.value.filter), "v")) == Num(3.0)
  {
    var t, cfg, n := WitnessTable(gb), WitnessConfig(gb), |gb|;
    WitnessExprs(repr, gb);
    ViewFits(repr, t, cfg, f);
    r := WitnessRowIn(repr, gb, k, f);
    CellFilterForm(repr, t, cfg, t.rows, f, r, 0);
    WitnessPath(gb, k, f.rows[r]);
    var filter := [Filter(gb[0], "==", Str("x"))];
    assert [] + filter + [] == filter;
    WitnessFilter(gb);
  }

  /** Such a view is there: the server makes it. */
  method MakeViewWithWrongCell(repr: real -> string, parse: ExprParser, gb: seq<string>, k: nat)
    returns (h: PolarsHandler, ghost r: nat)
    requires 1 < k < |gb| && "v" !in gb && gb[0] != gb[1]
    ensures fresh(h) && "view" in h.views
    ensures var f := h.views["view"];
            && IsView(repr, WitnessTable(gb), WitnessConfig(gb), f)
            && r < |f.rows| && f.rows[r].gid == GroupingId(|gb|, k) && f.rows[r].cells == [Num(1.0)]
  {
    h := new PolarsHandler(repr, parse, map["table" := WitnessTable(gb)]);
    var _ := h.TableMakeView("table", "view", [], WitnessConfig(gb));
    r := DrillDownFailsAtInnerLevels(repr, gb, k, h.views["view"]);
  }

  // ----- A falsy group: the filter selects too much -----

  /** Two rows in different groups of g, each with a number in column v. */
  function TwoGroups(g: string, v: string, first: Value, second: Value, a: real, b: real): Table {
    Table(map[v := Number], [map[g := first, v := Num(a)], map[g := second, v := Num(b)]])
  }

  function SumByGroup(g: string, v: string): ViewConfig {
    ViewConfig([v], [g], [], map[], [], [], Rollup)
  }

  lemma OneDataColumn(repr: real -> string, t: Table, g: string, v: string)
    requires g != v && v in t.types && t.types[v] == Number
    ensures ViewExprs(repr, t, SumByGroup(g, v), t.rows) == [AggExpr(ColAlias(v), v, Sum, Everything)]
  {
    assert Without([v][1..], [g]) == [] && Without([v], [g]) == [v];
    assert Without([v][1..], []) == [] && Without([v], []) == [v];
    assert DataColumns(SumByGroup(g, v)) == [v];
    assert PlainExprs(t, map[], [v]) == [AggExpr(ColAlias(v), v, Sum, Everything)];
  }

  lemma FirstGroup(g: string, v: string, first: Value, second: Value, a: real, b: real)
    requires g != v && first != second
    ensures var rows := TwoGroups(g, v, first, second, a, b).rows;
            IsNode(rows, [g], [first]) && RowsWhere(rows, [g], [first]) == [rows[0]]
  {
    var rows := TwoGroups(g, v, first, second, a, b).rows;
    assert KeyOf(rows[0], [g]) == [first] && rows[0] in rows && [g][..1] == [g];
    assert KeyOf(rows[1], [g])[0] == second;
    assert rows[1..] == [rows[1]] && rows[1..][1..] == [];
    assert RowsWhere(rows[1..], [g], [first]) == [];
  }

  lemma BothGroups(g: string, v: string, first: Value, second: Value, a: real, b: real)
    requires g != v
    ensures var rows := TwoGroups(g, v, first, second, a, b).rows;
            Aggregate(Sum, Column(rows, v)) == Num(a + b) && Aggregate(Sum, Column([rows[0]], v)) == Num(a)
  {
    var rows := TwoGroups(g, v, first, second, a, b).rows;
    assert Column([rows[0]], v) == [Num(a)];
    assert Column(rows, v) == [Num(a)] + [Num(b)];
    SumOne(a);
    SumOne(b);
    assert ([Num(a)] + [Num(b)])[1..] == [Num(b)];
  }

  lemma OnePathCell(row: OutRow, z: Value)
    requires row.path == [z] && row.gid == GroupingId(1, 1)
    ensures ShownPath(1, row, 1) == [z] && PathComplete(1, row.gid)
  {
    ShownPathOf(1, row, 1, 1);
    PathCompleteMeaning(1, 1);
  }

  lemma FalsyPathHasNoFilter(g: string, z: Value)
    requires IsFalsy(z)
    ensures RowFilters([g], [z]) == []
  {
    assert RowFilters([g][1..], [z][1..]) == [];
  }

  lemma FirstGroupRow(repr: real -> string, t: Table, g: string, v: string, first: Value, inside: seq<Row>, f: Frame)
    returns (r: nat)
    requires g != v && v in t.types && t.types[v] == Number
    requires IsNode(t.rows, [g], [first]) && RowsWhere(t.rows, [g], [first]) == inside
    requires IsView(repr, t, SumByGroup(g, v), f)
    ensures r < |f.rows| && f.names == [ColAlias(v)]
    ensures f.rows[r] == OutRow(GroupingId(1, 1), [first], [Aggregate(Sum, Column(inside, v))])
  {
    NoFilters(t.rows);
    OneDataColumn(repr, t, g, v);
    r := NodeHasRow(repr, t, SumByGroup(g, v), f, [first]);
    assert [g][..1] == [g] && [first] + Nulls(0) == [first];
    assert f.names == [ColAlias(v)];
    assert Cells(inside, [AggExpr(ColAlias(v), v, Sum, Everything)]) == [Aggregate(Sum, Column(inside, v))];
  }

  /**
   * Grouped by one column that holds an empty string, a zero or a null beside another value, every view
   * has a cell for that group that shows its own number, while the filter built from it is empty and
   * selects the rows of both groups.
   */
  lemma DrillDownFailsAtFalsyGroup(repr: real -> string, g: string, v: string, z: Value, other: Value, a: real, b: real,
                                   f: Frame) returns (r: nat)
    requires g != v && IsFalsy(z) && other != z
    requires IsView(repr, TwoGroups(g, v, z, other, a, b), SumByGroup(g, v), f)
    ensures r < |f.rows| && f.rows[r].cells == [Num(a)] && PathComplete(1, f.rows[r].gid)
    ensures FrameFits(f, SumByGroup(g, v), ViewSchema(f.names))
    ensures var cfg := SumByGroup(g, v);
            var s := SliceOf(f, cfg, ViewSchema(f.names), RowWindow(r));
            && WellFormed(s, 1)
            && var got := GetCellConfig(cfg, [ToRow(s, 1, 0)], 0);
            && got.Some? && got.value.filter == []
            && Aggregate(Sum, Column(FilterRows(TwoGroups(g, v, z, other, a, b).rows, got.value.filter), v)) ==
               Num(a + b)
  {
    var t, cfg := TwoGroups(g, v, z, other, a, b), SumByGroup(g, v);
    FirstGroup(g, v, z, other, a, b);
    BothGroups(g, v, z, other, a, b);
    NoFilters(t.rows);
    ViewFits(repr, t, cfg, f);
    r := FirstGroupRow(repr, t, g, v, z, [t.rows[0]], f);
    OneDataColumn(repr, t, g, v);
    OnePathCell(f.rows[r], z);
    FalsyPathHasNoFilter(g, z);
    CellFilterForm(repr, t, cfg, t.rows, f, r, 0);
  }
}
