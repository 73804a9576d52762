/** The polars query planner: a view configuration compiled to filters, group-bys and sorts. */
module Planner {
  import opened Common
  import opened Values
  import opened Aggregates
  import opened Tables
  import opened Frames

  datatype ColType = Number | Other

  datatype Table = Table(types: map<string, ColType>, rows: seq<Row>)

  /** A parsed expression: the type of its column, and the column's cell in row i. */
  datatype Computed = Computed(colType: Table -> ColType, value: (Table, nat) -> Value)

  datatype Expression = Expression(name: string, text: string)

  /** Parsing evaluates the text; `None` is an exception. */
  type ExprParser = string -> Option<Computed>

  predicate AllParse(parse: ExprParser, exprs: seq<Expression>) {
    forall i :: 0 <= i < |exprs| ==> parse(exprs[i].text).Some?
  }

  /** `df.with_columns(expr.alias(name))` adds the column, or replaces the one of that name. */
  function WithColumn(t: Table, name: string, e: Computed): (u: Table)
    ensures |u.rows| == |t.rows|
    ensures forall i, c :: 0 <= i < |t.rows| ==>
        Get(u.rows[i], c) == if c == name then e.value(t, i) else Get(t.rows[i], c)
  {
    Table(t.types[name := e.colType(t)],
        seq(|t.rows|, i requires 0 <= i < |t.rows| => t.rows[i][name := e.value(t, i)]))
  }

  /** Each expression sees the columns of those before it. */
  function WithColumns(parse: ExprParser, t: Table, exprs: seq<Expression>): (u: Table)
    requires AllParse(parse, exprs)
    ensures |u.rows| == |t.rows|
  {
    if exprs == [] then t
    else
      var last := |exprs| - 1;
      WithColumn(WithColumns(parse, t, exprs[..last]), exprs[last].name, parse(exprs[last].text).value)
  }

  method AddColumns(parse: ExprParser, t: Table, exprs: seq<Expression>) returns (u: Option<Table>)
    ensures u.Some? <==> AllParse(parse, exprs)
    ensures u.Some? ==> u.value == WithColumns(parse, t, exprs)
  {
    var df := t;
    for i := 0 to |exprs|
      invariant AllParse(parse, exprs[..i]) && df == WithColumns(parse, t, exprs[..i])
    {
      assert exprs[..i + 1][..i] == exprs[..i] && exprs[..i + 1][i] == exprs[i];
      var e := parse(exprs[i].text);
      if e == None { return None; }
      df := WithColumn(df, exprs[i].name, e.value);
    }
    assert exprs[..|exprs|] == exprs;
    return Some(df);
  }

  /** Columns that no expression names keep their cells. */
  lemma {:induction false} OtherColumnsStay(parse: ExprParser, t: Table, exprs: seq<Expression>, i: nat, c: string)
    requires AllParse(parse, exprs) && i < |t.rows|
    requires forall k :: 0 <= k < |exprs| ==> exprs[k].name != c
    ensures Get(WithColumns(parse, t, exprs).rows[i], c) == Get(t.rows[i], c)
  {
    if exprs != [] {
      OtherColumnsStay(parse, t, exprs[..|exprs| - 1], i, c);
    }
  }

  /**
   * A computed column holds its own expression's value in every row, evaluated on the table with the
   * columns computed before it, and has that expression's type; unless a later one takes its name.
   */
  lemma {:induction false} ComputedColumn(parse: ExprParser, t: Table, exprs: seq<Expression>, k: nat, i: nat)
    requires AllParse(parse, exprs) && k < |exprs| && i < |t.rows|
    requires forall m :: k < m < |exprs| ==> exprs[m].name != exprs[k].name
    ensures AllParse(parse, exprs[..k])
    ensures var before, e := WithColumns(parse, t, exprs[..k]), parse(exprs[k].text).value;
            var after := WithColumns(parse, t, exprs);
            && Get(after.rows[i], exprs[k].name) == e.value(before, i)
            && exprs[k].name in after.types && after.types[exprs[k].name] == e.colType(before)
  {
    var last := |exprs| - 1;
    if k < last {
      ComputedColumn(parse, t, exprs[..last], k, i);
      assert exprs[..last][..k] == exprs[..k];
    }
  }

  datatype RollupMode = Rollup | Flat | Total

  datatype SortEntry = SortEntry(col: string, direction: string)

  datatype ViewConfig = ViewConfig(
    columns: seq<string>,
    groupBy: seq<string>,
    splitBy: seq<string>,
    aggregates: map<string, Agg>,
    filters: seq<Filter>,
    sort: seq<SortEntry>,
    mode: RollupMode)

  // ----- Names -----

  /** `_` is the separator of split column names, so columns are renamed without it. */
  function ColAlias(c: string): (a: string)
    ensures |a| == |c| && '_' !in a
    ensures forall i :: 0 <= i < |c| ==> a[i] == if c[i] == '_' then '-' else c[i]
  {
    if c == "" then "" else [if c[0] == '_' then '-' else c[0]] + ColAlias(c[1..])
  }

  /** A split value inside a column name. Numbers print as `repr` says. */
  function Show(repr: real -> string, v: Value): string {
    match v
    case Null => "None"
    case Num(x) => repr(x)
    case Str(s) => s
  }

  function SplitName(repr: real -> string, sv: Value, col: string): string {
    Show(repr, sv) + "_" + ColAlias(col)
  }

  function HiddenName(col: string): string {
    "__SORT_" + col + "__"
  }

  // ----- Expression lists -----

  function Without(cols: seq<string>, excluded: seq<string>): (r: seq<string>)
    ensures forall c :: c in r <==> c in cols && c !in excluded
  {
    if cols == [] then []
    else (if cols[0] in excluded then [] else [cols[0]]) + Without(cols[1..], excluded)
  }

  /** The columns left keep their order. */
  lemma {:induction false} WithoutAt(cols: seq<string>, excluded: seq<string>) returns (at: seq<nat>)
    ensures Picks(at, cols, Without(cols, excluded))
    ensures forall i: nat :: i in at <==> i < |cols| && cols[i] !in excluded
  {
    if cols == [] { return []; }
    var rest := WithoutAt(cols[1..], excluded);
    assert [cols[0]] + cols[1..] == cols;
    PicksMore(rest, cols[0], cols[1..], Without(cols[1..], excluded), cols[0] !in excluded);
    at := Later(rest, cols[0] !in excluded);
  }

  function AggFor(t: Table, aggs: map<string, Agg>, col: string): Agg {
    if col in aggs then aggs[col]
    else if col in t.types && t.types[col] == Number then Sum
    else Count
  }

  function PlainExprs(t: Table, aggs: map<string, Agg>, cols: seq<string>): (es: seq<AggExpr>)
    ensures |es| == |cols|
  {
    seq(|cols|, j requires 0 <= j < |cols| => AggExpr(ColAlias(cols[j]), cols[j], AggFor(t, aggs, cols[j]), Everything))
  }

  function HiddenExprs(t: Table, aggs: map<string, Agg>, cols: seq<string>): (es: seq<AggExpr>)
    ensures |es| == |cols|
  {
    seq(|cols|, j requires 0 <= j < |cols| =>
        AggExpr(HiddenName(cols[j]), cols[j], AggFor(t, aggs, cols[j]), Everything))
  }

  function SplitExpr(repr: real -> string, t: Table, aggs: map<string, Agg>, split: string, sv: Value,
                     col: string): AggExpr {
    AggExpr(SplitName(repr, sv, col), col, AggFor(t, aggs, col), Where(split, sv))
  }

  function SplitBlock(repr: real -> string, t: Table, aggs: map<string, Agg>, cols: seq<string>, split: string,
                      sv: Value): (es: seq<AggExpr>)
    ensures |es| == |cols|
  {
    seq(|cols|, j requires 0 <= j < |cols| => SplitExpr(repr, t, aggs, split, sv, cols[j]))
  }

  /** One block of data columns per split value. */
  function SplitExprs(repr: real -> string, t: Table, aggs: map<string, Agg>, cols: seq<string>, split: string,
                      svs: seq<Value>): (es: seq<AggExpr>)
    ensures |es| == |svs| * |cols|
  {
    if svs == [] then []
    else
      var last := |svs| - 1;
      SplitExprs(repr, t, aggs, cols, split, svs[..last]) + SplitBlock(repr, t, aggs, cols, split, svs[last])
  }

  /** Column b * |cols| + j shows data column j for the b-th split value. */
  lemma {:induction false} SplitColumnAt(repr: real -> string, t: Table, aggs: map<string, Agg>, cols: seq<string>,
                                         split: string, svs: seq<Value>, b: nat, j: nat)
    requires b < |svs| && j < |cols|
    ensures 0 <= b * |cols| + j < |SplitExprs(repr, t, aggs, cols, split, svs)|
    ensures SplitExprs(repr, t, aggs, cols, split, svs)[b * |cols| + j] ==
            SplitExpr(repr, t, aggs, split, svs[b], cols[j])
  {
    var last := |svs| - 1;
    assert |SplitExprs(repr, t, aggs, cols, split, svs)| == last * |cols| + |cols|;
    if b < last {
      SplitColumnAt(repr, t, aggs, cols, split, svs[..last], b, j);
    }
  }

  method PlainAggExprs(t: Table, aggs: map<string, Agg>, cols: seq<string>) returns (es: seq<AggExpr>)
    ensures es == PlainExprs(t, aggs, cols)
  {
    es := [];
    for j := 0 to |cols|
      invariant es == PlainExprs(t, aggs, cols)[..j]
    {
      es := es + [AggExpr(ColAlias(cols[j]), cols[j], AggFor(t, aggs, cols[j]), Everything)];
    }
  }

  method SplitAggExprs(repr: real -> string, t: Table, aggs: map<string, Agg>, cols: seq<string>, split: string,
                       svs: seq<Value>)
    returns (es: seq<AggExpr>)
    ensures es == SplitExprs(repr, t, aggs, cols, split, svs)
  {
    es := [];
    for i := 0 to |svs|
      invariant es == SplitExprs(repr, t, aggs, cols, split, svs[..i])
    {
      var done := es;
      for j := 0 to |cols|
        invariant es == done + SplitBlock(repr, t, aggs, cols, split, svs[i])[..j]
      {
        es := es + [SplitExpr(repr, t, aggs, split, svs[i], cols[j])];
      }
      assert svs[..i + 1][..i] == svs[..i];
      assert SplitBlock(repr, t, aggs, cols, split, svs[i])[..|cols|] == SplitBlock(repr, t, aggs, cols, split, svs[i]);
    }
    assert svs[..|svs|] == svs;
  }

  method HiddenAggExprs(t: Table, aggs: map<string, Agg>, cols: seq<string>) returns (es: seq<AggExpr>)
    ensures es == HiddenExprs(t, aggs, cols)
  {
    es := [];
    for j := 0 to |cols|
      invariant es == HiddenExprs(t, aggs, cols)[..j]
    {
      es := es + [AggExpr(HiddenName(cols[j]), cols[j], AggFor(t, aggs, cols[j]), Everything)];
    }
  }

  function SplitValues(rows: seq<Row>, split: string): (svs: seq<Value>)
    ensures Ascending(svs)
    ensures forall v :: v in svs <==> exists r :: r in rows && Get(r, split) == v
  {
    var svs := SortedUnique(Column(rows, split));
    assert forall v :: v in Column(rows, split) <==> exists r :: r in rows && Get(r, split) == v by {
      forall r | r in rows ensures Get(r, split) in Column(rows, split) {
        var i :| 0 <= i < |rows| && rows[i] == r;
        assert Column(rows, split)[i] == Get(r, split);
      }
    }
    svs
  }

  // ----- Rollup rows -----

  function Nulls(n: nat): (r: seq<Value>)
    ensures |r| == n && forall i :: 0 <= i < n ==> r[i] == Null
  {
    seq(n, i => Null)
  }

  /** The grouping id of a row with k of n active groups: the sum of 2^i for k <= i < n. */
  function GroupingId(n: nat, k: nat): nat
    requires k <= n
    decreases n - k
  {
    if k == n then 0 else Pow2(k) + GroupingId(n, k + 1)
  }

  /** The result row of one group: `key` gives values to the first |key| group columns. */
  function NodeRow(rows: seq<Row>, gb: seq<string>, exprs: seq<AggExpr>, key: seq<Value>): (r: OutRow)
    requires |key| <= |gb|
    ensures |r.path| == |gb| && |r.cells| == |exprs|
  {
    OutRow(GroupingId(|gb|, |key|), key + Nulls(|gb| - |key|), Cells(RowsWhere(rows, gb[..|key|], key), exprs))
  }

  /** One row per group of the first k group columns; the grand total when k is 0. */
  function LevelRows(rows: seq<Row>, gb: seq<string>, exprs: seq<AggExpr>, k: nat): (r: seq<OutRow>)
    requires k <= |gb|
  {
    if k == 0 then [NodeRow(rows, gb, exprs, [])]
    else
      var keys := GroupKeys(rows, gb[..k]);
      KeysHaveLength(rows, gb[..k]);
      seq(|keys|, i requires 0 <= i < |keys| => assert keys[i] in keys; NodeRow(rows, gb, exprs, keys[i]))
  }

  lemma KeysHaveLength(rows: seq<Row>, cols: seq<string>)
    ensures forall k :: k in GroupKeys(rows, cols) ==> |k| == |cols|
  {
  }

  function Concat<T>(frames: seq<seq<T>>): seq<T> {
    if frames == [] then [] else Concat(frames[..|frames| - 1]) + frames[|frames| - 1]
  }

  /** One frame per level, deepest first. */
  function Levels(rows: seq<Row>, gb: seq<string>, exprs: seq<AggExpr>): (frames: seq<seq<OutRow>>)
    ensures |frames| == |gb| + 1
  {
    seq(|gb| + 1, level requires 0 <= level <= |gb| => LevelRows(rows, gb, exprs, |gb| - level))
  }

  function RollupRows(rows: seq<Row>, gb: seq<string>, exprs: seq<AggExpr>): seq<OutRow> {
    Concat(Levels(rows, gb, exprs))
  }

  /** `df.select(aggregates)`: one row, or none when there is nothing to select. */
  function TotalRows(rows: seq<Row>, exprs: seq<AggExpr>): seq<OutRow> {
    if exprs == [] then [] else [OutRow(0, [], Cells(rows, exprs))]
  }

  // ----- Polars grouping -----

  datatype Group = Group(key: seq<Value>, cells: seq<Value>)

  /** `df.group_by(cols, maintain_order=True).agg(exprs)` */
  function GroupBy(rows: seq<Row>, cols: seq<string>, exprs: seq<AggExpr>): seq<Group> {
    var keys := GroupKeys(rows, cols);
    seq(|keys|, i requires 0 <= i < |keys| => Group(keys[i], Cells(RowsWhere(rows, cols, keys[i]), exprs)))
  }

  /** The row of a group of k of n columns: its path, its grouping id and its cells. */
  function TaggedRow(n: nat, k: nat, g: Group): OutRow
    requires k <= n
  {
    OutRow(GroupingId(n, k), g.key + Nulls(n - k), g.cells)
  }

  /** Adds the path columns one at a time, then the grouping id. */
  method TagLevel(groups: seq<Group>, n: nat, k: nat) returns (tagged: seq<OutRow>)
    requires k <= n && forall g :: g in groups ==> |g.key| == k
    ensures |tagged| == |groups|
    ensures forall i :: 0 <= i < |groups| ==>
              tagged[i] == TaggedRow(n, k, groups[i])
  {
    var paths: seq<seq<Value>> := seq(|groups|, i => []);
    for idx := 0 to n
      invariant |paths| == |groups|
      invariant forall i :: 0 <= i < |groups| ==>
          |groups[i].key| == k && paths[i] == (groups[i].key + Nulls(n - k))[..idx]
    {
      paths := seq(|groups|, i requires 0 <= i < |groups| && |paths| == |groups| && |groups[i].key| == k =>
        paths[i] + [if idx < k then groups[i].key[idx] else Null]);
    }
    var gid, b := 0, n;
    while b > k
      invariant k <= b <= n && gid == GroupingId(n, b)
    {
      b := b - 1;
      gid := Pow2(b) + gid;
    }
    tagged := seq(|groups|, i requires 0 <= i < |groups| && |paths| == |groups| =>
      OutRow(gid, paths[i], groups[i].cells));
    forall i | 0 <= i < |groups| ensures paths[i] == groups[i].key + Nulls(n - k) {
      assert |groups[i].key| == k;
    }
  }

  method BuildLevel(rows: seq<Row>, gb: seq<string>, exprs: seq<AggExpr>, k: nat) returns (out: seq<OutRow>)
    requires k <= |gb|
    ensures out == LevelRows(rows, gb, exprs, k)
  {
    var groups := [Group([], Cells(rows, exprs))];
    if k > 0 {
      groups := GroupBy(rows, gb[..k], exprs);
    }
    GroupsAreNodes(rows, gb, exprs, k, groups);
    out := TagLevel(groups, |gb|, k);
  }

  lemma GroupsAreNodes(rows: seq<Row>, gb: seq<string>, exprs: seq<AggExpr>, k: nat, groups: seq<Group>)
    requires k <= |gb|
    requires groups == if k > 0 then GroupBy(rows, gb[..k], exprs) else [Group([], Cells(rows, exprs))]
    ensures |groups| == |LevelRows(rows, gb, exprs, k)|
    ensures forall i :: 0 <= i < |groups| ==> |groups[i].key| == k
    ensures forall i :: 0 <= i < |groups| ==>
              LevelRows(rows, gb, exprs, k)[i] == TaggedRow(|gb|, k, groups[i])
  {
    if k == 0 {
      RowsWhereAll(rows);
      assert gb[..0] == [];
    } else {
      KeysHaveLength(rows, gb[..k]);
      forall i | 0 <= i < |groups|
        ensures |groups[i].key| == k && LevelRows(rows, gb, exprs, k)[i] == TaggedRow(|gb|, k, groups[i])
      {
        GroupIsNode(rows, gb, exprs, k, i);
      }
    }
  }

  lemma GroupIsNode(rows: seq<Row>, gb: seq<string>, exprs: seq<AggExpr>, k: nat, i: nat)
    requires 0 < k <= |gb| && i < |GroupKeys(rows, gb[..k])|
    ensures |GroupBy(rows, gb[..k], exprs)| == |LevelRows(rows, gb, exprs, k)| == |GroupKeys(rows, gb[..k])|
    ensures var g := GroupBy(rows, gb[..k], exprs)[i];
            |g.key| == k && LevelRows(rows, gb, exprs, k)[i] == TaggedRow(|gb|, k, g)
  {
    var key := GroupKeys(rows, gb[..k])[i];
    KeysHaveLength(rows, gb[..k]);
    assert key in GroupKeys(rows, gb[..k]);
    assert LevelRows(rows, gb, exprs, k)[i] == NodeRow(rows, gb, exprs, key);
  }

  /** `GROUP BY ROLLUP` as n + 1 group-bys whose results are concatenated. */
  method RollupLevels(rows: seq<Row>, gb: seq<string>, exprs: seq<AggExpr>) returns (out: seq<OutRow>)
    ensures out == RollupRows(rows, gb, exprs)
  {
    var frames := [];
    for level := 0 to |gb| + 1
      invariant frames == Levels(rows, gb, exprs)[..level]
    {
      var frame := BuildLevel(rows, gb, exprs, |gb| - level);
      frames := frames + [frame];
    }
    assert frames == Levels(rows, gb, exprs);
    out := Concat(frames);
  }
}
