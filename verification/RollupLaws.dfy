/** Conservation laws of the result rows: rollup coherence and split conservation. */
module RollupLaws {
  import opened Common
  import opened Values
  import opened Aggregates
  import opened Tables
  import opened Frames
  import opened Planner
  import opened RollupTree

  // ----- Partition by one column -----

  function ByValue(agg: Agg, rows: seq<Row>, col: string, part: string, vs: seq<Value>): (r: seq<Value>)
    ensures |r| == |vs|
  {
    seq(|vs|, i requires 0 <= i < |vs| => Aggregate(agg, Column(RowsWhere(rows, [part], [vs[i]]), col)))
  }

  function Singletons(vs: seq<Value>): (keys: seq<seq<Value>>)
    ensures |keys| == |vs| && forall i :: 0 <= i < |vs| ==> keys[i] == [vs[i]]
  {
    seq(|vs|, i requires 0 <= i < |vs| => [vs[i]])
  }

  lemma PartitionByColumn(agg: Agg, rows: seq<Row>, col: string, part: string, vs: seq<Value>)
    requires Decomposable(agg) && Ascending(vs)
    requires forall r :: r in rows ==> Get(r, part) in vs
    ensures Aggregate(agg, Column(rows, col)) == CombineAll(agg, ByValue(agg, rows, col, part, vs))
  {
    var keys := Singletons(vs);
    forall r | r in rows ensures KeyOf(r, [part]) in keys {
      var i :| 0 <= i < |vs| && vs[i] == Get(r, part);
      assert keys[i] == KeyOf(r, [part]);
    }
    forall a, b | 0 <= a < b < |keys| ensures keys[a] != keys[b] {
      assert keys[a][0] == vs[a] && keys[b][0] == vs[b];
    }
    PartitionAggregate(agg, rows, col, [part], keys);
    SingletonParts(agg, rows, col, part, vs);
  }

  lemma SingletonParts(agg: Agg, rows: seq<Row>, col: string, part: string, vs: seq<Value>)
    ensures PartAggregates(agg, rows, col, [part], Singletons(vs)) == ByValue(agg, rows, col, part, vs)
  {
  }

  // ----- Rollup coherence -----

  /** The cell of the i-th expression in each child row of `key`, in sibling order. */
  function ChildCells(rows: seq<Row>, gb: seq<string>, exprs: seq<AggExpr>, key: seq<Value>, i: nat): (cs: seq<Value>)
    requires |key| < |gb| && i < |exprs|
  {
    var vs := ChildValues(rows, gb, key);
    seq(|vs|, c requires 0 <= c < |vs| => NodeRow(rows, gb, exprs, key + [vs[c]]).cells[i])
  }

  /** A rolled-up cell is its children's cells combined; nothing is lost or counted twice. */
  lemma ParentCombinesChildren(rows: seq<Row>, gb: seq<string>, exprs: seq<AggExpr>, key: seq<Value>, i: nat)
    requires |key| < |gb| && i < |exprs| && Decomposable(exprs[i].agg)
    ensures NodeRow(rows, gb, exprs, key).cells[i] == CombineAll(exprs[i].agg, ChildCells(rows, gb, exprs, key, i))
  {
    var e, col := exprs[i], gb[|key|];
    var vs := ChildValues(rows, gb, key);
    var inside := RowsWhere(rows, gb[..|key|], key);
    var selected := Select(inside, e.only);
    forall r | r in selected ensures Get(r, col) in vs { SelectIsSubset(inside, e.only, r); }
    PartitionByColumn(e.agg, selected, e.col, col, vs);
    forall c | 0 <= c < |vs|
      ensures ByValue(e.agg, selected, e.col, col, vs)[c] == ChildCells(rows, gb, exprs, key, i)[c]
    {
      ChildCell(rows, gb, exprs, key, vs[c], i);
    }
    assert ByValue(e.agg, selected, e.col, col, vs) == ChildCells(rows, gb, exprs, key, i);
  }

  lemma ChildCell(rows: seq<Row>, gb: seq<string>, exprs: seq<AggExpr>, key: seq<Value>, v: Value, i: nat)
    requires |key| < |gb| && i < |exprs|
    ensures var selected := Select(RowsWhere(rows, gb[..|key|], key), exprs[i].only);
            NodeRow(rows, gb, exprs, key + [v]).cells[i] ==
            Aggregate(exprs[i].agg, Column(RowsWhere(selected, [gb[|key|]], [v]), exprs[i].col))
  {
    SelectCommutes(RowsWhere(rows, gb[..|key|], key), exprs[i].only, [gb[|key|]], [v]);
    RowsWhereExtend(rows, gb[..|key|], key, gb[|key|], v);
    assert gb[..|key|] + [gb[|key|]] == gb[..|key + [v]|];
  }

  lemma SelectIsSubset(rows: seq<Row>, only: Only, r: Row)
    requires r in Select(rows, only)
    ensures r in rows
  {
  }

  function LevelCells(rows: seq<Row>, gb: seq<string>, exprs: seq<AggExpr>, k: nat, i: nat): (cs: seq<Value>)
    requires k <= |gb| && i < |exprs|
  {
    var level := LevelRows(rows, gb, exprs, k);
    CellCounts(rows, gb, exprs, k);
    seq(|level|, r requires 0 <= r < |level| => level[r].cells[i])
  }

  lemma CellCounts(rows: seq<Row>, gb: seq<string>, exprs: seq<AggExpr>, k: nat)
    requires k <= |gb|
    ensures forall r :: 0 <= r < |LevelRows(rows, gb, exprs, k)| ==> |LevelRows(rows, gb, exprs, k)[r].cells| == |exprs|
  {
  }

  /** The rows of any one level combine to the grand total, which is the total mode's row. */
  lemma LevelCombinesToTotal(rows: seq<Row>, gb: seq<string>, exprs: seq<AggExpr>, k: nat, i: nat)
    requires 0 < k <= |gb| && i < |exprs| && Decomposable(exprs[i].agg)
    ensures NodeRow(rows, gb, exprs, []).cells[i] == CombineAll(exprs[i].agg, LevelCells(rows, gb, exprs, k, i))
    ensures TotalRows(rows, exprs) == [OutRow(0, [], NodeRow(rows, gb, exprs, []).cells)]
  {
    var e, cols := exprs[i], gb[..k];
    var keys := GroupKeys(rows, cols);
    var selected := Select(rows, e.only);
    RowsWhereAll(rows);
    assert gb[..0] == [];
    KeysHaveLength(rows, cols);
    forall r | r in selected ensures KeyOf(r, cols) in keys { SelectIsSubset(rows, e.only, r); }
    PartitionAggregate(e.agg, selected, e.col, cols, keys);
    LevelCellsAreParts(rows, gb, exprs, k, i);
  }

  lemma LevelCellsAreParts(rows: seq<Row>, gb: seq<string>, exprs: seq<AggExpr>, k: nat, i: nat)
    requires 0 < k <= |gb| && i < |exprs|
    ensures PartAggregates(exprs[i].agg, Select(rows, exprs[i].only), exprs[i].col, gb[..k],
        GroupKeys(rows, gb[..k])) ==
            LevelCells(rows, gb, exprs, k, i)
  {
    var e, cols := exprs[i], gb[..k];
    var keys := GroupKeys(rows, cols);
    KeysHaveLength(rows, cols);
    var parts, cells := PartAggregates(e.agg, Select(rows, e.only), e.col, cols, keys),
        LevelCells(rows, gb, exprs, k, i);
    forall c | 0 <= c < |keys| ensures parts[c] == cells[c] {
      assert keys[c] in keys;
      SelectCommutes(rows, e.only, cols, keys[c]);
      assert LevelRows(rows, gb, exprs, k)[c] == NodeRow(rows, gb, exprs, keys[c]);
    }
    assert parts == cells;
  }

  // ----- Split conservation -----

  /** The column of split value i and data column j is number i * m + j of m data columns. */
  lemma {:induction false} SplitExprAt(repr: real -> string, t: Table, aggs: map<string, Agg>, cols: seq<string>,
                                       split: string, svs: seq<Value>, i: nat, j: nat)
    requires i < |svs| && j < |cols|
    ensures 0 <= i * |cols| + j < |svs| * |cols|
    ensures SplitExprs(repr, t, aggs, cols, split, svs)[i * |cols| + j] ==
        SplitExpr(repr, t, aggs, split, svs[i], cols[j])
  {
    var last, m := |svs| - 1, |cols|;
    BlockBounds(i, |svs|, j, m);
    assert |SplitExprs(repr, t, aggs, cols, split, svs[..last])| == last * m;
    if i < last {
      SplitExprAt(repr, t, aggs, cols, split, svs[..last], i, j);
    } else {
      assert i * m == last * m;
    }
  }

  lemma BlockBounds(i: nat, n: nat, j: nat, m: nat)
    requires i < n && j < m
    ensures 0 <= i * m + j < n * m
  {
    assert i * m + m == (i + 1) * m;
    assert (i + 1) * m <= n * m by { MulMonotone(i + 1, n, m); }
  }

  lemma MulMonotone(a: nat, b: nat, m: nat)
    requires a <= b
    ensures a * m <= b * m
  {
  }

  /** Column j of each of the n split values, in a row whose blocks are m wide. */
  function SplitColumn(cells: seq<Value>, n: nat, m: nat, j: nat): (cs: seq<Value>)
    requires j < m && n * m <= |cells|
    ensures |cs| == n
  {
    seq(n, i requires 0 <= i < n => BlockBounds(i, n, j, m); cells[i * m + j])
  }

  lemma SplitCell(repr: real -> string, t: Table, aggs: map<string, Agg>, cols: seq<string>, split: string,
                  svs: seq<Value>, inside: seq<Row>, i: nat, j: nat)
    requires i < |svs| && j < |cols| && svs[i] != Null
    ensures SplitColumn(Cells(inside, SplitExprs(repr, t, aggs, cols, split, svs)), |svs|, |cols|, j)[i] ==
            Aggregate(AggFor(t, aggs, cols[j]), Column(RowsWhere(inside, [split], [svs[i]]), cols[j]))
  {
    var exprs := SplitExprs(repr, t, aggs, cols, split, svs);
    SplitExprAt(repr, t, aggs, cols, split, svs, i, j);
    BlockBounds(i, |svs|, j, |cols|);
    assert SplitColumn(Cells(inside, exprs), |svs|, |cols|, j)[i] == Cells(inside, exprs)[i * |cols| + j];
    assert Cells(inside, exprs)[i * |cols| + j] == Eval(inside, exprs[i * |cols| + j]);
  }

  /**
   * Combining a data column over all split values gives the unsplit aggregate, in any group of the
   * table: split values absent from the group contribute nothing.
   */
  lemma SplitsCombine(repr: real -> string, t: Table, aggs: map<string, Agg>, cols: seq<string>, split: string,
                      rows: seq<Row>, inside: seq<Row>, j: nat)
    requires j < |cols| && Decomposable(AggFor(t, aggs, cols[j]))
    requires forall r :: r in inside ==> r in rows
    requires forall r :: r in rows ==> Get(r, split) != Null
    ensures var svs := SplitValues(rows, split);
            Aggregate(AggFor(t, aggs, cols[j]), Column(inside, cols[j])) ==
            CombineAll(AggFor(t, aggs, cols[j]),
              SplitColumn(Cells(inside, SplitExprs(repr, t, aggs, cols, split, svs)), |svs|, |cols|, j))
  {
    var svs, agg := SplitValues(rows, split), AggFor(t, aggs, cols[j]);
    var column := SplitColumn(Cells(inside, SplitExprs(repr, t, aggs, cols, split, svs)), |svs|, |cols|, j);
    PartitionByColumn(agg, inside, cols[j], split, svs);
    forall i | 0 <= i < |svs| ensures ByValue(agg, inside, cols[j], split, svs)[i] == column[i] {
      assert svs[i] in svs;
      SplitCell(repr, t, aggs, cols, split, svs, inside, i, j);
    }
    assert ByValue(agg, inside, cols[j], split, svs) == column;
  }

  /** Split conservation in every rollup row: splitting never changes what a group adds up to. */
  lemma RollupRowConservesSplits(repr: real -> string, t: Table, aggs: map<string, Agg>, cols: seq<string>,
                                 split: string,
      rows: seq<Row>, gb: seq<string>, key: seq<Value>, j: nat)
    requires j < |cols| && Decomposable(AggFor(t, aggs, cols[j])) && |key| <= |gb|
    requires forall r :: r in rows ==> Get(r, split) != Null
    ensures var svs := SplitValues(rows, split);
            NodeRow(rows, gb, PlainExprs(t, aggs, cols), key).cells[j] ==
            CombineAll(AggFor(t, aggs, cols[j]),
              SplitColumn(NodeRow(rows, gb, SplitExprs(repr, t, aggs, cols, split, svs), key).cells, |svs|, |cols|, j))
  {
    SplitsCombine(repr, t, aggs, cols, split, rows, RowsWhere(rows, gb[..|key|], key), j);
  }

  /** Split conservation in the total mode's row. */
  lemma TotalRowConservesSplits(repr: real -> string, t: Table, aggs: map<string, Agg>, cols: seq<string>,
                                split: string, rows: seq<Row>, j: nat)
    requires j < |cols| && Decomposable(AggFor(t, aggs, cols[j])) && rows != []
    requires forall r :: r in rows ==> Get(r, split) != Null
    ensures var svs := SplitValues(rows, split);
            var splitRows := TotalRows(rows, SplitExprs(repr, t, aggs, cols, split, svs));
            && |splitRows| == 1
            && |splitRows[0].cells| == |svs| * |cols|
            && TotalRows(rows, PlainExprs(t, aggs, cols))[0].cells[j] ==
               CombineAll(AggFor(t, aggs, cols[j]), SplitColumn(splitRows[0].cells, |svs|, |cols|, j))
  {
    var svs := SplitValues(rows, split);
    assert Get(rows[0], split) in svs;
    BlockBounds(0, |svs|, j, |cols|);
    SplitsCombine(repr, t, aggs, cols, split, rows, rows, j);
  }

  lemma CellsConcat(rows: seq<Row>, a: seq<AggExpr>, b: seq<AggExpr>)
    ensures Cells(rows, a + b) == Cells(rows, a) + Cells(rows, b)
  {
  }

  /** In the flat split builder the hidden sort column j is the combination of the visible ones. */
  lemma HiddenColumnIsCombination(repr: real -> string, t: Table, aggs: map<string, Agg>, cols: seq<string>,
                                  split: string,
      rows: seq<Row>, gb: seq<string>, key: seq<Value>, j: nat)
    requires j < |cols| && Decomposable(AggFor(t, aggs, cols[j])) && |key| <= |gb|
    requires forall r :: r in rows ==> Get(r, split) != Null
    ensures var svs := SplitValues(rows, split);
            var row := NodeRow(rows, gb, SplitExprs(repr, t, aggs, cols, split, svs) + HiddenExprs(t, aggs, cols), key);
            row.cells[|svs| * |cols| + j] ==
            CombineAll(AggFor(t, aggs, cols[j]), SplitColumn(row.cells, |svs|, |cols|, j))
  {
    var svs := SplitValues(rows, split);
    var inside := RowsWhere(rows, gb[..|key|], key);
    var visible, hidden := SplitExprs(repr, t, aggs, cols, split, svs), HiddenExprs(t, aggs, cols);
    CellsConcat(inside, visible, hidden);
    SplitsCombine(repr, t, aggs, cols, split, rows, inside, j);
    SplitColumnOfPrefix(Cells(inside, visible), Cells(inside, hidden), |svs|, |cols|, j);
  }

  lemma SplitColumnOfPrefix(cells: seq<Value>, more: seq<Value>, n: nat, m: nat, j: nat)
    requires j < m && n * m == |cells|
    ensures SplitColumn(cells + more, n, m, j) == SplitColumn(cells, n, m, j)
  {
    forall i | 0 <= i < n ensures SplitColumn(cells + more, n, m, j)[i] == SplitColumn(cells, n, m, j)[i] {
      BlockBounds(i, n, j, m);
    }
  }
}
