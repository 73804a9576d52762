/** The data slice a virtual server fills for one viewport, and the JSON rows it renders to. */
module DataSlice {
  import opened Common
  import opened Values
  import opened Tables
  import opened Frames
  import opened Planner
  import opened RollupTree
  import opened Views

  // ----- Row paths -----

  /** The test that decides whether a row shows its path cell at `level`. */
  predicate Shown(n: nat, level: nat, gid: nat)
    requires level < n
  {
    gid < Pow2(n - level) - 1
  }

  /** The path cells a row has shown after the first m path columns are pushed. */
  function ShownPath(n: nat, r: OutRow, m: nat): (p: seq<Value>)
    requires m <= n == |r.path|
  {
    if m == 0 then [] else ShownPath(n, r, m - 1) + if Shown(n, m - 1, r.gid) then [r.path[m - 1]] else []
  }

  /** How many rows have a path entry: up to the last row that shows its first level. */
  function PathRows(n: nat, rows: seq<OutRow>): (k: nat)
    requires n > 0
    ensures k <= |rows|
    ensures forall i :: 0 <= i < |rows| && Shown(n, 0, rows[i].gid) ==> i < k
  {
    if rows == [] then 0
    else if Shown(n, 0, rows[|rows| - 1].gid) then |rows|
    else PathRows(n, rows[..|rows| - 1])
  }

  ghost predicate PathsHaveLength(n: nat, rows: seq<OutRow>) {
    forall i :: 0 <= i < |rows| ==> |rows[i].path| == n
  }

  /** The row paths after the first `done` rows of path column m, with columns below m complete. */
  function PathState(n: nat, rows: seq<OutRow>, m: nat, done: nat): Option<seq<seq<Value>>>
    requires m < n && done <= |rows| && PathsHaveLength(n, rows)
  {
    var k := if m == 0 then PathRows(n, rows[..done]) else PathRows(n, rows);
    if k == 0 then None
    else Some(seq(k, i requires 0 <= i < k => ShownPath(n, rows[i], if i < done then m + 1 else m)))
  }

  function FinalPaths(n: nat, rows: seq<OutRow>): Option<seq<seq<Value>>>
    requires PathsHaveLength(n, rows)
  {
    if n == 0 then None else PathState(n, rows, n - 1, |rows|)
  }

  /** A row that shows any level shows the first one. */
  lemma ShownImpliesFirst(n: nat, level: nat, gid: nat)
    requires level < n && Shown(n, level, gid)
    ensures Shown(n, 0, gid)
  {
    if level > 0 { Pow2Grows(n - level, n); }
  }

  // ----- The viewport -----

  /** Zero stands for an absent start_row, end_row or start_col. */
  datatype Viewport = Viewport(startRow: nat, endRow: nat, startCol: nat, endCol: Option<nat>)

  /** Python slicing `xs[lo:hi]`: bounds beyond the end are clamped. */
  function Slice<T>(xs: seq<T>, lo: nat, hi: nat): seq<T> {
    if lo >= Min(hi, |xs|) then [] else xs[lo..Min(hi, |xs|)]
  }

  function WindowRows(rows: seq<OutRow>, v: Viewport): seq<OutRow> {
    Slice(rows, v.startRow, if v.endRow == 0 then |rows| else v.endRow)
  }

  function WindowColumns(schema: seq<string>, v: Viewport): seq<string> {
    var names := ViewSchema(schema);
    Slice(names, v.startCol, match v.endCol case None => |names| case Some(e) => e)
  }

  /** `name.replace("_", "|")`, applied to the columns of split views. */
  function Pipes(name: string): (r: string)
    ensures |r| == |name|
    ensures forall i :: 0 <= i < |name| ==> r[i] == if name[i] == '_' then '|' else name[i]
  {
    if name == "" then "" else [if name[0] == '_' then '|' else name[0]] + Pipes(name[1..])
  }

  function PushName(cfg: ViewConfig, name: string): string {
    if cfg.splitBy != [] then Pipes(name) else name
  }

  function ColumnCells(names: seq<string>, rows: seq<OutRow>, name: string): (vs: seq<Value>)
    requires name in names && forall o :: o in rows ==> |o.cells| == |names|
    ensures |vs| == |rows|
  {
    seq(|rows|, i requires 0 <= i < |rows| => assert rows[i] in rows; rows[i].cells[IndexOf(names, name)])
  }

  // ----- The slice -----

  /** The slice as a value: row paths, and columns in the order they were first pushed. */
  datatype SliceState = SliceState(rowPath: Option<seq<seq<Value>>>, order: seq<string>,
                                   columns: map<string, seq<Value>>)

  const EMPTY_SLICE := SliceState(None, [], map[])

  function Pushed(s: SliceState, name: string, values: seq<Value>): SliceState {
    if values == [] then s
    else if name in s.columns then s.(columns := s.columns[name := s.columns[name] + values])
    else s.(order := s.order + [name], columns := s.columns[name := values])
  }

  function PushedColumns(s: SliceState, cfg: ViewConfig, f: Frame, rows: seq<OutRow>, cols: seq<string>): SliceState
    requires forall c :: c in cols ==> c in f.names
    requires forall o :: o in rows ==> |o.cells| == |f.names|
  {
    if cols == [] then s
    else
      var last := cols[|cols| - 1];
      Pushed(PushedColumns(s, cfg, f, rows, cols[..|cols| - 1]), PushName(cfg, last), ColumnCells(f.names, rows, last))
  }

  ghost predicate FrameFits(f: Frame, cfg: ViewConfig, schema: seq<string>) {
    && (forall o :: o in f.rows ==> |o.cells| == |f.names| && |o.path| == |cfg.groupBy|)
    && forall c :: c in schema ==> c in f.names
  }

  /** What the slice holds after a viewport of frame f is pushed into an empty one. */
  function SliceOf(f: Frame, cfg: ViewConfig, schema: seq<string>, v: Viewport): SliceState
    requires FrameFits(f, cfg, schema)
  {
    var rows := WindowRows(f.rows, v);
    WindowFits(f, cfg, schema, v);
    PushedColumns(SliceState(FinalPaths(|cfg.groupBy|, rows), [], map[]), cfg, f, rows, WindowColumns(schema, v))
  }

  lemma WindowFits(f: Frame, cfg: ViewConfig, schema: seq<string>, v: Viewport)
    requires FrameFits(f, cfg, schema)
    ensures PathsHaveLength(|cfg.groupBy|, WindowRows(f.rows, v))
    ensures forall o :: o in WindowRows(f.rows, v) ==> |o.cells| == |f.names|
    ensures forall c :: c in WindowColumns(schema, v) ==> c in f.names
  {
    forall o | o in WindowRows(f.rows, v) ensures o in f.rows {}
    forall c | c in WindowColumns(schema, v) ensures c in f.names {
      assert c in ViewSchema(schema);
    }
    forall i | 0 <= i < |WindowRows(f.rows, v)| ensures |WindowRows(f.rows, v)[i].path| == |cfg.groupBy| {
      assert WindowRows(f.rows, v)[i] in WindowRows(f.rows, v);
    }
  }

  // ----- The pushes -----

  /** One call that pushes a cell; rows are counted from the window's first. */
  datatype Push =
    | PathCell(level: nat, row: nat, value: Value, gid: nat)
    | DataCell(name: string, row: nat, value: Value)

  function PathPushes(n: nat, rows: seq<OutRow>, m: nat): (ps: seq<Push>)
    requires m < n && PathsHaveLength(n, rows)
    ensures |ps| == |rows|
  {
    seq(|rows|, i requires 0 <= i < |rows| => PathCell(m, i, rows[i].path[m], rows[i].gid))
  }

  function DataPushes(cfg: ViewConfig, names: seq<string>, rows: seq<OutRow>, col: string): (ps: seq<Push>)
    requires col in names && forall o :: o in rows ==> |o.cells| == |names|
    ensures |ps| == |rows|
  {
    var cells := ColumnCells(names, rows, col);
    seq(|rows|, i requires 0 <= i < |rows| => DataCell(PushName(cfg, col), i, cells[i]))
  }

  /** The first k path columns, one after the other. */
  function AllPathPushes(n: nat, rows: seq<OutRow>, k: nat): seq<Push>
    requires k <= n && PathsHaveLength(n, rows)
  {
    if k == 0 then [] else AllPathPushes(n, rows, k - 1) + PathPushes(n, rows, k - 1)
  }

  function AllDataPushes(cfg: ViewConfig, names: seq<string>, rows: seq<OutRow>, cols: seq<string>): seq<Push>
    requires forall c :: c in cols ==> c in names
    requires forall o :: o in rows ==> |o.cells| == |names|
  {
    if cols == [] then []
    else AllDataPushes(cfg, names, rows, cols[..|cols| - 1]) + DataPushes(cfg, names, rows, cols[|cols| - 1])
  }

  /** All pushes of a viewport, column by column. */
  function PushesOf(f: Frame, cfg: ViewConfig, schema: seq<string>, v: Viewport): seq<Push>
    requires FrameFits(f, cfg, schema)
  {
    var rows, n := WindowRows(f.rows, v), |cfg.groupBy|;
    WindowFits(f, cfg, schema, v);
    AllPathPushes(n, rows, n) + AllDataPushes(cfg, f.names, rows, WindowColumns(schema, v))
  }

  datatype CellType = Text | Float | Integer | Boolean | Datetime

  /** Columns that print the same name have the same type, so that one builder takes the cells of both. */
  ghost predicate TypesAgree(cfg: ViewConfig, typeOf: string -> CellType, cols: seq<string>) {
    forall i, j :: 0 <= i < j < |cols| && PushName(cfg, cols[i]) == PushName(cfg, cols[j]) ==>
        typeOf(cols[i]) == typeOf(cols[j])
  }

  class VirtualDataSlice {
    const groupByLen: nat
    var rowPath: Option<seq<seq<Value>>>
    var order: seq<string>
    var columns: map<string, seq<Value>>
    /** The type a column's builder was made for. */
    var types: map<string, CellType>
    /** The cells pushed without an error. */
    ghost var pushes: seq<Push>

    constructor (groupByLen: nat)
      ensures this.groupByLen == groupByLen && IsEmpty()
    {
      this.groupByLen := groupByLen;
      pushes := [];
      rowPath, order, columns, types := None, [], map[], map[];
    }

    function State(): SliceState
      reads this
    {
      SliceState(rowPath, order, columns)
    }

    ghost predicate IsEmpty()
      reads this
    {
      State() == EMPTY_SLICE && types == map[] && pushes == []
    }

    /** Pushes a path cell: shown cells extend their row's path, and skipped rows are padded. */
    method SetPath(level: nat, index: nat, value: Value, gid: nat)
      requires level < groupByLen
      modifies this`rowPath, this`pushes
      ensures pushes == old(pushes) + [PathCell(level, index, value, gid)]
      ensures !Shown(groupByLen, level, gid) ==> rowPath == old(rowPath)
      ensures Shown(groupByLen, level, gid) ==>
                var before := if old(rowPath) == None then [] else old(rowPath).value;
                && rowPath.Some?
                && (index < |before| ==> rowPath.value == before[index := before[index] + [value]])
                && (index >= |before| ==> rowPath.value == before + seq(index - |before|, i => []) + [[value]])
    {
      pushes := pushes + [PathCell(level, index, value, gid)];
      if !Shown(groupByLen, level, gid) { return; }
      var paths := if rowPath == None then [] else rowPath.value;
      if index < |paths| {
        paths := paths[index := paths[index] + [value]];
      } else {
        ghost var before := paths;
        while |paths| < index
          invariant |before| <= |paths| <= index
          invariant paths == before + seq(|paths| - |before|, i => [])
        {
          paths := paths + [[]];
        }
        paths := paths + [[value]];
      }
      rowPath := Some(paths);
    }

    /** Whether a cell of the type may be written to the column. */
    predicate Takes(name: string, cellType: CellType)
      reads this
    {
      name !in types || types[name] == cellType
    }

    /** Appends a cell to its column, which it creates if new; a cell of another type is an error. */
    method SetData(cellType: CellType, name: string, index: nat, value: Value) returns (ok: bool)
      requires types.Keys == columns.Keys
      modifies this`order, this`columns, this`types, this`pushes
      ensures pushes == if ok then old(pushes) + [DataCell(name, index, value)] else old(pushes)
      ensures ok == old(Takes(name, cellType))
      ensures State() == if ok then Pushed(old(State()), name, [value]) else old(State())
      ensures types == (if ok then old(types)[name := cellType] else old(types)) && types.Keys == columns.Keys
    {
      if name !in columns {
        order, columns, types := order + [name], columns[name := []], types[name := cellType];
      }
      if types[name] != cellType { return false; }
      pushes := pushes + [DataCell(name, index, value)];
      columns := columns[name := columns[name] + [value]];
      assert [] + [value] == [value];
      assert name !in old(columns) ==> columns == old(columns)[name := [value]];
      return true;
    }

    method PushPathColumn(rows: seq<OutRow>, m: nat)
      requires m < groupByLen && PathsHaveLength(groupByLen, rows)
      requires rowPath == PathState(groupByLen, rows, m, 0)
      modifies this`rowPath, this`pushes
      ensures rowPath == PathState(groupByLen, rows, m, |rows|)
      ensures pushes == old(pushes) + PathPushes(groupByLen, rows, m)
    {
      ghost var all := PathPushes(groupByLen, rows, m);
      for i := 0 to |rows|
        invariant rowPath == PathState(groupByLen, rows, m, i)
        invariant pushes == old(pushes) + all[..i]
      {
        assert all[..i + 1] == all[..i] + [all[i]];
        PathStep(groupByLen, rows, m, i);
        SetPath(m, i, rows[i].path[m], rows[i].gid);
      }
      assert all[..|rows|] == all;
    }

    method PushDataColumn(cfg: ViewConfig, f: Frame, rows: seq<OutRow>, name: string, cellType: CellType)
      returns (ok: bool)
      requires types.Keys == columns.Keys
      requires name in f.names && forall o :: o in rows ==> |o.cells| == |f.names|
      modifies this`order, this`columns, this`types, this`pushes
      ensures pushes == if ok then old(pushes) + DataPushes(cfg, f.names, rows, name) else old(pushes)
      ensures ok == (rows == [] || old(Takes(PushName(cfg, name), cellType)))
      ensures State() ==
              if ok then Pushed(old(State()), PushName(cfg, name), ColumnCells(f.names, rows, name)) else old(State())
      ensures types == (if ok && rows != [] then old(types)[PushName(cfg, name) := cellType] else old(types))
      ensures types.Keys == columns.Keys
    {
      ghost var all, ps := ColumnCells(f.names, rows, name), DataPushes(cfg, f.names, rows, name);
      for i := 0 to |rows|
        invariant pushes == old(pushes) + ps[..i]
        invariant State() == Pushed(old(State()), PushName(cfg, name), all[..i])
        invariant types == if i > 0 then old(types)[PushName(cfg, name) := cellType] else old(types)
        invariant types.Keys == columns.Keys
        invariant i > 0 ==> old(Takes(PushName(cfg, name), cellType))
      {
        assert rows[i] in rows;
        assert all[..i + 1] == all[..i] + [all[i]] && ps[..i + 1] == ps[..i] + [ps[i]];
        PushedTwice(old(State()), PushName(cfg, name), all[..i], all[i]);
        ok := SetData(cellType, PushName(cfg, name), i, rows[i].cells[IndexOf(f.names, name)]);
        if !ok { return; }
      }
      assert all[..|rows|] == all && ps[..|rows|] == ps;
      return true;
    }
  }

  lemma PushedTwice(s: SliceState, name: string, values: seq<Value>, v: Value)
    ensures Pushed(Pushed(s, name, values), name, [v]) == Pushed(s, name, values + [v])
  {
    if values == [] {
      assert values + [v] == [v];
    } else {
      var before := if name in s.columns then s.columns[name] else [];
      assert before + values + [v] == before + (values + [v]);
      assert s.columns[name := before + values][name := before + values + [v]] ==
          s.columns[name := before + values + [v]];
      assert [] + values == values;
    }
  }

  function PathList(n: nat, rows: seq<OutRow>, m: nat, done: nat): seq<seq<Value>>
    requires m < n && done <= |rows| && PathsHaveLength(n, rows)
  {
    if PathState(n, rows, m, done) == None then [] else PathState(n, rows, m, done).value
  }

  lemma FirstShown(n: nat, o: OutRow)
    requires 0 < n == |o.path|
    ensures ShownPath(n, o, 1) == if Shown(n, 0, o.gid) then [o.path[0]] else []
  {
    assert ShownPath(n, o, 0) == [];
  }

  /** What path column 0 puts in a row that has an entry. */
  function FirstEntry(n: nat, o: OutRow): seq<Value>
    requires 0 < n == |o.path|
  {
    if Shown(n, 0, o.gid) then [o.path[0]] else []
  }

  lemma FirstPathList(n: nat, rows: seq<OutRow>, done: nat)
    requires 0 < n && done <= |rows| && PathsHaveLength(n, rows)
    ensures |PathList(n, rows, 0, done)| == PathRows(n, rows[..done]) <= done
    ensures PathState(n, rows, 0, done) ==
            if PathRows(n, rows[..done]) == 0 then None else Some(PathList(n, rows, 0, done))
    ensures forall j :: 0 <= j < |PathList(n, rows, 0, done)| ==>
        PathList(n, rows, 0, done)[j] == FirstEntry(n, rows[j])
  {
    forall j | 0 <= j < |PathList(n, rows, 0, done)| ensures PathList(n, rows, 0, done)[j] == FirstEntry(n, rows[j]) {
      FirstShown(n, rows[j]);
    }
  }

  lemma PathRowsStep(n: nat, rows: seq<OutRow>, i: nat)
    requires 0 < n && i < |rows|
    ensures PathRows(n, rows[..i + 1]) == if Shown(n, 0, rows[i].gid) then i + 1 else PathRows(n, rows[..i])
    ensures forall j :: PathRows(n, rows[..i]) <= j < i ==> !Shown(n, 0, rows[j].gid)
  {
    var next := rows[..i + 1];
    assert next[..i] == rows[..i] && next[i] == rows[i];
    forall j | PathRows(n, rows[..i]) <= j < i ensures !Shown(n, 0, rows[j].gid) {
      assert rows[..i][j] == rows[j];
    }
  }

  lemma FirstPathStep(n: nat, rows: seq<OutRow>, i: nat)
    requires 0 < n && i < |rows| && PathsHaveLength(n, rows)
    ensures var before, v := PathList(n, rows, 0, i), rows[i].path[0];
            && |before| <= i
            && PathState(n, rows, 0, i + 1) ==
               if Shown(n, 0, rows[i].gid) then Some(before + seq(i - |before|, j => []) + [[v]])
               else PathState(n, rows, 0, i)
  {
    FirstPathList(n, rows, i);
    FirstPathList(n, rows, i + 1);
    PathRowsStep(n, rows, i);
    var before, after := PathList(n, rows, 0, i), PathList(n, rows, 0, i + 1);
    if Shown(n, 0, rows[i].gid) {
      PaddedList(before, after, i, [rows[i].path[0]]);
    } else {
      assert after == before;
    }
  }

  lemma PaddedList(before: seq<seq<Value>>, after: seq<seq<Value>>, i: nat, last: seq<Value>)
    requires |before| <= i && |after| == i + 1 && after[i] == last
    requires forall j :: 0 <= j < |before| ==> after[j] == before[j]
    requires forall j :: |before| <= j < i ==> after[j] == []
    ensures after == before + seq(i - |before|, j => []) + [last]
  {
  }

  lemma LaterPathStep(n: nat, rows: seq<OutRow>, m: nat, i: nat)
    requires 0 < m < n && i < |rows| && PathsHaveLength(n, rows)
    ensures var before, v := PathList(n, rows, m, i), rows[i].path[m];
            && (Shown(n, m, rows[i].gid) ==> i < |before|)
            && PathState(n, rows, m, i + 1) ==
               if Shown(n, m, rows[i].gid) then Some(before[i := before[i] + [v]])
               else PathState(n, rows, m, i)
  {
    var before, after, v := PathList(n, rows, m, i), PathList(n, rows, m, i + 1), rows[i].path[m];
    if Shown(n, m, rows[i].gid) {
      ShownImpliesFirst(n, m, rows[i].gid);
      assert after == before[i := before[i] + [v]];
    } else {
      forall j | 0 <= j < |before| ensures after[j] == before[j] {
        if j == i { assert ShownPath(n, rows[i], m + 1) == ShownPath(n, rows[i], m) + []; }
      }
      assert after == before;
    }
  }

  /** One more path cell moves the row paths from one state to the next. */
  lemma PathStep(n: nat, rows: seq<OutRow>, m: nat, i: nat)
    requires m < n && i < |rows| && PathsHaveLength(n, rows)
    ensures var before, v := PathList(n, rows, m, i), rows[i].path[m];
            PathState(n, rows, m, i + 1) ==
            if !Shown(n, m, rows[i].gid) then PathState(n, rows, m, i)
            else if i < |before| then Some(before[i := before[i] + [v]])
            else Some(before + seq(i - |before|, j => []) + [[v]])
  {
    if m == 0 { FirstPathStep(n, rows, i); } else { LaterPathStep(n, rows, m, i); }
  }

  /** Between two path columns nothing changes. */
  lemma PathColumnsJoin(n: nat, rows: seq<OutRow>, m: nat)
    requires m + 1 < n && PathsHaveLength(n, rows)
    ensures PathState(n, rows, m, |rows|) == PathState(n, rows, m + 1, 0)
  {
    assert rows[..|rows|] == rows;
    assert PathList(n, rows, m, |rows|) == PathList(n, rows, m + 1, 0);
  }

  /** Pushes the path columns, then the data columns, up to the first whose builder has another type. */
  method PushWindow(f: Frame, cfg: ViewConfig, rows: seq<OutRow>, cols: seq<string>, typeOf: string -> CellType,
                    data: VirtualDataSlice)
    returns (ok: bool)
    requires data.groupByLen == |cfg.groupBy| && data.IsEmpty()
    requires PathsHaveLength(|cfg.groupBy|, rows)
    requires forall c :: c in cols ==> c in f.names
    requires forall o :: o in rows ==> |o.cells| == |f.names|
    modifies data
    ensures ok <==> rows == [] || TypesAgree(cfg, typeOf, cols)
    ensures var start := SliceState(FinalPaths(|cfg.groupBy|, rows), [], map[]);
            && (ok ==> data.State() == PushedColumns(start, cfg, f, rows, cols))
            && (ok ==> data.pushes ==
                       AllPathPushes(|cfg.groupBy|, rows, |cfg.groupBy|) + AllDataPushes(cfg, f.names, rows, cols))
            && (!ok ==> IsCutShort(start, cfg, f, rows, cols, typeOf, data.State()))
  {
    PushPaths(cfg, rows, data);
    ok := PushDataColumns(f, cfg, rows, cols, typeOf, data);
  }

  method PushDataColumns(f: Frame, cfg: ViewConfig, rows: seq<OutRow>, cols: seq<string>, typeOf: string -> CellType,
                         data: VirtualDataSlice) returns (ok: bool)
    requires data.types == map[] && data.columns == map[]
    requires forall c :: c in cols ==> c in f.names
    requires forall o :: o in rows ==> |o.cells| == |f.names|
    modifies data`order, data`columns, data`types, data`pushes
    ensures ok <==> rows == [] || TypesAgree(cfg, typeOf, cols)
    ensures ok ==> data.State() == PushedColumns(old(data.State()), cfg, f, rows, cols)
    ensures ok ==> data.pushes == old(data.pushes) + AllDataPushes(cfg, f.names, rows, cols)
    ensures !ok ==> IsCutShort(old(data.State()), cfg, f, rows, cols, typeOf, data.State())
  {
    ghost var start, paths := data.State(), data.pushes;
    for c := 0 to |cols|
      invariant data.pushes == paths + AllDataPushes(cfg, f.names, rows, cols[..c])
      invariant data.State() == PushedColumns(start, cfg, f, rows, cols[..c])
      invariant data.types.Keys == data.columns.Keys
      invariant rows != [] ==> TypesAgree(cfg, typeOf, cols[..c]) && HasTypes(cfg, typeOf, cols[..c], data.types)
    {
      NextColumn(start, paths, cfg, f, rows, cols, c);
      if rows != [] { NextTypes(cfg, typeOf, cols, c, data.types); }
      ok := data.PushDataColumn(cfg, f, rows, cols[c], typeOf(cols[c]));
      if !ok {
        TypesAgreePrefix(cfg, typeOf, cols, c + 1);
        return;
      }
    }
    assert cols[..|cols|] == cols;
    return true;
  }

  lemma NextColumn(start: SliceState, pushes: seq<Push>, cfg: ViewConfig, f: Frame, rows: seq<OutRow>,
                   cols: seq<string>, c: nat)
    requires c < |cols| && forall x :: x in cols ==> x in f.names
    requires forall o :: o in rows ==> |o.cells| == |f.names|
    ensures cols[c] in f.names
    ensures PushedColumns(start, cfg, f, rows, cols[..c + 1]) ==
            Pushed(PushedColumns(start, cfg, f, rows, cols[..c]), PushName(cfg, cols[c]),
                   ColumnCells(f.names, rows, cols[c]))
    ensures pushes + AllDataPushes(cfg, f.names, rows, cols[..c + 1]) ==
            pushes + AllDataPushes(cfg, f.names, rows, cols[..c]) + DataPushes(cfg, f.names, rows, cols[c])
  {
    assert cols[c] in cols;
    assert cols[..c + 1][..c] == cols[..c];
  }

  method PushPaths(cfg: ViewConfig, rows: seq<OutRow>, data: VirtualDataSlice)
    requires data.groupByLen == |cfg.groupBy| && data.IsEmpty()
    requires PathsHaveLength(|cfg.groupBy|, rows)
    modifies data`rowPath, data`pushes
    ensures data.State() == SliceState(FinalPaths(|cfg.groupBy|, rows), [], map[])
    ensures data.pushes == AllPathPushes(|cfg.groupBy|, rows, |cfg.groupBy|)
  {
    var n := |cfg.groupBy|;
    for m := 0 to n
      invariant data.pushes == AllPathPushes(n, rows, m)
      invariant m < n ==> data.rowPath == PathState(n, rows, m, 0)
      invariant m == n ==> data.rowPath == FinalPaths(n, rows)
    {
      data.PushPathColumn(rows, m);
      if m + 1 < n { PathColumnsJoin(n, rows, m); }
    }
  }

  /** The slice holds the columns before the first whose type disagrees with an earlier one's. */
  ghost predicate IsCutShort(start: SliceState, cfg: ViewConfig, f: Frame, rows: seq<OutRow>, cols: seq<string>,
                             typeOf: string -> CellType, s: SliceState)
    requires forall c :: c in cols ==> c in f.names
    requires forall o :: o in rows ==> |o.cells| == |f.names|
  {
    exists k :: 0 <= k < |cols| && TypesAgree(cfg, typeOf, cols[..k]) && !TypesAgree(cfg, typeOf, cols[..k + 1])
      && s == PushedColumns(start, cfg, f, rows, cols[..k])
  }

  /** The builders are those of these columns. */
  ghost predicate HasTypes(cfg: ViewConfig, typeOf: string -> CellType, cols: seq<string>,
                           types: map<string, CellType>) {
    && (forall i :: 0 <= i < |cols| ==>
        PushName(cfg, cols[i]) in types && types[PushName(cfg, cols[i])] == typeOf(cols[i]))
    && (forall x :: x in types ==> x in PushNames(cfg, cols))
  }

  lemma NextTypes(cfg: ViewConfig, typeOf: string -> CellType, cols: seq<string>, c: nat, types: map<string, CellType>)
    requires c < |cols| && TypesAgree(cfg, typeOf, cols[..c]) && HasTypes(cfg, typeOf, cols[..c], types)
    ensures var name := PushName(cfg, cols[c]);
            var fits := name !in types || types[name] == typeOf(cols[c]);
            && (TypesAgree(cfg, typeOf, cols[..c + 1]) <==> fits)
            && (fits ==> HasTypes(cfg, typeOf, cols[..c + 1], types[name := typeOf(cols[c])]))
  {
    assert cols[..c + 1] == cols[..c] + [cols[c]];
    if PushName(cfg, cols[c]) !in types || types[PushName(cfg, cols[c])] == typeOf(cols[c]) {
      FittingType(cfg, typeOf, cols[..c], cols[c], types);
    } else {
      ClashingType(cfg, typeOf, cols[..c], cols[c], types);
    }
  }

  lemma FittingType(cfg: ViewConfig, typeOf: string -> CellType, cols: seq<string>, col: string,
                    types: map<string, CellType>)
    requires TypesAgree(cfg, typeOf, cols) && HasTypes(cfg, typeOf, cols, types)
    requires PushName(cfg, col) !in types || types[PushName(cfg, col)] == typeOf(col)
    ensures TypesAgree(cfg, typeOf, cols + [col]) &&
        HasTypes(cfg, typeOf, cols + [col], types[PushName(cfg, col) := typeOf(col)])
  {
    var next := cols + [col];
    assert PushNames(cfg, next) == PushNames(cfg, cols) + [PushName(cfg, col)];
    forall i, j | 0 <= i < j < |next| && PushName(cfg, next[i]) == PushName(cfg, next[j])
      ensures typeOf(next[i]) == typeOf(next[j])
    {
      assert next[i] == cols[i];
      assert j < |cols| ==> next[j] == cols[j];
    }
  }

  lemma ClashingType(cfg: ViewConfig, typeOf: string -> CellType, cols: seq<string>, col: string,
                     types: map<string, CellType>)
    requires HasTypes(cfg, typeOf, cols, types)
    requires PushName(cfg, col) in types && types[PushName(cfg, col)] != typeOf(col)
    ensures !TypesAgree(cfg, typeOf, cols + [col])
  {
    var i :| 0 <= i < |cols| && PushNames(cfg, cols)[i] == PushName(cfg, col);
    assert (cols + [col])[i] == cols[i] && (cols + [col])[|cols|] == col;
  }

  lemma TypesAgreePrefix(cfg: ViewConfig, typeOf: string -> CellType, cols: seq<string>, k: nat)
    requires k <= |cols| && !TypesAgree(cfg, typeOf, cols[..k])
    ensures !TypesAgree(cfg, typeOf, cols)
  {
    var i, j :| 0 <= i < j < k && PushName(cfg, cols[..k][i]) == PushName(cfg, cols[..k][j])
      && typeOf(cols[..k][i]) != typeOf(cols[..k][j]);
    assert cols[i] == cols[..k][i] && cols[j] == cols[..k][j];
  }

  /**
   * Fills an empty slice with one viewport of a view; an unknown view pushes nothing. It fails exactly
   * if the viewport has rows and two of its columns print the same name with different types.
   */
  method ViewGetData(views: map<string, Frame>, viewName: string, cfg: ViewConfig, schema: seq<string>, v: Viewport,
                     typeOf: string -> CellType, data: VirtualDataSlice) returns (ok: bool)
    requires data.groupByLen == |cfg.groupBy| && data.IsEmpty()
    requires cfg.mode == Total ==> cfg.groupBy == []
    requires viewName in views ==> FrameFits(views[viewName], cfg, schema)
    modifies data
    ensures viewName !in views ==> ok && data.State() == EMPTY_SLICE
    ensures viewName in views ==>
              (ok <==> WindowRows(views[viewName].rows, v) == [] || TypesAgree(cfg, typeOf, WindowColumns(schema, v)))
    ensures viewName in views && ok ==> data.State() == SliceOf(views[viewName], cfg, schema, v)
    ensures viewName in views && ok ==> data.pushes == PushesOf(views[viewName], cfg, schema, v)
  {
    if viewName !in views { return true; }
    var f := views[viewName];
    var end := if v.endRow == 0 then |f.rows| else v.endRow;
    var cols := WindowColumns(schema, v);
    WindowFits(f, cfg, schema, v);
    if Min(end, |f.rows|) <= v.startRow {
      NothingToPush(EMPTY_SLICE, cfg, f, cols);
      NoPushes(|cfg.groupBy|, |cfg.groupBy|, cfg, f.names, cols);
      return true;
    }
    ok := PushWindow(f, cfg, f.rows[v.startRow..Min(end, |f.rows|)], cols, typeOf, data);
  }

  lemma {:induction false} NothingToPush(s: SliceState, cfg: ViewConfig, f: Frame, cols: seq<string>)
    requires forall c :: c in cols ==> c in f.names
    ensures PushedColumns(s, cfg, f, [], cols) == s
  {
    if cols != [] { NothingToPush(s, cfg, f, cols[..|cols| - 1]); }
  }

  lemma {:induction false} NoPushes(n: nat, k: nat, cfg: ViewConfig, names: seq<string>, cols: seq<string>)
    requires k <= n && forall c :: c in cols ==> c in names
    ensures AllPathPushes(n, [], k) == [] && AllDataPushes(cfg, names, [], cols) == []
    decreases k + |cols|
  {
    if k > 0 { NoPushes(n, k - 1, cfg, names, cols); }
    if cols != [] { NoPushes(n, k, cfg, names, cols[..|cols| - 1]); }
  }

  // ----- Reading a slice -----

  /** A row with no path entry has the empty path. */
  function PathOf(s: SliceState, i: nat): seq<Value> {
    if s.rowPath == None || i >= |s.rowPath.value| then [] else s.rowPath.value[i]
  }

  function ColumnOf(s: SliceState, name: string): seq<Value> {
    if name in s.columns then s.columns[name] else []
  }

  lemma {:induction false} UnshownPath(n: nat, r: OutRow, m: nat)
    requires m <= n == |r.path| && n > 0 && !Shown(n, 0, r.gid)
    ensures ShownPath(n, r, m) == []
  {
    if m > 0 {
      UnshownPath(n, r, m - 1);
      if Shown(n, m - 1, r.gid) { ShownImpliesFirst(n, m - 1, r.gid); }
    }
  }

  lemma PathsAreShown(n: nat, rows: seq<OutRow>, s: SliceState, i: nat)
    requires PathsHaveLength(n, rows) && i < |rows| && s.rowPath == FinalPaths(n, rows)
    ensures PathOf(s, i) == ShownPath(n, rows[i], n)
  {
    if n > 0 {
      assert rows[..|rows|] == rows;
      if i >= PathRows(n, rows) { UnshownPath(n, rows[i], n); }
    }
  }

  function PushNames(cfg: ViewConfig, cols: seq<string>): (names: seq<string>)
    ensures |names| == |cols|
  {
    seq(|cols|, j requires 0 <= j < |cols| => PushName(cfg, cols[j]))
  }

  lemma PushNamesInit(cfg: ViewConfig, cols: seq<string>)
    requires cols != [] && Distinct(PushNames(cfg, cols))
    ensures var init := cols[..|cols| - 1];
            && PushNames(cfg, cols) == PushNames(cfg, init) + [PushName(cfg, cols[|cols| - 1])]
            && Distinct(PushNames(cfg, init))
            && PushName(cfg, cols[|cols| - 1]) !in PushNames(cfg, init)
  {
    var names, before := PushNames(cfg, cols), PushNames(cfg, cols[..|cols| - 1]);
    assert names == before + [PushName(cfg, cols[|cols| - 1])];
    forall i | 0 <= i < |before| ensures before[i] != PushName(cfg, cols[|cols| - 1]) {
      assert names[i] != names[|cols| - 1];
    }
    forall i, j | 0 <= i < j < |before| ensures before[i] != before[j] {
      assert names[i] != names[j];
    }
  }

  /** With distinct pushed names, the columns are created in schema order. */
  lemma {:induction false} ColumnOrder(s: SliceState, cfg: ViewConfig, f: Frame, rows: seq<OutRow>, cols: seq<string>)
    requires s.order == [] && s.columns == map[] && rows != []
    requires forall c :: c in cols ==> c in f.names
    requires forall o :: o in rows ==> |o.cells| == |f.names|
    requires Distinct(PushNames(cfg, cols))
    ensures var p := PushedColumns(s, cfg, f, rows, cols);
            && p.rowPath == s.rowPath
            && p.order == PushNames(cfg, cols)
            && forall x :: x in p.columns <==> x in PushNames(cfg, cols)
  {
    if cols != [] {
      PushNamesInit(cfg, cols);
      ColumnOrder(s, cfg, f, rows, cols[..|cols| - 1]);
    }
  }

  /** With distinct pushed names, every column holds exactly its own cells. */
  lemma {:induction false} ColumnsAreCells(s: SliceState, cfg: ViewConfig, f: Frame, rows: seq<OutRow>,
                                           cols: seq<string>, j: nat)
    requires s.order == [] && s.columns == map[] && rows != []
    requires forall c :: c in cols ==> c in f.names
    requires forall o :: o in rows ==> |o.cells| == |f.names|
    requires Distinct(PushNames(cfg, cols)) && j < |cols|
    ensures cols[j] in cols
    ensures ColumnOf(PushedColumns(s, cfg, f, rows, cols), PushName(cfg, cols[j])) ==
        ColumnCells(f.names, rows, cols[j])
  {
    var init := cols[..|cols| - 1];
    PushNamesInit(cfg, cols);
    ColumnOrder(s, cfg, f, rows, init);
    var p, last := PushedColumns(s, cfg, f, rows, init), cols[|init|];
    assert PushName(cfg, cols[j]) == PushName(cfg, last) <==> j == |init| by {
      assert PushNames(cfg, cols)[j] == PushName(cfg, cols[j]) && PushNames(cfg, cols)[|init|] == PushName(cfg, last);
    }
    PushedColumn(p, PushName(cfg, last), ColumnCells(f.names, rows, last), PushName(cfg, cols[j]));
    if j < |init| {
      assert init[j] == cols[j];
      ColumnsAreCells(s, cfg, f, rows, init, j);
    }
  }

  lemma PushedColumn(s: SliceState, name: string, values: seq<Value>, other: string)
    ensures ColumnOf(Pushed(s, name, values), other) == ColumnOf(s, other) + if other == name then values else []
  {
  }

  // ----- Window tiling -----

  lemma SlicesTile<T>(xs: seq<T>, a: nat, b: nat, c: nat)
    requires a <= b <= c
    ensures Slice(xs, a, b) + Slice(xs, b, c) == Slice(xs, a, c)
  {
  }

  /**
   * Reading rows [a, b) and then [b, c) pushes exactly what reading [a, c) does: every column is
   * the two parts joined, and every row path is found in the part its row falls in, shifted by the
   * number of rows the first window really had. An end row of 0 reads to the end.
   */
  lemma RowWindowsTile(f: Frame, cfg: ViewConfig, schema: seq<string>, a: nat, b: nat, c: nat, v: Viewport, j: nat,
                       i: nat)
    requires FrameFits(f, cfg, schema)
    requires a < b && (b < c || c == 0)
    requires Distinct(PushNames(cfg, WindowColumns(schema, v)))
    ensures var cols := WindowColumns(schema, v);
            var first := SliceOf(f, cfg, schema, v.(startRow := a, endRow := b));
            var second := SliceOf(f, cfg, schema, v.(startRow := b, endRow := c));
            var whole := SliceOf(f, cfg, schema, v.(startRow := a, endRow := c));
            var shift := |WindowRows(f.rows, v.(startRow := a, endRow := b))|;
            && (j < |cols| ==>
                 var name := PushName(cfg, cols[j]);
                 ColumnOf(whole, name) == ColumnOf(first, name) + ColumnOf(second, name))
            && (i < |WindowRows(f.rows, v.(startRow := a, endRow := c))| ==>
                 PathOf(whole, i) == if i < shift then PathOf(first, i) else PathOf(second, i - shift))
  {
    var v1, v2, v3 := v.(startRow := a, endRow := b), v.(startRow := b, endRow := c), v.(startRow := a, endRow := c);
    WindowsJoin(f.rows, a, b, c, v);
    SliceReads(f, cfg, schema, v1, j);
    SliceReads(f, cfg, schema, v2, j);
    SliceReads(f, cfg, schema, v3, j);
    if j < |WindowColumns(schema, v)| {
      CellsJoin(f.names, WindowRows(f.rows, v1), WindowRows(f.rows, v2), WindowColumns(schema, v)[j]);
    }
  }

  lemma WindowsJoin(rows: seq<OutRow>, a: nat, b: nat, c: nat, v: Viewport)
    requires a < b && (b < c || c == 0)
    ensures WindowRows(rows, v.(startRow := a, endRow := c)) ==
            WindowRows(rows, v.(startRow := a, endRow := b)) + WindowRows(rows, v.(startRow := b, endRow := c))
  {
    if !(c == 0 && b > |rows|) { SlicesTile(rows, a, b, if c == 0 then |rows| else c); }
  }

  lemma CellsJoin(names: seq<string>, a: seq<OutRow>, b: seq<OutRow>, name: string)
    requires name in names
    requires (forall o :: o in a ==> |o.cells| == |names|) && forall o :: o in b ==> |o.cells| == |names|
    ensures forall o :: o in a + b ==> |o.cells| == |names|
    ensures ColumnCells(names, a + b, name) == ColumnCells(names, a, name) + ColumnCells(names, b, name)
  {
  }

  /** The j-th column and all the row paths of one window. */
  lemma SliceReads(f: Frame, cfg: ViewConfig, schema: seq<string>, v: Viewport, j: nat)
    requires FrameFits(f, cfg, schema)
    requires Distinct(PushNames(cfg, WindowColumns(schema, v)))
    ensures var cols, rows, s := WindowColumns(schema, v), WindowRows(f.rows, v), SliceOf(f, cfg, schema, v);
            && PathsHaveLength(|cfg.groupBy|, rows)
            && (forall o :: o in rows ==> |o.cells| == |f.names|)
            && (forall c :: c in cols ==> c in f.names)
            && (j < |cols| ==>
                cols[j] in cols && ColumnOf(s, PushName(cfg, cols[j])) == ColumnCells(f.names, rows, cols[j]))
            && forall i :: 0 <= i < |rows| ==> PathOf(s, i) == ShownPath(|cfg.groupBy|, rows[i], |cfg.groupBy|)
  {
    var cols, rows, n := WindowColumns(schema, v), WindowRows(f.rows, v), |cfg.groupBy|;
    var start := SliceState(FinalPaths(n, rows), [], map[]);
    WindowFits(f, cfg, schema, v);
    if rows == [] {
      NothingToPush(start, cfg, f, cols);
    } else {
      ColumnOrder(start, cfg, f, rows, cols);
      if j < |cols| { ColumnsAreCells(start, cfg, f, rows, cols, j); }
      forall i | 0 <= i < |rows| ensures PathOf(SliceOf(f, cfg, schema, v), i) == ShownPath(n, rows[i], n) {
        PathsAreShown(n, rows, SliceOf(f, cfg, schema, v), i);
      }
    }
  }

  /** How many rows of a frame of `height` rows a viewport reads. */
  function WindowHeight(height: nat, v: Viewport): nat {
    var end := if v.endRow == 0 || v.endRow > height then height else v.endRow;
    if v.startRow >= end then 0 else end - v.startRow
  }

  lemma WindowRowAt(rows: seq<OutRow>, v: Viewport)
    ensures |WindowRows(rows, v)| == WindowHeight(|rows|, v)
    ensures forall i :: 0 <= i < WindowHeight(|rows|, v) ==> WindowRows(rows, v)[i] == rows[v.startRow + i]
  {
  }

  lemma CellsInPlace(names: seq<string>, rows: seq<OutRow>, j: nat, i: nat)
    requires Distinct(names) && j < |names| && i < |rows| && forall o :: o in rows ==> |o.cells| == |names|
    ensures |rows[i].cells| == |names|
    ensures |ColumnCells(names, rows, names[j])| == |rows| && ColumnCells(names, rows, names[j])[i] == rows[i].cells[j]
  {
    var at := IndexOf(names, names[j]);
    assert !(at < j) && !(j < at);
    assert rows[i] in rows;
  }

  lemma DistinctNames(cfg: ViewConfig, names: seq<string>)
    requires Distinct(PushNames(cfg, names))
    ensures Distinct(names)
  {
    forall i, j | 0 <= i < j < |names| ensures names[i] != names[j] {
      assert PushNames(cfg, names)[i] != PushNames(cfg, names)[j];
    }
  }

  /**
   * The slice shows each cell in its place: under the pushed name of the frame's j-th column, the i-th
   * cell is that of the frame's row i after the viewport's first.
   */
  lemma SliceShowsCell(f: Frame, cfg: ViewConfig, v: Viewport, i: nat, j: nat)
    requires FrameFits(f, cfg, f.names) && ViewSchema(f.names) == f.names && Distinct(PushNames(cfg, f.names))
    requires v.startCol <= j < |f.names| && (v.endCol == None || j < v.endCol.value)
    requires i < WindowHeight(|f.rows|, v)
    ensures |f.rows[v.startRow + i].cells| == |f.names|
    ensures var column := ColumnOf(SliceOf(f, cfg, f.names, v), PushName(cfg, f.names[j]));
            |column| == WindowHeight(|f.rows|, v) && column[i] == f.rows[v.startRow + i].cells[j]
  {
    var cols, rows := WindowColumns(f.names, v), WindowRows(f.rows, v);
    DistinctNames(cfg, f.names);
    WindowRowAt(f.rows, v);
    WindowNames(cfg, f.names, v);
    SliceReads(f, cfg, f.names, v, j - v.startCol);
    CellsInPlace(f.names, rows, j, i);
  }

  lemma WindowNames(cfg: ViewConfig, names: seq<string>, v: Viewport)
    requires ViewSchema(names) == names && Distinct(PushNames(cfg, names))
    ensures var cols := WindowColumns(names, v);
            && Distinct(PushNames(cfg, cols))
            && (forall j :: v.startCol <= j < |names| && (v.endCol == None || j < v.endCol.value) ==>
                  j - v.startCol < |cols| && cols[j - v.startCol] == names[j])
  {
    var end := if v.endCol == None then |names| else Min(v.endCol.value, |names|);
    if v.startCol < end { DistinctPart(cfg, names, v.startCol, end); }
  }

  lemma DistinctPart(cfg: ViewConfig, names: seq<string>, lo: nat, hi: nat)
    requires lo <= hi <= |names| && Distinct(PushNames(cfg, names))
    ensures Distinct(PushNames(cfg, names[lo..hi]))
  {
    var all, part := PushNames(cfg, names), PushNames(cfg, names[lo..hi]);
    forall a, b | 0 <= a < b < |part| ensures part[a] != part[b] {
      assert all[lo + a] != all[lo + b];
    }
  }

  lemma WindowColumnsJoin(schema: seq<string>, v: Viewport, a: nat, b: nat, c: Option<nat>)
    requires a <= b && (c == None || b <= c.value)
    ensures WindowColumns(schema, v.(startCol := a, endCol := c)) ==
            WindowColumns(schema, v.(startCol := a, endCol := Some(b))) +
                WindowColumns(schema, v.(startCol := b, endCol := c))
  {
    var names := ViewSchema(schema);
    if !(c == None && b > |names|) { SlicesTile(names, a, b, if c == None then |names| else c.value); }
  }

  lemma PushNamesJoin(cfg: ViewConfig, a: seq<string>, b: seq<string>)
    requires Distinct(PushNames(cfg, a + b))
    ensures PushNames(cfg, a + b) == PushNames(cfg, a) + PushNames(cfg, b)
    ensures Distinct(PushNames(cfg, a)) && Distinct(PushNames(cfg, b))
  {
    var all, x, y := PushNames(cfg, a + b), PushNames(cfg, a), PushNames(cfg, b);
    assert all == x + y;
    forall i, j | 0 <= i < j < |x| ensures x[i] != x[j] { assert all[i] != all[j]; }
    forall i, j | 0 <= i < j < |y| ensures y[i] != y[j] { assert all[|x| + i] != all[|x| + j]; }
  }

  /** The order of a window's columns: none at all if it has no rows. */
  lemma SliceOrder(f: Frame, cfg: ViewConfig, schema: seq<string>, v: Viewport)
    requires FrameFits(f, cfg, schema)
    requires Distinct(PushNames(cfg, WindowColumns(schema, v)))
    ensures SliceOf(f, cfg, schema, v).order ==
            if WindowRows(f.rows, v) == [] then [] else PushNames(cfg, WindowColumns(schema, v))
  {
    var cols, rows := WindowColumns(schema, v), WindowRows(f.rows, v);
    var start := SliceState(FinalPaths(|cfg.groupBy|, rows), [], map[]);
    WindowFits(f, cfg, schema, v);
    if rows == [] { NothingToPush(start, cfg, f, cols); } else { ColumnOrder(start, cfg, f, rows, cols); }
  }

  /**
   * Reading columns [a, b) and then [b, c) pushes exactly what reading [a, c) does: every column is
   * found in the part it falls in, the columns keep their order, and each part has all the row paths.
   * An absent end column reads to the end.
   */
  lemma ColumnWindowsTile(f: Frame, cfg: ViewConfig, schema: seq<string>, v: Viewport, a: nat, b: nat, c: Option<nat>,
                          j: nat, i: nat)
    requires FrameFits(f, cfg, schema)
    requires a <= b && (c == None || b <= c.value)
    requires Distinct(PushNames(cfg, WindowColumns(schema, v.(startCol := a, endCol := c))))
    ensures var v1, v2 := v.(startCol := a, endCol := Some(b)), v.(startCol := b, endCol := c);
            var cols := WindowColumns(schema, v.(startCol := a, endCol := c));
            var first, second := SliceOf(f, cfg, schema, v1), SliceOf(f, cfg, schema, v2);
            var whole := SliceOf(f, cfg, schema, v.(startCol := a, endCol := c));
            && whole.order == first.order + second.order
            && (j < |cols| ==>
                 var name := PushName(cfg, cols[j]);
                 ColumnOf(whole, name) == ColumnOf(if j < |WindowColumns(schema, v1)| then first else second, name))
            && (i < |WindowRows(f.rows, v)| ==> PathOf(first, i) == PathOf(second, i) == PathOf(whole, i))
  {
    var v1, v2, v3 := v.(startCol := a, endCol := Some(b)), v.(startCol := b, endCol := c),
        v.(startCol := a, endCol := c);
    WindowColumnsJoin(schema, v, a, b, c);
    PushNamesJoin(cfg, WindowColumns(schema, v1), WindowColumns(schema, v2));
    OrdersJoin(f, cfg, schema, v1, v2, v3);
    if j < |WindowColumns(schema, v1)| {
      SameColumn(f, cfg, schema, v1, v3, j, j);
    } else {
      SameColumn(f, cfg, schema, v2, v3, j - |WindowColumns(schema, v1)|, j);
    }
    SamePath(f, cfg, schema, v1, v3, i);
    SamePath(f, cfg, schema, v2, v3, i);
  }

  lemma OrdersJoin(f: Frame, cfg: ViewConfig, schema: seq<string>, v1: Viewport, v2: Viewport, v3: Viewport)
    requires FrameFits(f, cfg, schema)
    requires WindowRows(f.rows, v1) == WindowRows(f.rows, v2) == WindowRows(f.rows, v3)
    requires Distinct(PushNames(cfg, WindowColumns(schema, v1))) && Distinct(PushNames(cfg, WindowColumns(schema, v2)))
    requires Distinct(PushNames(cfg, WindowColumns(schema, v3)))
    requires PushNames(cfg, WindowColumns(schema, v3)) ==
        PushNames(cfg, WindowColumns(schema, v1)) + PushNames(cfg, WindowColumns(schema, v2))
    ensures SliceOf(f, cfg, schema, v3).order == SliceOf(f, cfg, schema, v1).order + SliceOf(f, cfg, schema, v2).order
  {
    SliceOrder(f, cfg, schema, v1);
    SliceOrder(f, cfg, schema, v2);
    SliceOrder(f, cfg, schema, v3);
  }

  /** Two viewports of the same rows show a column they both have alike. */
  lemma SameColumn(f: Frame, cfg: ViewConfig, schema: seq<string>, v: Viewport, w: Viewport, j: nat, m: nat)
    requires FrameFits(f, cfg, schema) && v.startRow == w.startRow && v.endRow == w.endRow
    requires Distinct(PushNames(cfg, WindowColumns(schema, v))) && Distinct(PushNames(cfg, WindowColumns(schema, w)))
    requires m < |WindowColumns(schema, w)| ==>
               j < |WindowColumns(schema, v)| && WindowColumns(schema, v)[j] == WindowColumns(schema, w)[m]
    ensures m < |WindowColumns(schema, w)| ==>
              var name := PushName(cfg, WindowColumns(schema, w)[m]);
              ColumnOf(SliceOf(f, cfg, schema, v), name) == ColumnOf(SliceOf(f, cfg, schema, w), name)
  {
    SliceReads(f, cfg, schema, v, j);
    SliceReads(f, cfg, schema, w, m);
  }

  lemma SamePath(f: Frame, cfg: ViewConfig, schema: seq<string>, v: Viewport, w: Viewport, i: nat)
    requires FrameFits(f, cfg, schema) && v.startRow == w.startRow && v.endRow == w.endRow
    requires Distinct(PushNames(cfg, WindowColumns(schema, v))) && Distinct(PushNames(cfg, WindowColumns(schema, w)))
    ensures i < |WindowRows(f.rows, w)| ==>
              PathOf(SliceOf(f, cfg, schema, v), i) == PathOf(SliceOf(f, cfg, schema, w), i)
  {
    SliceReads(f, cfg, schema, v, 0);
    SliceReads(f, cfg, schema, w, 0);
  }

  // ----- Tiling of the pushes -----

  function Shifted(ps: seq<Push>, k: nat): (r: seq<Push>)
    ensures |r| == |ps|
  {
    seq(|ps|, i requires 0 <= i < |ps| => ps[i].(row := ps[i].row + k))
  }

  /**
   * Whatever names the columns print: for each path column and each data column, the cells pushed for
   * rows [a, b) followed by those for [b, c), moved down by the number of rows the first window had,
   * are those pushed for [a, c).
   */
  lemma RowPushesTile(f: Frame, cfg: ViewConfig, schema: seq<string>, a: nat, b: nat, c: nat, v: Viewport, m: nat,
                      col: string)
    requires FrameFits(f, cfg, schema) && (b < c || c == 0) && a < b
    ensures var n := |cfg.groupBy|;
            var first := WindowRows(f.rows, v.(startRow := a, endRow := b));
            var second := WindowRows(f.rows, v.(startRow := b, endRow := c));
            var whole := WindowRows(f.rows, v.(startRow := a, endRow := c));
            && PathsHaveLength(n, first) && PathsHaveLength(n, second) && PathsHaveLength(n, whole)
            && (m < n ==>
                PathPushes(n, whole, m) == PathPushes(n, first, m) + Shifted(PathPushes(n, second, m), |first|))
            && (forall o :: o in first || o in second || o in whole ==> |o.cells| == |f.names|)
            && (col in f.names ==>
                DataPushes(cfg, f.names, whole, col) ==
                DataPushes(cfg, f.names, first, col) + Shifted(DataPushes(cfg, f.names, second, col), |first|))
  {
    var v1, v2 := v.(startRow := a, endRow := b), v.(startRow := b, endRow := c);
    WindowFits(f, cfg, schema, v1);
    WindowFits(f, cfg, schema, v2);
    WindowFits(f, cfg, schema, v.(startRow := a, endRow := c));
    WindowsJoin(f.rows, a, b, c, v);
    var first, second := WindowRows(f.rows, v1), WindowRows(f.rows, v2);
    if m < |cfg.groupBy| { PathPushesJoin(|cfg.groupBy|, first, second, m); }
    if col in f.names { DataPushesJoin(cfg, f.names, first, second, col); }
  }

  lemma PathPushesJoin(n: nat, a: seq<OutRow>, b: seq<OutRow>, m: nat)
    requires m < n && PathsHaveLength(n, a) && PathsHaveLength(n, b) && PathsHaveLength(n, a + b)
    ensures PathPushes(n, a + b, m) == PathPushes(n, a, m) + Shifted(PathPushes(n, b, m), |a|)
  {
  }

  lemma DataPushesJoin(cfg: ViewConfig, names: seq<string>, a: seq<OutRow>, b: seq<OutRow>, col: string)
    requires col in names
    requires (forall o :: o in a ==> |o.cells| == |names|) && forall o :: o in b ==> |o.cells| == |names|
    requires forall o :: o in a + b ==> |o.cells| == |names|
    ensures DataPushes(cfg, names, a + b, col) ==
            DataPushes(cfg, names, a, col) + Shifted(DataPushes(cfg, names, b, col), |a|)
  {
    CellsJoin(names, a, b, col);
  }

  lemma {:induction false} DataColumnsJoin(cfg: ViewConfig, names: seq<string>, rows: seq<OutRow>, a: seq<string>,
                                           b: seq<string>)
    requires forall c :: c in a + b ==> c in names
    requires forall o :: o in rows ==> |o.cells| == |names|
    ensures (forall c :: c in a ==> c in names) && forall c :: c in b ==> c in names
    ensures AllDataPushes(cfg, names, rows, a + b) ==
            AllDataPushes(cfg, names, rows, a) + AllDataPushes(cfg, names, rows, b)
    decreases |b|
  {
    assert forall c :: c in a || c in b ==> c in a + b;
    if b == [] {
      assert a + b == a;
    } else {
      assert (a + b)[..|a + b| - 1] == a + b[..|b| - 1];
      DataColumnsJoin(cfg, names, rows, a, b[..|b| - 1]);
    }
  }

  /** A window of columns [a, c) pushes its paths, then the data cells of [a, b), then those of [b, c). */
  lemma ColumnPushesTile(f: Frame, cfg: ViewConfig, schema: seq<string>, v: Viewport, a: nat, b: nat, c: Option<nat>)
    requires FrameFits(f, cfg, schema) && a <= b && (c == None || b <= c.value)
    ensures var n, rows := |cfg.groupBy|, WindowRows(f.rows, v);
            var v1, v2 := v.(startCol := a, endCol := Some(b)), v.(startCol := b, endCol := c);
            var cols1, cols2 := WindowColumns(schema, v1), WindowColumns(schema, v2);
            && PathsHaveLength(n, rows) && (forall o :: o in rows ==> |o.cells| == |f.names|)
            && (forall x :: x in cols1 ==> x in f.names) && (forall x :: x in cols2 ==> x in f.names)
            && var paths := AllPathPushes(n, rows, n);
            var data1, data2 := AllDataPushes(cfg, f.names, rows, cols1), AllDataPushes(cfg, f.names, rows, cols2);
            && PushesOf(f, cfg, schema, v1) == paths + data1
            && PushesOf(f, cfg, schema, v2) == paths + data2
            && PushesOf(f, cfg, schema, v.(startCol := a, endCol := c)) == paths + data1 + data2
  {
    var v1, v2, v3 := v.(startCol := a, endCol := Some(b)), v.(startCol := b, endCol := c),
        v.(startCol := a, endCol := c);
    WindowColumnsJoin(schema, v, a, b, c);
    WindowFits(f, cfg, schema, v1);
    WindowFits(f, cfg, schema, v2);
    WindowFits(f, cfg, schema, v3);
    DataColumnsJoin(cfg, f.names, WindowRows(f.rows, v), WindowColumns(schema, v1), WindowColumns(schema, v2));
  }

  /** Two columns that print one name share its column: all cells of the first, then all of the second. */
  lemma SharedColumn(s: SliceState, cfg: ViewConfig, f: Frame, rows: seq<OutRow>, x: string, y: string)
    requires s.columns == map[] && x in f.names && y in f.names && PushName(cfg, x) == PushName(cfg, y)
    requires forall o :: o in rows ==> |o.cells| == |f.names|
    ensures ColumnOf(PushedColumns(s, cfg, f, rows, [x, y]), PushName(cfg, x)) ==
            ColumnCells(f.names, rows, x) + ColumnCells(f.names, rows, y)
  {
    assert [x, y][..1] == [x] && [x][..0] == [];
    assert PushedColumns(s, cfg, f, rows, []) == s;
    var name := PushName(cfg, x);
    PushedColumn(s, name, ColumnCells(f.names, rows, x), name);
    PushedColumn(PushedColumns(s, cfg, f, rows, [x]), name, ColumnCells(f.names, rows, y), name);
    assert [] + ColumnCells(f.names, rows, x) == ColumnCells(f.names, rows, x);
  }

  /**
   * So the slices of such columns tile by rows exactly if the first column's later cells and the second
   * one's earlier cells commute as lists.
   */
  lemma SharedColumnTilesExactly(s: SliceState, cfg: ViewConfig, f: Frame, a: seq<OutRow>, b: seq<OutRow>, x: string,
                                 y: string)
    requires s.columns == map[] && x in f.names && y in f.names && PushName(cfg, x) == PushName(cfg, y)
    requires (forall o :: o in a ==> |o.cells| == |f.names|) && forall o :: o in b ==> |o.cells| == |f.names|
    ensures forall o :: o in a + b ==> |o.cells| == |f.names|
    ensures var name := PushName(cfg, x);
            ColumnOf(PushedColumns(s, cfg, f, a + b, [x, y]), name) ==
            ColumnOf(PushedColumns(s, cfg, f, a, [x, y]), name) + ColumnOf(PushedColumns(s, cfg, f, b, [x, y]), name)
            <==>
            ColumnCells(f.names, b, x) + ColumnCells(f.names, a, y) ==
            ColumnCells(f.names, a, y) + ColumnCells(f.names, b, x)
  {
    assert forall o :: o in a + b ==> |o.cells| == |f.names|;
    SharedColumn(s, cfg, f, a, x, y);
    SharedColumn(s, cfg, f, b, x, y);
    SharedColumn(s, cfg, f, a + b, x, y);
    CellsJoin(f.names, a, b, x);
    CellsJoin(f.names, a, b, y);
    MiddlesCommute(ColumnCells(f.names, a, x), ColumnCells(f.names, b, x),
                   ColumnCells(f.names, a, y), ColumnCells(f.names, b, y));
  }

  lemma MiddlesCommute(xa: seq<Value>, xb: seq<Value>, ya: seq<Value>, yb: seq<Value>)
    ensures (xa + xb) + (ya + yb) == (xa + ya) + (xb + yb) <==> xb + ya == ya + xb
  {
    EndsCancel(xa, xb + ya, ya + xb, yb);
    assert (xa + xb) + (ya + yb) == xa + (xb + ya) + yb;
    assert (xa + ya) + (xb + yb) == xa + (ya + xb) + yb;
  }

  /** Split values `a_b` and `a|b` print the same name, so a view split by them does not tile by rows. */
  lemma CollidingSplitsDoNotTile(cfg: ViewConfig, s: SliceState, one: Value, two: Value)
    requires cfg.splitBy != [] && s.columns == map[] && one != two
    ensures var f := Frame(["a_b_v", "a|b_v"], []);
            var name := PushName(cfg, "a_b_v");
            var first, second := [OutRow(0, [], [one, one])], [OutRow(0, [], [two, two])];
            && PushName(cfg, "a|b_v") == name
            && ColumnOf(PushedColumns(s, cfg, f, first + second, f.names), name) !=
               ColumnOf(PushedColumns(s, cfg, f, first, f.names), name) +
               ColumnOf(PushedColumns(s, cfg, f, second, f.names), name)
  {
    var f := Frame(["a_b_v", "a|b_v"], []);
    var x, y := "a_b_v", "a|b_v";
    var first, second := [OutRow(0, [], [one, one])], [OutRow(0, [], [two, two])];
    assert Pipes(x) == Pipes(y);
    SharedColumnTilesExactly(s, cfg, f, first, second, x, y);
    assert (ColumnCells(f.names, second, x) + ColumnCells(f.names, first, y))[0] == two;
    assert (ColumnCells(f.names, first, y) + ColumnCells(f.names, second, x))[0] == one;
  }
}
