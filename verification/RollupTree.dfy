/** What the rollup rows mean: they are the nodes of the group tree, and sorting by path walks it. */
module RollupTree {
  import opened Common
  import opened Values
  import opened Aggregates
  import opened Tables
  import opened Frames
  import opened Planner

  // ----- Nodes of the group tree -----

  ghost predicate NonNullKeys(rows: seq<Row>, gb: seq<string>) {
    forall r, c :: r in rows && c in gb ==> Get(r, c) != Null
  }

  /** A node is the root, or a key that some row has in the first |key| group columns. */
  ghost predicate IsNode(rows: seq<Row>, gb: seq<string>, key: seq<Value>) {
    |key| <= |gb| && (key == [] || exists r :: r in rows && KeyOf(r, gb[..|key|]) == key)
  }

  /** The grouping id of k active groups is 2^n - 2^k, so it determines k. */
  lemma {:induction false} GroupingIdClosedForm(n: nat, k: nat)
    requires k <= n
    ensures GroupingId(n, k) + Pow2(k) == Pow2(n)
    decreases n - k
  {
    if k < n { GroupingIdClosedForm(n, k + 1); }
  }

  lemma {:induction false} Pow2Grows(a: nat, b: nat)
    requires a < b
    ensures Pow2(a) < Pow2(b)
    decreases b
  {
    if a < b - 1 { Pow2Grows(a, b - 1); }
  }

  lemma GroupingIdInjective(n: nat, j: nat, k: nat)
    requires j <= n && k <= n
    ensures GroupingId(n, j) == GroupingId(n, k) <==> j == k
    ensures GroupingId(n, k) == 0 <==> k == n
  {
    GroupingIdClosedForm(n, j);
    GroupingIdClosedForm(n, k);
    if j < k { Pow2Grows(j, k); }
    if k < j { Pow2Grows(k, j); }
    if k < n { Pow2Grows(k, n); }
  }

  lemma KeyHasNoNull(rows: seq<Row>, gb: seq<string>, key: seq<Value>)
    requires NonNullKeys(rows, gb) && IsNode(rows, gb, key)
    ensures Null !in key
  {
    if key != [] {
      var r :| r in rows && KeyOf(r, gb[..|key|]) == key;
      forall i | 0 <= i < |key| ensures key[i] != Null {
        assert key[i] == Get(r, gb[i]) && gb[i] in gb;
      }
    }
  }

  /** A path with its nulls stripped is the key it came from. */
  lemma PathDeterminesKey(a: seq<Value>, b: seq<Value>, n: nat)
    requires |a| <= n && |b| <= n && Null !in a && Null !in b
    requires a + Nulls(n - |a|) == b + Nulls(n - |b|)
    ensures a == b
  {
    var p := a + Nulls(n - |a|);
    assert forall i :: 0 <= i < n ==> (p[i] == Null <==> i >= |a|) && (p[i] == Null <==> i >= |b|);
    assert |a| < n ==> p[|a|] == Null;
    assert |b| < n ==> p[|b|] == Null;
    assert p[..|a|] == a && p[..|b|] == b;
  }

  // ----- Every node has exactly one row -----

  /** A row of some node whose key has between lo and hi values. */
  ghost predicate NodeBetween(rows: seq<Row>, gb: seq<string>, exprs: seq<AggExpr>, lo: nat, hi: nat, o: OutRow) {
    exists key {:trigger NodeRow(rows, gb, exprs, key)} ::
        IsNode(rows, gb, key) && lo <= |key| <= hi && o == NodeRow(rows, gb, exprs, key)
  }

  lemma LevelRowIsNode(rows: seq<Row>, gb: seq<string>, exprs: seq<AggExpr>, k: nat, o: OutRow)
    requires 0 < k <= |gb|
    ensures o in LevelRows(rows, gb, exprs, k) ==> NodeBetween(rows, gb, exprs, k, k, o)
  {
    if o !in LevelRows(rows, gb, exprs, k) { return; }
    var level, keys := LevelRows(rows, gb, exprs, k), GroupKeys(rows, gb[..k]);
    KeysHaveLength(rows, gb[..k]);
    var i :| 0 <= i < |level| && level[i] == o;
    assert keys[i] in keys;
    assert IsNode(rows, gb, keys[i]) && o == NodeRow(rows, gb, exprs, keys[i]);
  }

  lemma NodeIsInLevel(rows: seq<Row>, gb: seq<string>, exprs: seq<AggExpr>, k: nat, o: OutRow)
    requires 0 < k <= |gb| && NodeBetween(rows, gb, exprs, k, k, o)
    ensures o in LevelRows(rows, gb, exprs, k)
  {
    var level, keys := LevelRows(rows, gb, exprs, k), GroupKeys(rows, gb[..k]);
    KeysHaveLength(rows, gb[..k]);
    var key :| IsNode(rows, gb, key) && k <= |key| <= k && o == NodeRow(rows, gb, exprs, key);
    assert key in keys;
    var i :| 0 <= i < |keys| && keys[i] == key;
    assert level[i] == NodeRow(rows, gb, exprs, key);
  }

  lemma LevelRowsAreNodes(rows: seq<Row>, gb: seq<string>, exprs: seq<AggExpr>, k: nat)
    requires k <= |gb|
    ensures forall o :: o in LevelRows(rows, gb, exprs, k) <==> NodeBetween(rows, gb, exprs, k, k, o)
    ensures Distinct(LevelRows(rows, gb, exprs, k))
  {
    var level := LevelRows(rows, gb, exprs, k);
    if k == 0 {
      assert IsNode(rows, gb, []);
    } else {
      forall o ensures o in level <==> NodeBetween(rows, gb, exprs, k, k, o) {
        LevelRowIsNode(rows, gb, exprs, k, o);
        if NodeBetween(rows, gb, exprs, k, k, o) { NodeIsInLevel(rows, gb, exprs, k, o); }
      }
      LevelRowsDistinct(rows, gb, exprs, k);
    }
  }

  lemma LevelRowsDistinct(rows: seq<Row>, gb: seq<string>, exprs: seq<AggExpr>, k: nat)
    requires 0 < k <= |gb|
    ensures Distinct(LevelRows(rows, gb, exprs, k))
  {
    var level, keys := LevelRows(rows, gb, exprs, k), GroupKeys(rows, gb[..k]);
    KeysHaveLength(rows, gb[..k]);
    forall i, j | 0 <= i < j < |level| ensures level[i] != level[j] {
      assert keys[i] in keys && keys[j] in keys;
      assert level[i].path[..k] == keys[i] && level[j].path[..k] == keys[j];
    }
  }

  /** Rows of different levels differ in their grouping ids. */
  lemma LevelsDisjoint(rows: seq<Row>, gb: seq<string>, exprs: seq<AggExpr>, j: nat, k: nat, o: OutRow)
    requires j <= |gb| && k <= |gb| && j != k && NodeBetween(rows, gb, exprs, j, j, o)
    ensures !NodeBetween(rows, gb, exprs, k, k, o)
  {
    GroupingIdInjective(|gb|, j, k);
    assert o.gid == GroupingId(|gb|, j);
  }

  lemma DistinctConcat<T>(a: seq<T>, b: seq<T>)
    requires Distinct(a) && Distinct(b) && forall x :: x in a ==> x !in b
    ensures Distinct(a + b)
  {
    var s := a + b;
    forall i, j | 0 <= i < j < |s| ensures s[i] != s[j] {
      if i < |a| <= j { assert s[i] in a && s[j] in b; }
    }
  }

  lemma {:induction false} ConcatMembers<T>(frames: seq<seq<T>>, x: T)
    ensures x in Concat(frames) <==> exists i :: 0 <= i < |frames| && x in frames[i]
  {
    if frames != [] { ConcatMembers(frames[..|frames| - 1], x); }
  }

  lemma {:induction false} ConcatDistinct<T>(frames: seq<seq<T>>)
    requires forall i :: 0 <= i < |frames| ==> Distinct(frames[i])
    requires forall i, j, x :: 0 <= i < j < |frames| && x in frames[i] ==> x !in frames[j]
    ensures Distinct(Concat(frames))
  {
    if frames != [] {
      var init := frames[..|frames| - 1];
      ConcatDistinct(init);
      forall x | x in Concat(init) ensures x !in frames[|frames| - 1] { ConcatMembers(init, x); }
      DistinctConcat(Concat(init), frames[|frames| - 1]);
    }
  }

  lemma LevelAt(rows: seq<Row>, gb: seq<string>, exprs: seq<AggExpr>, i: nat, o: OutRow)
    requires i <= |gb|
    ensures o in Levels(rows, gb, exprs)[i] <==> NodeBetween(rows, gb, exprs, |gb| - i, |gb| - i, o)
    ensures Distinct(Levels(rows, gb, exprs)[i])
  {
    var k := |gb| - i;
    assert Levels(rows, gb, exprs)[i] == LevelRows(rows, gb, exprs, k);
    LevelRowsAreNodes(rows, gb, exprs, k);
  }

  lemma RollupMember(rows: seq<Row>, gb: seq<string>, exprs: seq<AggExpr>, o: OutRow)
    ensures o in RollupRows(rows, gb, exprs) <==> NodeBetween(rows, gb, exprs, 0, |gb|, o)
  {
    var frames := Levels(rows, gb, exprs);
    ConcatMembers(frames, o);
    if NodeBetween(rows, gb, exprs, 0, |gb|, o) {
      var key :| IsNode(rows, gb, key) && o == NodeRow(rows, gb, exprs, key);
      LevelAt(rows, gb, exprs, |gb| - |key|, o);
      assert NodeBetween(rows, gb, exprs, |key|, |key|, o);
      assert o in frames[|gb| - |key|];
    }
    if i :| 0 <= i < |frames| && o in frames[i] {
      LevelAt(rows, gb, exprs, i, o);
    }
  }

  /** The rollup has one row for each node of the group tree, and nothing else. */
  lemma RollupRowsAreNodes(rows: seq<Row>, gb: seq<string>, exprs: seq<AggExpr>)
    ensures forall o :: o in RollupRows(rows, gb, exprs) <==>
              exists key {:trigger NodeRow(rows, gb, exprs, key)} ::
                  IsNode(rows, gb, key) && o == NodeRow(rows, gb, exprs, key)
    ensures Distinct(RollupRows(rows, gb, exprs))
  {
    var frames := Levels(rows, gb, exprs);
    forall i | 0 <= i < |frames| ensures Distinct(frames[i]) {
      LevelAt(rows, gb, exprs, i, NodeRow(rows, gb, exprs, []));
    }
    forall i, j, o | 0 <= i < j < |frames| && o in frames[i] ensures o !in frames[j] {
      LevelAt(rows, gb, exprs, i, o);
      LevelAt(rows, gb, exprs, j, o);
      LevelsDisjoint(rows, gb, exprs, |gb| - i, |gb| - j, o);
    }
    ConcatDistinct(frames);
    forall o
      ensures o in RollupRows(rows, gb, exprs) <==>
              exists key {:trigger NodeRow(rows, gb, exprs, key)} ::
                IsNode(rows, gb, key) && o == NodeRow(rows, gb, exprs, key)
    {
      RollupMember(rows, gb, exprs, o);
    }
  }

  // ----- The order before sorting -----

  /** Within a level, groups are in the order in which the table first names them. */
  lemma LevelInOrder(rows: seq<Row>, gb: seq<string>, exprs: seq<AggExpr>, k: nat, a: nat, b: nat) returns (i: nat)
    requires k <= |gb| && a < b < |LevelRows(rows, gb, exprs, k)|
    ensures var level := LevelRows(rows, gb, exprs, k);
            && k <= |level[a].path| && k <= |level[b].path| && i < |rows|
            && KeyOf(rows[i], gb[..k]) == level[a].path[..k]
            && forall j :: 0 <= j <= i ==> KeyOf(rows[j], gb[..k]) != level[b].path[..k]
  {
    var keys := GroupKeys(rows, gb[..k]);
    KeysHaveLength(rows, gb[..k]);
    i := GroupsInOrder(rows, gb[..k], a, b);
    assert keys[a] in keys && keys[b] in keys;
    assert (keys[a] + Nulls(|gb| - k))[..k] == keys[a] && (keys[b] + Nulls(|gb| - k))[..k] == keys[b];
  }

  lemma LevelHasId(rows: seq<Row>, gb: seq<string>, exprs: seq<AggExpr>, k: nat)
    requires k <= |gb|
    ensures forall o :: o in LevelRows(rows, gb, exprs, k) ==> o.gid == GroupingId(|gb|, k)
  {
    LevelRowsAreNodes(rows, gb, exprs, k);
  }

  ghost predicate IdsRise(out: seq<OutRow>, top: nat) {
    && (forall o :: o in out ==> o.gid <= top)
    && forall i, j :: 0 <= i < j < |out| ==> out[i].gid <= out[j].gid
  }

  lemma RiseFurther(a: seq<OutRow>, b: seq<OutRow>, low: nat, top: nat)
    requires IdsRise(a, low) && low <= top && forall o :: o in b ==> o.gid == top
    ensures IdsRise(a + b, top)
  {
    var out := a + b;
    forall i, j | 0 <= i < j < |out| ensures out[i].gid <= out[j].gid {
      if i < |a| { assert out[i] in a; } else { assert out[i] in b; }
      if j >= |a| { assert out[j] in b; }
    }
  }

  lemma {:induction false} LevelsRise(rows: seq<Row>, gb: seq<string>, exprs: seq<AggExpr>, m: nat)
    requires 0 < m <= |gb| + 1
    ensures IdsRise(Concat(Levels(rows, gb, exprs)[..m]), GroupingId(|gb|, |gb| + 1 - m))
  {
    var levels, k := Levels(rows, gb, exprs), |gb| + 1 - m;
    assert levels[..m][..m - 1] == levels[..m - 1] && levels[m - 1] == LevelRows(rows, gb, exprs, k);
    LevelHasId(rows, gb, exprs, k);
    if m > 1 {
      LevelsRise(rows, gb, exprs, m - 1);
      RiseFurther(Concat(levels[..m - 1]), levels[m - 1], GroupingId(|gb|, k + 1), GroupingId(|gb|, k));
    } else {
      assert Concat(levels[..0]) == [];
      RiseFurther([], levels[0], 0, GroupingId(|gb|, k));
    }
  }

  /** The levels follow each other from the leaves to the grand total: grouping ids never decrease. */
  lemma DeepestFirst(rows: seq<Row>, gb: seq<string>, exprs: seq<AggExpr>, i: nat, j: nat)
    requires i < j < |RollupRows(rows, gb, exprs)|
    ensures RollupRows(rows, gb, exprs)[i].gid <= RollupRows(rows, gb, exprs)[j].gid
  {
    LevelsRise(rows, gb, exprs, |gb| + 1);
    assert Levels(rows, gb, exprs)[..|gb| + 1] == Levels(rows, gb, exprs);
  }

  // ----- The pre-order walk -----

  /** The children of a group: the distinct values of the next group column inside it, ascending. */
  function ChildValues(rows: seq<Row>, gb: seq<string>, key: seq<Value>): (vs: seq<Value>)
    requires |key| < |gb|
    ensures Ascending(vs)
  {
    SplitValues(RowsWhere(rows, gb[..|key|], key), gb[|key|])
  }

  /** A group's own row, then each child's walk in ascending order of its value. */
  function Walk(rows: seq<Row>, gb: seq<string>, exprs: seq<AggExpr>, key: seq<Value>): seq<OutRow>
    requires |key| <= |gb|
    decreases |gb| - |key|, 1, 0
  {
    [NodeRow(rows, gb, exprs, key)] +
    if |key| == |gb| then [] else WalkChildren(rows, gb, exprs, key, ChildValues(rows, gb, key))
  }

  function WalkChildren(rows: seq<Row>, gb: seq<string>, exprs: seq<AggExpr>, key: seq<Value>,
                        vs: seq<Value>): seq<OutRow>
    requires |key| < |gb|
    decreases |gb| - |key|, 0, |vs|
  {
    if vs == [] then []
    else Walk(rows, gb, exprs, key + [vs[0]]) + WalkChildren(rows, gb, exprs, key, vs[1..])
  }

  lemma ChildIsNode(rows: seq<Row>, gb: seq<string>, key: seq<Value>, v: Value)
    requires |key| < |gb|
    ensures v in ChildValues(rows, gb, key) <==> IsNode(rows, gb, key + [v])
  {
    var k := |key|;
    var inside := RowsWhere(rows, gb[..k], key);
    assert gb[..k + 1] == gb[..k] + [gb[k]];
    forall r ensures KeyOf(r, gb[..k + 1]) == key + [v] <==> KeyOf(r, gb[..k]) == key && Get(r, gb[k]) == v {
      KeyOfExtend(r, gb[..k], gb[k]);
      if KeyOf(r, gb[..k + 1]) == key + [v] {
        assert (KeyOf(r, gb[..k]) + [Get(r, gb[k])])[..k] == (key + [v])[..k];
        assert (KeyOf(r, gb[..k]) + [Get(r, gb[k])])[k] == (key + [v])[k];
      }
    }
    if v in ChildValues(rows, gb, key) {
      var r :| r in inside && Get(r, gb[k]) == v;
      assert r in rows && KeyOf(r, gb[..k + 1]) == key + [v];
      assert |key + [v]| == k + 1;
    }
    if IsNode(rows, gb, key + [v]) {
      assert key + [v] != [];
      var r :| r in rows && KeyOf(r, gb[..|key + [v]|]) == key + [v];
      assert r in inside && Get(r, gb[k]) == v;
    }
  }

  /** A prefix of a node is a node. */
  lemma PrefixIsNode(rows: seq<Row>, gb: seq<string>, key: seq<Value>, k: nat)
    requires IsNode(rows, gb, key) && k <= |key|
    ensures IsNode(rows, gb, key[..k])
  {
    if k > 0 {
      var r :| r in rows && KeyOf(r, gb[..|key|]) == key;
      assert KeyOf(r, gb[..k]) == key[..k] by {
        assert KeyOf(r, gb[..|key|])[..k] == KeyOf(r, gb[..k]);
      }
    }
  }

  // ----- Path order -----

  /** Two paths that share a prefix compare by what follows it. */
  lemma {:induction false} PathLeAfterPrefix(p: seq<Value>, a: seq<Value>, b: seq<Value>)
    requires |a| == |b|
    ensures PathLe(p + a, p + b) == PathLe(a, b)
  {
    if p == [] {
      assert p + a == a && p + b == b;
    } else {
      PathLeAfterPrefix(p[1..], a, b);
      assert (p + a)[1..] == p[1..] + a && (p + b)[1..] == p[1..] + b;
      assert Falses(|p + a|)[1..] == Falses(|p[1..] + a|);
    }
  }

  ghost predicate Under(rows: seq<Row>, gb: seq<string>, exprs: seq<AggExpr>, key: seq<Value>, o: OutRow) {
    exists d {:trigger NodeRow(rows, gb, exprs, d)} ::
        IsNode(rows, gb, d) && key <= d && o == NodeRow(rows, gb, exprs, d)
  }

  ghost predicate UnderSome(rows: seq<Row>, gb: seq<string>, exprs: seq<AggExpr>, key: seq<Value>, vs: seq<Value>,
                            o: OutRow) {
    exists v :: v in vs && Under(rows, gb, exprs, key + [v], o)
  }

  /** A group's row comes strictly before every row below it. */
  lemma ParentBeforeChild(rows: seq<Row>, gb: seq<string>, exprs: seq<AggExpr>, key: seq<Value>, d: seq<Value>)
    requires NonNullKeys(rows, gb) && IsNode(rows, gb, d) && key < d
    ensures var a, b := NodeRow(rows, gb, exprs, key).path, NodeRow(rows, gb, exprs, d).path;
            PathLe(a, b) && a != b
  {
    var n := |gb|;
    var rest := d[|key|..] + Nulls(n - |d|);
    KeyHasNoNull(rows, gb, d);
    assert d[|key|] in d;
    assert d + Nulls(n - |d|) == key + rest;
    PathLeAfterPrefix(key, Nulls(n - |key|), rest);
    assert (key + Nulls(n - |key|))[|key|] == Null && (key + rest)[|key|] == d[|key|];
  }

  /** The path of a row below `key + [v]` is `key`, then v, then the rest. */
  lemma PathBelow(rows: seq<Row>, gb: seq<string>, exprs: seq<AggExpr>, key: seq<Value>, v: Value, o: OutRow)
    returns (rest: seq<Value>)
    requires NonNullKeys(rows, gb) && |key| < |gb| && Under(rows, gb, exprs, key + [v], o)
    ensures o.path == key + ([v] + rest) && |o.path| == |gb| && v != Null
  {
    var d :| IsNode(rows, gb, d) && key + [v] <= d && o == NodeRow(rows, gb, exprs, d);
    KeyHasNoNull(rows, gb, d);
    assert d[|key|] == v && d[|key|] in d;
    var deeper, nulls := d[|key| + 1..], Nulls(|gb| - |d|);
    rest := deeper + nulls;
    assert d == key + [v] + deeper;
    Regroup(key, [v], deeper, nulls);
  }

  lemma Regroup(a: seq<Value>, b: seq<Value>, c: seq<Value>, d: seq<Value>)
    ensures (a + b + c) + d == a + (b + (c + d))
  {
  }

  /** Everything below a smaller sibling comes strictly before everything below a larger one. */
  lemma SiblingsInOrder(rows: seq<Row>, gb: seq<string>, exprs: seq<AggExpr>, key: seq<Value>, v: Value, w: Value,
                        a: OutRow, b: OutRow)
    requires NonNullKeys(rows, gb) && |key| < |gb| && ValueLe(v, w) && v != w
    requires Under(rows, gb, exprs, key + [v], a) && Under(rows, gb, exprs, key + [w], b)
    ensures |a.path| == |b.path| && PathLe(a.path, b.path) && a.path != b.path
  {
    var x := PathBelow(rows, gb, exprs, key, v, a);
    var y := PathBelow(rows, gb, exprs, key, w, b);
    PathLeAfterPrefix(key, [v] + x, [w] + y);
    assert (key + ([v] + x))[|key|] == v && (key + ([w] + y))[|key|] == w;
  }

  lemma AscendingConcat(n: nat, a: seq<OutRow>, b: seq<OutRow>)
    requires StrictlyAscending(n, a) && StrictlyAscending(n, b)
    requires forall x, y :: x in a && y in b ==> |x.path| == |y.path| && PathLe(x.path, y.path) && x.path != y.path
    ensures StrictlyAscending(n, a + b)
  {
    var s := a + b;
    forall i, j | 0 <= i < j < |s|
      ensures |s[i].path| == |s[j].path| && PathLe(s[i].path, s[j].path) && s[i].path != s[j].path
    {
      if i < |a| <= j { assert s[i] in a && s[j] in b; }
    }
  }

  /** The walk below a node lists exactly the nodes below it, in strictly ascending path order. */
  lemma {:induction false} WalkListsNodes(rows: seq<Row>, gb: seq<string>, exprs: seq<AggExpr>, key: seq<Value>)
    requires NonNullKeys(rows, gb) && IsNode(rows, gb, key)
    ensures StrictlyAscending(|gb|, Walk(rows, gb, exprs, key))
    ensures forall o :: o in Walk(rows, gb, exprs, key) <==> Under(rows, gb, exprs, key, o)
    decreases |gb| - |key|, 1, 0
  {
    var top := NodeRow(rows, gb, exprs, key);
    assert key <= key;
    if |key| == |gb| {
      forall o ensures Under(rows, gb, exprs, key, o) <==> o == top { LeafIsAlone(rows, gb, exprs, key, o); }
    } else {
      var vs := ChildValues(rows, gb, key);
      forall v | v in vs ensures IsNode(rows, gb, key + [v]) { ChildIsNode(rows, gb, key, v); }
      WalkChildrenListsNodes(rows, gb, exprs, key, vs);
      var below := WalkChildren(rows, gb, exprs, key, vs);
      forall o ensures UnderSome(rows, gb, exprs, key, vs, o) || o == top <==> Under(rows, gb, exprs, key, o) {
        NodesBelow(rows, gb, exprs, key, o);
      }
      forall y | y in below ensures |top.path| == |y.path| && PathLe(top.path, y.path) && top.path != y.path {
        TopBeforeBelow(rows, gb, exprs, key, vs, y);
      }
      AscendingConcat(|gb|, [top], below);
    }
  }

  lemma LeafIsAlone(rows: seq<Row>, gb: seq<string>, exprs: seq<AggExpr>, key: seq<Value>, o: OutRow)
    requires IsNode(rows, gb, key) && |key| == |gb|
    ensures Under(rows, gb, exprs, key, o) <==> o == NodeRow(rows, gb, exprs, key)
  {
    assert key <= key;
    if Under(rows, gb, exprs, key, o) {
      var d :| IsNode(rows, gb, d) && key <= d && o == NodeRow(rows, gb, exprs, d);
      assert d == key;
    }
  }

  lemma TopBeforeBelow(rows: seq<Row>, gb: seq<string>, exprs: seq<AggExpr>, key: seq<Value>, vs: seq<Value>, y: OutRow)
    requires NonNullKeys(rows, gb) && IsNode(rows, gb, key) && UnderSome(rows, gb, exprs, key, vs, y)
    ensures var top := NodeRow(rows, gb, exprs, key);
            |top.path| == |y.path| && PathLe(top.path, y.path) && top.path != y.path
  {
    var v :| v in vs && Under(rows, gb, exprs, key + [v], y);
    var d :| IsNode(rows, gb, d) && key + [v] <= d && y == NodeRow(rows, gb, exprs, d);
    ProperPrefix(key, v, d);
    ParentBeforeChild(rows, gb, exprs, key, d);
  }

  lemma ProperPrefix(key: seq<Value>, v: Value, d: seq<Value>)
    requires key + [v] <= d
    ensures key < d
  {
  }

  /** A node is below `key` when it is `key` itself or below one of its children. */
  lemma NodesBelow(rows: seq<Row>, gb: seq<string>, exprs: seq<AggExpr>, key: seq<Value>, o: OutRow)
    requires IsNode(rows, gb, key) && |key| < |gb|
    ensures UnderSome(rows, gb, exprs, key, ChildValues(rows, gb, key), o) || o == NodeRow(rows, gb, exprs, key)
            <==> Under(rows, gb, exprs, key, o)
  {
    assert key <= key;
    if Under(rows, gb, exprs, key, o) {
      var d :| IsNode(rows, gb, d) && key <= d && o == NodeRow(rows, gb, exprs, d);
      if d != key { StepTowards(rows, gb, exprs, key, d); }
    }
    if UnderSome(rows, gb, exprs, key, ChildValues(rows, gb, key), o) {
      UnderChildIsUnder(rows, gb, exprs, key, ChildValues(rows, gb, key), o);
    }
  }

  lemma UnderChildIsUnder(rows: seq<Row>, gb: seq<string>, exprs: seq<AggExpr>, key: seq<Value>, vs: seq<Value>,
                          o: OutRow)
    requires UnderSome(rows, gb, exprs, key, vs, o)
    ensures Under(rows, gb, exprs, key, o)
  {
    var v :| v in vs && Under(rows, gb, exprs, key + [v], o);
    var d :| IsNode(rows, gb, d) && key + [v] <= d && o == NodeRow(rows, gb, exprs, d);
    assert key <= d;
  }

  lemma StepTowards(rows: seq<Row>, gb: seq<string>, exprs: seq<AggExpr>, key: seq<Value>, d: seq<Value>)
    requires IsNode(rows, gb, d) && key < d
    ensures UnderSome(rows, gb, exprs, key, ChildValues(rows, gb, key), NodeRow(rows, gb, exprs, d))
  {
    var v := d[|key|];
    assert key + [v] == d[..|key| + 1];
    PrefixIsNode(rows, gb, d, |key| + 1);
    ChildIsNode(rows, gb, key, v);
    assert Under(rows, gb, exprs, key + [v], NodeRow(rows, gb, exprs, d));
  }

  lemma {:induction false} WalkChildrenListsNodes(rows: seq<Row>, gb: seq<string>, exprs: seq<AggExpr>, key: seq<Value>,
                                                  vs: seq<Value>)
    requires NonNullKeys(rows, gb) && |key| < |gb| && Ascending(vs)
    requires forall v :: v in vs ==> IsNode(rows, gb, key + [v])
    ensures StrictlyAscending(|gb|, WalkChildren(rows, gb, exprs, key, vs))
    ensures forall o :: o in WalkChildren(rows, gb, exprs, key, vs) <==> UnderSome(rows, gb, exprs, key, vs, o)
    decreases |gb| - |key|, 0, |vs|
  {
    if vs != [] {
      var v, rest := vs[0], vs[1..];
      assert v in vs;
      WalkListsNodes(rows, gb, exprs, key + [v]);
      WalkChildrenListsNodes(rows, gb, exprs, key, rest);
      var a, b := Walk(rows, gb, exprs, key + [v]), WalkChildren(rows, gb, exprs, key, rest);
      forall x, y | x in a && y in b ensures |x.path| == |y.path| && PathLe(x.path, y.path) && x.path != y.path {
        LaterSiblings(rows, gb, exprs, key, vs, x, y);
      }
      AscendingConcat(|gb|, a, b);
      forall o ensures o in a + b <==> UnderSome(rows, gb, exprs, key, vs, o) {
        UnderSomeSplits(rows, gb, exprs, key, vs, o);
      }
    }
  }

  lemma UnderSomeSplits(rows: seq<Row>, gb: seq<string>, exprs: seq<AggExpr>, key: seq<Value>, vs: seq<Value>,
                        o: OutRow)
    requires vs != []
    ensures UnderSome(rows, gb, exprs, key, vs, o) <==>
            Under(rows, gb, exprs, key + [vs[0]], o) || UnderSome(rows, gb, exprs, key, vs[1..], o)
  {
    assert forall w :: w in vs <==> w == vs[0] || w in vs[1..];
  }

  lemma LaterSiblings(rows: seq<Row>, gb: seq<string>, exprs: seq<AggExpr>, key: seq<Value>, vs: seq<Value>, x: OutRow,
                      y: OutRow)
    requires NonNullKeys(rows, gb) && |key| < |gb| && Ascending(vs) && vs != []
    requires Under(rows, gb, exprs, key + [vs[0]], x) && UnderSome(rows, gb, exprs, key, vs[1..], y)
    ensures |x.path| == |y.path| && PathLe(x.path, y.path) && x.path != y.path
  {
    var w :| w in vs[1..] && Under(rows, gb, exprs, key + [w], y);
    var i :| 1 <= i < |vs| && vs[i] == w;
    SiblingsInOrder(rows, gb, exprs, key, vs[0], w, x, y);
  }

  /**
   * With non-null group keys, every sort of the rollup by row path is the pre-order walk of the
   * group tree: grand total first, each group before its subgroups, subtrees contiguous, siblings
   * ascending. Ties never arise, so the result does not depend on the sort algorithm.
   */
  lemma SortedRollupIsWalk(rows: seq<Row>, gb: seq<string>, exprs: seq<AggExpr>, sorted: seq<OutRow>)
    requires NonNullKeys(rows, gb)
    requires IsSortOf(ByPath, |gb|, sorted, RollupRows(rows, gb, exprs))
    ensures sorted == Walk(rows, gb, exprs, [])
  {
    var all := RollupRows(rows, gb, exprs);
    RollupRowsAreNodes(rows, gb, exprs);
    forall a, b | a in all && b in all && a.path == b.path ensures a == b {
      NodesWithEqualPaths(rows, gb, exprs, a, b);
    }
    SortOfDistinctIsStrict(|gb|, sorted, all);
    assert IsNode(rows, gb, []);
    WalkListsNodes(rows, gb, exprs, []);
    forall o ensures o in Walk(rows, gb, exprs, []) <==> o in sorted {
      if o in sorted {
        var d :| IsNode(rows, gb, d) && o == NodeRow(rows, gb, exprs, d);
        assert [] <= d;
      }
    }
    AscendingUnique(|gb|, sorted, Walk(rows, gb, exprs, []));
  }

  lemma NodesWithEqualPaths(rows: seq<Row>, gb: seq<string>, exprs: seq<AggExpr>, a: OutRow, b: OutRow)
    requires NonNullKeys(rows, gb) && a.path == b.path
    requires exists d {:trigger NodeRow(rows, gb, exprs, d)} :: IsNode(rows, gb, d) && a == NodeRow(rows, gb, exprs, d)
    requires exists e {:trigger NodeRow(rows, gb, exprs, e)} :: IsNode(rows, gb, e) && b == NodeRow(rows, gb, exprs, e)
    ensures a == b
  {
    var d :| IsNode(rows, gb, d) && a == NodeRow(rows, gb, exprs, d);
    var e :| IsNode(rows, gb, e) && b == NodeRow(rows, gb, exprs, e);
    EqualPathsEqualKeys(rows, gb, exprs, d, e);
  }

  lemma EqualPathsEqualKeys(rows: seq<Row>, gb: seq<string>, exprs: seq<AggExpr>, d: seq<Value>, e: seq<Value>)
    requires NonNullKeys(rows, gb) && IsNode(rows, gb, d) && IsNode(rows, gb, e)
    requires NodeRow(rows, gb, exprs, d).path == NodeRow(rows, gb, exprs, e).path
    ensures d == e
  {
    KeyHasNoNull(rows, gb, d);
    KeyHasNoNull(rows, gb, e);
    PathDeterminesKey(d, e, |gb|);
  }

  // ----- Flat mode -----

  function Leaves(rows: seq<OutRow>): (r: seq<OutRow>)
    ensures forall o :: o in r <==> o in rows && o.gid == 0
  {
    if rows == [] then [] else (if rows[0].gid == 0 then [rows[0]] else []) + Leaves(rows[1..])
  }

  lemma {:induction false} LeavesStayAscending(n: nat, rows: seq<OutRow>)
    requires StrictlyAscending(n, rows)
    ensures StrictlyAscending(n, Leaves(rows))
  {
    if rows != [] {
      LeavesStayAscending(n, rows[1..]);
      forall y | y in Leaves(rows[1..])
        ensures |rows[0].path| == |y.path| && PathLe(rows[0].path, y.path) && rows[0].path != y.path
      {
        var i :| 0 <= i < |rows[1..]| && rows[1..][i] == y;
        assert rows[i + 1] == y;
      }
      AscendingConcat(n, if rows[0].gid == 0 then [rows[0]] else [], Leaves(rows[1..]));
    }
  }

  /** Flat mode is rollup mode cut to its leaves: same rows, same order. */
  lemma FlatIsLeavesOfRollup(rows: seq<Row>, gb: seq<string>, exprs: seq<AggExpr>, flat: seq<OutRow>,
                             rollup: seq<OutRow>)
    requires NonNullKeys(rows, gb)
    requires IsSortOf(ByPath, |gb|, flat, LevelRows(rows, gb, exprs, |gb|))
    requires IsSortOf(ByPath, |gb|, rollup, RollupRows(rows, gb, exprs))
    ensures flat == Leaves(rollup)
  {
    var n, level := |gb|, LevelRows(rows, gb, exprs, |gb|);
    LevelRowsAreNodes(rows, gb, exprs, n);
    RollupRowsAreNodes(rows, gb, exprs);
    var all := RollupRows(rows, gb, exprs);
    forall a, b | a in all && b in all && a.path == b.path ensures a == b {
      NodesWithEqualPaths(rows, gb, exprs, a, b);
    }
    forall a, b | a in level && b in level && a.path == b.path ensures a == b {
      NodesWithEqualPaths(rows, gb, exprs, a, b);
    }
    SortOfDistinctIsStrict(n, rollup, all);
    SortOfDistinctIsStrict(n, flat, level);
    LeavesStayAscending(n, rollup);
    forall o ensures o in flat <==> o in Leaves(rollup) {
      if o in flat {
        GroupingIdInjective(n, n, n);
      }
      if o in Leaves(rollup) {
        var d :| IsNode(rows, gb, d) && o == NodeRow(rows, gb, exprs, d);
        GroupingIdInjective(n, |d|, |d|);
      }
    }
    AscendingUnique(n, flat, Leaves(rollup));
  }

  /** The leaf level sorted by path: strictly ascending, and exactly the nodes with a full key. */
  lemma SortedLevelIsStrict(rows: seq<Row>, gb: seq<string>, exprs: seq<AggExpr>, flat: seq<OutRow>)
    requires NonNullKeys(rows, gb) && IsSortOf(ByPath, |gb|, flat, LevelRows(rows, gb, exprs, |gb|))
    ensures StrictlyAscending(|gb|, flat)
    ensures forall o :: o in flat <==> NodeBetween(rows, gb, exprs, |gb|, |gb|, o)
  {
    var level := LevelRows(rows, gb, exprs, |gb|);
    LevelRowsAreNodes(rows, gb, exprs, |gb|);
    forall a, b | a in level && b in level && a.path == b.path ensures a == b {
      NodesWithEqualPaths(rows, gb, exprs, a, b);
    }
    SortOfDistinctIsStrict(|gb|, flat, level);
  }

  /** Only one strictly ascending list holds exactly the leaves: the walk without its inner rows. */
  lemma StrictLeavesAreOfWalk(rows: seq<Row>, gb: seq<string>, exprs: seq<AggExpr>, flat: seq<OutRow>)
    requires NonNullKeys(rows, gb) && StrictlyAscending(|gb|, flat)
    requires forall o :: o in flat <==> NodeBetween(rows, gb, exprs, |gb|, |gb|, o)
    ensures flat == Leaves(Walk(rows, gb, exprs, []))
  {
    var walk := Walk(rows, gb, exprs, []);
    assert IsNode(rows, gb, []);
    WalkListsNodes(rows, gb, exprs, []);
    LeavesStayAscending(|gb|, walk);
    forall o ensures o in flat <==> o in Leaves(walk) { LeafOfWalk(rows, gb, exprs, o); }
    AscendingUnique(|gb|, flat, Leaves(walk));
  }

  lemma LeafOfWalk(rows: seq<Row>, gb: seq<string>, exprs: seq<AggExpr>, o: OutRow)
    ensures NodeBetween(rows, gb, exprs, |gb|, |gb|, o) <==> Under(rows, gb, exprs, [], o) && o.gid == 0
  {
    if d :| IsNode(rows, gb, d) && o == NodeRow(rows, gb, exprs, d) {
      assert [] <= d;
      GroupingIdInjective(|gb|, |d|, |d|);
    }
  }
}
