/** The aggregates of the polars server, and how they combine over a partition of the rows. */
module Aggregates {
  import opened Values

  /** `avg` and `mean` are `Mean`; `any_value` and `arbitrary` are `First`. */
  datatype Agg = Sum | Count | Min | Max | Mean | First | Last

  function NumOf(v: Value): real {
    if v.Num? then v.n else 0.0
  }

  function SumOf(vs: seq<Value>): real {
    if vs == [] then 0.0 else NumOf(vs[0]) + SumOf(vs[1..])
  }

  /** Polars `count` counts the non-null cells. */
  function CountOf(vs: seq<Value>): nat {
    if vs == [] then 0 else (if vs[0] == Null then 0 else 1) + CountOf(vs[1..])
  }

  function Pick(smaller: bool, a: Value, b: Value): Value {
    if a == Null then b
    else if b == Null then a
    else if ValueLe(a, b) == smaller then a
    else b
  }

  /** The least (or greatest) non-null cell; null when there is none. */
  function ExtremeOf(smaller: bool, vs: seq<Value>): Value {
    if vs == [] then Null else Pick(smaller, vs[0], ExtremeOf(smaller, vs[1..]))
  }

  function Aggregate(agg: Agg, vs: seq<Value>): Value {
    match agg
    case Sum => Num(SumOf(vs))
    case Count => Num(CountOf(vs) as real)
    case Min => ExtremeOf(true, vs)
    case Max => ExtremeOf(false, vs)
    case Mean => if CountOf(vs) == 0 then Null else Num(SumOf(vs) / CountOf(vs) as real)
    case First => if vs == [] then Null else vs[0]
    case Last => if vs == [] then Null else vs[|vs| - 1]
  }

  /** What `min` and `max` mean: an attained bound of the non-null cells, null when there are none. */
  lemma {:induction false} ExtremeMeaning(smaller: bool, vs: seq<Value>)
    ensures ExtremeOf(smaller, vs) == Null <==> forall v :: v in vs ==> v == Null
    ensures ExtremeOf(smaller, vs) != Null ==> ExtremeOf(smaller, vs) in vs
    ensures forall v :: v in vs && v != Null ==>
              if smaller then ValueLe(ExtremeOf(true, vs), v) else ValueLe(v, ExtremeOf(false, vs))
  {
    if vs != [] {
      var rest := ExtremeOf(smaller, vs[1..]);
      ExtremeMeaning(smaller, vs[1..]);
      ValueLeTotal(vs[0], rest);
      ValueLeTotal(vs[0], vs[0]);
      assert forall v :: v in vs <==> v == vs[0] || v in vs[1..];
      assert ExtremeOf(smaller, vs) == Null <==> vs[0] == Null && rest == Null;
      if vs[0] != Null { assert vs[0] in vs; }
      forall v | v in vs && v != Null
        ensures if smaller then ValueLe(ExtremeOf(true, vs), v) else ValueLe(v, ExtremeOf(false, vs))
      {
        if v != vs[0] {
          assert v in vs[1..];
          if ValueLe(vs[0], rest) && ValueLe(rest, v) { ValueLeTransitive(vs[0], rest, v); }
          if ValueLe(v, rest) && ValueLe(rest, vs[0]) { ValueLeTransitive(v, rest, vs[0]); }
        }
      }
    }
  }

  // ----- What each aggregate shows -----

  /** Running totals of the numbers of a column, from the front. */
  ghost predicate RunningTotals(vs: seq<Value>, totals: seq<real>) {
    && |totals| == |vs| + 1 && totals[0] == 0.0
    && forall i :: 0 <= i < |vs| ==> totals[i + 1] == totals[i] + if vs[i].Num? then vs[i].n else 0.0
  }

  /** The positions of the non-null cells. */
  function Filled(vs: seq<Value>): set<nat> {
    set i: nat | i < |vs| && vs[i] != Null
  }

  /** The cell an aggregate gives for a column, said position by position. */
  ghost predicate IsAggregate(agg: Agg, vs: seq<Value>, cell: Value) {
    match agg
    case Sum => cell.Num? && exists totals :: RunningTotals(vs, totals) && cell.n == totals[|vs|]
    case Count => cell == Num(|Filled(vs)| as real)
    case Mean =>
      if Filled(vs) == {} then cell == Null
      else cell.Num? && exists totals :: RunningTotals(vs, totals) && cell.n * |Filled(vs)| as real == totals[|vs|]
    case First => cell == if |vs| > 0 then vs[0] else Null
    case Last => cell == if |vs| > 0 then vs[|vs| - 1] else Null
    case Min => if Filled(vs) == {} then cell == Null else IsLeast(vs, cell)
    case Max => if Filled(vs) == {} then cell == Null else IsGreatest(vs, cell)
  }

  /** Of a column of numbers, by the order of the reals. */
  predicate IsLeast(vs: seq<Value>, cell: Value) {
    && cell in vs && cell != Null
    && ((forall v :: v in vs ==> !v.Str?) ==> cell.Num? && forall v :: v in vs && v.Num? ==> cell.n <= v.n)
  }

  predicate IsGreatest(vs: seq<Value>, cell: Value) {
    && cell in vs && cell != Null
    && ((forall v :: v in vs ==> !v.Str?) ==> cell.Num? && forall v :: v in vs && v.Num? ==> v.n <= cell.n)
  }

  lemma {:induction false} SumIsTotal(vs: seq<Value>, totals: seq<real>)
    requires RunningTotals(vs, totals)
    ensures totals[|vs|] == SumOf(vs)
  {
    SumOfRest(vs, totals, 0);
    assert vs[0..] == vs;
  }

  lemma {:induction false} SumOfRest(vs: seq<Value>, totals: seq<real>, k: nat)
    requires RunningTotals(vs, totals) && k <= |vs|
    ensures totals[|vs|] == totals[k] + SumOf(vs[k..])
    decreases |vs| - k
  {
    if k < |vs| {
      SumOfRest(vs, totals, k + 1);
      assert vs[k..][1..] == vs[k + 1..];
    }
  }

  lemma {:induction false} TotalsExist(vs: seq<Value>) returns (totals: seq<real>)
    ensures RunningTotals(vs, totals) && totals[|vs|] == SumOf(vs)
  {
    totals := [0.0];
    for i := 0 to |vs|
      invariant RunningTotals(vs[..i], totals)
    {
      totals := totals + [totals[i] + if vs[i].Num? then vs[i].n else 0.0];
    }
    assert vs[..|vs|] == vs;
    SumIsTotal(vs, totals);
  }

  lemma {:induction false} CountOfInit(vs: seq<Value>)
    requires vs != []
    ensures CountOf(vs) == CountOf(vs[..|vs| - 1]) + if vs[|vs| - 1] == Null then 0 else 1
  {
    if |vs| > 1 {
      CountOfInit(vs[1..]);
      assert vs[1..][..|vs| - 2] == vs[..|vs| - 1][1..];
    }
  }

  lemma {:induction false} CountIsFilled(vs: seq<Value>)
    ensures CountOf(vs) == |Filled(vs)|
  {
    if vs == [] {
      assert Filled(vs) == {};
    } else {
      var n := |vs| - 1;
      CountOfInit(vs);
      CountIsFilled(vs[..n]);
      assert Filled(vs) == Filled(vs[..n]) + (if vs[n] == Null then {} else {n});
    }
  }

  lemma FilledNone(vs: seq<Value>)
    ensures Filled(vs) == {} <==> forall v :: v in vs ==> v == Null
  {
    if Filled(vs) == {} {
      forall v | v in vs ensures v == Null {
        var i :| 0 <= i < |vs| && vs[i] == v;
        assert i !in Filled(vs);
      }
    } else {
      var i :| i in Filled(vs);
      assert vs[i] in vs;
    }
  }

  lemma ExtremesAreBounds(vs: seq<Value>)
    requires Filled(vs) != {}
    ensures IsLeast(vs, ExtremeOf(true, vs)) && IsGreatest(vs, ExtremeOf(false, vs))
  {
    FilledNone(vs);
    ExtremeMeaning(true, vs);
    ExtremeMeaning(false, vs);
  }

  /** Every aggregate shows what its name says. */
  lemma AggregateMeaning(agg: Agg, vs: seq<Value>)
    ensures IsAggregate(agg, vs, Aggregate(agg, vs))
  {
    if agg.Min? || agg.Max? {
      if Filled(vs) == {} {
        FilledNone(vs);
        ExtremeMeaning(agg.Min?, vs);
      } else {
        ExtremesAreBounds(vs);
      }
    } else {
      CountIsFilled(vs);
      var totals := TotalsExist(vs);
    }
  }

  // ----- Combining partial results -----

  /** The aggregates that a parent row can compute from its children alone. */
  predicate Decomposable(agg: Agg) {
    agg in {Sum, Count, Min, Max}
  }

  function Identity(agg: Agg): Value {
    if agg in {Sum, Count} then Num(0.0) else Null
  }

  function Combine(agg: Agg, a: Value, b: Value): Value {
    if agg in {Sum, Count} then Num(NumOf(a) + NumOf(b)) else Pick(agg == Min, a, b)
  }

  /** Combines a list of partial results; `CombineAll(Sum, ...)` adds them up. */
  function CombineAll(agg: Agg, vs: seq<Value>): Value {
    if vs == [] then Identity(agg) else Combine(agg, vs[0], CombineAll(agg, vs[1..]))
  }

  lemma CombineLaws(agg: Agg, a: Value, b: Value, c: Value)
    requires Decomposable(agg)
    ensures Combine(agg, a, b) == Combine(agg, b, a)
    ensures Combine(agg, a, Combine(agg, b, c)) == Combine(agg, Combine(agg, a, b), c)
  {
    ValueLeTotal(a, b); ValueLeTotal(b, c); ValueLeTotal(a, c);
    if ValueLe(a, b) && ValueLe(b, a) { ValueLeAntisymmetric(a, b); }
    if ValueLe(b, c) && ValueLe(c, b) { ValueLeAntisymmetric(b, c); }
    if ValueLe(a, c) && ValueLe(c, a) { ValueLeAntisymmetric(a, c); }
    if ValueLe(a, b) && ValueLe(b, c) { ValueLeTransitive(a, b, c); }
    if ValueLe(c, b) && ValueLe(b, a) { ValueLeTransitive(c, b, a); }
    if ValueLe(b, a) && ValueLe(a, c) { ValueLeTransitive(b, a, c); }
    if ValueLe(c, a) && ValueLe(a, b) { ValueLeTransitive(c, a, b); }
    if ValueLe(a, c) && ValueLe(c, b) { ValueLeTransitive(a, c, b); }
    if ValueLe(b, c) && ValueLe(c, a) { ValueLeTransitive(b, c, a); }
  }

  lemma CombineSwap(agg: Agg, a: Value, b: Value, c: Value)
    requires Decomposable(agg)
    ensures Combine(agg, a, Combine(agg, b, c)) == Combine(agg, b, Combine(agg, a, c))
  {
    CombineLaws(agg, a, b, c);
    CombineLaws(agg, b, a, c);
  }

  /** One cell as a partial result of its own. */
  lemma AggregateCons(agg: Agg, v: Value, vs: seq<Value>)
    requires Decomposable(agg)
    ensures Aggregate(agg, [v] + vs) == Combine(agg, Aggregate(agg, [v]), Aggregate(agg, vs))
  {
    assert ([v] + vs)[1..] == vs;
    assert [v][1..] == [];
    assert SumOf([v]) == NumOf(v);
    assert CountOf([v] + vs) == CountOf([v]) + CountOf(vs);
    assert ExtremeOf(agg == Min, [v]) == v;
  }

  /** Replacing one partial result p by (a combined with p) combines a into the total. */
  lemma {:induction false} CombineAllUpdate(agg: Agg, parts: seq<Value>, j: nat, a: Value)
    requires Decomposable(agg) && j < |parts|
    ensures CombineAll(agg, parts[j := Combine(agg, a, parts[j])]) == Combine(agg, a, CombineAll(agg, parts))
  {
    var upd := parts[j := Combine(agg, a, parts[j])];
    if j == 0 {
      assert upd[1..] == parts[1..];
      CombineLaws(agg, a, parts[0], CombineAll(agg, parts[1..]));
    } else {
      assert upd[1..] == parts[1..][j - 1 := Combine(agg, a, parts[1..][j - 1])];
      CombineAllUpdate(agg, parts[1..], j - 1, a);
      CombineSwap(agg, parts[0], a, CombineAll(agg, parts[1..]));
    }
  }

  lemma {:induction false} CombineIdentities(agg: Agg, parts: seq<Value>)
    requires Decomposable(agg) && forall i :: 0 <= i < |parts| ==> parts[i] == Identity(agg)
    ensures CombineAll(agg, parts) == Identity(agg)
  {
    if parts != [] { CombineIdentities(agg, parts[1..]); }
  }
}
