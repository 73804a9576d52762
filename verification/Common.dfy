/** What several modules share. */
module Common {

  datatype Option<T> = None | Some(value: T)

  ghost predicate Distinct<T>(xs: seq<T>) {
    forall i, j :: 0 <= i < j < |xs| ==> xs[i] != xs[j]
  }

  function Pow2(n: nat): (p: nat)
    ensures p >= 1
  {
    if n == 0 then 1 else 2 * Pow2(n - 1)
  }

  function Min(a: int, b: int): int {
    if a < b then a else b
  }

  lemma EndsCancel<T>(a: seq<T>, x: seq<T>, y: seq<T>, b: seq<T>)
    ensures a + x + b == a + y + b <==> x == y
  {
    if a + x + b == a + y + b {
      assert |x| == |y|;
      assert (a + x + b)[|a|..|a| + |x|] == x && (a + y + b)[|a|..|a| + |y|] == y;
    }
  }

  // ----- Elements picked from a list -----

  /** `out` is what is left of `xs` at these positions, in their order. */
  ghost predicate Picks<T>(at: seq<nat>, xs: seq<T>, out: seq<T>) {
    && |at| == |out|
    && (forall i, j :: 0 <= i < j < |at| ==> at[i] < at[j])
    && forall i :: 0 <= i < |at| ==> at[i] < |xs| && out[i] == xs[at[i]]
  }

  /** Positions after one more element is put in front, which is itself picked or not. */
  function Later(at: seq<nat>, picked: bool): seq<nat> {
    (if picked then [0] else []) + seq(|at|, i requires 0 <= i < |at| => at[i] + 1)
  }

  lemma LaterAt(at: seq<nat>, picked: bool)
    ensures var first := if picked then 1 else 0;
            && |Later(at, picked)| == |at| + first
            && (picked ==> Later(at, picked)[0] == 0)
            && forall i :: 0 <= i < |at| ==> Later(at, picked)[i + first] == at[i] + 1
  {
  }

  lemma LaterMembers(at: seq<nat>, picked: bool)
    ensures forall i: nat :: i in Later(at, picked) <==> if i == 0 then picked else i - 1 in at
  {
    var later, first := Later(at, picked), if picked then 1 else 0;
    LaterAt(at, picked);
    forall i: nat ensures i in later <==> if i == 0 then picked else i - 1 in at {
      if i > 0 && i - 1 in at {
        var j :| 0 <= j < |at| && at[j] == i - 1;
        assert later[j + first] == i;
      }
      if i in later {
        var j :| 0 <= j < |later| && later[j] == i;
        if j >= first { assert later[(j - first) + first] == at[j - first] + 1; }
      }
    }
  }

  lemma PicksMore<T>(at: seq<nat>, x: T, xs: seq<T>, out: seq<T>, picked: bool)
    requires Picks(at, xs, out)
    ensures Picks(Later(at, picked), [x] + xs, (if picked then [x] else []) + out)
    ensures forall i: nat :: i in Later(at, picked) <==> if i == 0 then picked else i - 1 in at
  {
    assert Picks(Later(at, picked), [x] + xs, (if picked then [x] else []) + out) by {
      LaterAt(at, picked);
      PicksAt(at, x, xs, out, picked, Later(at, picked));
    }
    LaterMembers(at, picked);
  }

  lemma PicksAt<T>(at: seq<nat>, x: T, xs: seq<T>, out: seq<T>, picked: bool, later: seq<nat>)
    requires Picks(at, xs, out)
    requires var first := if picked then 1 else 0;
             && |later| == |at| + first && (picked ==> later[0] == 0)
             && forall i :: 0 <= i < |at| ==> later[i + first] == at[i] + 1
    ensures Picks(later, [x] + xs, (if picked then [x] else []) + out)
  {
    var first, more, all := if picked then 1 else 0, (if picked then [x] else []) + out, [x] + xs;
    forall i | 0 <= i < |later|
      ensures later[i] == (if i < first then 0 else at[i - first] + 1) && later[i] < |all| && more[i] == all[later[i]]
    {
      if i >= first { assert later[(i - first) + first] == at[i - first] + 1; }
    }
  }

  lemma RestIsLess<T>(x: T, rest: multiset<T>, a: multiset<T>, b: multiset<T>)
    requires multiset{x} + rest == a + (multiset{x} + b)
    ensures rest == a + b
  {
    assert (multiset{x} + rest) - multiset{x} == rest && (a + (multiset{x} + b)) - multiset{x} == a + b;
  }

  lemma PlaceOfFirst<T>(out: seq<T>, xs: seq<T>) returns (p: nat)
    requires multiset(out) == multiset(xs) && out != []
    ensures p < |xs| && xs[p] == out[0] && multiset(out[1..]) == multiset(xs[..p] + xs[p + 1..])
  {
    var x, rest := out[0], out[1..];
    assert out == [x] + rest;
    assert x in multiset(xs);
    p :| 0 <= p < |xs| && xs[p] == x;
    assert xs == xs[..p] + ([x] + xs[p + 1..]);
    RestIsLess(x, multiset(rest), multiset(xs[..p]), multiset(xs[p + 1..]));
  }

  /** Places in a list without its p-th element, as places in the whole list. */
  function Around(p: nat, more: seq<nat>): seq<nat> {
    seq(|more|, i requires 0 <= i < |more| => if more[i] < p then more[i] else more[i] + 1)
  }

  lemma AroundIsDistinct(p: nat, more: seq<nat>)
    requires Distinct(more)
    ensures Distinct([p] + Around(p, more))
  {
    var from := [p] + Around(p, more);
    forall i, j | 0 <= i < j < |from| ensures from[i] != from[j] {
      assert from[j] == Around(p, more)[j - 1];
      if i > 0 { assert from[i] == Around(p, more)[i - 1] && more[i - 1] != more[j - 1]; }
    }
  }

  /** Every rearrangement takes each element from a place of its own. */
  lemma {:induction false} Places<T>(out: seq<T>, xs: seq<T>) returns (from: seq<nat>)
    requires multiset(out) == multiset(xs)
    ensures |from| == |out| && Distinct(from)
    ensures forall i :: 0 <= i < |from| ==> from[i] < |xs| && out[i] == xs[from[i]]
    decreases |out|
  {
    if out == [] { return []; }
    var p := PlaceOfFirst(out, xs);
    var less := xs[..p] + xs[p + 1..];
    var more := Places(out[1..], less);
    from := [p] + Around(p, more);
    AroundIsDistinct(p, more);
    forall i | 0 < i < |from| ensures from[i] < |xs| && out[i] == xs[from[i]] {
      assert from[i] == Around(p, more)[i - 1] && out[i] == out[1..][i - 1] == less[more[i - 1]];
    }
  }
}
