/**
 * Result selection over a score vector: np.argmax (the first index holding
 * the maximum score) and the CLI's top five, `argsort()[-5:][::-1]`.
 * Scores are reals; only their order matters.
 *
 * np.argsort's default sort is not stable, so the order among equal scores
 * is not fixed by the source. The model breaks ties by putting the higher
 * index first (a stable ascending sort, reversed). Every property stated
 * about the top five below holds whatever the tie order is, except the
 * exact identity of the indices among equal scores.
 */
module Scores {
  import opened Wrappers

  /** np.argmax: the index of the maximum, the first one when several indices share it. */
  function ArgMax(s: seq<real>): (r: nat)
    requires |s| > 0
    ensures r < |s|
    ensures forall j | 0 <= j < |s| :: s[j] <= s[r]
    ensures forall j | 0 <= j < r :: s[j] < s[r]
    decreases |s|
  {
    if |s| == 1 then 0
    else
      var m := ArgMax(s[..|s| - 1]);
      if s[|s| - 1] > s[m] then |s| - 1 else m
  }

  /** The maximum is attained at exactly one "first" index: ArgMax is the only index with its two properties. */
  lemma ArgMaxUnique(s: seq<real>, r: nat)
    requires r < |s|
    requires forall j | 0 <= j < |s| :: s[j] <= s[r]
    requires forall j | 0 <= j < r :: s[j] < s[r]
    ensures ArgMax(s) == r
  {
    var a := ArgMax(s);
    assert s[a] == s[r];
  }

  /**
   * The ranking used for the top five: a higher score first, and among equal
   * scores the higher index first. It is a strict total order on indices.
   */
  predicate Outranks(s: seq<real>, a: nat, b: nat)
    requires a < |s| && b < |s|
  {
    s[a] > s[b] || (s[a] == s[b] && a > b)
  }

  lemma OutranksTotal(s: seq<real>, a: nat, b: nat)
    requires a < |s| && b < |s|
    ensures a != b <==> (Outranks(s, a, b) || Outranks(s, b, a))
    ensures !(Outranks(s, a, b) && Outranks(s, b, a))
  {
  }

  /** The best-ranked index below `n` that is not in `taken`, if any. */
  function Pick(s: seq<real>, taken: seq<nat>, n: nat): (r: Option<nat>)
    requires n <= |s|
    ensures r.Some? ==> r.value < n && r.value !in taken
    ensures r.Some? ==> forall j | 0 <= j < n && j !in taken && j != r.value :: Outranks(s, r.value, j)
    ensures r.None? ==> forall j | 0 <= j < n :: j in taken
    decreases n
  {
    if n == 0 then None
    else
      var rest := Pick(s, taken, n - 1);
      if n - 1 in taken then rest
      else match rest
        case None => Some(n - 1)
        case Some(b) => if Outranks(s, n - 1, b) then Some(n - 1) else rest
  }

  predicate Distinct(t: seq<nat>) {
    forall i, j | 0 <= i < j < |t| :: t[i] != t[j]
  }

  predicate InRange(t: seq<nat>, n: nat) {
    forall i | 0 <= i < |t| :: t[i] < n
  }

  /**
   * Up to `k` indices outside `taken`, best-ranked first: they are in range
   * and not taken, strictly ranked, no index left over outranks any of them,
   * and there are as many as `k` allows and the free indices provide.
   */
  function TopFrom(s: seq<real>, k: nat, taken: seq<nat>): (r: seq<nat>)
    requires Distinct(taken) && InRange(taken, |s|)
    ensures InRange(r, |s|)
    ensures forall i | 0 <= i < |r| :: r[i] !in taken
    ensures forall i, j | 0 <= i < j < |r| :: Outranks(s, r[i], r[j])
    ensures forall x, i | 0 <= x < |s| && x !in taken && x !in r && 0 <= i < |r| :: Outranks(s, r[i], x)
    ensures |r| == if k < |s| - |taken| then k else |s| - |taken|
    decreases k
  {
    DistinctInRangeBound(taken, |s|);
    if k == 0 then []
    else match Pick(s, taken, |s|)
      case None =>
        AllInRangeLength(taken, |s|);
        []
      case Some(b) =>
        assert Distinct(taken + [b]);
        DistinctInRangeBound(taken + [b], |s|);
        var rest := TopFrom(s, k - 1, taken + [b]);
        assert forall x | x in rest :: x != b && x !in taken;
        [b] + rest
  }

  /** The CLI's top five: `argsort()[-5:][::-1]`. */
  function TopFive(s: seq<real>): seq<nat> {
    TopFrom(s, 5, [])
  }

  /**
   * The top five are min(5, n) distinct indices in non-increasing score
   * order, and no index outside them scores higher than any of them.
   */
  lemma TopFiveSpec(s: seq<real>)
    ensures |TopFive(s)| == if |s| < 5 then |s| else 5
    ensures Distinct(TopFive(s)) && InRange(TopFive(s), |s|)
    ensures forall i, j | 0 <= i < j < |TopFive(s)| :: s[TopFive(s)[i]] >= s[TopFive(s)[j]]
    ensures forall x, i | 0 <= x < |s| && x !in TopFive(s) && 0 <= i < |TopFive(s)| :: s[x] <= s[TopFive(s)[i]]
  {
    var t := TopFive(s);
    forall i, j | 0 <= i < j < |t| ensures t[i] != t[j] {
      assert Outranks(s, t[i], t[j]);
    }
  }

  /** The first of the top five has the maximum score, and is the argmax itself when the maximum is unique. */
  lemma TopFiveHeadIsMax(s: seq<real>)
    requires |s| > 0
    ensures |TopFive(s)| > 0 && s[TopFive(s)[0]] == s[ArgMax(s)]
    ensures (forall j | 0 <= j < |s| && j != ArgMax(s) :: s[j] < s[ArgMax(s)]) ==> TopFive(s)[0] == ArgMax(s)
  {
    var t := TopFive(s);
    var a := ArgMax(s);
    if a !in t {
      assert Outranks(s, t[0], a);
    } else {
      var i :| 0 <= i < |t| && t[i] == a;
      if i > 0 {
        assert Outranks(s, t[0], t[i]);
      }
    }
  }

  // ---------------------------------------------------------------------------
  // Counting indices
  // ---------------------------------------------------------------------------

  /** The indices below n. */
  function Range(n: nat): set<nat> {
    if n == 0 then {} else Range(n - 1) + {n - 1}
  }

  function Elements(t: seq<nat>): set<nat> {
    set x | x in t
  }

  lemma {:induction false} RangeCard(n: nat)
    ensures |Range(n)| == n
    ensures forall x: nat :: x in Range(n) <==> x < n
  {
    if n > 0 {
      RangeCard(n - 1);
    }
  }

  lemma {:induction false} DistinctCard(t: seq<nat>)
    requires Distinct(t)
    ensures |Elements(t)| == |t|
    decreases |t|
  {
    if t != [] {
      var init := t[..|t| - 1];
      assert Distinct(init);
      DistinctCard(init);
      assert Elements(t) == Elements(init) + {t[|t| - 1]};
      assert t[|t| - 1] !in Elements(init);
    }
  }

  /** Distinct indices below n number at most n. */
  lemma DistinctInRangeBound(t: seq<nat>, n: nat)
    requires Distinct(t) && InRange(t, n)
    ensures |t| <= n
  {
    DistinctCard(t);
    RangeCard(n);
    assert Elements(t) <= Range(n);
    assert |Range(n) - Elements(t)| + |Elements(t)| == |Range(n)|;
  }

  /** Distinct indices below n that include every index below n number exactly n. */
  lemma AllInRangeLength(t: seq<nat>, n: nat)
    requires Distinct(t) && InRange(t, n)
    requires forall j | 0 <= j < n :: j in t
    ensures |t| == n
  {
    DistinctCard(t);
    RangeCard(n);
    assert Elements(t) == Range(n);
  }
}
