/** The birthday count of mask_prf.v, tied to the lists it is meant to count. */
module Collisions {

  function Pow(u: nat, q: nat): nat {
    if q == 0 then 1 else u * Pow(u, q - 1)
  }

  lemma PowStep(u: nat, q: nat)
    ensures Pow(u, q + 1) == u * Pow(u, q) == Pow(u, q) * u
  {
  }

  /** U * (U - 1) * ... with the natural numbers' subtraction, which stops at 0. */
  function Falling(u: nat, q: nat): nat {
    if q == 0 then 1 else u * Falling(if u == 0 then 0 else u - 1, q - 1)
  }

  function CountColl(q: nat, u: nat): nat {
    if q <= 1 then 0 else CountColl(q - 1, u) * u + Falling(u, q - 1) * (q - 1)
  }

  // ------------------------------------------------------------- arithmetic

  /** The last factor instead of the first. */
  lemma {:induction false} FallingLast(u: nat, q: nat)
    requires q > 0
    ensures Falling(u, q) == Falling(u, q - 1) * if q <= u then u - (q - 1) else 0
  {
    if q == 1 {
      assert Falling(u, 1) == u * Falling(if u == 0 then 0 else u - 1, 0);
    } else if u > 0 {
      FallingLast(u - 1, q - 1);
      var k := if q <= u then u - (q - 1) else 0;
      assert u * (Falling(u - 1, q - 2) * k) == (u * Falling(u - 1, q - 2)) * k;
    }
  }

  /** Lists with a duplicate and lists without make up all lists. */
  lemma {:induction false} CountsSum(q: nat, u: nat)
    ensures CountColl(q, u) + Falling(u, q) == Pow(u, q)
  {
    if q == 1 {
      assert Falling(u, 1) == u * Falling(if u == 0 then 0 else u - 1, 0) == u;
      assert Pow(u, 1) == u * Pow(u, 0) == u;
    } else if q > 1 {
      CountsSum(q - 1, u);
      assert CountColl(q, u) == CountColl(q - 1, u) * u + Falling(u, q - 1) * (q - 1);
      assert Pow(u, q) == u * Pow(u, q - 1);
      hide *;
      FallingSplits(q, u);
      Distribute(CountColl(q - 1, u), Falling(u, q - 1), u);
    }
  }

  lemma Distribute(c: nat, f: nat, u: nat)
    ensures u * (c + f) == c * u + f * u
  {
  }

  /** Of the u ways to extend a list of q - 1 distinct values, q - 1 repeat one. */
  lemma FallingSplits(q: nat, u: nat)
    requires q > 0
    ensures Falling(u, q) + Falling(u, q - 1) * (q - 1) == Falling(u, q - 1) * u
  {
    FallingLast(u, q);
    var f := Falling(u, q - 1);
    hide *;
    if q <= u {
      Distribute(u - (q - 1), q - 1, f);
    } else if q - 1 > u {
      FallingVanishes(u, q - 1);
    }
  }

  /** No list longer than the alphabet is free of duplicates. */
  lemma {:induction false} FallingVanishes(u: nat, q: nat)
    requires u < q
    ensures Falling(u, q) == 0
  {
    if u > 0 { FallingVanishes(u - 1, q - 1); }
  }

  lemma {:induction false} FallingBelowPow(u: nat, q: nat)
    ensures Falling(u, q) <= Pow(u, q)
  {
    CountsSum(q, u);
  }

  /** The birthday bound: 2 * CountColl(q, U) <= q * (q - 1) * U^(q - 1). */
  lemma {:induction false} BirthdayBound(q: nat, u: nat)
    ensures 2 * CountColl(q, u) <= q * (q - 1) * (if q == 0 then 1 else Pow(u, q - 1))
  {
    if q > 1 {
      BirthdayBound(q - 1, u);
      FallingBelowPow(u, q - 1);
      assert CountColl(q, u) == CountColl(q - 1, u) * u + Falling(u, q - 1) * (q - 1);
      assert Pow(u, q - 1) == u * Pow(u, q - 2);
      var c, f, p, w := CountColl(q - 1, u), Falling(u, q - 1), Pow(u, q - 2), Pow(u, q - 1);
      BirthdayStep(c, f, p, w, q, u);
    }
  }

  lemma BirthdayStep(c: nat, f: nat, p: nat, w: nat, q: nat, u: nat)
    requires q > 1 && w == u * p && f <= w && 2 * c <= (q - 1) * (q - 2) * p
    ensures 2 * (c * u + f * (q - 1)) <= q * (q - 1) * w
  {
    var k := (q - 1) * (q - 2);
    assert 2 * c * u <= k * p * u by { MulMono(2 * c, k * p, u); }
    assert k * p * u == k * w;
    assert f * (q - 1) <= w * (q - 1) by { MulMono(f, w, q - 1); }
    assert k * w + 2 * (w * (q - 1)) == (k + 2 * (q - 1)) * w;
    assert k + 2 * (q - 1) == q * (q - 1);
  }

  lemma MulMono(a: nat, b: nat, c: nat)
    requires a <= b
    ensures a * c <= b * c
  {
  }

  // ----------------------------------------------------- what is counted

  /** Every list of length q over the values below u. */
  function Lists(u: nat, q: nat): set<seq<nat>> {
    if q == 0 then {[]} else set p, d | p in Lists(u, q - 1) && d in Below(u) :: p + [d]
  }

  function Below(u: nat): (r: set<nat>)
    ensures |r| == u && forall d: nat :: d in r <==> d < u
  {
    if u == 0 then {} else Below(u - 1) + {u - 1}
  }

  lemma {:induction false} ListsAreAll(u: nat, q: nat, ls: seq<nat>)
    ensures ls in Lists(u, q) <==> |ls| == q && forall i :: 0 <= i < q ==> ls[i] < u
  {
    if q > 0 {
      if ls in Lists(u, q) {
        var p, d :| p in Lists(u, q - 1) && d in Below(u) && ls == p + [d];
        ListsAreAll(u, q - 1, p);
      }
      if |ls| == q && forall i :: 0 <= i < q ==> ls[i] < u {
        ListsAreAll(u, q - 1, ls[..q - 1]);
        assert ls[..q - 1] + [ls[q - 1]] == ls;
      }
    }
  }

  predicate Distinct(ls: seq<nat>) {
    forall i, j :: 0 <= i < j < |ls| ==> ls[i] != ls[j]
  }

  function Elements(ls: seq<nat>): set<nat> {
    set i | 0 <= i < |ls| :: ls[i]
  }

  lemma {:induction false} DistinctElements(ls: seq<nat>)
    requires Distinct(ls)
    ensures |Elements(ls)| == |ls|
  {
    if ls != [] {
      var n := |ls| - 1;
      DistinctElements(ls[..n]);
      assert Elements(ls) == Elements(ls[..n]) + {ls[n]};
    }
  }

  lemma ImageSize(p: seq<nat>, values: set<nat>)
    ensures |set d | d in values :: p + [d]| == |values|
    decreases values
  {
    if values != {} {
      var d :| d in values;
      var rest := values - {d};
      ImageSize(p, rest);
      var image, smaller := set d | d in values :: p + [d], set d | d in rest :: p + [d];
      forall e | p + [e] == p + [d]
        ensures e == d
      {
        assert (p + [e])[|p|] == (p + [d])[|p|];
      }
      assert p + [d] !in smaller;
      assert image == smaller + {p + [d]};
    }
  }

  function Fresh(p: seq<nat>, u: nat): set<nat> {
    set d | d in Below(u) && d !in p
  }

  lemma FreshSize(p: seq<nat>, u: nat)
    requires Distinct(p) && forall i :: 0 <= i < |p| ==> p[i] < u
    ensures |p| <= u && |Fresh(p, u)| == u - |p|
  {
    DistinctElements(p);
    forall d | d in Elements(p)
      ensures d in Below(u)
    {
    }
    assert Fresh(p, u) !! Elements(p) && Below(u) == Fresh(p, u) + Elements(p);
  }

  /** The lists of s, each extended by every value picked for it. */
  ghost function Extend(s: set<seq<nat>>, pick: seq<nat> -> set<nat>): set<seq<nat>> {
    set p, d | p in s && d in pick(p) :: p + [d]
  }

  lemma {:induction false} ExtendSize(s: set<seq<nat>>, pick: seq<nat> -> set<nat>, k: nat, n: nat)
    requires forall p :: p in s ==> |p| == k && |pick(p)| == n
    ensures |Extend(s, pick)| == |s| * n
    decreases s
  {
    if s == {} {
      assert Extend(s, pick) == {};
    } else {
      hide Extend;
      var p :| p in s;
      ExtendSize(s - {p}, pick, k, n);
      ImageSize(p, pick(p));
      ExtendSplits(s, pick, p, k);
      Grows(|s - {p}|, n, |Extend(s - {p}, pick)|, |s|);
    }
  }

  lemma Grows(a: nat, n: nat, x: nat, b: nat)
    requires x == a * n && b == a + 1
    ensures x + n == b * n
  {
  }

  lemma ExtendSplits(s: set<seq<nat>>, pick: seq<nat> -> set<nat>, p: seq<nat>, k: nat)
    requires p in s && forall x :: x in s ==> |x| == k
    ensures var image := set d | d in pick(p) :: p + [d];
            Extend(s, pick) == Extend(s - {p}, pick) + image && Extend(s - {p}, pick) !! image
  {
    var image := set d | d in pick(p) :: p + [d];
    forall x, d, e | x in s - {p} && d in pick(x) && e in pick(p)
      ensures x + [d] != p + [e]
    {
      assert (x + [d])[..k] == x && (p + [e])[..k] == p;
    }
  }

  ghost function DistinctLists(u: nat, q: nat): set<seq<nat>> {
    set ls | ls in Lists(u, q) && Distinct(ls)
  }

  lemma {:induction false} ListsSize(u: nat, q: nat)
    ensures |Lists(u, q)| == Pow(u, q)
  {
    if q == 0 {
      assert Lists(u, q) == {[]};
    } else {
      ListsSize(u, q - 1);
      forall p | p in Lists(u, q - 1) ensures |p| == q - 1 { ListsAreAll(u, q - 1, p); }
      var pick := (p: seq<nat>) => Below(u);
      PowStep(u, q - 1);
      assert Extend(Lists(u, q - 1), pick) == Lists(u, q);
      hide Lists, Extend, Below, Pow;
      ExtendSize(Lists(u, q - 1), pick, q - 1, u);
    }
  }

  lemma DistinctExtends(u: nat, q: nat, pick: seq<nat> -> set<nat>)
    requires q > 0 && forall p :: pick(p) == Fresh(p, u)
    ensures DistinctLists(u, q) == Extend(DistinctLists(u, q - 1), pick)
  {
    forall ls
      ensures ls in DistinctLists(u, q) <==> ls in Extend(DistinctLists(u, q - 1), pick)
    {
      if ls in DistinctLists(u, q) {
        var p, d :| p in Lists(u, q - 1) && d in Below(u) && ls == p + [d];
        DistinctSnoc(p, d);
        assert p in DistinctLists(u, q - 1) && d in pick(p);
      }
      if ls in Extend(DistinctLists(u, q - 1), pick) {
        var p, d :| p in DistinctLists(u, q - 1) && d in pick(p) && ls == p + [d];
        DistinctSnoc(p, d);
        assert p in Lists(u, q - 1) && d in Below(u);
      }
    }
  }

  lemma DistinctSnoc(p: seq<nat>, d: nat)
    ensures Distinct(p + [d]) <==> Distinct(p) && d !in p
  {
    var ls := p + [d];
    assert ls[|p|] == d && forall i :: 0 <= i < |p| ==> ls[i] == p[i];
  }

  /** Falling(u, q) is the number of lists without a duplicate. */
  lemma {:induction false} DistinctSize(u: nat, q: nat)
    ensures |DistinctLists(u, q)| == Falling(u, q)
  {
    if q == 0 {
      assert DistinctLists(u, 0) == {[]};
    } else {
      DistinctSize(u, q - 1);
      FallingLast(u, q);
      var pick := (p: seq<nat>) => Fresh(p, u);
      DistinctExtends(u, q, pick);
      DistinctStep(u, q, pick);
    }
  }

  lemma DistinctStep(u: nat, q: nat, pick: seq<nat> -> set<nat>)
    requires q > 0 && forall p :: pick(p) == Fresh(p, u)
    ensures |Extend(DistinctLists(u, q - 1), pick)|
         == |DistinctLists(u, q - 1)| * if q <= u then u - (q - 1) else 0
  {
    var s := DistinctLists(u, q - 1);
    if s == {} {
      assert Extend(s, pick) == {};
    } else {
      forall p | p in s
        ensures q - 1 <= u && |p| == q - 1 && |pick(p)| == u - (q - 1)
      {
        ListsAreAll(u, q - 1, p);
        FreshSize(p, u);
      }
      var p :| p in s;
      hide Fresh, Extend, DistinctLists;
      ExtendSize(s, pick, q - 1, u - (q - 1));
    }
  }

  /** CountColl(q, u) is the number of lists with a duplicate. */
  lemma CountCollCounts(u: nat, q: nat)
    ensures |set ls | ls in Lists(u, q) && !Distinct(ls)| == CountColl(q, u)
  {
    ListsSize(u, q);
    DistinctSize(u, q);
    CountsSum(q, u);
    var dups := set ls | ls in Lists(u, q) && !Distinct(ls);
    assert Lists(u, q) == dups + DistinctLists(u, q);
  }
}
