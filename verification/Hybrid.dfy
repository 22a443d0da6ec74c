/** The real-or-ideal argument of mask_prf_fcf.v with probabilities as counted
    averages: no axiom about enumeration or arithmetic is left. */
module Hybrid {
  import opened Wrappers
  import opened Collisions

  /** A distinguisher: its probability of answering yes on a list of outputs. */
  ghost predicate IsDistinguisher(A: seq<nat> -> real) {
    forall rs :: 0.0 <= A(rs) <= 1.0
  }

  function Lookup(d: nat, f: seq<(nat, nat)>): Option<nat> {
    if f == [] then None
    else if f[0].0 == d then Some(f[0].1)
    else Lookup(d, f[1..])
  }

  /** The probability that A accepts what the memoised random function answers
      to ls, the answers acc given before and the table f: a repeated query is
      looked up, a new one averages over v answers. */
  function RealMask(A: seq<nat> -> real, v: nat, ls: seq<nat>, f: seq<(nat, nat)>, acc: seq<nat>): real
    requires v > 0
    decreases |ls|, v + 1
  {
    if ls == [] then A(acc)
    else
      match Lookup(ls[0], f)
      case Some(r) => RealMask(A, v, ls[1..], f, acc + [r])
      case None => RealSum(A, v, ls, f, acc, v) / v as real
  }

  /** Summed over the answers below n to the first query. */
  function RealSum(A: seq<nat> -> real, v: nat, ls: seq<nat>, f: seq<(nat, nat)>, acc: seq<nat>, n: nat): real
    requires v > 0 && ls != [] && n <= v
    decreases |ls|, n
  {
    if n == 0 then 0.0
    else RealSum(A, v, ls, f, acc, n - 1) + RealMask(A, v, ls[1..], [(ls[0], n - 1)] + f, acc + [n - 1])
  }

  /** Every query answered afresh. */
  function IdealMask(A: seq<nat> -> real, v: nat, ls: seq<nat>, acc: seq<nat>): real
    requires v > 0
    decreases |ls|, v + 1
  {
    if ls == [] then A(acc) else IdealSum(A, v, ls, acc, v) / v as real
  }

  function IdealSum(A: seq<nat> -> real, v: nat, ls: seq<nat>, acc: seq<nat>, n: nat): real
    requires v > 0 && ls != [] && n <= v
    decreases |ls|, n
  {
    if n == 0 then 0.0 else IdealSum(A, v, ls, acc, n - 1) + IdealMask(A, v, ls[1..], acc + [n - 1])
  }

  // ------------------------------------------------ probabilities are sane

  lemma Fraction(x: real, v: nat)
    requires v > 0 && 0.0 <= x <= v as real
    ensures 0.0 <= x / v as real <= 1.0
  {
  }

  lemma {:induction false} RealMaskBounds(A: seq<nat> -> real, v: nat, ls: seq<nat>, f: seq<(nat, nat)>, acc: seq<nat>)
    requires v > 0 && IsDistinguisher(A)
    ensures 0.0 <= RealMask(A, v, ls, f, acc) <= 1.0
    decreases |ls|, v + 1
  {
    if ls != [] {
      match Lookup(ls[0], f)
      case Some(r) => RealMaskBounds(A, v, ls[1..], f, acc + [r]);
      case None =>
        RealSumBounds(A, v, ls, f, acc, v);
        Fraction(RealSum(A, v, ls, f, acc, v), v);
    }
  }

  lemma {:induction false} RealSumBounds(A: seq<nat> -> real, v: nat, ls: seq<nat>, f: seq<(nat, nat)>, acc: seq<nat>, n: nat)
    requires v > 0 && ls != [] && n <= v && IsDistinguisher(A)
    ensures 0.0 <= RealSum(A, v, ls, f, acc, n) <= n as real
    decreases |ls|, n
  {
    if n > 0 {
      RealSumBounds(A, v, ls, f, acc, n - 1);
      RealMaskBounds(A, v, ls[1..], [(ls[0], n - 1)] + f, acc + [n - 1]);
    }
  }

  lemma {:induction false} IdealMaskBounds(A: seq<nat> -> real, v: nat, ls: seq<nat>, acc: seq<nat>)
    requires v > 0 && IsDistinguisher(A)
    ensures 0.0 <= IdealMask(A, v, ls, acc) <= 1.0
    decreases |ls|, v + 1
  {
    if ls != [] {
      IdealSumBounds(A, v, ls, acc, v);
      Fraction(IdealSum(A, v, ls, acc, v), v);
    }
  }

  lemma {:induction false} IdealSumBounds(A: seq<nat> -> real, v: nat, ls: seq<nat>, acc: seq<nat>, n: nat)
    requires v > 0 && ls != [] && n <= v && IsDistinguisher(A)
    ensures 0.0 <= IdealSum(A, v, ls, acc, n) <= n as real
    decreases |ls|, n
  {
    if n > 0 {
      IdealSumBounds(A, v, ls, acc, n - 1);
      IdealMaskBounds(A, v, ls[1..], acc + [n - 1]);
    }
  }

  // ---------------------------------------------- no collision, no difference

  lemma {:induction false} LookupMisses(d: nat, f: seq<(nat, nat)>)
    ensures Lookup(d, f).None? <==> forall i :: 0 <= i < |f| ==> f[i].0 != d
  {
    if f != [] {
      LookupMisses(d, f[1..]);
      assert forall i :: 1 <= i < |f| ==> f[i] == f[1..][i - 1];
      assert forall i :: 0 <= i < |f| - 1 ==> f[1..][i] == f[i + 1];
    }
  }

  /** A lookup finds the first entry of the key, and its value. */
  lemma {:induction false} LookupHits(d: nat, f: seq<(nat, nat)>, r: nat)
    ensures Lookup(d, f) == Some(r)
            <==> exists i :: 0 <= i < |f| && f[i] == (d, r) && forall j :: 0 <= j < i ==> f[j].0 != d
  {
    if f != [] {
      var g := f[1..];
      LookupHits(d, g, r);
      assert forall i :: 0 <= i < |g| ==> g[i] == f[i + 1];
      if f[0].0 != d {
        if Lookup(d, g) == Some(r) {
          var i :| 0 <= i < |g| && g[i] == (d, r) && forall j :: 0 <= j < i ==> g[j].0 != d;
          assert f[i + 1] == (d, r) && forall j :: 0 <= j < i + 1 ==> f[j].0 != d by {
            assert forall j :: 1 <= j < i + 1 ==> f[j] == g[j - 1];
          }
        }
        if i :| 0 <= i < |f| && f[i] == (d, r) && forall j :: 0 <= j < i ==> f[j].0 != d {
          assert g[i - 1] == (d, r) && forall j :: 0 <= j < i - 1 ==> g[j].0 != d;
        }
      }
    }
  }

  /** None of the queries is in the table. */
  predicate Unseen(ls: seq<nat>, f: seq<(nat, nat)>) {
    forall i, j :: 0 <= i < |ls| && 0 <= j < |f| ==> f[j].0 != ls[i]
  }

  lemma UnseenTail(ls: seq<nat>, f: seq<(nat, nat)>, r: nat)
    requires ls != [] && Distinct(ls) && Unseen(ls, f)
    ensures Distinct(ls[1..]) && Unseen(ls[1..], [(ls[0], r)] + f)
  {
    var g := [(ls[0], r)] + f;
    forall i, j | 0 <= i < |ls| - 1 && 0 <= j < |g|
      ensures g[j].0 != ls[1..][i]
    {
      assert ls[1..][i] == ls[i + 1];
      assert j > 0 ==> g[j] == f[j - 1];
    }
  }

  lemma {:induction false} DistinctQueriesAgree(A: seq<nat> -> real, v: nat, ls: seq<nat>, f: seq<(nat, nat)>, acc: seq<nat>)
    requires v > 0 && Distinct(ls) && Unseen(ls, f)
    ensures RealMask(A, v, ls, f, acc) == IdealMask(A, v, ls, acc)
    decreases |ls|, v + 1
  {
    if ls != [] {
      LookupMisses(ls[0], f);
      DistinctSumsAgree(A, v, ls, f, acc, v);
    }
  }

  lemma {:induction false} DistinctSumsAgree(A: seq<nat> -> real, v: nat, ls: seq<nat>, f: seq<(nat, nat)>, acc: seq<nat>, n: nat)
    requires v > 0 && ls != [] && n <= v && Distinct(ls) && Unseen(ls, f)
    ensures RealSum(A, v, ls, f, acc, n) == IdealSum(A, v, ls, acc, n)
    decreases |ls|, n
  {
    if n > 0 {
      DistinctSumsAgree(A, v, ls, f, acc, n - 1);
      UnseenTail(ls, f, n - 1);
      DistinctQueriesAgree(A, v, ls[1..], [(ls[0], n - 1)] + f, acc + [n - 1]);
    }
  }

  // ------------------------------------------------------------- averaging

  /** The sum of g over a finite set of lists. */
  ghost function Sum(s: set<seq<nat>>, g: seq<nat> -> real): real
    decreases s
  {
    if s == {} then 0.0
    else
      var x :| x in s;
      g(x) + Sum(s - {x}, g)
  }

  /** Two games that agree on duplicate-free queries and lie within [0, 1] have
      sums that differ by at most the number of lists with a duplicate. */
  lemma {:induction false} Averaging(s: set<seq<nat>>, g: seq<nat> -> real, h: seq<nat> -> real)
    requires forall x :: x in s ==> 0.0 <= g(x) <= 1.0 && 0.0 <= h(x) <= 1.0
    requires forall x :: x in s && Distinct(x) ==> g(x) == h(x)
    ensures var dups := |set x | x in s && !Distinct(x)| as real;
            -dups <= Sum(s, g) - Sum(s, h) <= dups
    decreases s
  {
    if s != {} {
      var x, rest := SumSplits(s, g, h);
      Averaging(rest, g, h);
      var dups, fewer := set y | y in s && !Distinct(y), set y | y in rest && !Distinct(y);
      if Distinct(x) {
        assert dups == fewer;
      } else {
        assert dups == fewer + {x};
      }
    }
  }

  lemma SumSplits(s: set<seq<nat>>, g: seq<nat> -> real, h: seq<nat> -> real)
    returns (x: seq<nat>, rest: set<seq<nat>>)
    requires s != {}
    ensures x in s && rest == s - {x}
    ensures Sum(s, g) == g(x) + Sum(rest, g) && Sum(s, h) == h(x) + Sum(rest, h)
  {
    x :| x in s;
    rest := s - {x};
    SumPicks(s, g, x);
    SumPicks(s, h, x);
  }

  lemma {:induction false} SumPicks(s: set<seq<nat>>, g: seq<nat> -> real, x: seq<nat>)
    requires x in s
    ensures Sum(s, g) == g(x) + Sum(s - {x}, g)
    decreases s
  {
    var y :| y in s && Sum(s, g) == g(y) + Sum(s - {y}, g);
    if y != x {
      SumPicks(s - {y}, g, x);
      SumPicks(s - {x}, g, y);
      assert s - {y} - {x} == s - {x} - {y};
    }
  }

  ghost function RealOn(A: seq<nat> -> real, v: nat): seq<nat> -> real
    requires v > 0
  {
    ls => RealMask(A, v, ls, [], [])
  }

  ghost function IdealOn(A: seq<nat> -> real, v: nat): seq<nat> -> real
    requires v > 0
  {
    ls => IdealMask(A, v, ls, [])
  }

  /** The acceptance sums of the two games over all lists of q queries: U^q
      times the probability of acceptance under uniform queries. */
  ghost function RealGame(A: seq<nat> -> real, u: nat, v: nat, q: nat): real
    requires v > 0
  {
    Sum(Lists(u, q), RealOn(A, v))
  }

  ghost function IdealGame(A: seq<nat> -> real, u: nat, v: nat, q: nat): real
    requires v > 0
  {
    Sum(Lists(u, q), IdealOn(A, v))
  }

  /** U^q times the advantage of any distinguisher is at most CountColl(q, U):
      the sums over the U^q query lists differ by no more. */
  lemma HybridBound(A: seq<nat> -> real, u: nat, v: nat, q: nat)
    requires v > 0 && IsDistinguisher(A)
    ensures -(CountColl(q, u) as real) <= RealGame(A, u, v, q) - IdealGame(A, u, v, q) <= CountColl(q, u) as real
  {
    var g, h := RealOn(A, v), IdealOn(A, v);
    forall ls: seq<nat>
      ensures 0.0 <= g(ls) <= 1.0 && 0.0 <= h(ls) <= 1.0 && (Distinct(ls) ==> g(ls) == h(ls))
    {
      RealMaskBounds(A, v, ls, [], []);
      IdealMaskBounds(A, v, ls, []);
      if Distinct(ls) {
        DistinctQueriesAgree(A, v, ls, [], []);
      }
    }
    hide RealOn, IdealOn, CountColl, Lists, Distinct;
    CountCollCounts(u, q);
    Averaging(Lists(u, q), g, h);
  }

  /** With the birthday bound: twice that difference is at most
      q * (q - 1) * U^(q - 1). */
  lemma HybridBirthday(A: seq<nat> -> real, u: nat, v: nat, q: nat)
    requires v > 0 && q > 0 && IsDistinguisher(A)
    ensures var bound := (q * (q - 1) * Pow(u, q - 1)) as real;
            -bound <= 2.0 * (RealGame(A, u, v, q) - IdealGame(A, u, v, q)) <= bound
  {
    hide RealGame, IdealGame, CountColl, Pow;
    HybridBound(A, u, v, q);
    BirthdayBound(q, u);
    assert (2 * CountColl(q, u)) as real == 2.0 * CountColl(q, u) as real;
  }
}
