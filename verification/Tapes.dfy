/** The games of Hybrid as counts: a query list and a random tape, one draw in
    0..v-1 for every query, decide the outcome. The averages of Hybrid are these
    counts divided by the number of tapes. */
module Tapes {
  import opened Wrappers
  import opened Collisions
  import opened Hybrid

  /** The memoised oracle on a tape: a repeated query leaves its draw unused. */
  function RealAnswers(ls: seq<nat>, f: seq<(nat, nat)>, tape: seq<nat>): seq<nat> {
    if ls == [] || tape == [] then []
    else
      match Lookup(ls[0], f)
      case Some(r) => [r] + RealAnswers(ls[1..], f, tape[1..])
      case None => [tape[0]] + RealAnswers(ls[1..], [(ls[0], tape[0])] + f, tape[1..])
  }

  lemma {:induction false} AnswersKnown(ls: seq<nat>, f: seq<(nat, nat)>, tape: seq<nat>, i: nat, r: nat)
    requires |tape| == |ls| && i < |ls| && Lookup(ls[i], f) == Some(r)
    ensures |RealAnswers(ls, f, tape)| == |ls| && RealAnswers(ls, f, tape)[i] == r
  {
    AnswersSize(ls, f, tape);
    if i > 0 {
      var g := if Lookup(ls[0], f).Some? then f else [(ls[0], tape[0])] + f;
      AnswersKnown(ls[1..], g, tape[1..], i - 1, r);
    }
  }

  lemma {:induction false} AnswersSize(ls: seq<nat>, f: seq<(nat, nat)>, tape: seq<nat>)
    requires |tape| == |ls|
    ensures |RealAnswers(ls, f, tape)| == |ls|
    decreases |ls|
  {
    if ls != [] {
      AnswersSize(ls[1..], f, tape[1..]);
      AnswersSize(ls[1..], [(ls[0], tape[0])] + f, tape[1..]);
    }
  }

  lemma {:induction false} AnswersNew(ls: seq<nat>, f: seq<(nat, nat)>, tape: seq<nat>, i: nat, k: nat)
    requires |tape| == |ls| && k <= i < |ls| && ls[k] == ls[i] && Lookup(ls[i], f).None?
    requires forall j :: 0 <= j < k ==> ls[j] != ls[i]
    ensures |RealAnswers(ls, f, tape)| == |ls| && RealAnswers(ls, f, tape)[i] == tape[k]
  {
    AnswersSize(ls, f, tape);
    if k > 0 {
      var g := if Lookup(ls[0], f).Some? then f else [(ls[0], tape[0])] + f;
      AnswersNew(ls[1..], g, tape[1..], i - 1, k - 1);
    } else if i > 0 {
      AnswersKnown(ls[1..], [(ls[0], tape[0])] + f, tape[1..], i - 1, tape[0]);
    }
  }

  /** The oracle remembers: every query is answered with the draw of its first
      occurrence. */
  lemma AnswersRemember(ls: seq<nat>, tape: seq<nat>, i: nat, k: nat)
    requires |tape| == |ls| && k <= i < |ls|
    requires ls[k] == ls[i] && forall j :: 0 <= j < k ==> ls[j] != ls[i]
    ensures |RealAnswers(ls, [], tape)| == |ls| && RealAnswers(ls, [], tape)[i] == tape[k]
  {
    AnswersNew(ls, [], tape, i, k);
  }

  /** The distinguisher that answers yes exactly where B holds. */
  ghost function Answer(B: seq<nat> -> bool): seq<nat> -> real {
    rs => if B(rs) then 1.0 else 0.0
  }

  ghost function RealJudge(B: seq<nat> -> bool, ls: seq<nat>, f: seq<(nat, nat)>, acc: seq<nat>): seq<nat> -> bool {
    tape => B(acc + RealAnswers(ls, f, tape))
  }

  ghost function IdealJudge(B: seq<nat> -> bool, acc: seq<nat>): seq<nat> -> bool {
    tape => B(acc + tape)
  }

  // -------------------------------------------------------- counting tapes

  ghost function Hits(v: nat, n: nat, C: seq<nat> -> bool): set<seq<nat>> {
    set t | t in Lists(v, n) && C(t)
  }

  ghost function After(C: seq<nat> -> bool, r: nat): seq<nat> -> bool {
    t => C([r] + t)
  }

  /** Hits one draw longer, those whose first draw is below m. */
  ghost function HitsBelow(v: nat, n: nat, C: seq<nat> -> bool, m: nat): set<seq<nat>> {
    set t | t in Hits(v, n + 1, C) && t != [] && t[0] < m
  }

  ghost function Prefixed(r: nat, s: set<seq<nat>>): set<seq<nat>> {
    set t | t in s :: [r] + t
  }

  lemma {:induction false} PrefixedSize(r: nat, s: set<seq<nat>>)
    ensures |Prefixed(r, s)| == |s|
    decreases s
  {
    if s == {} {
      assert Prefixed(r, s) == {};
    } else {
      var x :| x in s;
      PrefixedSize(r, s - {x});
      assert forall t :: t in s ==> ([r] + t)[1..] == t;
      assert Prefixed(r, s) == Prefixed(r, s - {x}) + {[r] + x};
    }
  }

  lemma HitsHave(v: nat, n: nat, C: seq<nat> -> bool, t: seq<nat>)
    ensures t in Hits(v, n, C) <==> |t| == n && C(t) && forall i :: 0 <= i < n ==> t[i] < v
  {
    ListsAreAll(v, n, t);
  }

  /** Split by the first draw. */
  lemma HitsSplit(v: nat, n: nat, C: seq<nat> -> bool, m: nat)
    requires m < v
    ensures |HitsBelow(v, n, C, m + 1)| == |HitsBelow(v, n, C, m)| + |Hits(v, n, After(C, m))|
  {
    var a, b, c := HitsBelow(v, n, C, m + 1), HitsBelow(v, n, C, m), Prefixed(m, Hits(v, n, After(C, m)));
    forall t
      ensures t in a <==> t in b || t in c
      ensures !(t in b && t in c)
    {
      HitsSplitAt(v, n, C, m, t);
    }
    assert a == b + c && b !! c;
    PrefixedSize(m, Hits(v, n, After(C, m)));
  }

  lemma HitsSplitAt(v: nat, n: nat, C: seq<nat> -> bool, m: nat, t: seq<nat>)
    requires m < v
    ensures var b, c := HitsBelow(v, n, C, m), Prefixed(m, Hits(v, n, After(C, m)));
            (t in HitsBelow(v, n, C, m + 1) <==> t in b || t in c) && !(t in b && t in c)
  {
    var hits := Hits(v, n, After(C, m));
    HitsHave(v, n + 1, C, t);
    hide Hits;
    if t != [] && t[0] == m {
      var x := t[1..];
      HitsHave(v, n, After(C, m), x);
      assert t == [m] + x;
      assert x in hits <==> t in Hits(v, n + 1, C);
      assert t in Prefixed(m, hits) ==> x in hits by {
        if t in Prefixed(m, hits) {
          var y :| y in hits && t == [m] + y;
          assert y == x;
        }
      }
    }
  }

  lemma HitsNone(v: nat, n: nat, C: seq<nat> -> bool)
    ensures HitsBelow(v, n, C, 0) == {}
  {
  }

  lemma HitsAll(v: nat, n: nat, C: seq<nat> -> bool)
    ensures HitsBelow(v, n, C, v) == Hits(v, n + 1, C)
  {
    forall t | t in Lists(v, n + 1)
      ensures t != [] && t[0] < v
    {
      ListsAreAll(v, n + 1, t);
    }
  }

  lemma HitsCongruent(v: nat, n: nat, C: seq<nat> -> bool, D: seq<nat> -> bool)
    requires forall t :: |t| == n ==> C(t) == D(t)
    ensures Hits(v, n, C) == Hits(v, n, D)
  {
    forall t | t in Lists(v, n)
      ensures |t| == n
    {
      ListsAreAll(v, n, t);
    }
  }

  /** No query left: the one empty tape. */
  lemma HitsOfNone(v: nat, C: seq<nat> -> bool)
    ensures |Hits(v, 0, C)| == if C([]) then 1 else 0
  {
    assert Hits(v, 0, C) == if C([]) then {[]} else {};
  }

  /** x is the fraction n / w. */
  predicate Ratio(x: real, n: nat, w: nat) {
    x * w as real == n as real
  }

  // ------------------------------------------------ judging one draw later

  lemma JudgeAfterMiss(B: seq<nat> -> bool, ls: seq<nat>, f: seq<(nat, nat)>, acc: seq<nat>, r: nat, t: seq<nat>)
    requires ls != [] && Lookup(ls[0], f).None?
    ensures After(RealJudge(B, ls, f, acc), r)(t) == RealJudge(B, ls[1..], [(ls[0], r)] + f, acc + [r])(t)
  {
    hide Lookup;
    var rest := RealAnswers(ls[1..], [(ls[0], r)] + f, t);
    assert ([r] + t)[1..] == t;
    assert RealAnswers(ls, f, [r] + t) == [r] + rest;
    assert acc + ([r] + rest) == acc + [r] + rest;
  }

  lemma JudgeAfterHit(B: seq<nat> -> bool, ls: seq<nat>, f: seq<(nat, nat)>, acc: seq<nat>, r: nat, d: nat, t: seq<nat>)
    requires ls != [] && Lookup(ls[0], f) == Some(r)
    ensures After(RealJudge(B, ls, f, acc), d)(t) == RealJudge(B, ls[1..], f, acc + [r])(t)
  {
    hide Lookup;
    var rest := RealAnswers(ls[1..], f, t);
    assert ([d] + t)[1..] == t;
    assert RealAnswers(ls, f, [d] + t) == [r] + rest;
    assert acc + ([r] + rest) == acc + [r] + rest;
  }

  lemma JudgeAfterIdeal(B: seq<nat> -> bool, acc: seq<nat>, r: nat, t: seq<nat>)
    ensures After(IdealJudge(B, acc), r)(t) == IdealJudge(B, acc + [r])(t)
  {
    assert acc + ([r] + t) == acc + [r] + t;
  }

  // -------------------------------------------- averages are counted tapes

  lemma {:induction false} RealCounts(B: seq<nat> -> bool, v: nat, ls: seq<nat>, f: seq<(nat, nat)>, acc: seq<nat>)
    requires v > 0
    ensures Ratio(RealMask(Answer(B), v, ls, f, acc), |Hits(v, |ls|, RealJudge(B, ls, f, acc))|, Pow(v, |ls|))
    decreases |ls|, v + 1
  {
    if ls == [] {
      HitsOfNone(v, RealJudge(B, ls, f, acc));
      assert RealAnswers(ls, f, []) == [] && acc + [] == acc;
      assert Pow(v, 0) == 1 && RealMask(Answer(B), v, ls, f, acc) == if B(acc) then 1.0 else 0.0;
    } else {
      var n, A := |ls| - 1, Answer(B);
      PowStep(v, n);
      hide Ratio, Lookup, Hits, HitsBelow, RealJudge, RealSum, Answer, Pow;
      HitsAll(v, n, RealJudge(B, ls, f, acc));
      match Lookup(ls[0], f) {
        case Some(r) =>
          assert RealMask(A, v, ls, f, acc) == RealMask(A, v, ls[1..], f, acc + [r]);
          hide RealMask;
          RealCounts(B, v, ls[1..], f, acc + [r]);
          UnusedDraws(B, v, ls, f, acc, r, v);
          WeightsMultiply(RealMask(A, v, ls[1..], f, acc + [r]), v, Pow(v, n),
                          |Hits(v, n, RealJudge(B, ls[1..], f, acc + [r]))|);
        case None =>
          assert RealMask(A, v, ls, f, acc) == RealSum(A, v, ls, f, acc, v) / v as real;
          hide RealMask;
          RealSumCounts(B, v, ls, f, acc, v);
          QuotientsMultiply(RealSum(A, v, ls, f, acc, v), v, Pow(v, n), |HitsBelow(v, n, RealJudge(B, ls, f, acc), v)|);
      }
    }
  }

  lemma WeightsMultiply(x: real, v: nat, p: nat, h: nat)
    requires Ratio(x, h, p)
    ensures Ratio(x, v * h, v * p)
  {
    assert (v * p) as real == v as real * p as real;
    assert (v * h) as real == v as real * h as real;
    assert x * (v as real * p as real) == v as real * (x * p as real);
  }

  lemma QuotientsMultiply(x: real, v: nat, p: nat, h: nat)
    requires v > 0 && Ratio(x, h, p)
    ensures Ratio(x / v as real, h, v * p)
  {
    var y := x / v as real;
    assert y * v as real == x;
    assert (v * p) as real == v as real * p as real;
    assert y * (v as real * p as real) == (y * v as real) * p as real;
  }

  lemma RatiosAdd(x: real, y: real, w: nat, a: nat, b: nat)
    requires Ratio(x, a, w) && Ratio(y, b, w)
    ensures Ratio(x + y, a + b, w)
  {
    assert (x + y) * w as real == x * w as real + y * w as real;
  }

  lemma ZeroRatio(w: nat)
    ensures Ratio(0.0, 0, w)
  {
  }

  /** A query found in the table: every draw gives the same outcome. */
  lemma {:induction false} UnusedDraws(B: seq<nat> -> bool, v: nat, ls: seq<nat>, f: seq<(nat, nat)>, acc: seq<nat>,
                                       r: nat, m: nat)
    requires ls != [] && Lookup(ls[0], f) == Some(r) && m <= v
    ensures |HitsBelow(v, |ls| - 1, RealJudge(B, ls, f, acc), m)|
         == m * |Hits(v, |ls| - 1, RealJudge(B, ls[1..], f, acc + [r]))|
  {
    hide Lookup, Hits, HitsBelow, RealJudge, After;
    var n, C, D := |ls| - 1, RealJudge(B, ls, f, acc), RealJudge(B, ls[1..], f, acc + [r]);
    if m == 0 {
      HitsNone(v, n, C);
    } else {
      UnusedDraws(B, v, ls, f, acc, r, m - 1);
      HitsSplit(v, n, C, m - 1);
      forall t: seq<nat> { JudgeAfterHit(B, ls, f, acc, r, m - 1, t); }
      HitsCongruent(v, n, After(C, m - 1), D);
      var h := |Hits(v, n, D)|;
      assert (m - 1) * h + h == m * h;
    }
  }

  lemma {:induction false} RealSumCounts(B: seq<nat> -> bool, v: nat, ls: seq<nat>, f: seq<(nat, nat)>, acc: seq<nat>,
                                         m: nat)
    requires v > 0 && ls != [] && Lookup(ls[0], f).None? && m <= v
    ensures Ratio(RealSum(Answer(B), v, ls, f, acc, m), |HitsBelow(v, |ls| - 1, RealJudge(B, ls, f, acc), m)|,
                  Pow(v, |ls| - 1))
    decreases |ls|, m
  {
    hide Ratio, Lookup, Hits, HitsBelow, RealJudge, After, RealMask, Answer, Pow;
    var n, C := |ls| - 1, RealJudge(B, ls, f, acc);
    if m == 0 {
      HitsNone(v, n, C);
      ZeroRatio(Pow(v, n));
    } else {
      var r := m - 1;
      var g := [(ls[0], r)] + f;
      var D := RealJudge(B, ls[1..], g, acc + [r]);
      RealSumCounts(B, v, ls, f, acc, r);
      RealCounts(B, v, ls[1..], g, acc + [r]);
      HitsSplit(v, n, C, r);
      forall t: seq<nat> { JudgeAfterMiss(B, ls, f, acc, r, t); }
      HitsCongruent(v, n, After(C, r), D);
      RatiosAdd(RealSum(Answer(B), v, ls, f, acc, r), RealMask(Answer(B), v, ls[1..], g, acc + [r]), Pow(v, n),
                |HitsBelow(v, n, C, r)|, |Hits(v, n, D)|);
    }
  }

  lemma {:induction false} IdealCounts(B: seq<nat> -> bool, v: nat, ls: seq<nat>, acc: seq<nat>)
    requires v > 0
    ensures Ratio(IdealMask(Answer(B), v, ls, acc), |Hits(v, |ls|, IdealJudge(B, acc))|, Pow(v, |ls|))
    decreases |ls|, v + 1
  {
    if ls == [] {
      HitsOfNone(v, IdealJudge(B, acc));
      assert acc + [] == acc;
    } else {
      PowStep(v, |ls| - 1);
      hide Ratio, Hits, HitsBelow, IdealJudge, Answer, IdealSum, Pow;
      HitsAll(v, |ls| - 1, IdealJudge(B, acc));
      IdealSumCounts(B, v, ls, acc, v);
      QuotientsMultiply(IdealSum(Answer(B), v, ls, acc, v), v, Pow(v, |ls| - 1),
                        |HitsBelow(v, |ls| - 1, IdealJudge(B, acc), v)|);
    }
  }

  lemma {:induction false} IdealSumCounts(B: seq<nat> -> bool, v: nat, ls: seq<nat>, acc: seq<nat>, m: nat)
    requires v > 0 && ls != [] && m <= v
    ensures Ratio(IdealSum(Answer(B), v, ls, acc, m), |HitsBelow(v, |ls| - 1, IdealJudge(B, acc), m)|,
                  Pow(v, |ls| - 1))
    decreases |ls|, m
  {
    hide Ratio, Hits, HitsBelow, IdealJudge, After, IdealMask, Answer, Pow;
    var n, C := |ls| - 1, IdealJudge(B, acc);
    if m == 0 {
      HitsNone(v, n, C);
      ZeroRatio(Pow(v, n));
    } else {
      var r := m - 1;
      var D := IdealJudge(B, acc + [r]);
      IdealSumCounts(B, v, ls, acc, r);
      IdealCounts(B, v, ls[1..], acc + [r]);
      HitsSplit(v, n, C, r);
      forall t: seq<nat> { JudgeAfterIdeal(B, acc, r, t); }
      HitsCongruent(v, n, After(C, r), D);
      RatiosAdd(IdealSum(Answer(B), v, ls, acc, r), IdealMask(Answer(B), v, ls[1..], acc + [r]), Pow(v, n),
                |HitsBelow(v, n, C, r)|, |Hits(v, n, D)|);
    }
  }

  // ------------------------------------------------------- pairs of inputs

  ghost function Pairs(s: set<seq<nat>>, hits: seq<nat> -> set<seq<nat>>): set<(seq<nat>, seq<nat>)> {
    set ls, t | ls in s && t in hits(ls) :: (ls, t)
  }

  lemma PairsHave(s: set<seq<nat>>, hits: seq<nat> -> set<seq<nat>>, ls: seq<nat>, t: seq<nat>)
    ensures (ls, t) in Pairs(s, hits) <==> ls in s && t in hits(ls)
  {
  }

  ghost function Tagged(ls: seq<nat>, ts: set<seq<nat>>): set<(seq<nat>, seq<nat>)> {
    set t | t in ts :: (ls, t)
  }

  lemma {:induction false} TaggedSize(ls: seq<nat>, ts: set<seq<nat>>)
    ensures |Tagged(ls, ts)| == |ts|
    decreases ts
  {
    if ts == {} {
      assert Tagged(ls, ts) == {};
    } else {
      var x :| x in ts;
      TaggedSize(ls, ts - {x});
      assert Tagged(ls, ts) == Tagged(ls, ts - {x}) + {(ls, x)};
    }
  }

  lemma {:induction false} PairsSize(s: set<seq<nat>>, hits: seq<nat> -> set<seq<nat>>, g: seq<nat> -> real, w: nat)
    requires forall ls :: ls in s ==> Ratio(g(ls), |hits(ls)|, w)
    ensures Ratio(Sum(s, g), |Pairs(s, hits)|, w)
    decreases s
  {
    if s == {} {
      assert Pairs(s, hits) == {};
      ZeroRatio(w);
    } else {
      hide Ratio, Pairs, Tagged, Sum;
      var x, rest := SumSplits(s, g, g);
      PairsSize(rest, hits, g, w);
      TaggedSize(x, hits(x));
      PairsSplit(s, hits, x);
      RatiosAdd(g(x), Sum(rest, g), w, |hits(x)|, |Pairs(rest, hits)|);
    }
  }

  lemma PairsSplit(s: set<seq<nat>>, hits: seq<nat> -> set<seq<nat>>, x: seq<nat>)
    requires x in s
    ensures |Pairs(s, hits)| == |Pairs(s - {x}, hits)| + |Tagged(x, hits(x))|
  {
    var a, b := Pairs(s - {x}, hits), Tagged(x, hits(x));
    assert Pairs(s, hits) == a + b && a !! b;
  }

  ghost function RealHits(B: seq<nat> -> bool, v: nat): seq<nat> -> set<seq<nat>> {
    ls => Hits(v, |ls|, RealJudge(B, ls, [], []))
  }

  ghost function IdealHits(B: seq<nat> -> bool, v: nat): seq<nat> -> set<seq<nat>> {
    ls => Hits(v, |ls|, IdealJudge(B, []))
  }

  /** The pairs of q queries below u and q draws below v that B accepts. */
  ghost function RealAccepted(B: seq<nat> -> bool, u: nat, v: nat, q: nat): set<(seq<nat>, seq<nat>)> {
    Pairs(Lists(u, q), RealHits(B, v))
  }

  ghost function IdealAccepted(B: seq<nat> -> bool, u: nat, v: nat, q: nat): set<(seq<nat>, seq<nat>)> {
    Pairs(Lists(u, q), IdealHits(B, v))
  }

  /** Membership without the helpers: queries and tapes are all lists of the
      right length and range, and B holds of the answers. */
  lemma AcceptedIs(B: seq<nat> -> bool, u: nat, v: nat, q: nat, ls: seq<nat>, tape: seq<nat>)
    ensures var ok := |ls| == |tape| == q && (forall i :: 0 <= i < q ==> ls[i] < u && tape[i] < v);
            && ((ls, tape) in RealAccepted(B, u, v, q) <==> ok && B(RealAnswers(ls, [], tape)))
            && ((ls, tape) in IdealAccepted(B, u, v, q) <==> ok && B(tape))
  {
    hide Lists, RealAnswers, Pairs, Hits;
    ListsAreAll(u, q, ls);
    assert [] + RealAnswers(ls, [], tape) == RealAnswers(ls, [], tape) && [] + tape == tape;
    HitsHave(v, |ls|, RealJudge(B, ls, [], []), tape);
    HitsHave(v, |ls|, IdealJudge(B, []), tape);
    PairsHave(Lists(u, q), RealHits(B, v), ls, tape);
    PairsHave(Lists(u, q), IdealHits(B, v), ls, tape);
  }

  lemma GamesCount(B: seq<nat> -> bool, u: nat, v: nat, q: nat)
    requires v > 0
    ensures Ratio(RealGame(Answer(B), u, v, q), |RealAccepted(B, u, v, q)|, Pow(v, q))
    ensures Ratio(IdealGame(Answer(B), u, v, q), |IdealAccepted(B, u, v, q)|, Pow(v, q))
  {
    hide Ratio, Answer, Hits, RealJudge, IdealJudge, Lists, Sum, RealMask, IdealMask, Pow;
    var A := Answer(B);
    forall ls | ls in Lists(u, q)
      ensures Ratio(RealOn(A, v)(ls), |RealHits(B, v)(ls)|, Pow(v, q))
      ensures Ratio(IdealOn(A, v)(ls), |IdealHits(B, v)(ls)|, Pow(v, q))
    {
      ListsAreAll(u, q, ls);
      RealCounts(B, v, ls, [], []);
      IdealCounts(B, v, ls, []);
    }
    hide RealOn, IdealOn, RealHits, IdealHits, Pairs;
    PairsSize(Lists(u, q), RealHits(B, v), RealOn(A, v), Pow(v, q));
    PairsSize(Lists(u, q), IdealHits(B, v), IdealOn(A, v), Pow(v, q));
  }

  /** For every predicate on the answers, the numbers of accepted pairs of
      query list and tape differ by at most CountColl(q, u) times the number
      of tapes. */
  lemma HybridCounts(B: seq<nat> -> bool, u: nat, v: nat, q: nat)
    requires v > 0
    ensures var bound := CountColl(q, u) * Pow(v, q);
            -bound <= |RealAccepted(B, u, v, q)| - |IdealAccepted(B, u, v, q)| <= bound
  {
    var A := Answer(B);
    assert IsDistinguisher(A);
    HybridBound(A, u, v, q);
    GamesCount(B, u, v, q);
    hide Ratio, RealGame, IdealGame, RealAccepted, IdealAccepted, CountColl, Pow, Answer;
    Conclude(RealGame(A, u, v, q), IdealGame(A, u, v, q), CountColl(q, u), Pow(v, q),
             |RealAccepted(B, u, v, q)|, |IdealAccepted(B, u, v, q)|);
  }

  lemma Conclude(g: real, h: real, c: nat, p: nat, x: nat, y: nat)
    requires Ratio(g, x, p) && Ratio(h, y, p)
    requires -(c as real) <= g - h <= c as real
    ensures -(c * p) <= x - y <= c * p
  {
    var d, w := g - h, p as real;
    assert d * w == x as real - y as real;
    ScaleBound(d, c as real, w);
    assert (c * p) as real == c as real * w;
    assert -((c * p) as real) <= (x - y) as real <= (c * p) as real;
  }

  lemma ScaleBound(d: real, c: real, p: real)
    requires -c <= d <= c && 0.0 <= p
    ensures -(c * p) <= d * p <= c * p
  {
  }
}
