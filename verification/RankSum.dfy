/**
 The area under the ROC curve as the fit computes it, from average ranks with ties, and its pairwise
 meaning.

 Ranks are kept doubled, so an average rank is a whole number; the final quotient is exact. Every score
 is a number that compares with every other.
 */
module RankSum {
  import opened Wrappers

  // ---- average ranks ----

  function Below(scores: seq<real>, v: real): nat {
    if scores == [] then 0
    else Below(scores[..|scores| - 1], v) + if scores[|scores| - 1] < v then 1 else 0
  }

  function Tied(scores: seq<real>, v: real): nat {
    if scores == [] then 0
    else Tied(scores[..|scores| - 1], v) + if scores[|scores| - 1] == v then 1 else 0
  }

  /** Twice the average rank: the first plus the last of the positions, from one, that the ties of `v` take. */
  function DoubledRank(scores: seq<real>, v: real): int {
    (Below(scores, v) + 1) + (Below(scores, v) + Tied(scores, v))
  }

  ghost predicate Rising(s: seq<real>) {
    forall i, j :: 0 <= i < j < |s| ==> s[i] <= s[j]
  }

  lemma {:induction false} WithoutOne<T>(s: seq<T>, t: seq<T>, k: nat)
    requires multiset(s) == multiset(t) && s != [] && k < |t| && t[k] == s[|s| - 1]
    ensures multiset(t[..k] + t[k + 1..]) == multiset(s[..|s| - 1])
  {
    assert t == t[..k] + [t[k]] + t[k + 1..];
    assert s == s[..|s| - 1] + [s[|s| - 1]];
    assert multiset(t[..k] + t[k + 1..]) == multiset(t) - multiset{t[k]};
    assert multiset(s[..|s| - 1]) == multiset(s) - multiset{t[k]};
  }

  lemma {:induction false} CountsByMultiset(s: seq<real>, t: seq<real>, v: real)
    requires multiset(s) == multiset(t)
    ensures Below(s, v) == Below(t, v) && Tied(s, v) == Tied(t, v)
    decreases |s|
  {
    if s == [] {
      assert |t| == |multiset(t)| == 0;
    } else {
      var last := s[|s| - 1];
      assert s == s[..|s| - 1] + [last];
      assert last in multiset(t);
      var k :| 0 <= k < |t| && t[k] == last;
      WithoutOne(s, t, k);
      CountsByMultiset(s[..|s| - 1], t[..k] + t[k + 1..], v);
      RemoveOne(t, k, v);
    }
  }

  lemma {:induction false} FrontWithoutOne(t: seq<real>, k: nat)
    requires k < |t| - 1
    ensures var rest := t[..k] + t[k + 1..];
            && rest[..|rest| - 1] == t[..|t| - 1][..k] + t[..|t| - 1][k + 1..]
            && rest != [] && rest[|rest| - 1] == t[|t| - 1] && t[..|t| - 1][k] == t[k]
  {
  }

  lemma {:induction false} RemoveOne(t: seq<real>, k: nat, v: real)
    requires k < |t|
    ensures var rest := t[..k] + t[k + 1..];
            && Below(t, v) == Below(rest, v) + (if t[k] < v then 1 else 0)
            && Tied(t, v) == Tied(rest, v) + (if t[k] == v then 1 else 0)
  {
    var rest := t[..k] + t[k + 1..];
    if k == |t| - 1 {
      assert rest == t[..k];
    } else {
      RemoveOne(t[..|t| - 1], k, v);
      FrontWithoutOne(t, k);
    }
  }

  lemma {:induction false} PositionsInOrder(sorted: seq<real>, v: real, p: nat)
    requires Rising(sorted) && p < |sorted|
    ensures sorted[p] < v <==> p < Below(sorted, v)
    ensures sorted[p] == v <==> Below(sorted, v) <= p < Below(sorted, v) + Tied(sorted, v)
  {
    var front, last := sorted[..|sorted| - 1], sorted[|sorted| - 1];
    CountsBounded(front, v);
    if p < |front| {
      PositionsInOrder(front, v, p);
      if last < v {
        AllBelow(front, v);
      } else if last == v {
        NoneAbove(front, v);
      }
    } else if last < v {
      AllBelow(front, v);
    } else if last == v {
      NoneAbove(front, v);
    }
  }

  lemma {:induction false} CountsBounded(s: seq<real>, v: real)
    ensures Below(s, v) + Tied(s, v) <= |s|
  {
    if s != [] {
      CountsBounded(s[..|s| - 1], v);
    }
  }

  lemma {:induction false} AllBelow(s: seq<real>, v: real)
    requires forall i :: 0 <= i < |s| ==> s[i] < v
    ensures Below(s, v) == |s| && Tied(s, v) == 0
  {
    if s != [] {
      AllBelow(s[..|s| - 1], v);
    }
  }

  lemma {:induction false} NoneAbove(s: seq<real>, v: real)
    requires forall i :: 0 <= i < |s| ==> s[i] <= v
    ensures Below(s, v) + Tied(s, v) == |s|
  {
    if s != [] {
      NoneAbove(s[..|s| - 1], v);
    }
  }

  /**
   In every sorted arrangement of the scores the ties of `v` take the positions whose first and last
   make up its doubled rank.
   */
  lemma {:induction false} RankIsAveragePosition(scores: seq<real>, sorted: seq<real>, v: real, p: nat)
    requires multiset(scores) == multiset(sorted) && Rising(sorted) && p < |sorted|
    ensures sorted[p] == v <==> Below(scores, v) + 1 <= p + 1 <= Below(scores, v) + Tied(scores, v)
  {
    CountsByMultiset(scores, sorted, v);
    PositionsInOrder(sorted, v, p);
  }

  // ---- the computation ----

  /** The scores whose label is `won`. */
  function Class(scores: seq<real>, labels: seq<bool>, won: bool): seq<real>
    requires |scores| == |labels|
  {
    if scores == [] then []
    else
      var n := |scores| - 1;
      var rest := Class(scores[..n], labels[..n], won);
      if labels[n] == won then rest + [scores[n]] else rest
  }

  function RankTotal(all: seq<real>, chosen: seq<real>): int {
    if chosen == [] then 0 else RankTotal(all, chosen[..|chosen| - 1]) + DoubledRank(all, chosen[|chosen| - 1])
  }

  /** The Mann-Whitney statistic; `None` is the not-a-number of a missing class. */
  function Auc(scores: seq<real>, labels: seq<bool>): Option<real>
    requires |scores| == |labels|
  {
    var pos, neg := Class(scores, labels, true), Class(scores, labels, false);
    if pos == [] || neg == [] then None
    else
      Some((RankTotal(scores, pos) - |pos| * (|pos| + 1)) as real / (2 * Product(|pos|, |neg|)) as real)
  }

  function Product(a: nat, b: nat): (p: nat)
    ensures a > 0 && b > 0 ==> p > 0
  {
    a * b
  }

  // ---- the pairwise meaning ----

  /** Two points for a win, one for a tie. */
  function Point(a: real, b: real): nat {
    if a > b then 2 else if a == b then 1 else 0
  }

  /** The points of one score against a list. */
  function Against(a: real, others: seq<real>): nat {
    if others == [] then 0 else Against(a, others[..|others| - 1]) + Point(a, others[|others| - 1])
  }

  /** The points of one list against another, over all pairs. */
  function Pairs(a: seq<real>, b: seq<real>): nat {
    if a == [] then 0 else Pairs(a[..|a| - 1], b) + Against(a[|a| - 1], b)
  }

  lemma {:induction false} RankCountsPoints(scores: seq<real>, v: real)
    ensures DoubledRank(scores, v) == Against(v, scores) + 1
  {
    if scores != [] {
      RankCountsPoints(scores[..|scores| - 1], v);
    }
  }

  lemma {:induction false} ClassesShareThePoints(scores: seq<real>, labels: seq<bool>, v: real)
    requires |scores| == |labels|
    ensures Against(v, scores) == Against(v, Class(scores, labels, true)) + Against(v, Class(scores, labels, false))
  {
    if scores != [] {
      var n := |scores| - 1;
      ClassesShareThePoints(scores[..n], labels[..n], v);
      var same := Class(scores[..n], labels[..n], labels[n]);
      assert (same + [scores[n]])[..|same|] == same;
    }
  }

  /** The rank total of a list is its points against both classes, and one more for each of its scores. */
  lemma {:induction false} RankTotalIsPoints(scores: seq<real>, labels: seq<bool>, chosen: seq<real>)
    requires |scores| == |labels|
    ensures RankTotal(scores, chosen) ==
            Pairs(chosen, Class(scores, labels, true)) + Pairs(chosen, Class(scores, labels, false)) + |chosen|
  {
    if chosen != [] {
      var v := chosen[|chosen| - 1];
      RankTotalIsPoints(scores, labels, chosen[..|chosen| - 1]);
      RankCountsPoints(scores, v);
      ClassesShareThePoints(scores, labels, v);
    }
  }

  lemma {:induction false} ProductStep(a: nat, b: nat)
    ensures Product(a + 1, b) == Product(a, b) + b
  {
  }

  /** Each pair hands out two points. */
  lemma {:induction false} PairsComplement(a: seq<real>, b: seq<real>)
    ensures Pairs(a, b) + Pairs(b, a) == 2 * Product(|a|, |b|)
    decreases |a|
  {
    if a == [] {
      NoOpponents(b);
    } else {
      var front, v := a[..|a| - 1], a[|a| - 1];
      assert a == front + [v];
      PairsComplement(front, b);
      OneMoreOpponent(b, front, v);
      ProductStep(|front|, |b|);
    }
  }

  lemma {:induction false} NoOpponents(b: seq<real>)
    ensures Pairs(b, []) == 0
  {
    if b != [] {
      NoOpponents(b[..|b| - 1]);
    }
  }

  lemma {:induction false} OneMoreOpponent(b: seq<real>, front: seq<real>, v: real)
    ensures Pairs(b, front + [v]) == Pairs(b, front) + 2 * |b| - Against(v, b)
  {
    if b != [] {
      OneMoreOpponent(b[..|b| - 1], front, v);
      assert (front + [v])[..|front|] == front;
    }
  }

  lemma {:induction false} Square(n: nat)
    ensures Product(n, n) + n == n * (n + 1)
  {
  }

  lemma {:induction false} Numerator(scores: seq<real>, labels: seq<bool>, pos: seq<real>, neg: seq<real>)
    requires |scores| == |labels| && pos == Class(scores, labels, true) && neg == Class(scores, labels, false)
    ensures RankTotal(scores, pos) - |pos| * (|pos| + 1) == Pairs(pos, neg)
  {
    RankTotalIsPoints(scores, labels, pos);
    PairsComplement(pos, pos);
    Square(|pos|);
  }

  /**
   The average-rank formula is the pairwise one: the share of (positive, negative) pairs that the
   positive wins, ties counting half. It is undefined exactly when a class is empty.
   */
  lemma {:induction false} AucIsPairwise(scores: seq<real>, labels: seq<bool>)
    requires |scores| == |labels|
    ensures var pos, neg := Class(scores, labels, true), Class(scores, labels, false);
            && (Auc(scores, labels).None? <==> pos == [] || neg == [])
            && (Auc(scores, labels).Some? ==>
                  Auc(scores, labels).value == Pairs(pos, neg) as real / (2 * Product(|pos|, |neg|)) as real)
  {
    Numerator(scores, labels, Class(scores, labels, true), Class(scores, labels, false));
  }

  /** The statistic is a share. */
  lemma {:induction false} AucInUnitInterval(scores: seq<real>, labels: seq<bool>)
    requires |scores| == |labels| && Auc(scores, labels).Some?
    ensures 0.0 <= Auc(scores, labels).value <= 1.0
  {
    var pos, neg := Class(scores, labels, true), Class(scores, labels, false);
    AucIsPairwise(scores, labels);
    PairsComplement(pos, neg);
    ShareBounds(Pairs(pos, neg), 2 * Product(|pos|, |neg|));
  }

  lemma {:induction false} ShareBounds(a: nat, b: nat)
    requires a <= b && b > 0
    ensures 0.0 <= a as real / b as real <= 1.0
    ensures a as real / b as real == 1.0 <==> a == b
  {
  }

  function Flipped(labels: seq<bool>): seq<bool> {
    seq(|labels|, i requires 0 <= i < |labels| => !labels[i])
  }

  lemma {:induction false} FlippedClass(scores: seq<real>, labels: seq<bool>, won: bool)
    requires |scores| == |labels|
    ensures Class(scores, Flipped(labels), won) == Class(scores, labels, !won)
  {
    if scores != [] {
      var n := |scores| - 1;
      assert Flipped(labels)[..n] == Flipped(labels[..n]);
      FlippedClass(scores[..n], labels[..n], won);
    }
  }

  /** Exchanging the classes gives the complement. */
  lemma {:induction false} FlippingComplements(scores: seq<real>, labels: seq<bool>)
    requires |scores| == |labels| && Auc(scores, labels).Some?
    ensures Auc(scores, Flipped(labels)) == Some(1.0 - Auc(scores, labels).value)
  {
    var pos, neg := Class(scores, labels, true), Class(scores, labels, false);
    FlippedClass(scores, labels, true);
    FlippedClass(scores, labels, false);
    AucIsPairwise(scores, labels);
    AucIsPairwise(scores, Flipped(labels));
    PairsComplement(pos, neg);
    assert Product(|neg|, |pos|) == Product(|pos|, |neg|);
    Complement(Pairs(pos, neg), Pairs(neg, pos), 2 * Product(|pos|, |neg|));
  }

  lemma {:induction false} Cancel(x: real, w: real)
    requires x * w == 0.0 && w != 0.0
    ensures x == 0.0
  {
  }

  lemma {:induction false} Complement(a: nat, b: nat, whole: nat)
    requires a + b == whole && whole > 0
    ensures b as real / whole as real == 1.0 - a as real / whole as real
  {
    var w, x, y := whole as real, a as real / whole as real, b as real / whole as real;
    assert (x + y) * w == x * w + y * w == a as real + b as real == w;
    Cancel(x + y - 1.0, w);
  }

  ghost predicate AllAbove(a: real, others: seq<real>) {
    forall j :: 0 <= j < |others| ==> a > others[j]
  }

  /** The statistic is one exactly when every positive score is above every negative one. */
  lemma {:induction false} PerfectSeparation(scores: seq<real>, labels: seq<bool>)
    requires |scores| == |labels| && Auc(scores, labels).Some?
    ensures var pos, neg := Class(scores, labels, true), Class(scores, labels, false);
            Auc(scores, labels) == Some(1.0) <==> forall i :: 0 <= i < |pos| ==> AllAbove(pos[i], neg)
  {
    var pos, neg := Class(scores, labels, true), Class(scores, labels, false);
    AucIsPairwise(scores, labels);
    PairsComplement(pos, neg);
    ShareBounds(Pairs(pos, neg), 2 * Product(|pos|, |neg|));
    AllPointsExactly(pos, neg);
  }

  lemma {:induction false} AllPointsAgainst(a: real, others: seq<real>)
    ensures Against(a, others) <= 2 * |others|
    ensures Against(a, others) == 2 * |others| <==> AllAbove(a, others)
  {
    if others != [] {
      AllPointsAgainst(a, others[..|others| - 1]);
    }
  }

  lemma {:induction false} AllPointsExactly(a: seq<real>, b: seq<real>)
    ensures Pairs(a, b) <= 2 * Product(|a|, |b|)
    ensures Pairs(a, b) == 2 * Product(|a|, |b|) <==> forall i :: 0 <= i < |a| ==> AllAbove(a[i], b)
  {
    if a != [] {
      AllPointsExactly(a[..|a| - 1], b);
      AllPointsAgainst(a[|a| - 1], b);
      assert Product(|a|, |b|) == Product(|a| - 1, |b|) + |b|;
    }
  }
}
