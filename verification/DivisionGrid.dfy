/**
 Filtering a rank column by division number: the N-branch CASE over the tiers, and the indexable rank
 range that stands in for it.

 A SQL condition on a NULL rank is unknown, and a WHERE clause keeps only rows whose condition is true.
 */
module DivisionGrid {
  import opened Wrappers

  datatype Tier = Tier(number: int, rankMin: int, rankMax: Option<int>)

  predicate Holds(tier: Tier, rank: int) {
    tier.rankMin <= rank && (tier.rankMax.Some? ==> rank <= tier.rankMax.value)
  }

  // ---- the division of a rank ----

  /** The first tier in list order that holds the rank, or the last tier if none does. */
  predicate IsTierOf(tiers: seq<Tier>, rank: int, i: int) {
    && 0 <= i < |tiers|
    && (forall j :: 0 <= j < i ==> !Holds(tiers[j], rank))
    && (Holds(tiers[i], rank) || i == |tiers| - 1)
  }

  /** The number of that tier. */
  function Division(tiers: seq<Tier>, rank: int): int
    requires tiers != []
  {
    if |tiers| == 1 || Holds(tiers[0], rank) then tiers[0].number else Division(tiers[1..], rank)
  }

  /** `Failure` is the error raised for a grid without tiers. */
  method ResolveTier(tiers: seq<Tier>, rank: Option<int>) returns (tier: Result<Option<Tier>>)
    ensures rank.None? ==> tier == Success(None)
    ensures rank.Some? && tiers == [] ==> tier.Failure?
    ensures rank.Some? && tiers != [] ==>
      && tier.Success? && tier.value.Some? && tier.value.value.number == Division(tiers, rank.value)
      && exists i :: IsTierOf(tiers, rank.value, i) && tier.value.value == tiers[i]
  {
    if rank.None? {
      return Success(None);
    }
    if tiers == [] {
      return Failure("Division grid must contain at least one tier");
    }
    for i := 0 to |tiers|
      invariant i < |tiers| ==> Division(tiers, rank.value) == Division(tiers[i..], rank.value)
      invariant i == |tiers| ==> Division(tiers, rank.value) == tiers[|tiers| - 1].number
      invariant forall j :: 0 <= j < i ==> !Holds(tiers[j], rank.value)
    {
      if Holds(tiers[i], rank.value) {
        assert IsTierOf(tiers, rank.value, i);
        return Success(Some(tiers[i]));
      }
      assert tiers[i..][1..] == tiers[i + 1..];
    }
    assert IsTierOf(tiers, rank.value, |tiers| - 1);
    tier := Success(Some(tiers[|tiers| - 1]));
  }

  // ---- SQL conditions ----

  datatype Condition = IsNull | NotNull | AtLeast(bound: int) | AtMost(bound: int)
    | Both(left: Condition, right: Condition)

  function And(a: Option<bool>, b: Option<bool>): Option<bool> {
    if a == Some(false) || b == Some(false) then Some(false) else if a.None? || b.None? then None else Some(true)
  }

  /** Three-valued evaluation against a nullable value; `None` is unknown. */
  function Evaluate(c: Condition, value: Option<int>): Option<bool> {
    match c
    case IsNull => Some(value.None?)
    case NotNull => Some(value.Some?)
    case AtLeast(b) => if value.None? then None else Some(value.value >= b)
    case AtMost(b) => if value.None? then None else Some(value.value <= b)
    case Both(l, r) => And(Evaluate(l, value), Evaluate(r, value))
  }

  datatype When = When(condition: Condition, result: Option<int>)

  datatype Case = Case(whens: seq<When>, otherwise: int)

  /** The first branch whose condition is true. */
  function Chosen(whens: seq<When>, otherwise: int, rank: Option<int>): Option<int> {
    if whens == [] then Some(otherwise)
    else if Evaluate(whens[0].condition, rank) == Some(true) then whens[0].result
    else Chosen(whens[1..], otherwise, rank)
  }

  /** A predicate of the filter: on the rank itself, or on the number the CASE computes from it. */
  datatype Predicate = OnRank(condition: Condition) | OnDivision(expr: Case, condition: Condition)

  predicate Passes(p: Predicate, rank: Option<int>) {
    match p
    case OnRank(c) => Evaluate(c, rank) == Some(true)
    case OnDivision(e, c) => Evaluate(c, Chosen(e.whens, e.otherwise, rank)) == Some(true)
  }

  predicate Selected(predicates: seq<Predicate>, rank: Option<int>) {
    forall p :: p in predicates ==> Passes(p, rank)
  }

  function TierCondition(tier: Tier): Condition {
    if tier.rankMax.None? then AtLeast(tier.rankMin) else Both(AtLeast(tier.rankMin), AtMost(tier.rankMax.value))
  }

  function Branches(tiers: seq<Tier>): seq<When> {
    seq(|tiers|, i requires 0 <= i < |tiers| => When(TierCondition(tiers[i]), Some(tiers[i].number)))
  }

  lemma {:induction false} ConditionMeansHolds(tier: Tier, rank: int)
    ensures Evaluate(TierCondition(tier), Some(rank)) == Some(Holds(tier, rank))
  {
    if tier.rankMax.Some? {
      assert Evaluate(AtMost(tier.rankMax.value), Some(rank)) == Some(rank <= tier.rankMax.value);
    }
  }

  lemma {:induction false} BranchesChoose(tiers: seq<Tier>, rank: int)
    requires tiers != []
    ensures Chosen(Branches(tiers), tiers[|tiers| - 1].number, Some(rank)) == Some(Division(tiers, rank))
  {
    assert Branches(tiers)[1..] == Branches(tiers[1..]);
    ConditionMeansHolds(tiers[0], rank);
    if |tiers| == 1 {
      assert Branches(tiers[1..]) == [];
    } else {
      BranchesChoose(tiers[1..], rank);
    }
  }

  /** The CASE computes the division number of every rank, and nothing for NULL. */
  method CaseExpr(tiers: seq<Tier>) returns (expr: Case)
    requires tiers != []
    ensures forall rank :: Chosen(expr.whens, expr.otherwise, Some(rank)) == Some(Division(tiers, rank))
    ensures Chosen(expr.whens, expr.otherwise, None) == None
  {
    var whens := [When(IsNull, None)];
    for i := 0 to |tiers|
      invariant whens == [When(IsNull, None)] + Branches(tiers[..i])
    {
      assert Branches(tiers[..i + 1]) == Branches(tiers[..i]) + [When(TierCondition(tiers[i]), Some(tiers[i].number))];
      whens := whens + [When(TierCondition(tiers[i]), Some(tiers[i].number))];
    }
    assert tiers[..|tiers|] == tiers && whens[1..] == Branches(tiers);
    expr := Case(whens, tiers[|tiers| - 1].number);
    forall rank ensures Chosen(expr.whens, expr.otherwise, Some(rank)) == Some(Division(tiers, rank)) {
      BranchesChoose(tiers, rank);
    }
  }

  // ---- tiers in rank order ----

  /** Insertion after every tier that is not higher: the sort is stable. */
  function Insert(tier: Tier, sorted: seq<Tier>): seq<Tier> {
    if sorted == [] || sorted[|sorted| - 1].rankMin <= tier.rankMin then sorted + [tier]
    else Insert(tier, sorted[..|sorted| - 1]) + [sorted[|sorted| - 1]]
  }

  function Ordered(tiers: seq<Tier>): seq<Tier> {
    if tiers == [] then [] else Insert(tiers[|tiers| - 1], Ordered(tiers[..|tiers| - 1]))
  }

  ghost predicate Rising(tiers: seq<Tier>) {
    forall i, j :: 0 <= i < j < |tiers| ==> tiers[i].rankMin <= tiers[j].rankMin
  }

  /** The tiers that start at a given rank, in list order. */
  function StartingAt(tiers: seq<Tier>, rank: int): seq<Tier> {
    if tiers == [] then []
    else
      var rest := StartingAt(tiers[..|tiers| - 1], rank);
      if tiers[|tiers| - 1].rankMin == rank then rest + [tiers[|tiers| - 1]] else rest
  }

  lemma {:induction false} InsertKeepsTiers(tier: Tier, sorted: seq<Tier>)
    ensures multiset(Insert(tier, sorted)) == multiset(sorted) + multiset{tier}
    ensures |Insert(tier, sorted)| == |sorted| + 1
    ensures forall t :: t in Insert(tier, sorted) ==> t == tier || t in sorted
  {
    if sorted != [] && sorted[|sorted| - 1].rankMin > tier.rankMin {
      InsertKeepsTiers(tier, sorted[..|sorted| - 1]);
      assert sorted == sorted[..|sorted| - 1] + [sorted[|sorted| - 1]];
    }
  }

  lemma {:induction false} InsertSorts(tier: Tier, sorted: seq<Tier>)
    requires Rising(sorted)
    ensures Rising(Insert(tier, sorted))
  {
    if sorted != [] && sorted[|sorted| - 1].rankMin > tier.rankMin {
      var front, last := sorted[..|sorted| - 1], sorted[|sorted| - 1];
      InsertSorts(tier, front);
      InsertKeepsTiers(tier, front);
      assert forall t :: t in Insert(tier, front) ==> t.rankMin <= last.rankMin;
    }
  }

  lemma {:induction false} InsertIsStable(tier: Tier, sorted: seq<Tier>, rank: int)
    requires Rising(sorted)
    ensures StartingAt(Insert(tier, sorted), rank) == StartingAt(sorted + [tier], rank)
  {
    assert (sorted + [tier])[..|sorted|] == sorted;
    if sorted != [] && sorted[|sorted| - 1].rankMin > tier.rankMin {
      var front, last := sorted[..|sorted| - 1], sorted[|sorted| - 1];
      InsertIsStable(tier, front, rank);
      assert (front + [tier])[..|front|] == front;
      assert Insert(tier, sorted)[..|Insert(tier, sorted)| - 1] == Insert(tier, front);
      if tier.rankMin == rank {
        assert last.rankMin != rank;
      }
    }
  }

  /** The rank order is the stable sort of the tiers: sorted, the same tiers, and ties in list order. */
  lemma {:induction false} OrderedIsTheStableSort(tiers: seq<Tier>)
    ensures Rising(Ordered(tiers)) && multiset(Ordered(tiers)) == multiset(tiers) && |Ordered(tiers)| == |tiers|
    ensures forall rank :: StartingAt(Ordered(tiers), rank) == StartingAt(tiers, rank)
  {
    if tiers != [] {
      var front, last := tiers[..|tiers| - 1], tiers[|tiers| - 1];
      OrderedIsTheStableSort(front);
      assert tiers == front + [last];
      InsertSorts(last, Ordered(front));
      InsertKeepsTiers(last, Ordered(front));
      forall rank ensures StartingAt(Ordered(tiers), rank) == StartingAt(tiers, rank) {
        InsertIsStable(last, Ordered(front), rank);
        assert (Ordered(front) + [last])[..|Ordered(front)|] == Ordered(front);
      }
    }
  }

  // ---- the rank range ----

  /** One filter bound pair; `None` is no bound on that side. */
  predicate Wanted(number: int, divMin: Option<int>, divMax: Option<int>) {
    (divMin.Some? ==> number >= divMin.value) && (divMax.Some? ==> number <= divMax.value)
  }

  function WantedTiers(tiers: seq<Tier>, divMin: Option<int>, divMax: Option<int>): (chosen: seq<Tier>)
    ensures forall t :: t in chosen <==> t in tiers && Wanted(t.number, divMin, divMax)
  {
    if tiers == [] then []
    else if Wanted(tiers[0].number, divMin, divMax) then [tiers[0]] + WantedTiers(tiers[1..], divMin, divMax)
    else WantedTiers(tiers[1..], divMin, divMax)
  }

  function LowestMin(tiers: seq<Tier>): (rank: int)
    requires tiers != []
    ensures exists t :: t in tiers && t.rankMin == rank
    ensures forall t :: t in tiers ==> rank <= t.rankMin
  {
    if |tiers| == 1 then tiers[0].rankMin
    else
      var rest := LowestMin(tiers[1..]);
      if tiers[0].rankMin <= rest then tiers[0].rankMin else rest
  }

  function HighestMax(tiers: seq<Tier>): (rank: int)
    requires tiers != [] && forall t :: t in tiers ==> t.rankMax.Some?
    ensures exists t :: t in tiers && t.rankMax == Some(rank)
    ensures forall t :: t in tiers ==> t.rankMax.value <= rank
  {
    assert tiers[0] in tiers;
    if |tiers| == 1 then tiers[0].rankMax.value
    else
      var rest := HighestMax(tiers[1..]);
      if rest <= tiers[0].rankMax.value then tiers[0].rankMax.value else rest
  }

  /** No gaps and no overlaps, and exactly the top tier unbounded. */
  predicate Contiguous(ordered: seq<Tier>) {
    && ordered != []
    && ordered[|ordered| - 1].rankMax.None?
    && forall i :: 0 <= i < |ordered| - 1 ==> ordered[i].rankMax == Some(ordered[i + 1].rankMin - 1)
  }

  predicate Reducible(tiers: seq<Tier>) {
    && tiers != []
    && Contiguous(Ordered(tiers))
    && tiers[|tiers| - 1].number == Ordered(tiers)[0].number
  }

  datatype Bounds = Bounds(rankMin: Option<int>, rankMax: Option<int>)

  function RankBounds(tiers: seq<Tier>, divMin: Option<int>, divMax: Option<int>): Option<Bounds> {
    if (divMin.None? && divMax.None?) || !Reducible(tiers) then None
    else
      var floor := Ordered(tiers)[0];
      var chosen := WantedTiers(tiers, divMin, divMax);
      if chosen == [] then None
      else
        Some(Bounds(if exists t :: t in chosen && t.number == floor.number then None else Some(LowestMin(chosen)),
                    if exists t :: t in chosen && t.rankMax.None? then None else Some(HighestMax(chosen))))
  }

  predicate InBounds(b: Bounds, rank: int) {
    (b.rankMin.Some? ==> b.rankMin.value <= rank) && (b.rankMax.Some? ==> rank <= b.rankMax.value)
  }

  lemma {:induction false} SelectedSnoc(ps: seq<Predicate>, p: Predicate, rank: Option<int>)
    ensures Selected(ps + [p], rank) <==> Selected(ps, rank) && Passes(p, rank)
  {
    if Selected(ps + [p], rank) {
      assert p in ps + [p];
      assert forall q :: q in ps ==> q in ps + [p];
    }
  }

  /** `Failure` is the error of reading the last tier of an empty grid. */
  method FilterPredicates(divMin: Option<int>, divMax: Option<int>, tiers: seq<Tier>)
    returns (r: Result<seq<Predicate>>)
    ensures r.Failure? <==> tiers == [] && (divMin.Some? || divMax.Some?)
    ensures r.Success? ==> forall rank :: Selected(r.value, rank) <==> Passing(tiers, divMin, divMax, rank)
    ensures r.Success? && (divMin.Some? || divMax.Some?) ==> !Selected(r.value, None)
  {
    if divMin.None? && divMax.None? {
      return Success([]);
    }
    var bounds := RankBounds(tiers, divMin, divMax);
    if bounds.Some? {
      var predicates := RangePredicates(bounds.value);
      return Success(predicates);
    }
    if tiers == [] {
      return Failure("tuple index out of range");
    }
    var predicates := CasePredicates(divMin, divMax, tiers);
    return Success(predicates);
  }

  method CasePredicates(divMin: Option<int>, divMax: Option<int>, tiers: seq<Tier>) returns (predicates: seq<Predicate>)
    requires tiers != []
    ensures forall rank :: Selected(predicates, Some(rank)) <==> CaseSelects(tiers, divMin, divMax, rank)
    ensures divMin.Some? || divMax.Some? ==> !Selected(predicates, None)
  {
    var expr := CaseExpr(tiers);
    predicates := [];
    if divMin.Some? {
      predicates := predicates + [OnDivision(expr, AtLeast(divMin.value))];
    }
    ghost var first := predicates;
    if divMax.Some? {
      predicates := predicates + [OnDivision(expr, AtMost(divMax.value))];
    }
    forall rank: Option<int>
      ensures Selected(predicates, rank) <==>
        && (divMin.Some? ==> rank.Some? && Division(tiers, rank.value) >= divMin.value)
        && (divMax.Some? ==> rank.Some? && Division(tiers, rank.value) <= divMax.value)
    {
      if divMin.Some? {
        SelectedSnoc([], OnDivision(expr, AtLeast(divMin.value)), rank);
      }
      if divMax.Some? {
        SelectedSnoc(first, OnDivision(expr, AtMost(divMax.value)), rank);
      }
      if rank.Some? {
        assert Chosen(expr.whens, expr.otherwise, rank) == Some(Division(tiers, rank.value));
      }
    }
  }

  method RangePredicates(bounds: Bounds) returns (predicates: seq<Predicate>)
    ensures forall rank :: Selected(predicates, rank) <==> rank.Some? && InBounds(bounds, rank.value)
  {
    var low := OnRank(if bounds.rankMin.Some? then AtLeast(bounds.rankMin.value) else NotNull);
    predicates := [low];
    if bounds.rankMax.Some? {
      predicates := predicates + [OnRank(AtMost(bounds.rankMax.value))];
    }
    forall rank: Option<int>
      ensures Selected(predicates, rank) <==> rank.Some? && InBounds(bounds, rank.value)
    {
      SelectedSnoc([], low, rank);
      if bounds.rankMax.Some? {
        SelectedSnoc([low], OnRank(AtMost(bounds.rankMax.value)), rank);
      }
    }
  }

  /** The reference filter: the division number of the rank lies within the bounds. */
  predicate CaseSelects(tiers: seq<Tier>, divMin: Option<int>, divMax: Option<int>, rank: int)
    requires tiers != []
  {
    Wanted(Division(tiers, rank), divMin, divMax)
  }

  /** The rows the filter keeps: by the range where there is one, else by the CASE. */
  predicate Passing(tiers: seq<Tier>, divMin: Option<int>, divMax: Option<int>, rank: Option<int>) {
    || (divMin.None? && divMax.None?)
    || (rank.Some? && tiers != [] &&
        var bounds := RankBounds(tiers, divMin, divMax);
        if bounds.Some? then InBounds(bounds.value, rank.value) else CaseSelects(tiers, divMin, divMax, rank.value))
  }

  /** The tier's number is in the asked range. */
  predicate Asked(tiers: seq<Tier>, divMin: Option<int>, divMax: Option<int>, i: int) {
    && 0 <= i < |tiers|
    && (divMin.Some? ==> divMin.value <= tiers[i].number) && (divMax.Some? ==> tiers[i].number <= divMax.value)
  }

  /**
   There is a range exactly when a bound is given, the tiers follow one another without gaps up to an
   unbounded one, the last in the list has the lowest tier's number, and some tier is asked for.
   */
  lemma {:induction false} RangeExactly(tiers: seq<Tier>, ordered: seq<Tier>, divMin: Option<int>,
                                        divMax: Option<int>)
    requires ordered == Ordered(tiers)
    ensures RankBounds(tiers, divMin, divMax).Some? <==>
            && (divMin.Some? || divMax.Some?) && tiers != [] && ordered != []
            && ordered[|ordered| - 1].rankMax == None
            && (forall i, j :: 0 <= i && j == i + 1 < |ordered| ==> ordered[i].rankMax == Some(ordered[j].rankMin - 1))
            && tiers[|tiers| - 1].number == ordered[0].number
            && exists i :: Asked(tiers, divMin, divMax, i)
  {
    WithoutGaps(ordered);
    AskedAreWanted(tiers, divMin, divMax);
  }

  lemma {:induction false} WithoutGaps(ordered: seq<Tier>)
    ensures Contiguous(ordered) <==>
            && ordered != [] && ordered[|ordered| - 1].rankMax == None
            && forall i, j :: 0 <= i && j == i + 1 < |ordered| ==> ordered[i].rankMax == Some(ordered[j].rankMin - 1)
  {
    if ordered != [] && forall i, j :: 0 <= i && j == i + 1 < |ordered| ==>
      ordered[i].rankMax == Some(ordered[j].rankMin - 1) {
      forall i | 0 <= i < |ordered| - 1
        ensures ordered[i].rankMax == Some(ordered[i + 1].rankMin - 1)
      {
      }
    }
  }

  lemma {:induction false} AskedAreWanted(tiers: seq<Tier>, divMin: Option<int>, divMax: Option<int>)
    ensures forall i :: Asked(tiers, divMin, divMax, i) ==> tiers[i] in WantedTiers(tiers, divMin, divMax)
    ensures forall t :: t in WantedTiers(tiers, divMin, divMax) ==>
      exists i :: Asked(tiers, divMin, divMax, i) && tiers[i] == t
    ensures WantedTiers(tiers, divMin, divMax) != [] <==> exists i :: Asked(tiers, divMin, divMax, i)
  {
    var chosen := WantedTiers(tiers, divMin, divMax);
    forall t | t in chosen
      ensures exists i :: Asked(tiers, divMin, divMax, i) && tiers[i] == t
    {
      var i :| 0 <= i < |tiers| && tiers[i] == t;
      assert Asked(tiers, divMin, divMax, i);
    }
    if chosen != [] {
      assert chosen[0] in chosen;
    }
  }

  /**
   The range: open below if a tier with the lowest one's number is asked for, else from the lowest rank asked
   for; open above if an unbounded tier is asked for, else up to the highest.
   */
  lemma {:induction false} BoundsExactly(tiers: seq<Tier>, divMin: Option<int>, divMax: Option<int>)
    requires RankBounds(tiers, divMin, divMax).Some?
    ensures var b, floor := RankBounds(tiers, divMin, divMax).value, Ordered(tiers)[0].number;
            && (b.rankMin.None? <==> exists i :: Asked(tiers, divMin, divMax, i) && tiers[i].number == floor)
            && (b.rankMin.Some? ==>
                  && (forall i :: Asked(tiers, divMin, divMax, i) ==> b.rankMin.value <= tiers[i].rankMin)
                  && exists i :: Asked(tiers, divMin, divMax, i) && b.rankMin.value == tiers[i].rankMin)
            && (b.rankMax.None? <==> exists i :: Asked(tiers, divMin, divMax, i) && tiers[i].rankMax.None?)
            && (b.rankMax.Some? ==>
                  && (forall i :: Asked(tiers, divMin, divMax, i) ==> tiers[i].rankMax.value <= b.rankMax.value)
                  && exists i :: Asked(tiers, divMin, divMax, i) && tiers[i].rankMax == b.rankMax)
  {
    AskedAreWanted(tiers, divMin, divMax);
  }

  // ---- the range against the CASE ----

  /** The tier that holds a rank in a contiguous order; ranks below the floor belong to it too. */
  ghost predicate At(ordered: seq<Tier>, rank: int, j: int) {
    && 0 <= j < |ordered|
    && (j == 0 || ordered[j].rankMin <= rank)
    && (j < |ordered| - 1 ==> rank < ordered[j + 1].rankMin)
  }

  lemma {:induction false} FindAt(ordered: seq<Tier>, rank: int) returns (j: int)
    requires ordered != []
    ensures At(ordered, rank, j)
  {
    j := |ordered| - 1;
    while j > 0 && ordered[j].rankMin > rank
      invariant 0 <= j < |ordered|
      invariant j < |ordered| - 1 ==> rank < ordered[j + 1].rankMin
    {
      j := j - 1;
    }
  }

  lemma {:induction false} LowerTiersEnd(ordered: seq<Tier>, rank: int, j: int, i: int)
    requires Rising(ordered) && Contiguous(ordered) && At(ordered, rank, j) && 0 <= i < j
    ensures ordered[i].rankMax.Some? && ordered[i].rankMax.value < rank
  {
    assert ordered[i + 1].rankMin <= ordered[j].rankMin;
  }

  lemma {:induction false} HigherTiersStart(ordered: seq<Tier>, rank: int, j: int, i: int)
    requires Rising(ordered) && At(ordered, rank, j) && j < i < |ordered|
    ensures rank < ordered[i].rankMin
  {
    assert ordered[j + 1].rankMin <= ordered[i].rankMin;
  }

  lemma {:induction false} OnlyHolder(ordered: seq<Tier>, rank: int, j: int, i: int)
    requires Rising(ordered) && Contiguous(ordered) && At(ordered, rank, j) && 0 <= i < |ordered|
    ensures Holds(ordered[i], rank) ==> i == j
  {
    if i < j {
      LowerTiersEnd(ordered, rank, j, i);
    } else if j < i {
      HigherTiersStart(ordered, rank, j, i);
    }
  }

  lemma {:induction false} FirstHolder(tiers: seq<Tier>, rank: int)
    requires tiers != []
    ensures (exists t :: t in tiers && Holds(t, rank) && Division(tiers, rank) == t.number)
            || ((forall t :: t in tiers ==> !Holds(t, rank)) && Division(tiers, rank) == tiers[|tiers| - 1].number)
  {
    if |tiers| > 1 && !Holds(tiers[0], rank) {
      FirstHolder(tiers[1..], rank);
      assert forall t :: t in tiers ==> t == tiers[0] || t in tiers[1..];
    }
  }

  /** On a reducible grid the CASE does not depend on the list order. */
  lemma {:induction false} DivisionByOrder(tiers: seq<Tier>, rank: int, j: int)
    requires Reducible(tiers) && At(Ordered(tiers), rank, j)
    ensures Division(tiers, rank) == Ordered(tiers)[j].number
  {
    var ordered := Ordered(tiers);
    OrderedIsTheStableSort(tiers);
    FirstHolder(tiers, rank);
    if t :| t in tiers && Holds(t, rank) && Division(tiers, rank) == t.number {
      assert t in multiset(ordered);
      var i :| 0 <= i < |ordered| && ordered[i] == t;
      OnlyHolder(ordered, rank, j, i);
    } else if j > 0 || ordered[0].rankMin <= rank {
      assert Holds(ordered[j], rank);
      assert ordered[j] in multiset(tiers);
    }
  }

  lemma {:induction false} SameTiers(tiers: seq<Tier>, t: Tier)
    ensures t in tiers <==> t in Ordered(tiers)
  {
    OrderedIsTheStableSort(tiers);
    assert t in multiset(tiers) <==> t in multiset(Ordered(tiers));
  }

  /** Every rank the CASE selects is in the range. */
  lemma {:induction false} RangeAdmitsCase(tiers: seq<Tier>, divMin: Option<int>, divMax: Option<int>, rank: int)
    requires RankBounds(tiers, divMin, divMax).Some? && CaseSelects(tiers, divMin, divMax, rank)
    ensures InBounds(RankBounds(tiers, divMin, divMax).value, rank)
  {
    var ordered := Ordered(tiers);
    OrderedIsTheStableSort(tiers);
    var j := FindAt(ordered, rank);
    DivisionByOrder(tiers, rank, j);
    SameTiers(tiers, ordered[j]);
    assert ordered[j] in WantedTiers(tiers, divMin, divMax);
  }

  /** The numbers of two tiers enclose the number of every tier with ranks between them. */
  ghost predicate Enclosed(ordered: seq<Tier>) {
    forall i, j, k :: 0 <= i < j < k < |ordered| && (exists rank :: Holds(ordered[j], rank)) ==>
      Between(ordered[i].number, ordered[j].number, ordered[k].number)
  }

  predicate Between(a: int, b: int, c: int) {
    a <= b <= c || a >= b >= c
  }

  /** Where the numbers enclose each other, every rank in the range is selected by the CASE. */
  lemma {:induction false} CaseAdmitsRange(tiers: seq<Tier>, divMin: Option<int>, divMax: Option<int>, rank: int)
    requires RankBounds(tiers, divMin, divMax).Some? && InBounds(RankBounds(tiers, divMin, divMax).value, rank)
    requires Enclosed(Ordered(tiers))
    ensures CaseSelects(tiers, divMin, divMax, rank)
  {
    var ordered := Ordered(tiers);
    OrderedIsTheStableSort(tiers);
    var j := FindAt(ordered, rank);
    DivisionByOrder(tiers, rank, j);
    if !Wanted(ordered[j].number, divMin, divMax) {
      var i := WantedBelow(tiers, divMin, divMax, rank, j);
      var k := WantedAbove(tiers, divMin, divMax, rank, j);
      assert Holds(ordered[j], rank);
      assert Between(ordered[i].number, ordered[j].number, ordered[k].number);
    }
  }

  /** A tier that starts below a rank, or has the lowest one's number, stands for one no higher than the rank's. */
  lemma {:induction false} StartsBelow(ordered: seq<Tier>, rank: int, j: int, t: Tier) returns (i: int)
    requires Rising(ordered) && At(ordered, rank, j) && t in ordered
    requires t.number == ordered[0].number || t.rankMin <= rank
    ensures 0 <= i <= j && ordered[i].number == t.number
  {
    if t.number == ordered[0].number {
      i := 0;
    } else {
      i :| 0 <= i < |ordered| && ordered[i] == t;
      if j < i {
        HigherTiersStart(ordered, rank, j, i);
      }
    }
  }

  lemma {:induction false} WantedBelow(tiers: seq<Tier>, divMin: Option<int>, divMax: Option<int>, rank: int, j: int)
    returns (i: int)
    requires RankBounds(tiers, divMin, divMax).Some? && InBounds(RankBounds(tiers, divMin, divMax).value, rank)
    requires At(Ordered(tiers), rank, j) && !Wanted(Ordered(tiers)[j].number, divMin, divMax)
    ensures 0 <= i < j && Wanted(Ordered(tiers)[i].number, divMin, divMax)
  {
    OrderedIsTheStableSort(tiers);
    var t := WantedStarting(tiers, divMin, divMax, rank);
    SameTiers(tiers, t);
    i := StartsBelow(Ordered(tiers), rank, j, t);
  }

  lemma {:induction false} WantedAbove(tiers: seq<Tier>, divMin: Option<int>, divMax: Option<int>, rank: int, j: int)
    returns (k: int)
    requires RankBounds(tiers, divMin, divMax).Some? && InBounds(RankBounds(tiers, divMin, divMax).value, rank)
    requires At(Ordered(tiers), rank, j) && !Wanted(Ordered(tiers)[j].number, divMin, divMax)
    ensures j < k < |Ordered(tiers)| && Wanted(Ordered(tiers)[k].number, divMin, divMax)
  {
    var ordered := Ordered(tiers);
    OrderedIsTheStableSort(tiers);
    var t := WantedReaching(tiers, divMin, divMax, rank);
    SameTiers(tiers, t);
    k :| 0 <= k < |ordered| && ordered[k] == t;
    if k < j {
      LowerTiersEnd(ordered, rank, j, k);
    }
  }

  lemma {:induction false} WantedStarting(tiers: seq<Tier>, divMin: Option<int>, divMax: Option<int>, rank: int)
    returns (t: Tier)
    requires RankBounds(tiers, divMin, divMax).Some? && InBounds(RankBounds(tiers, divMin, divMax).value, rank)
    ensures t in tiers && Wanted(t.number, divMin, divMax)
    ensures Ordered(tiers) != [] && (t.number == Ordered(tiers)[0].number || t.rankMin <= rank)
  {
    var wanted := WantedTiers(tiers, divMin, divMax);
    if u :| u in wanted && u.number == Ordered(tiers)[0].number {
      t := u;
    } else {
      t :| t in wanted && t.rankMin == LowestMin(wanted);
    }
  }

  lemma {:induction false} WantedReaching(tiers: seq<Tier>, divMin: Option<int>, divMax: Option<int>, rank: int)
    returns (t: Tier)
    requires RankBounds(tiers, divMin, divMax).Some? && InBounds(RankBounds(tiers, divMin, divMax).value, rank)
    ensures t in tiers && Wanted(t.number, divMin, divMax) && (t.rankMax.Some? ==> rank <= t.rankMax.value)
  {
    var wanted := WantedTiers(tiers, divMin, divMax);
    if u :| u in wanted && u.rankMax.None? {
      t := u;
    } else {
      t :| t in wanted && t.rankMax == Some(HighestMax(wanted));
    }
  }

  /** Two wanted tiers on either side of a rank put it into the range. */
  lemma {:induction false} RangeSpans(tiers: seq<Tier>, divMin: Option<int>, divMax: Option<int>, i: int, j: int,
                                      k: int, rank: int)
    requires Reducible(tiers) && (divMin.Some? || divMax.Some?)
    requires var ordered := Ordered(tiers);
             && 0 <= i < j < k < |ordered| && Holds(ordered[j], rank)
             && Wanted(ordered[i].number, divMin, divMax) && Wanted(ordered[k].number, divMin, divMax)
    ensures RankBounds(tiers, divMin, divMax).Some? && InBounds(RankBounds(tiers, divMin, divMax).value, rank)
  {
    var ordered, wanted := Ordered(tiers), WantedTiers(tiers, divMin, divMax);
    OrderedIsTheStableSort(tiers);
    SameTiers(tiers, ordered[i]);
    SameTiers(tiers, ordered[k]);
    assert ordered[i] in wanted && ordered[k] in wanted;
    assert ordered[i].rankMin <= ordered[j].rankMin;
    if k < |ordered| - 1 {
      assert ordered[j + 1].rankMin <= ordered[k + 1].rankMin;
    }
  }

  ghost predicate SameRows(tiers: seq<Tier>, divMin: Option<int>, divMax: Option<int>)
    requires RankBounds(tiers, divMin, divMax).Some?
  {
    forall rank :: InBounds(RankBounds(tiers, divMin, divMax).value, rank) <==> CaseSelects(tiers, divMin, divMax, rank)
  }

  /**
   The range keeps the same rows as the CASE for every bound pair exactly when, in rank order, no tier
   with ranks of its own has a number outside the numbers of a lower and a higher tier.
   */
  lemma {:induction false} RangeIsCaseExactly(tiers: seq<Tier>)
    requires Reducible(tiers)
    ensures (forall divMin, divMax :: RankBounds(tiers, divMin, divMax).Some? ==> SameRows(tiers, divMin, divMax))
            <==> Enclosed(Ordered(tiers))
  {
    var ordered := Ordered(tiers);
    if Enclosed(ordered) {
      forall divMin, divMax, rank | RankBounds(tiers, divMin, divMax).Some?
        ensures InBounds(RankBounds(tiers, divMin, divMax).value, rank) <==> CaseSelects(tiers, divMin, divMax, rank)
      {
        if InBounds(RankBounds(tiers, divMin, divMax).value, rank) {
          CaseAdmitsRange(tiers, divMin, divMax, rank);
        } else if CaseSelects(tiers, divMin, divMax, rank) {
          RangeAdmitsCase(tiers, divMin, divMax, rank);
        }
      }
    } else {
      var i, j, k :| 0 <= i < j < k < |ordered| && (exists rank :: Holds(ordered[j], rank))
                     && !Between(ordered[i].number, ordered[j].number, ordered[k].number);
      var rank :| Holds(ordered[j], rank);
      Overreach(tiers, i, j, k, rank);
    }
  }

  /** A tier whose number its neighbours do not enclose is let in by the range between them. */
  lemma {:induction false} Overreach(tiers: seq<Tier>, i: int, j: int, k: int, rank: int)
    requires Reducible(tiers)
    requires var ordered := Ordered(tiers);
             && 0 <= i < j < k < |ordered| && Holds(ordered[j], rank)
             && !Between(ordered[i].number, ordered[j].number, ordered[k].number)
    ensures var a, b := Ordered(tiers)[i].number, Ordered(tiers)[k].number;
            var divMin, divMax := Some(if a <= b then a else b), Some(if a <= b then b else a);
            && RankBounds(tiers, divMin, divMax).Some?
            && InBounds(RankBounds(tiers, divMin, divMax).value, rank) && !CaseSelects(tiers, divMin, divMax, rank)
  {
    var ordered := Ordered(tiers);
    var a, b := ordered[i].number, ordered[k].number;
    var divMin, divMax := Some(if a <= b then a else b), Some(if a <= b then b else a);
    OrderedIsTheStableSort(tiers);
    RangeSpans(tiers, divMin, divMax, i, j, k, rank);
    if j < |ordered| - 1 {
      assert At(ordered, rank, j);
    }
    DivisionByOrder(tiers, rank, j);
  }

  /** The documented reason: numbers that fall as ranks rise make the range equivalent. */
  lemma {:induction false} FallingNumbersSuffice(tiers: seq<Tier>, divMin: Option<int>, divMax: Option<int>)
    requires RankBounds(tiers, divMin, divMax).Some?
    requires forall i, j :: 0 <= i < j < |Ordered(tiers)| ==> Ordered(tiers)[i].number >= Ordered(tiers)[j].number
    ensures SameRows(tiers, divMin, divMax)
  {
    RangeIsCaseExactly(tiers);
  }

  /** Grids the range accepts although their numbers are not in rank order, and a rank it wrongly lets in. */
  lemma {:induction false} UnorderedNumbersOverreach(middle: int)
    requires middle > 2
    ensures var grid := [Tier(2, 200, None), Tier(middle, 100, Some(199)), Tier(1, 0, Some(99))];
            && RankBounds(grid, Some(1), Some(2)).Some?
            && InBounds(RankBounds(grid, Some(1), Some(2)).value, 150)
            && !CaseSelects(grid, Some(1), Some(2), 150)
  {
    var top, mid, floor := Tier(2, 200, None), Tier(middle, 100, Some(199)), Tier(1, 0, Some(99));
    OrderOfThree(top, mid, floor);
    Overreach([top, mid, floor], 0, 1, 2, 150);
  }

  lemma {:induction false} OrderOfTwo(top: Tier, middle: Tier)
    requires middle.rankMin < top.rankMin
    ensures Ordered([top, middle]) == [middle, top]
  {
    assert [top][..0] == [] && [top, middle][..1] == [top];
    assert Ordered([top]) == [top];
    assert Insert(middle, [top]) == [middle, top];
  }

  lemma {:induction false} OrderOfThree(top: Tier, middle: Tier, floor: Tier)
    requires floor.rankMin < middle.rankMin < top.rankMin
    ensures Ordered([top, middle, floor]) == [floor, middle, top]
  {
    OrderOfTwo(top, middle);
    assert [top, middle, floor][..2] == [top, middle];
    assert [middle, top][..1] == [middle] && [middle][..0] == [];
    assert Insert(floor, [middle]) == [floor, middle];
    assert Insert(floor, [middle, top]) == [floor, middle, top];
  }
}
