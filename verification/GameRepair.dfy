/**
 The reviewed repair of one match's game position: check the reviewed snapshot, refuse any second
 claim, create the planned game if that was approved, and write the match's position.

 Tables are maps by id. Columns the repair neither reads nor writes are one `rest` value per row.
 Fingerprints are represented by the snapshots they are taken of.
 */
module GameRepair {
  import opened Wrappers

  datatype Game = Game(encounter: int, position: int, mapId: Option<int>, state: string, resultSource: Option<string>,
                       resultVersion: int, confirmedAt: Option<string>, rest: int)

  datatype Match = Match(encounter: int, mapId: Option<int>, mapIndex: Option<int>, home: int, away: int,
                         source: string, code: Option<string>, rest: int)

  datatype Team = Team(encounter: int, teamId: Option<int>, rest: int)

  datatype GameTeam = GameTeam(score: Option<int>, placement: Option<int>, columnValues: map<string, string>,
                               startingSide: Option<string>, replayCode: Option<string>)

  datatype Encounter = Encounter(discipline: string, tournament: Option<int>, rest: int)

  /** A result row is keyed by its game and its encounter team. */
  datatype Tables = Tables(encounters: map<int, Encounter>, games: map<int, Game>, matches: map<int, Match>,
                           teams: map<int, Team>, results: map<(int, int), GameTeam>, maps: map<int, string>)

  const CANCELLED := "cancelled"
  const PLANNED := "planned"

  // ---- what a match claims ----

  predicate Live(t: Tables, encounter: int, g: int) {
    g in t.games && t.games[g].encounter == encounter && t.games[g].state != CANCELLED
  }

  predicate Explicit(t: Tables, m: Match, g: int) {
    Live(t, m.encounter, g) && m.mapIndex == Some(t.games[g].position)
  }

  predicate SameMap(t: Tables, m: Match, g: int) {
    Live(t, m.encounter, g) && t.games[g].mapId == m.mapId
  }

  /** The resolution rule: the live game at the match's position, else the only live game on its map. */
  ghost predicate Claims(t: Tables, mid: int, g: int) {
    && mid in t.matches
    && var m := t.matches[mid];
       || Explicit(t, m, g)
       || (&& (forall h :: !Explicit(t, m, h))
           && SameMap(t, m, g)
           && forall h :: SameMap(t, m, h) ==> h == g)
  }

  ghost predicate AtMostOneClaim(t: Tables) {
    forall a, b, g :: Claims(t, a, g) && Claims(t, b, g) ==> a == b
  }

  /** The partial unique index of the games table. */
  ghost predicate UniqueLivePositions(t: Tables) {
    forall g, h, e :: Live(t, e, g) && Live(t, e, h) && t.games[g].position == t.games[h].position ==> g == h
  }

  // ---- the reviewed item ----

  datatype Decision = Existing(game: int) | Create

  /** What the repair looks at: the encounter's rows, and the match itself. */
  datatype Snapshot = Snapshot(matchRow: Match, encounter: Encounter, games: map<int, Game>, teams: map<int, Team>,
                               results: map<(int, int), GameTeam>, history: map<int, Match>, mapKind: Option<string>)

  datatype Item = Item(matchId: int, encounter: int, position: int, mapId: int, teams: set<int>, decision: Decision,
                       snapshot: Snapshot)

  function Inspect(t: Tables, mid: int): Snapshot
    requires mid in t.matches && t.matches[mid].encounter in t.encounters
  {
    var m := t.matches[mid];
    var e := m.encounter;
    Snapshot(m, t.encounters[e],
             map g | g in t.games && t.games[g].encounter == e :: t.games[g],
             map k | k in t.teams && t.teams[k].encounter == e :: t.teams[k],
             map r | r in t.results && r.0 in t.games && t.games[r.0].encounter == e :: t.results[r],
             map h | h in t.matches && t.matches[h].encounter == e :: t.matches[h],
             if m.mapId.Some? && m.mapId.value in t.maps then Some(t.maps[m.mapId.value]) else None)
  }

  /** Rows with foreign keys as the database keeps them. */
  ghost predicate Consistent(t: Tables) {
    && (forall m :: m in t.matches ==> t.matches[m].encounter in t.encounters)
    && (forall r :: r in t.results ==> r.0 in t.games)
    && UniqueLivePositions(t)
  }

  /** The two encounter teams behind the match's sides. */
  function Sides(t: Tables, m: Match): set<int> {
    set k | k in t.teams && t.teams[k].encounter == m.encounter
            && (t.teams[k].teamId == Some(m.home) || t.teams[k].teamId == Some(m.away))
  }

  function Participants(t: Tables, g: int): set<int> {
    set r | r in t.results && r.0 == g :: r.1
  }

  predicate BlankResult(r: GameTeam) {
    r == GameTeam(None, None, map[], None, None)
  }

  predicate AtPosition(t: Tables, item: Item, g: int) {
    Live(t, item.encounter, g) && t.games[g].position == item.position
  }

  /** The game the item aims at, if it is there. */
  ghost predicate Target(t: Tables, item: Item, g: int) {
    match item.decision
    case Existing(game) => g == game && g in t.games && t.games[g].encounter == item.encounter
    case Create => AtPosition(t, item, g) && forall h :: AtPosition(t, item, h) ==> h == g
  }

  ghost predicate NoTarget(t: Tables, item: Item) {
    forall g :: !Target(t, item, g)
  }

  // ---- the checks of one application ----

  predicate OwnerOk(t: Tables, item: Item) {
    && item.matchId in t.matches
    && var m := t.matches[item.matchId];
       && m.encounter in t.encounters
       && m.encounter == item.encounter
       && t.encounters[m.encounter].discipline == "overwatch"
       && t.encounters[m.encounter].tournament.Some?
       && m.source == "log_parser" && m.code.None?
       && m.mapId == Some(item.mapId)
       && item.mapId in t.maps && t.maps[item.mapId] == "overwatch/map"
       && m.home != m.away && |Sides(t, m)| == 2 && Sides(t, m) == item.teams
  }

  predicate TargetOk(t: Tables, item: Item, g: int)
    requires item.matchId in t.matches && g in t.games
  {
    && t.games[g].state != CANCELLED
    && t.games[g].position == item.position
    && t.games[g].mapId == Some(item.mapId)
    && Participants(t, g) == Sides(t, t.matches[item.matchId])
    && (item.decision.Create? ==> CreatedOk(t, item, g))
  }

  /** A game found for a creation item can only be the one an earlier application created. */
  predicate CreatedOk(t: Tables, item: Item, g: int)
    requires g in t.games
  {
    && g !in item.snapshot.games
    && t.games[g].state == PLANNED && t.games[g].resultVersion == 0
    && t.games[g].resultSource.None? && t.games[g].confirmedAt.None?
    && forall r :: r in t.results && r.0 == g ==> BlankResult(t.results[r])
  }

  /** Another match of the encounter that claims, or would come to claim, what the item writes. */
  ghost predicate Conflicts(t: Tables, item: Item, other: int)
    requires item.matchId in t.matches
  {
    && other in t.matches && other != item.matchId
    && t.matches[other].encounter == item.encounter
    && var o := t.matches[other];
       || (exists g :: Target(t, item, g) && Claims(t, other, g))
       || o.mapIndex == Some(item.position)
       || (NoTarget(t, item) && (forall h :: !Explicit(t, o, h)) && (forall h :: !SameMap(t, o, h))
           && o.mapId == Some(item.mapId))
  }

  /** The encounter's matches with one position put back. */
  function Undone(s: Snapshot, mid: int, was: Option<int>): map<int, Match> {
    map h | h in s.history :: if h == mid then s.history[h].(mapIndex := was) else s.history[h]
  }

  /** The current state with this item's own effect taken back. */
  ghost function Normalised(t: Tables, item: Item): Snapshot
    requires item.matchId in t.matches && t.matches[item.matchId].encounter in t.encounters
  {
    var s := Inspect(t, item.matchId);
    var was := item.snapshot.matchRow.mapIndex;
    var back := s.(matchRow := s.matchRow.(mapIndex := was), history := Undone(s, item.matchId, was));
    if item.decision.Create? && !NoTarget(t, item) then
      var g :| Target(t, item, g);
      back.(games := back.games - {g}, results := map r | r in back.results && r.0 != g :: back.results[r])
    else back
  }

  ghost predicate NotDrifted(t: Tables, item: Item)
    requires item.matchId in t.matches && t.matches[item.matchId].encounter in t.encounters
  {
    || Inspect(t, item.matchId) == item.snapshot
    || (t.matches[item.matchId].mapIndex == Some(item.position) && Normalised(t, item) == item.snapshot)
  }

  /** Every condition under which the repair goes through. */
  ghost predicate Applies(t: Tables, item: Item) {
    && OwnerOk(t, item)
    && (forall g :: Target(t, item, g) ==> TargetOk(t, item, g))
    && (NoTarget(t, item) ==> item.decision.Create?)
    && (forall g :: AtPosition(t, item, g) ==> Target(t, item, g))
    && (forall other :: !Conflicts(t, item, other))
    && NotDrifted(t, item)
  }

  function CreatedGame(item: Item, rest: int): Game {
    Game(item.encounter, item.position, Some(item.mapId), PLANNED, None, 0, None, rest)
  }

  /** The result rows of a created game, one for each side. */
  function BlankRows(created: int, sides: set<int>): map<(int, int), GameTeam> {
    map k | k in sides :: (created, k) := GameTeam(None, None, map[], None, None)
  }

  /** The tables after a successful application; `created` is the id the database hands out. */
  ghost function Applied(t: Tables, item: Item, created: int, rest: int): Tables
    requires item.matchId in t.matches
  {
    var m := t.matches[item.matchId];
    var moved := t.(matches := t.matches[item.matchId := m.(mapIndex := Some(item.position))]);
    if NoTarget(t, item) then
      moved.(games := t.games[created := CreatedGame(item, rest)],
             results := t.results + BlankRows(created, Sides(t, m)))
    else moved
  }

  /** The occupied-position check adds nothing to the target checks while live positions are unique. */
  lemma {:induction false} PositionCheckIsRedundant(t: Tables, item: Item)
    requires UniqueLivePositions(t) && item.matchId in t.matches
    requires forall g :: Target(t, item, g) ==> TargetOk(t, item, g)
    requires NoTarget(t, item) ==> item.decision.Create?
    ensures forall g :: AtPosition(t, item, g) ==> Target(t, item, g)
  {
    forall g | AtPosition(t, item, g)
      ensures Target(t, item, g)
    {
      if item.decision.Existing? {
        var target :| Target(t, item, target);
        assert TargetOk(t, item, target) && Live(t, item.encounter, target) && Live(t, item.encounter, g);
      } else {
        forall h | AtPosition(t, item, h)
          ensures h == g
        {
          assert Live(t, item.encounter, h) && Live(t, item.encounter, g);
        }
      }
    }
  }

  // ---- no second claim ----

  /** The id the repaired match claims afterwards. */
  ghost predicate ClaimedAfter(t: Tables, item: Item, created: int, g: int) {
    if NoTarget(t, item) then g == created else Target(t, item, g)
  }

  /** With a target there, the games stay; a match other than the repaired one claims what it claimed. */
  lemma {:induction false} OthersKeepClaims(t: Tables, item: Item, created: int, rest: int, other: int, g: int)
    requires item.matchId in t.matches && other != item.matchId && !NoTarget(t, item)
    ensures Claims(Applied(t, item, created, rest), other, g) <==> Claims(t, other, g)
  {
    var t' := Applied(t, item, created, rest);
    assert t'.games == t.games;
    if other in t.matches {
      var o := t.matches[other];
      assert forall h :: Explicit(t', o, h) <==> Explicit(t, o, h);
      assert forall h :: SameMap(t', o, h) <==> SameMap(t, o, h);
    }
  }

  /**
   Creating a game can make another match's unique fallback ambiguous, that is, release its claim; it
   never gives it a new one.
   */
  lemma {:induction false} CreationOnlyReleases(t: Tables, item: Item, created: int, rest: int, other: int, g: int)
    requires Consistent(t) && Applies(t, item) && NoTarget(t, item) && created !in t.games
    requires other != item.matchId && Claims(Applied(t, item, created, rest), other, g)
    ensures Claims(t, other, g) && g != created
  {
    var t' := Applied(t, item, created, rest);
    var o := t.matches[other];
    assert t'.matches[other] == o;
    assert !Conflicts(t, item, other);
    assert forall h :: h != created ==> (Live(t', o.encounter, h) <==> Live(t, o.encounter, h));
    assert forall h :: h != created ==> (Explicit(t', o, h) <==> Explicit(t, o, h));
    assert forall h :: h != created ==> (SameMap(t', o, h) <==> SameMap(t, o, h));
    assert !Explicit(t', o, created);
    if o.encounter == item.encounter && o.mapId == Some(item.mapId) && forall h :: !Explicit(t, o, h) {
      AmbiguousAfter(t, item, created, rest, other, g);
    }
  }

  /** A fallback on the created game's map is ambiguous afterwards. */
  lemma {:induction false} AmbiguousAfter(t: Tables, item: Item, created: int, rest: int, other: int, g: int)
    requires Consistent(t) && Applies(t, item) && NoTarget(t, item) && created !in t.games
    requires other in t.matches && other != item.matchId && t.matches[other].encounter == item.encounter
    requires t.matches[other].mapId == Some(item.mapId) && forall h :: !Explicit(t, t.matches[other], h)
    ensures !Claims(Applied(t, item, created, rest), other, g)
  {
    var t' := Applied(t, item, created, rest);
    var o := t.matches[other];
    assert t'.matches[other] == o && !Conflicts(t, item, other);
    var h :| SameMap(t, o, h);
    assert SameMap(t', o, h) && SameMap(t', o, created) && h != created;
    assert forall k :: k != created ==> (Explicit(t', o, k) <==> Explicit(t, o, k));
    assert !Explicit(t', o, created);
  }

  /**
   A created game takes a claim away from another match exactly when that claim was its unique map
   fallback on the created game's map; the match is then unresolved.
   */
  lemma {:induction false} ReleasedExactly(t: Tables, item: Item, created: int, rest: int, other: int, g: int)
    requires Consistent(t) && Applies(t, item) && NoTarget(t, item) && created !in t.games
    requires other != item.matchId && Claims(t, other, g)
    ensures var o := t.matches[other];
            !Claims(Applied(t, item, created, rest), other, g) <==>
            o.encounter == item.encounter && o.mapId == Some(item.mapId) && forall h :: !Explicit(t, o, h)
  {
    var t' := Applied(t, item, created, rest);
    var o := t.matches[other];
    assert t'.matches[other] == o;
    assert !Conflicts(t, item, other);
    assert forall h :: h != created ==> (Explicit(t', o, h) <==> Explicit(t, o, h));
    assert forall h :: h != created ==> (SameMap(t', o, h) <==> SameMap(t, o, h));
    assert !Explicit(t', o, created);
    assert SameMap(t', o, created) <==> o.encounter == item.encounter && o.mapId == Some(item.mapId);
    assert g != created;
  }

  /** The repaired match claims its target, and nothing else. */
  lemma {:induction false} RepairedClaimsTarget(t: Tables, item: Item, created: int, rest: int, g: int)
    requires Consistent(t) && Applies(t, item) && created !in t.games
    ensures Claims(Applied(t, item, created, rest), item.matchId, g) <==> ClaimedAfter(t, item, created, g)
  {
    var t' := Applied(t, item, created, rest);
    var m := t'.matches[item.matchId];
    forall h ensures Explicit(t', m, h) <==> ClaimedAfter(t, item, created, h) {
      if NoTarget(t, item) {
        assert h != created ==> (Live(t', item.encounter, h) <==> Live(t, item.encounter, h));
        assert AtPosition(t, item, h) ==> Target(t, item, h);
      } else {
        assert Explicit(t', m, h) <==> AtPosition(t, item, h);
        if Target(t, item, h) { assert TargetOk(t, item, h); }
      }
    }
    if NoTarget(t, item) {
      assert Explicit(t', m, created);
    } else {
      var h :| Target(t, item, h);
      assert Explicit(t', m, h);
    }
  }

  lemma {:induction false} PositionsStayUnique(t: Tables, item: Item, created: int, rest: int)
    requires Consistent(t) && Applies(t, item) && created !in t.games
    ensures Consistent(Applied(t, item, created, rest))
  {
    var t' := Applied(t, item, created, rest);
    if NoTarget(t, item) {
      forall g, h, e | Live(t', e, g) && Live(t', e, h) && t'.games[g].position == t'.games[h].position
        ensures g == h
      {
        if g != created { assert Live(t, e, g); }
        if h != created { assert Live(t, e, h); }
        if g == created && h != created { assert AtPosition(t, item, h); }
        if h == created && g != created { assert AtPosition(t, item, g); }
      }
    } else {
      assert forall g, e :: Live(t', e, g) <==> Live(t, e, g);
    }
  }

  /** Each live game is still claimed by at most one match after a successful repair. */
  lemma {:induction false} RepairKeepsClaimsUnique(t: Tables, item: Item, created: int, rest: int)
    requires Consistent(t) && AtMostOneClaim(t) && Applies(t, item) && created !in t.games
    ensures Consistent(Applied(t, item, created, rest)) && AtMostOneClaim(Applied(t, item, created, rest))
  {
    PositionsStayUnique(t, item, created, rest);
    var t' := Applied(t, item, created, rest);
    forall a, b, g | Claims(t', a, g) && Claims(t', b, g)
      ensures a == b
    {
      ClaimOrigin(t, item, created, rest, a, g);
      ClaimOrigin(t, item, created, rest, b, g);
    }
  }

  /** A claim after the repair is the repaired match's own, or an old one of a game the repair did not take. */
  lemma {:induction false} ClaimOrigin(t: Tables, item: Item, created: int, rest: int, a: int, g: int)
    requires Consistent(t) && Applies(t, item) && created !in t.games
    requires Claims(Applied(t, item, created, rest), a, g)
    ensures if a == item.matchId then ClaimedAfter(t, item, created, g)
            else Claims(t, a, g) && !ClaimedAfter(t, item, created, g)
  {
    RepairedClaimsTarget(t, item, created, rest, g);
    if a != item.matchId {
      if NoTarget(t, item) {
        CreationOnlyReleases(t, item, created, rest, a, g);
      } else {
        OthersKeepClaims(t, item, created, rest, a, g);
        if Target(t, item, g) {
          assert !Conflicts(t, item, a);
        }
      }
    }
  }

  // ---- resuming ----

  lemma {:induction false} SnapshotGamesExist(t: Tables, item: Item)
    requires Applies(t, item) && NoTarget(t, item)
    ensures forall g :: g in item.snapshot.games ==> g in t.games
  {
  }

  /** The game the item aims at after the repair. */
  lemma {:induction false} TargetAfter(t: Tables, item: Item, created: int, rest: int, g: int)
    requires Consistent(t) && Applies(t, item) && created !in t.games
    ensures Target(Applied(t, item, created, rest), item, g) <==> ClaimedAfter(t, item, created, g)
  {
    var t' := Applied(t, item, created, rest);
    if NoTarget(t, item) {
      forall h ensures AtPosition(t', item, h) <==> h == created {
        assert AtPosition(t, item, h) ==> Target(t, item, h);
        assert h != created ==> (Live(t', item.encounter, h) <==> Live(t, item.encounter, h));
      }
    } else {
      assert forall h :: AtPosition(t', item, h) <==> AtPosition(t, item, h);
    }
  }

  lemma {:induction false} ParticipantsAfter(t: Tables, item: Item, created: int, rest: int)
    requires Consistent(t) && Applies(t, item) && created !in t.games && NoTarget(t, item)
    ensures var t' := Applied(t, item, created, rest);
            && Participants(t', created) == Sides(t, t.matches[item.matchId])
            && forall r :: r in t'.results && r.0 == created ==> BlankResult(t'.results[r])
  {
    var t' := Applied(t, item, created, rest);
    var sides := Sides(t, t.matches[item.matchId]);
    forall k | k in sides ensures k in Participants(t', created) {
      assert (created, k) in t'.results;
    }
    forall r | r in t'.results && r.0 == created ensures r.1 in sides && BlankResult(t'.results[r]) {
      assert r !in t.results;
    }
  }

  lemma {:induction false} UndoneAfter(t: Tables, item: Item, created: int, rest: int)
    requires Consistent(t) && OwnerOk(t, item)
    ensures var t' := Applied(t, item, created, rest);
            && t'.matches[item.matchId].encounter in t'.encounters
            && Undone(Inspect(t', item.matchId), item.matchId, item.snapshot.matchRow.mapIndex)
               == Undone(Inspect(t, item.matchId), item.matchId, item.snapshot.matchRow.mapIndex)
  {
    var s, s' := Inspect(t, item.matchId), Inspect(Applied(t, item, created, rest), item.matchId);
    assert s'.history.Keys == s.history.Keys;
    assert forall h :: h in s.history && h != item.matchId ==> s'.history[h] == s.history[h];
  }

  /** Before the first application the reviewed position is the one in the table. */
  lemma {:induction false} NothingToUndo(t: Tables, item: Item)
    requires OwnerOk(t, item) && Inspect(t, item.matchId) == item.snapshot
    ensures Undone(Inspect(t, item.matchId), item.matchId, item.snapshot.matchRow.mapIndex) == item.snapshot.history
  {
    var s := Inspect(t, item.matchId);
    assert s.history[item.matchId] == s.matchRow;
  }

  /** What `NotDrifted` comes to for a repair that has a target or creates none. */
  lemma {:induction false} UndoneIsReviewed(t: Tables, item: Item)
    requires Applies(t, item)
    ensures Undone(Inspect(t, item.matchId), item.matchId, item.snapshot.matchRow.mapIndex) == item.snapshot.history
  {
    if Inspect(t, item.matchId) == item.snapshot {
      NothingToUndo(t, item);
    }
  }

  lemma {:induction false} CreatedGameRemoved(t: Tables, item: Item, created: int, rest: int)
    requires Consistent(t) && OwnerOk(t, item) && created !in t.games && NoTarget(t, item)
    ensures var t' := Applied(t, item, created, rest);
            && t'.matches[item.matchId].encounter in t'.encounters
            && Inspect(t', item.matchId).games - {created} == Inspect(t, item.matchId).games
  {
    var s, s' := Inspect(t, item.matchId), Inspect(Applied(t, item, created, rest), item.matchId);
    assert (s'.games - {created}).Keys == s.games.Keys;
  }

  lemma {:induction false} CreatedResultsRemoved(t: Tables, item: Item, created: int, rest: int)
    requires Consistent(t) && OwnerOk(t, item) && created !in t.games && NoTarget(t, item)
    ensures var t' := Applied(t, item, created, rest);
            && t'.matches[item.matchId].encounter in t'.encounters
            && var s' := Inspect(t', item.matchId);
               (map r | r in s'.results && r.0 != created :: s'.results[r]) == Inspect(t, item.matchId).results
  {
    var s, s' := Inspect(t, item.matchId), Inspect(Applied(t, item, created, rest), item.matchId);
    assert forall r :: r in s'.results && r.0 != created <==> r in s.results;
  }

  lemma {:induction false} CreatedRowsRemoved(t: Tables, item: Item, created: int, rest: int)
    requires Consistent(t) && OwnerOk(t, item) && created !in t.games && NoTarget(t, item)
    ensures var t' := Applied(t, item, created, rest);
            && t'.matches[item.matchId].encounter in t'.encounters
            && var s' := Inspect(t', item.matchId);
            && s'.games - {created} == Inspect(t, item.matchId).games
            && (map r | r in s'.results && r.0 != created :: s'.results[r]) == Inspect(t, item.matchId).results
  {
    CreatedGameRemoved(t, item, created, rest);
    CreatedResultsRemoved(t, item, created, rest);
  }

  lemma {:induction false} NormalisedCreated(t: Tables, item: Item, created: int, rest: int)
    requires Consistent(t) && Applies(t, item) && created !in t.games && NoTarget(t, item)
    ensures Normalised(Applied(t, item, created, rest), item) == item.snapshot
  {
    var t' := Applied(t, item, created, rest);
    forall g ensures Target(t', item, g) <==> g == created { TargetAfter(t, item, created, rest, g); }
    CreatedRowsRemoved(t, item, created, rest);
    UndoneAfter(t, item, created, rest);
    UndoneIsReviewed(t, item);
    var s, s' := Inspect(t, item.matchId), Inspect(t', item.matchId);
    var was := item.snapshot.matchRow.mapIndex;
    assert !NoTarget(t', item) by { assert Target(t', item, created); }
    assert Normalised(t', item) ==
           s'.(matchRow := s'.matchRow.(mapIndex := was), history := Undone(s', item.matchId, was), games := s.games,
               results := s.results);
    assert Normalised(t, item) ==
           s.(matchRow := s.matchRow.(mapIndex := was), history := Undone(s, item.matchId, was));
  }

  lemma {:induction false} NormalisedExisting(t: Tables, item: Item, created: int, rest: int)
    requires Consistent(t) && Applies(t, item) && !NoTarget(t, item)
    ensures Normalised(Applied(t, item, created, rest), item) == item.snapshot
  {
    var s := Inspect(t, item.matchId);
    SameTargets(t, item, created, rest);
    UndoneAfter(t, item, created, rest);
    UndoneIsReviewed(t, item);
    var g :| Target(t, item, g);
    assert TargetOk(t, item, g) && g in s.games;
    assert Inspect(Applied(t, item, created, rest), item.matchId).games == s.games;
    assert Inspect(Applied(t, item, created, rest), item.matchId).results == s.results;
  }

  /** Taking the repair's own effect back from the new state gives the reviewed snapshot. */
  lemma {:induction false} NormalisedAfter(t: Tables, item: Item, created: int, rest: int)
    requires Consistent(t) && Applies(t, item) && created !in t.games
    ensures Normalised(Applied(t, item, created, rest), item) == item.snapshot
  {
    if NoTarget(t, item) {
      NormalisedCreated(t, item, created, rest);
    } else {
      NormalisedExisting(t, item, created, rest);
    }
  }

  lemma {:induction false} TargetThere(t: Tables, item: Item, created: int, rest: int)
    requires Consistent(t) && Applies(t, item) && created !in t.games
    ensures !NoTarget(Applied(t, item, created, rest), item)
  {
    if NoTarget(t, item) {
      TargetAfter(t, item, created, rest, created);
    } else {
      var g :| Target(t, item, g);
      TargetAfter(t, item, created, rest, g);
    }
  }

  lemma {:induction false} SameTargets(t: Tables, item: Item, created: int, rest: int)
    requires item.matchId in t.matches && !NoTarget(t, item)
    ensures forall g :: Target(Applied(t, item, created, rest), item, g) <==> Target(t, item, g)
  {
    var t' := Applied(t, item, created, rest);
    assert forall h :: AtPosition(t', item, h) <==> AtPosition(t, item, h);
  }

  lemma {:induction false} NoConflictAfter(t: Tables, item: Item, created: int, rest: int, other: int)
    requires Consistent(t) && Applies(t, item) && created !in t.games
    ensures !Conflicts(Applied(t, item, created, rest), item, other)
  {
    var t' := Applied(t, item, created, rest);
    assert !Conflicts(t, item, other);
    forall g | Target(t', item, g) && Claims(t', other, g) ensures other == item.matchId {
      TargetAfter(t, item, created, rest, g);
      ClaimOrigin(t, item, created, rest, other, g);
    }
    TargetThere(t, item, created, rest);
  }

  lemma {:induction false} TargetsOkAfter(t: Tables, item: Item, created: int, rest: int, g: int)
    requires Consistent(t) && Applies(t, item) && created !in t.games
    requires Target(Applied(t, item, created, rest), item, g)
    ensures TargetOk(Applied(t, item, created, rest), item, g)
  {
    TargetAfter(t, item, created, rest, g);
    if NoTarget(t, item) {
      ParticipantsAfter(t, item, created, rest);
      SnapshotGamesExist(t, item);
    } else {
      assert TargetOk(t, item, g);
    }
  }

  lemma {:induction false} PositionTakenByTarget(t: Tables, item: Item, created: int, rest: int, g: int)
    requires Consistent(t) && Applies(t, item) && created !in t.games
    requires AtPosition(Applied(t, item, created, rest), item, g)
    ensures Target(Applied(t, item, created, rest), item, g)
  {
    TargetAfter(t, item, created, rest, g);
    assert g in t.games && AtPosition(t, item, g) ==> Target(t, item, g);
  }

  /** Applying the same reviewed item again goes through and changes nothing. */
  lemma {:induction false} RepairIsResumable(t: Tables, item: Item, created: int, rest: int, created': int, rest': int)
    requires Consistent(t) && Applies(t, item) && created !in t.games
    ensures var t' := Applied(t, item, created, rest);
            Applies(t', item) && Applied(t', item, created', rest') == t'
  {
    var t' := Applied(t, item, created, rest);
    forall g | Target(t', item, g) ensures TargetOk(t', item, g) {
      TargetsOkAfter(t, item, created, rest, g);
    }
    TargetThere(t, item, created, rest);
    forall g | AtPosition(t', item, g) ensures Target(t', item, g) {
      PositionTakenByTarget(t, item, created, rest, g);
    }
    forall other ensures !Conflicts(t', item, other) {
      NoConflictAfter(t, item, created, rest, other);
    }
    NormalisedAfter(t, item, created, rest);
    OwnerStaysOk(t, item, created, rest);
    AppliedAgain(t', item, created', rest');
  }

  lemma {:induction false} AppliedAgain(t: Tables, item: Item, created: int, rest: int)
    requires item.matchId in t.matches && t.matches[item.matchId].mapIndex == Some(item.position) && !NoTarget(t, item)
    ensures Applied(t, item, created, rest) == t
  {
  }

  lemma {:induction false} OwnerStaysOk(t: Tables, item: Item, created: int, rest: int)
    requires OwnerOk(t, item)
    ensures OwnerOk(Applied(t, item, created, rest), item)
  {
    var t' := Applied(t, item, created, rest);
    assert Sides(t', t'.matches[item.matchId]) == Sides(t, t.matches[item.matchId]);
  }

  // ---- runs ----

  /** One attempt: a reviewed item and what the database would hand out for a created game. */
  datatype Attempt = Attempt(item: Item, created: int, rest: int)

  /** A refused attempt is rolled back. */
  ghost function Attempted(t: Tables, a: Attempt): Tables {
    if Applies(t, a.item) then Applied(t, a.item, a.created, a.rest) else t
  }

  ghost function AfterRun(t: Tables, attempts: seq<Attempt>): Tables {
    if attempts == [] then t else Attempted(AfterRun(t, attempts[..|attempts| - 1]), attempts[|attempts| - 1])
  }

  /** Ids are handed out once. */
  ghost predicate FreshIds(t: Tables, attempts: seq<Attempt>) {
    attempts == [] ||
    (&& FreshIds(t, attempts[..|attempts| - 1])
     && attempts[|attempts| - 1].created !in AfterRun(t, attempts[..|attempts| - 1]).games)
  }

  /** Over any run of attempts each live game stays claimed by at most one match. */
  lemma {:induction false} RunsKeepClaimsUnique(t: Tables, attempts: seq<Attempt>)
    requires Consistent(t) && AtMostOneClaim(t) && FreshIds(t, attempts)
    ensures Consistent(AfterRun(t, attempts)) && AtMostOneClaim(AfterRun(t, attempts))
  {
    if attempts != [] {
      var before, last := AfterRun(t, attempts[..|attempts| - 1]), attempts[|attempts| - 1];
      RunsKeepClaimsUnique(t, attempts[..|attempts| - 1]);
      if Applies(before, last.item) {
        RepairKeepsClaimsUnique(before, last.item, last.created, last.rest);
      }
    }
  }

  /** Official rows: no run changes or removes a game or a result row that was there before. */
  lemma {:induction false} RunsKeepOfficialRows(t: Tables, attempts: seq<Attempt>)
    requires Consistent(t) && AtMostOneClaim(t) && FreshIds(t, attempts)
    ensures var t' := AfterRun(t, attempts);
            && (forall g :: g in t.games ==> g in t'.games && t'.games[g] == t.games[g])
            && (forall r :: r in t.results ==> r in t'.results && t'.results[r] == t.results[r])
            && t'.encounters == t.encounters && t'.teams == t.teams && t'.maps == t.maps
  {
    if attempts != [] {
      RunsKeepClaimsUnique(t, attempts[..|attempts| - 1]);
      RunsKeepOfficialRows(t, attempts[..|attempts| - 1]);
    }
  }

  // ---- when the repair goes through, and what it leaves, row by row ----

  /** The snapshot holds exactly the rows that the tables have for the match and its encounter. */
  ghost predicate ReadFrom(s: Snapshot, t: Tables, mid: int) {
    && mid in t.matches && s.matchRow == t.matches[mid]
    && var e := s.matchRow.encounter;
       && e in t.encounters && s.encounter == t.encounters[e]
       && (forall g :: g in s.games <==> g in t.games && t.games[g].encounter == e)
       && (forall g :: g in s.games ==> s.games[g] == t.games[g])
       && (forall k :: k in s.teams <==> k in t.teams && t.teams[k].encounter == e)
       && (forall k :: k in s.teams ==> s.teams[k] == t.teams[k])
       && (forall r :: r in s.results <==> r in t.results && r.0 in t.games && t.games[r.0].encounter == e)
       && (forall r :: r in s.results ==> s.results[r] == t.results[r])
       && (forall h :: h in s.history <==> h in t.matches && t.matches[h].encounter == e)
       && (forall h :: h in s.history ==> s.history[h] == t.matches[h])
       && s.mapKind == (if s.matchRow.mapId.Some? && s.matchRow.mapId.value in t.maps
                        then Some(t.maps[s.matchRow.mapId.value]) else None)
  }

  lemma {:induction false} ReadIsInspected(s: Snapshot, t: Tables, mid: int)
    requires ReadFrom(s, t, mid)
    ensures s == Inspect(t, mid)
  {
    var i := Inspect(t, mid);
    forall g: int ensures (g in s.games <==> g in i.games) && (g in s.games ==> s.games[g] == i.games[g]) {
    }
    assert s.games == i.games;
    forall k: int ensures (k in s.teams <==> k in i.teams) && (k in s.teams ==> s.teams[k] == i.teams[k]) {
    }
    assert s.teams == i.teams;
    forall h: int ensures (h in s.history <==> h in i.history) && (h in s.history ==> s.history[h] == i.history[h]) {
    }
    assert s.history == i.history;
    assert s.results == i.results;
  }

  lemma {:induction false} InspectionReads(s: Snapshot, t: Tables, mid: int)
    ensures ReadFrom(s, t, mid) <==>
            mid in t.matches && t.matches[mid].encounter in t.encounters && s == Inspect(t, mid)
  {
    if ReadFrom(s, t, mid) {
      ReadIsInspected(s, t, mid);
    }
  }

  /** The match was parsed from a log, and it and its encounter are what the item says. */
  predicate MatchRowsOk(t: Tables, item: Item) {
    && item.matchId in t.matches && item.encounter in t.encounters
    && var m, e := t.matches[item.matchId], t.encounters[item.encounter];
       && m.encounter == item.encounter && m.mapId == Some(item.mapId) && m.source == "log_parser" && m.code == None
       && e.discipline == "overwatch" && e.tournament != None
       && item.mapId in t.maps && t.maps[item.mapId] == "overwatch/map"
  }

  /** Two different teams play the match, and `a` and `b` are the encounter's teams for them. */
  ghost predicate PlayedBy(t: Tables, item: Item, a: int, b: int)
    requires item.matchId in t.matches
  {
    var m := t.matches[item.matchId];
    && m.home != m.away && a != b
    && (forall k :: k == a || k == b <==>
          && k in t.teams && t.teams[k].encounter == item.encounter
          && (t.teams[k].teamId == Some(m.home) || t.teams[k].teamId == Some(m.away)))
  }

  /** Game `g` is the encounter's, live, at the position, on the map and played by the two. */
  predicate Playable(t: Tables, item: Item, g: int, a: int, b: int) {
    && g in t.games && t.games[g].encounter == item.encounter && t.games[g].state != "cancelled"
    && t.games[g].position == item.position && t.games[g].mapId == Some(item.mapId)
    && (forall r :: r in t.results && r.0 == g ==> r.1 == a || r.1 == b)
    && (g, a) in t.results && (g, b) in t.results
  }

  /** A live game of the encounter is at the position, or on the map. */
  predicate LiveAt(t: Tables, item: Item, position: Option<int>) {
    exists g :: g in t.games && t.games[g].encounter == item.encounter && t.games[g].state != "cancelled"
                && Some(t.games[g].position) == position
  }

  /** Of the encounter's live games, `g` alone is on the map. */
  predicate AloneOnMap(t: Tables, item: Item, g: int, mapId: Option<int>) {
    && g in t.games && t.games[g].mapId == mapId
    && forall h :: h in t.games && h != g && t.games[h].encounter == item.encounter
                   && t.games[h].state != "cancelled" ==>
                     t.games[h].mapId != mapId
  }

  predicate NoneOnMap(t: Tables, item: Item, mapId: Option<int>) {
    forall h :: h in t.games && t.games[h].encounter == item.encounter && t.games[h].state != "cancelled" ==>
      t.games[h].mapId != mapId
  }

  /**
   Another match of the encounter is in the way: it is at the position itself; or, no live game being
   at its own position, the target is the only live game on its map; or nothing is on that map yet and
   the item creates the first.
   */
  predicate Rival(t: Tables, item: Item, target: Option<int>, other: int) {
    && other in t.matches && other != item.matchId && t.matches[other].encounter == item.encounter
    && var o := t.matches[other];
       || o.mapIndex == Some(item.position)
       || (&& !LiveAt(t, item, o.mapIndex)
           && if target.Some? then AloneOnMap(t, item, target.value, o.mapId)
              else NoneOnMap(t, item, o.mapId) && o.mapId == Some(item.mapId))
  }

  /** The tables with the match's reviewed position put back, and without the game `g` if there is one. */
  function Before(t: Tables, item: Item, gone: Option<int>): Tables
    requires item.matchId in t.matches
  {
    var m := t.matches[item.matchId].(mapIndex := item.snapshot.matchRow.mapIndex);
    var back := t.(matches := t.matches[item.matchId := m]);
    if gone.None? then back
    else
      back.(games := t.games - {gone.value}, results := map r | r in t.results && r.0 != gone.value :: t.results[r])
  }

  lemma {:induction false} TwoSides(t: Tables, item: Item)
    requires item.matchId in t.matches && t.matches[item.matchId].encounter == item.encounter
    ensures (&& t.matches[item.matchId].home != t.matches[item.matchId].away
             && |Sides(t, t.matches[item.matchId])| == 2 && Sides(t, t.matches[item.matchId]) == item.teams) <==>
            exists a, b :: PlayedBy(t, item, a, b) && item.teams == {a, b}
  {
    var m := t.matches[item.matchId];
    var sides := Sides(t, m);
    forall k
      ensures k in sides <==> k in t.teams && t.teams[k].encounter == item.encounter
                              && (t.teams[k].teamId == Some(m.home) || t.teams[k].teamId == Some(m.away))
    {
    }
    if m.home != m.away && |sides| == 2 && sides == item.teams {
      ghost var a := Member(sides);
      assert |sides - {a}| == 1;
      ghost var b := Member(sides - {a});
      assert |sides - {a} - {b}| == 0;
      assert sides == {a, b};
      assert forall k :: k == a || k == b <==> k in sides;
      assert PlayedBy(t, item, a, b);
    }
    if a, b :| PlayedBy(t, item, a, b) && item.teams == {a, b} {
      assert forall k :: k == a || k == b <==> k in sides;
      assert sides == {a, b};
    }
  }

  lemma {:induction false} ResolutionByRows(t: Tables, item: Item, o: Match)
    requires o.encounter == item.encounter
    ensures LiveAt(t, item, o.mapIndex) <==> exists h :: Explicit(t, o, h)
    ensures NoneOnMap(t, item, o.mapId) <==> forall h :: !SameMap(t, o, h)
  {
    if LiveAt(t, item, o.mapIndex) {
      var h :| h in t.games && t.games[h].encounter == item.encounter && t.games[h].state != "cancelled"
               && Some(t.games[h].position) == o.mapIndex;
      assert Explicit(t, o, h);
    }
    if h :| Explicit(t, o, h) {
      assert h in t.games;
    }
    if h :| SameMap(t, o, h) {
      assert h in t.games;
    }
    if !NoneOnMap(t, item, o.mapId) {
      var h :| h in t.games && t.games[h].encounter == item.encounter && t.games[h].state != "cancelled"
               && t.games[h].mapId == o.mapId;
      assert SameMap(t, o, h);
    }
  }

  lemma {:induction false} ClaimByRows(t: Tables, item: Item, g: int, other: int)
    requires other in t.matches && t.matches[other].encounter == item.encounter
    requires Live(t, item.encounter, g) && t.games[g].position == item.position
    ensures var o := t.matches[other];
            Claims(t, other, g) <==>
            o.mapIndex == Some(item.position) || (!LiveAt(t, item, o.mapIndex) && AloneOnMap(t, item, g, o.mapId))
  {
    var o := t.matches[other];
    ResolutionByRows(t, item, o);
    assert SameMap(t, o, g) <==> t.games[g].mapId == o.mapId;
    if SameMap(t, o, g) {
      assert AloneOnMap(t, item, g, o.mapId) ==> forall h :: SameMap(t, o, h) ==> h == g;
      forall h | h in t.games && t.games[h].encounter == item.encounter && t.games[h].state != "cancelled"
                 && t.games[h].mapId == o.mapId
        ensures SameMap(t, o, h)
      {
      }
    }
    assert o.mapIndex == Some(item.position) ==> Explicit(t, o, g);
  }

  lemma {:induction false} RivalsOfTarget(t: Tables, item: Item, g: int, other: int)
    requires item.matchId in t.matches && Target(t, item, g)
    requires Live(t, item.encounter, g) && t.games[g].position == item.position
    ensures Conflicts(t, item, other) <==> Rival(t, item, Some(g), other)
  {
    if other in t.matches && t.matches[other].encounter == item.encounter {
      ClaimByRows(t, item, g, other);
      assert forall h :: Target(t, item, h) ==> h == g;
    }
  }

  lemma {:induction false} RivalsOfCreation(t: Tables, item: Item, other: int)
    requires item.matchId in t.matches && NoTarget(t, item)
    ensures Conflicts(t, item, other) <==> Rival(t, item, None, other)
  {
    if other in t.matches && t.matches[other].encounter == item.encounter {
      ResolutionByRows(t, item, t.matches[other]);
    }
  }

  /** Without rows of its own to take back, a repair is reviewed on the tables with its position put back. */
  lemma {:induction false} DriftByRows(t: Tables, item: Item, gone: Option<int>)
    requires item.matchId in t.matches && t.matches[item.matchId].encounter in t.encounters
    requires forall g :: item.decision.Create? && Target(t, item, g) <==> gone == Some(g)
    ensures NotDrifted(t, item) <==>
            || ReadFrom(item.snapshot, t, item.matchId)
            || (&& t.matches[item.matchId].mapIndex == Some(item.position)
                && ReadFrom(item.snapshot, Before(t, item, gone), item.matchId))
  {
    InspectionReads(item.snapshot, t, item.matchId);
    InspectionReads(item.snapshot, Before(t, item, gone), item.matchId);
    NormalisedIsBefore(t, item, gone);
  }

  lemma {:induction false} NormalisedIsBefore(t: Tables, item: Item, gone: Option<int>)
    requires item.matchId in t.matches && t.matches[item.matchId].encounter in t.encounters
    requires forall g :: item.decision.Create? && Target(t, item, g) <==> gone == Some(g)
    ensures Normalised(t, item) == Inspect(Before(t, item, gone), item.matchId)
  {
    var n, i := Normalised(t, item), Inspect(Before(t, item, gone), item.matchId);
    assert NoTarget(t, item) || item.decision.Existing? || Target(t, item, gone.value);
    assert n.history == i.history;
    if gone.Some? {
      assert Target(t, item, gone.value);
      assert n.games == i.games;
      assert n.results == i.results;
    }
  }

  /** The item's owner and teams are the match's. */
  ghost predicate OwnedBy(t: Tables, item: Item, a: int, b: int) {
    MatchRowsOk(t, item) && PlayedBy(t, item, a, b) && item.teams == {a, b}
  }

  lemma {:induction false} OwnerByRows(t: Tables, item: Item)
    requires Consistent(t)
    ensures OwnerOk(t, item) <==> exists a, b :: OwnedBy(t, item, a, b)
  {
    if MatchRowsOk(t, item) {
      TwoSides(t, item);
    }
    if OwnerOk(t, item) {
      TwoSides(t, item);
      var a, b :| PlayedBy(t, item, a, b) && item.teams == {a, b};
      assert OwnedBy(t, item, a, b);
    }
  }

  /** The target checks ask for a playable game. */
  lemma {:induction false} TargetByRows(t: Tables, item: Item, g: int, a: int, b: int)
    requires OwnedBy(t, item, a, b) && g in t.games && t.games[g].encounter == item.encounter
    ensures TargetOk(t, item, g) <==> Playable(t, item, g, a, b) && (item.decision.Create? ==> CreatedOk(t, item, g))
  {
    var sides := Sides(t, t.matches[item.matchId]);
    assert sides == {a, b} by {
      assert forall k :: k in sides <==> k == a || k == b;
    }
    var players := Participants(t, g);
    assert forall k :: k in players <==> (g, k) in t.results;
    assert players == {a, b} <==> (forall r :: r in t.results && r.0 == g ==> r.1 == a || r.1 == b)
                                  && (g, a) in t.results && (g, b) in t.results by {
      assert forall r: (int, int) :: r == (r.0, r.1);
    }
  }

  /** With a target there, the checks come down to it, its rivals and the drift. */
  lemma {:induction false} TargetDecides(t: Tables, item: Item, g: int)
    requires Consistent(t) && OwnerOk(t, item) && Target(t, item, g)
    ensures Applies(t, item) <==>
            TargetOk(t, item, g) && (forall other :: !Rival(t, item, Some(g), other)) && NotDrifted(t, item)
  {
    assert forall h :: Target(t, item, h) ==> h == g;
    if TargetOk(t, item, g) {
      PositionCheckIsRedundant(t, item);
      forall other ensures Conflicts(t, item, other) <==> Rival(t, item, Some(g), other) {
        RivalsOfTarget(t, item, g, other);
      }
    }
  }

  /**
   A repair towards an existing game goes through exactly when the item names the match's own encounter,
   map and teams, the game is playable, no other match is in its way, and the snapshot was read from these
   tables, or, the match being at the position already, from these with its reviewed position put back.
   Then the match is at the position, and nothing else changes.
   */
  lemma {:induction false} ExistingExactly(t: Tables, item: Item, created: int, rest: int, g: int)
    requires Consistent(t) && item.decision == Existing(g)
    ensures Applies(t, item) <==>
            exists a, b :: OwnedBy(t, item, a, b) && Playable(t, item, g, a, b) && ExistingReviewed(t, item, g)
    ensures Applies(t, item) ==>
              var m := t.matches[item.matchId];
              Applied(t, item, created, rest) ==
              t.(matches := t.matches[item.matchId := m.(mapIndex := Some(item.position))])
  {
    OwnerByRows(t, item);
    if a, b :| OwnedBy(t, item, a, b) {
      if g in t.games && t.games[g].encounter == item.encounter {
        assert Target(t, item, g);
        TargetByRows(t, item, g, a, b);
        TargetDecides(t, item, g);
        DriftByRows(t, item, None);
      } else {
        assert NoTarget(t, item);
      }
      SamePair(t, item, g, a, b);
    }
  }

  ghost predicate ExistingReviewed(t: Tables, item: Item, g: int)
    requires item.matchId in t.matches
  {
    && (forall other :: !Rival(t, item, Some(g), other))
    && (|| ReadFrom(item.snapshot, t, item.matchId)
        || (&& t.matches[item.matchId].mapIndex == Some(item.position)
            && ReadFrom(item.snapshot, Before(t, item, None), item.matchId)))
  }

  /** The two teams are determined, up to their order. */
  lemma {:induction false} SamePair(t: Tables, item: Item, g: int, a: int, b: int)
    requires OwnedBy(t, item, a, b)
    ensures forall c, d :: OwnedBy(t, item, c, d) ==> (Playable(t, item, g, c, d) <==> Playable(t, item, g, a, b))
  {
    forall c, d | OwnedBy(t, item, c, d)
      ensures {c, d} == {a, b}
    {
    }
  }

  /**
   A repair that creates its game, with none live at the position, goes through exactly when the item
   names the match's own encounter, map and teams, no other match is in its way, and the snapshot was
   read from these tables, or from them with the reviewed position put back. Then the match is at the
   position, and the one new game is planned on the item's map with a blank result for each team.
   */
  lemma {:induction false} CreateExactly(t: Tables, item: Item, created: int, rest: int)
    requires Consistent(t) && item.decision == Create && !LiveAt(t, item, Some(item.position)) && created !in t.games
    ensures Applies(t, item) <==> exists a, b :: OwnedBy(t, item, a, b) && CreationReviewed(t, item)
    ensures forall a, b :: Applies(t, item) && OwnedBy(t, item, a, b) ==>
              var m := t.matches[item.matchId];
              Applied(t, item, created, rest) ==
              t.(matches := t.matches[item.matchId := m.(mapIndex := Some(item.position))],
                 games := t.games[created := Game(item.encounter, item.position, Some(item.mapId), "planned", None, 0,
                                                  None, rest)],
                 results := t.results[(created, a) := GameTeam(None, None, map[], None, None)]
                                     [(created, b) := GameTeam(None, None, map[], None, None)])
  {
    OwnerByRows(t, item);
    NothingAtPosition(t, item);
    if OwnerOk(t, item) {
      forall other ensures Conflicts(t, item, other) <==> Rival(t, item, None, other) {
        RivalsOfCreation(t, item, other);
      }
      DriftByRows(t, item, None);
    }
    forall a, b | Applies(t, item) && OwnedBy(t, item, a, b)
      ensures t.results + BlankRows(created, Sides(t, t.matches[item.matchId])) ==
              t.results[(created, a) := GameTeam(None, None, map[], None, None)]
                       [(created, b) := GameTeam(None, None, map[], None, None)]
    {
      assert forall k :: k in Sides(t, t.matches[item.matchId]) <==> k == a || k == b;
      TwoBlankRows(t.results, created, Sides(t, t.matches[item.matchId]), a, b);
    }
  }

  lemma {:induction false} TwoBlankRows(results: map<(int, int), GameTeam>, created: int, sides: set<int>, a: int,
                                        b: int)
    requires forall k :: k in sides <==> k == a || k == b
    ensures results + BlankRows(created, sides) ==
            results[(created, a) := GameTeam(None, None, map[], None, None)]
                   [(created, b) := GameTeam(None, None, map[], None, None)]
  {
    BlankRowAt(created, sides, a);
    BlankRowAt(created, sides, b);
  }

  lemma {:induction false} NothingAtPosition(t: Tables, item: Item)
    ensures LiveAt(t, item, Some(item.position)) <==> exists g :: AtPosition(t, item, g)
  {
    if LiveAt(t, item, Some(item.position)) {
      var g :| g in t.games && t.games[g].encounter == item.encounter && t.games[g].state != "cancelled"
               && Some(t.games[g].position) == Some(item.position);
      assert AtPosition(t, item, g);
    }
    if g :| AtPosition(t, item, g) {
      assert g in t.games;
    }
  }

  ghost predicate CreationReviewed(t: Tables, item: Item)
    requires item.matchId in t.matches
  {
    && (forall other :: !Rival(t, item, None, other))
    && (|| ReadFrom(item.snapshot, t, item.matchId)
        || (&& t.matches[item.matchId].mapIndex == Some(item.position)
            && ReadFrom(item.snapshot, Before(t, item, None), item.matchId)))
  }

  /**
   With a game live at the position already, a repair that creates its game goes through exactly when
   that game is a planned one on the map, with blank results of the two teams, that was not reviewed,
   and the tables without it, and with the reviewed position put back, are what was reviewed; then
   nothing changes.
   */
  lemma {:induction false} CreateAgainExactly(t: Tables, item: Item, created: int, rest: int, g: int)
    requires Consistent(t) && item.decision == Create
    requires g in t.games && t.games[g].encounter == item.encounter && t.games[g].state != "cancelled"
    requires t.games[g].position == item.position
    ensures Applies(t, item) <==>
            exists a, b ::
              OwnedBy(t, item, a, b) && Playable(t, item, g, a, b) && IsBlank(t, g) && CreatedReviewed(t, item, g)
    ensures Applies(t, item) ==> Applied(t, item, created, rest) == t
  {
    OwnerByRows(t, item);
    AloneAtPosition(t, item, g);
    if a, b :| OwnedBy(t, item, a, b) {
      CreatedDecides(t, item, g, a, b);
      SamePair(t, item, g, a, b);
      if Applies(t, item) {
        AppliedAgain(t, item, created, rest);
      }
    }
  }

  lemma {:induction false} DriftOfCreated(t: Tables, item: Item, g: int)
    requires Consistent(t) && item.decision == Create && item.matchId in t.matches && Target(t, item, g)
    requires t.matches[item.matchId].encounter == item.encounter
    ensures g !in item.snapshot.games ==>
            (NotDrifted(t, item) <==>
             && t.matches[item.matchId].mapIndex == Some(item.position)
             && ReadFrom(item.snapshot, Before(t, item, Some(g)), item.matchId))
  {
    DriftByRows(t, item, Some(g));
    assert ReadFrom(item.snapshot, t, item.matchId) ==> g in item.snapshot.games;
  }

  lemma {:induction false} CreatedDecides(t: Tables, item: Item, g: int, a: int, b: int)
    requires Consistent(t) && item.decision == Create && Target(t, item, g) && OwnedBy(t, item, a, b)
    requires OwnerOk(t, item) && g in t.games && t.games[g].encounter == item.encounter
    ensures Applies(t, item) <==>
            Playable(t, item, g, a, b) && IsBlank(t, g) && CreatedReviewed(t, item, g)
  {
    TargetByRows(t, item, g, a, b);
    TargetDecides(t, item, g);
    DriftOfCreated(t, item, g);
  }

  lemma {:induction false} AloneAtPosition(t: Tables, item: Item, g: int)
    requires UniqueLivePositions(t) && item.decision == Create && AtPosition(t, item, g)
    ensures forall h :: AtPosition(t, item, h) || Target(t, item, h) ==> h == g
    ensures Target(t, item, g)
  {
    forall h | AtPosition(t, item, h) ensures h == g {
      assert Live(t, item.encounter, h) && Live(t, item.encounter, g);
    }
  }

  /** The game is planned, without a result of its own or of its teams. */
  predicate IsBlank(t: Tables, g: int)
    requires g in t.games
  {
    && t.games[g].state == "planned" && t.games[g].resultVersion == 0
    && t.games[g].resultSource == None && t.games[g].confirmedAt == None
    && forall r :: r in t.results && r.0 == g ==> t.results[r] == GameTeam(None, None, map[], None, None)
  }

  ghost predicate CreatedReviewed(t: Tables, item: Item, g: int)
    requires item.matchId in t.matches
  {
    && g !in item.snapshot.games && (forall other :: !Rival(t, item, Some(g), other))
    && t.matches[item.matchId].mapIndex == Some(item.position)
    && ReadFrom(item.snapshot, Before(t, item, Some(g)), item.matchId)
  }

  // ---- the repair on the stored tables ----

  lemma {:induction false} BlankRowAt(created: int, sides: set<int>, side: int)
    requires side in sides
    ensures (created, side) in BlankRows(created, sides)
  {
  }

  lemma {:induction false} SameRows(rows: map<(int, int), GameTeam>, created: int, sides: set<int>)
    requires forall x :: x in rows <==> x.0 == created && x.1 in sides
    requires forall x :: x in rows ==> BlankResult(rows[x])
    ensures rows == BlankRows(created, sides)
  {
    forall x: (int, int) | x in rows ensures x in BlankRows(created, sides) {
      BlankRowAt(created, sides, x.1);
      assert x == (created, x.1);
    }
  }

  class Store {
    const encounters: map<int, Encounter>
    const teams: map<int, Team>
    const maps: map<int, string>
    var games: map<int, Game>
    var matches: map<int, Match>
    var results: map<(int, int), GameTeam>

    constructor (t: Tables)
      ensures View() == t
    {
      encounters, teams, maps, games, matches, results := t.encounters, t.teams, t.maps, t.games, t.matches, t.results;
    }

    function View(): Tables
      reads this
    {
      Tables(encounters, games, matches, teams, results, maps)
    }

    /** One reviewed repair; a refusal leaves the tables as they were. */
    method ApplyGame(item: Item, created: int, rest: int) returns (ok: bool)
      requires Consistent(View()) && created !in games
      modifies this
      ensures ok <==> Applies(old(View()), item)
      ensures View() == if ok then Applied(old(View()), item, created, rest) else old(View())
    {
      var t := View();
      var target;
      ok, target := Review(t, item);
      if !ok {
        return;
      }
      var m := t.matches[item.matchId];
      if target.None? {
        games := games[created := CreatedGame(item, rest)];
        InsertTeams(created, Sides(t, m));
      }
      matches := matches[item.matchId := m.(mapIndex := Some(item.position))];
    }

    /** The blank result rows of a created game. */
    method InsertTeams(created: int, sides: set<int>)
      modifies this`results
      ensures results == old(results) + BlankRows(created, sides)
    {
      var rows: map<(int, int), GameTeam> := map[];
      var todo := sides;
      while todo != {}
        invariant results == old(results)
        invariant forall x :: x in rows <==> x.0 == created && x.1 in sides && x.1 !in todo
        invariant forall x :: x in rows ==> BlankResult(rows[x])
        decreases todo
      {
        ghost var some := Member(todo);
        var k :| k in todo;
        rows := rows[(created, k) := GameTeam(None, None, map[], None, None)];
        todo := todo - {k};
      }
      SameRows(rows, created, sides);
      results := results + rows;
    }
  }

  /** The live games a match resolves to, in two stages. */
  method Resolve(t: Tables, mid: int) returns (explicit: set<int>, fallback: set<int>, claim: Option<int>)
    requires mid in t.matches && UniqueLivePositions(t)
    ensures explicit == set g | g in t.games && Explicit(t, t.matches[mid], g)
    ensures fallback == set g | g in t.games && SameMap(t, t.matches[mid], g)
    ensures claim.Some? ==> Claims(t, mid, claim.value)
    ensures forall g :: Claims(t, mid, g) ==> claim == Some(g)
  {
    var m := t.matches[mid];
    explicit := set g | g in t.games && Explicit(t, m, g);
    fallback := set g | g in t.games && SameMap(t, m, g);
    assert forall g :: Explicit(t, m, g) <==> g in explicit;
    assert forall g :: SameMap(t, m, g) <==> g in fallback;
    forall g | Claims(t, mid, g) && explicit == {} ensures fallback == {g} {
      assert SameMap(t, m, g);
    }
    claim := None;
    if explicit != {} {
      var g :| g in explicit;
      assert Explicit(t, m, g);
      claim := Some(g);
    } else if |fallback| == 1 {
      var g :| g in fallback;
      assert |fallback - {g}| == 0;
      assert fallback == {g};
      assert SameMap(t, m, g);
      assert forall h :: !Explicit(t, m, h);
      claim := Some(g);
    }
  }

  /** The game the item aims at. */
  method FindTarget(t: Tables, item: Item) returns (target: Option<int>)
    requires UniqueLivePositions(t)
    ensures forall g :: Target(t, item, g) <==> target == Some(g)
  {
    match item.decision
    case Existing(game) =>
      target := if game in t.games && t.games[game].encounter == item.encounter then Some(game) else None;
    case Create =>
      var live := set g | g in t.games && AtPosition(t, item, g);
      target := None;
      if live != {} {
        var g :| g in live;
        assert forall h :: AtPosition(t, item, h) ==> Live(t, item.encounter, h) && h == g;
        target := Some(g);
      }
      assert forall g :: AtPosition(t, item, g) ==> g in live;
  }

  /** Every check of the repair, in the order of the source; on success also the target. */
  method Review(t: Tables, item: Item) returns (ok: bool, target: Option<int>)
    requires Consistent(t)
    ensures ok <==> Applies(t, item)
    ensures ok ==> (target.None? <==> NoTarget(t, item))
  {
    target := None;
    if !OwnerOk(t, item) {
      return false, None;
    }
    target := FindTarget(t, item);
    var live := set g | g in t.games && AtPosition(t, item, g);
    assert forall g :: AtPosition(t, item, g) <==> g in live;
    if target.Some? {
      assert Target(t, item, target.value);
      if !TargetOk(t, item, target.value) {
        return false, target;
      }
    } else if item.decision.Existing? {
      assert NoTarget(t, item);
      return false, target;
    }
    if exists g :: g in live && target != Some(g) {
      return false, target;
    }
    var conflict := AnyConflict(t, item, target);
    if conflict {
      return false, target;
    }
    var normalised := Normalise(t, item, target);
    var current := Inspect(t, item.matchId);
    ok := current == item.snapshot
          || (current.matchRow.mapIndex == Some(item.position) && normalised == item.snapshot);
  }

  /** The loop over every other match of the encounter. */
  method AnyConflict(t: Tables, item: Item, target: Option<int>) returns (conflict: bool)
    requires item.matchId in t.matches && UniqueLivePositions(t)
    requires forall g :: Target(t, item, g) <==> target == Some(g)
    ensures conflict <==> exists other :: Conflicts(t, item, other)
  {
    var todo := set h | h in t.matches && t.matches[h].encounter == item.encounter && h != item.matchId;
    assert forall h :: Conflicts(t, item, h) ==> h in todo;
    if target.Some? { assert Target(t, item, target.value); }
    while todo != {}
      invariant forall h :: Conflicts(t, item, h) ==> h in todo
      invariant forall h :: h in todo ==>
        h in t.matches && t.matches[h].encounter == item.encounter && h != item.matchId
      decreases todo
    {
      var other :| other in todo;
      var o := t.matches[other];
      var explicit, fallback, claim := Resolve(t, other);
      if h :| h in explicit { assert Explicit(t, o, h); }
      if h :| h in fallback { assert SameMap(t, o, h); }
      assert forall h :: Explicit(t, o, h) ==> h in explicit;
      assert forall h :: SameMap(t, o, h) ==> h in fallback;
      if (target.Some? && claim == target) || o.mapIndex == Some(item.position)
         || (target.None? && explicit == {} && fallback == {} && o.mapId == Some(item.mapId)) {
        assert target.Some? && claim == target ==> Target(t, item, target.value) && Claims(t, other, target.value);
        assert Conflicts(t, item, other);
        return true;
      }
      assert !Conflicts(t, item, other);
      todo := todo - {other};
    }
    conflict := false;
  }

  method Normalise(t: Tables, item: Item, target: Option<int>) returns (s: Snapshot)
    requires item.matchId in t.matches && t.matches[item.matchId].encounter in t.encounters
    requires forall g :: Target(t, item, g) <==> target == Some(g)
    ensures s == Normalised(t, item)
  {
    s := Inspect(t, item.matchId);
    var was := item.snapshot.matchRow.mapIndex;
    s := s.(matchRow := s.matchRow.(mapIndex := was), history := Undone(s, item.matchId, was));
    if target.Some? { assert Target(t, item, target.value); }
    if item.decision.Create? && target.Some? {
      var g := target.value;
      s := s.(games := s.games - {g}, results := map r | r in s.results && r.0 != g :: s.results[r]);
    }
  }
}
