/**
 The reviewed repair of a workspace membership: an existing member is only confirmed, a missing one is
 inserted as removed at the moment it is created.

 The rows of the player, the workspace, the log observations and the social accounts are read, never
 written: each is one opaque value per key. Times are numbers.
 */
module MemberRepair {
  import opened Wrappers

  datatype Member = Member(workspace: int, player: int, displayName: Option<string>, removedAt: Option<int>,
                           createdAt: int, updatedAt: Option<int>)

  datatype Tables = Tables(players: map<int, int>, workspaces: set<int>, members: map<int, Member>,
                           sources: map<(int, int), set<int>>, identities: map<int, set<int>>)

  datatype Snapshot = Snapshot(player: int, members: map<int, Member>, sources: set<int>, identities: set<int>)

  /** `Confirm` names the member that is expected; `Create` approves an insertion. */
  datatype Decision = Confirm(member: int) | Create

  datatype Item = Item(player: int, workspace: int, sources: set<int>, decision: Decision, snapshot: Snapshot)

  function Members(t: Tables, item: Item): map<int, Member> {
    map m | m in t.members && t.members[m].workspace == item.workspace && t.members[m].player == item.player
      :: t.members[m]
  }

  /** `None` where the player or the workspace is missing. */
  function Inspect(t: Tables, item: Item): Option<Snapshot> {
    if item.player !in t.players || item.workspace !in t.workspaces then None
    else
      Some(Snapshot(t.players[item.player], Members(t, item),
                    if (item.player, item.workspace) in t.sources then t.sources[(item.player, item.workspace)] else {},
                    if item.player in t.identities then t.identities[item.player] else {}))
  }

  /** A member found for a creation item can only be the one an earlier application inserted. */
  predicate Inserted(m: Member) {
    m.removedAt == Some(m.createdAt) && m.displayName.None? && m.updatedAt.None?
  }

  /** The current state with this item's own insertion taken back; `None` where that is refused. */
  function Normalised(item: Item, current: Snapshot): Option<Snapshot> {
    if item.decision.Confirm? || current.members == map[] then Some(current)
    else if |current.members| != 1 || !(forall m :: m in current.members ==> Inserted(current.members[m]))
            || item.snapshot.members != map[] then None
    else Some(current.(members := map[]))
  }

  predicate Reviewed(item: Item, current: Snapshot) {
    && current.sources != {} && item.sources == current.sources
    && Normalised(item, current).Some?
    && (current == item.snapshot || Normalised(item, current).value == item.snapshot)
  }

  /** One application at a moment: `None` where it is refused, which writes nothing. */
  function Apply(t: Tables, item: Item, created: int, now: int): Option<Tables> {
    var current := Inspect(t, item);
    if current.None? || !Reviewed(item, current.value) then None
    else
      match item.decision
      case Confirm(member) => if current.value.members.Keys == {member} then Some(t) else None
      case Create =>
        if current.value.members != map[] then Some(t)
        else Some(t.(members := t.members[created := Member(item.workspace, item.player, None, Some(now), now, None)]))
  }

  class Database {
    const players: map<int, int>
    const workspaces: set<int>
    var members: map<int, Member>
    const sources: map<(int, int), set<int>>
    const identities: map<int, set<int>>

    function Contents(): Tables
      reads this
    {
      Tables(players, workspaces, members, sources, identities)
    }

    method ApplyMember(item: Item, created: int, now: int) returns (ok: bool)
      modifies this`members
      ensures ok <==> Apply(old(Contents()), item, created, now).Some?
      ensures Contents() == if ok then Apply(old(Contents()), item, created, now).value else old(Contents())
    {
      var current := Inspect(Contents(), item);
      if current.None? || !Reviewed(item, current.value) {
        return false;
      }
      ok := true;
      match item.decision {
        case Confirm(member) =>
          ok := current.value.members.Keys == {member};
        case Create =>
          if current.value.members == map[] {
            members := members[created := Member(item.workspace, item.player, None, Some(now), now, None)];
          }
      }
    }
  }

  lemma {:induction false} InsertedMembers(t: Tables, item: Item, created: int, now: int)
    requires Members(t, item) == map[]
    ensures var row := Member(item.workspace, item.player, None, Some(now), now, None);
            Members(t.(members := t.members[created := row]), item) == map[created := row]
  {
    var row := Member(item.workspace, item.player, None, Some(now), now, None);
    var members := Members(t.(members := t.members[created := row]), item);
    assert created in members;
    forall m | m in members ensures m == created {
      assert m !in Members(t, item);
    }
  }

  lemma {:induction false} InsertionTakenBack(item: Item, before: Snapshot, after: Snapshot, created: int, row: Member)
    requires item.decision.Create? && before.members == map[] && Reviewed(item, before) && Inserted(row)
    requires after == before.(members := map[created := row])
    ensures Reviewed(item, after)
  {
    assert after.(members := map[]) == before;
  }

  /** Applying the same reviewed item again, at any later moment, goes through and changes nothing. */
  lemma {:induction false} MemberRepairIsResumable(t: Tables, item: Item, created: int, now: int, created': int,
                                                   now': int)
    requires Apply(t, item, created, now).Some?
    ensures var t' := Apply(t, item, created, now).value;
            Apply(t', item, created', now') == Some(t')
  {
    var current := Inspect(t, item).value;
    if item.decision.Create? && current.members == map[] {
      InsertedMembers(t, item, created, now);
      var t' := Apply(t, item, created, now).value;
      var after := Inspect(t', item).value;
      InsertionTakenBack(item, current, after, created,
        Member(item.workspace, item.player, None, Some(now), now, None));
      assert created in after.members;
    } else {
      assert Apply(t, item, created, now) == Some(t);
    }
  }

  /** A member row that grants access now. */
  predicate Active(m: Member) {
    m.removedAt.None?
  }

  ghost function ActiveMembers(t: Tables): map<int, Member> {
    map m | m in t.members && Active(t.members[m]) :: t.members[m]
  }

  /** No application grants access: the active members are the same before and after, and no old row changes. */
  lemma {:induction false} NoAccessGranted(t: Tables, item: Item, created: int, now: int)
    requires created !in t.members && Apply(t, item, created, now).Some?
    ensures var t' := Apply(t, item, created, now).value;
            && ActiveMembers(t') == ActiveMembers(t)
            && (forall m :: m in t.members ==> m in t'.members && t'.members[m] == t.members[m])
            && t'.(members := t.members) == t
            && (item.decision.Confirm? ==> t' == t)
  {
    var t' := Apply(t, item, created, now).value;
    assert ActiveMembers(t').Keys == ActiveMembers(t).Keys;
  }

  /** Row `m` is the player's in the workspace. */
  predicate IsMember(t: Tables, item: Item, m: int) {
    m in t.members && t.members[m].workspace == item.workspace && t.members[m].player == item.player
  }

  /** The item was made from these tables, where the player's members in the workspace were `members`. */
  predicate MadeFrom(item: Item, t: Tables, members: map<int, Member>) {
    && item.player in t.players && item.workspace in t.workspaces
    && (item.player, item.workspace) in t.sources
    && item.sources != {} && item.sources == t.sources[(item.player, item.workspace)]
    && item.snapshot == Snapshot(t.players[item.player], members, item.sources,
                                 if item.player in t.identities then t.identities[item.player] else {})
  }

  /**
   A creation goes through exactly on the tables it was reviewed on, without a member of the player:
   then it inserts one row, removed at the moment it is created; or where the one member is such a row
   and all else is as reviewed: then it changes nothing.
   */
  lemma {:induction false} CreateExactly(t: Tables, item: Item, created: int, now: int)
    requires item.decision.Create?
    ensures (forall m :: !IsMember(t, item, m)) ==>
      Apply(t, item, created, now) ==
      if MadeFrom(item, t, map[])
      then Some(t.(members := t.members[created := Member(item.workspace, item.player, None, Some(now), now, None)]))
      else None
    ensures forall m :: IsMember(t, item, m) ==>
      Apply(t, item, created, now) ==
      if && MadeFrom(item, t, map[]) && (forall n :: IsMember(t, item, n) ==> n == m)
         && t.members[m].removedAt == Some(t.members[m].createdAt)
         && t.members[m].displayName.None? && t.members[m].updatedAt.None?
      then Some(t) else None
  {
    var members := Members(t, item);
    assert forall m :: IsMember(t, item, m) <==> m in members;
    forall m | IsMember(t, item, m)
      ensures (forall n :: IsMember(t, item, n) ==> n == m) <==> |members| == 1
    {
      OneMember(members, m);
    }
    if forall m :: !IsMember(t, item, m) {
      assert forall m :: m !in members;
      assert members == map[];
    }
  }

  lemma {:induction false} OneMember(members: map<int, Member>, m: int)
    requires m in members
    ensures |members| == 1 <==> forall n :: n in members ==> n == m
  {
    assert members.Keys == {m} + (members.Keys - {m});
    assert |members| == |members.Keys| == 1 + |members.Keys - {m}|;
    if |members| == 1 {
      assert members.Keys - {m} == {};
      assert forall n :: n in members.Keys ==> n !in members.Keys - {m};
    } else {
      var n := Wrappers.Member(members.Keys - {m});
      assert n in members && n != m;
    }
  }

  /** A confirmation goes through exactly on the reviewed tables where the named member is the only one. */
  lemma {:induction false} ConfirmExactly(t: Tables, item: Item, created: int, now: int)
    requires item.decision.Confirm?
    ensures Apply(t, item, created, now) ==
            var m := item.decision.member;
            if && m in t.members && (forall n :: IsMember(t, item, n) <==> n == m)
               && MadeFrom(item, t, map[m := t.members[m]])
            then Some(t) else None
  {
    var members, m := Members(t, item), item.decision.member;
    assert forall n :: IsMember(t, item, n) <==> n in members.Keys;
    if forall n :: IsMember(t, item, n) <==> n == m {
      assert forall n :: n in members.Keys <==> n == m;
      assert members.Keys == {m};
    }
    if members.Keys == {m} {
      assert members == map[m := t.members[m]];
    }
  }
}
