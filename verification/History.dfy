/**
 An honest course of a database after its capture: whatever changes is evidenced by an audit row with
 the states before and after. The check of such a course goes through, and reports exactly its changes.
 */
module History {
  import opened Wrappers
  import opened Ordering
  import opened AuditChain
  import opened OwnerJoin
  import opened CheckReceipt
  import Framing

  type Header = (Owner, string) -> Framing.Bytes

  /** The captured database and what each later audit row made of it; `past` are the rows before the capture. */
  datatype Course = Course(dbs: seq<Database>, past: seq<AuditRow>, later: seq<AuditRow>)

  // ---- one audit row ----

  predicate Named(row: AuditRow, owner: Owner) {
    exists i :: 0 <= i < |row.after| && row.after[i].owner == owner
  }

  /** The owner comes or goes, or the rows of the partition differ. */
  predicate Altered(d: Database, d': Database, owner: Owner, subset: string) {
    (owner in d) != (owner in d') || RowsIn(d, owner, subset) != RowsIn(d', owner, subset)
  }

  /** The states list each of the owner's partitions, as the database has it. */
  ghost predicate Lists(states: seq<State>, d: Database, header: Header, owner: Owner, subsets: seq<string>)
    requires Encodable(d, header)
  {
    && (forall i :: 0 <= i < |states| && states[i].owner == owner ==>
          states[i].subset in subsets && states[i].evidence == EvidenceOf(d, header, owner, states[i].subset))
    && (forall s :: s in subsets ==> exists i :: Carries(states, owner, i, s))
  }

  /** The row lists an owner it names before and after its step. */
  ghost predicate Witnesses(row: AuditRow, d: Database, d': Database, header: Header, registry: Registry, owner: Owner)
    requires Encodable(d, header) && Encodable(d', header)
  {
    && owner.kind in registry.partitions && (owner in d || owner in d')
    && Lists(row.before, d, header, owner, registry.partitions[owner.kind])
    && Lists(row.after, d', header, owner, registry.partitions[owner.kind])
    && (row.operation == MERGE ==> owner.kind in registry.mergeScopes)
  }

  /** Every owner the step changes is named, but for the materialised view, which follows from the others. */
  ghost predicate Evidences(row: AuditRow, d: Database, d': Database, header: Header, registry: Registry) {
    && Encodable(d, header) && Encodable(d', header) && row.payloadOk
    && (forall owner: Owner :: Named(row, owner) ==> Witnesses(row, d, d', header, registry, owner))
    && (forall owner: Owner, s: string :: owner.kind != MV && Altered(d, d', owner, s) ==> Named(row, owner))
  }

  ghost predicate StepAt(c: Course, header: Header, registry: Registry, i: nat)
    requires i < |c.later| && |c.dbs| == |c.later| + 1
  {
    Evidences(c.later[i], c.dbs[i], c.dbs[i + 1], header, registry)
  }

  // ---- the whole course ----

  /** The log is the past rows and, in id order, the later ones; the course ends in the current database. */
  ghost predicate Honest(c: Course, env: Env) {
    && |c.dbs| == |c.later| + 1 && c.dbs[|c.later|] == env.database && env.log == c.past + c.later
    && (forall i :: 0 <= i < |c.past| ==> c.past[i].id <= env.highwater)
    && (forall i :: 0 <= i < |c.later| ==> c.later[i].id > env.highwater)
    && Rising(c.later) && Encodable(c.dbs[0], env.header)
    && forall i: nat {:trigger StepAt(c, env.header, env.registry, i)} :: i < |c.later| ==>
         StepAt(c, env.header, env.registry, i)
  }

  /** The step changes the partition, or is a merge that may re-map identities in it. */
  predicate ChangeAt(c: Course, registry: Registry, owner: Owner, subset: string, i: nat)
    requires i < |c.later| && |c.dbs| == |c.later| + 1
  {
    && Named(c.later[i], owner)
    && (|| Altered(c.dbs[i], c.dbs[i + 1], owner, subset)
        || (c.later[i].operation == "stats.member_merge" && owner.kind in registry.mergeScopes
            && subset in registry.mergeScopes[owner.kind]))
  }

  /** The ids of the first `k` steps that change the partition, in order. */
  ghost function ChangeIds(c: Course, registry: Registry, owner: Owner, subset: string, k: nat): seq<int>
    requires k <= |c.later| && |c.dbs| == |c.later| + 1
  {
    if k == 0 then []
    else
      ChangeIds(c, registry, owner, subset, k - 1)
      + if ChangeAt(c, registry, owner, subset, k - 1) then [c.later[k - 1].id] else []
  }

  /** The step changes some partition of the owner. */
  ghost predicate Changes(c: Course, registry: Registry, owner: Owner, i: nat)
    requires i < |c.later| && |c.dbs| == |c.later| + 1
  {
    && owner.kind in registry.partitions
    && exists s :: s in registry.partitions[owner.kind] && ChangeAt(c, registry, owner, s, i)
  }

  ghost function ChangeOperations(c: Course, registry: Registry, owner: Owner, k: nat): set<string>
    requires k <= |c.later| && |c.dbs| == |c.later| + 1
  {
    set i: nat | i < k && Changes(c, registry, owner, i) :: c.later[i].operation
  }

  // ---- the views of a course ----

  /** Every partition of the owner, as the database has it. */
  ghost function Full(d: Database, header: Header, owner: Owner, subsets: seq<string>): View
    requires Encodable(d, header)
  {
    map s | s in subsets :: EvidenceOf(d, header, owner, s)
  }

  lemma {:induction false} LastCarrier(states: seq<State>, owner: Owner, subset: string, i: nat) returns (j: nat)
    requires Carries(states, owner, i, subset)
    ensures Carries(states, owner, j, subset) && forall k :: j < k ==> !Carries(states, owner, k, subset)
    decreases |states| - i
  {
    if k :| i < k && Carries(states, owner, k, subset) {
      j := LastCarrier(states, owner, subset, k);
    } else {
      j := i;
    }
  }

  lemma {:induction false} ListedIsFull(states: seq<State>, d: Database, header: Header, owner: Owner,
                                        subsets: seq<string>)
    requires Encodable(d, header) && Lists(states, d, header, owner, subsets)
    ensures ViewOf(states, owner) == Full(d, header, owner, subsets)
  {
    var view, full := ViewOf(states, owner), Full(d, header, owner, subsets);
    forall s
      ensures s in view <==> s in full
      ensures s in view ==> view[s] == full[s]
    {
      if i :| Carries(states, owner, i, s) {
        var j := LastCarrier(states, owner, s, i);
        LastStateIsHeld(states, owner, s, j);
      } else {
        UnlistedIsNotHeld(states, owner, s);
      }
    }
  }

  /** Evidence differs exactly where the database does. */
  lemma {:induction false} EvidenceShows(d: Database, d': Database, header: Header, owner: Owner, subset: string)
    requires Encodable(d, header) && Encodable(d', header)
    ensures EvidenceOf(d, header, owner, subset) != EvidenceOf(d', header, owner, subset) <==>
            Altered(d, d', owner, subset)
  {
    if EvidenceOf(d, header, owner, subset) == EvidenceOf(d', header, owner, subset) {
      Framing.DigestBindsRows(header(owner, subset), RowsIn(d, owner, subset),
                              header(owner, subset), RowsIn(d', owner, subset));
    }
  }

  lemma {:induction false} DatabasesEncodable(c: Course, env: Env, i: nat)
    requires Honest(c, env) && i <= |c.later|
    ensures Encodable(c.dbs[i], env.header)
  {
    if i > 0 {
      assert StepAt(c, env.header, env.registry, i - 1);
    }
  }

  // ---- one owner's chain ----

  ghost function Links(c: Course, owner: Owner, highwater: int, k: nat): seq<AuditRow>
    requires k <= |c.later|
  {
    RowsFor(c.later[..k], owner, highwater)
  }

  lemma {:induction false} NextLink(c: Course, owner: Owner, highwater: int, k: nat)
    requires k < |c.later| && c.later[k].id > highwater
    ensures Links(c, owner, highwater, k + 1) ==
            Links(c, owner, highwater, k) + if Named(c.later[k], owner) then [c.later[k]] else []
  {
    assert c.later[..k + 1] == c.later[..k] + [c.later[k]];
    RowsForAppend(c.later[..k], [c.later[k]], owner, highwater);
    assert [c.later[k]][1..] == [];
  }

  /** What one step of the course is to the chain of an owner. */
  lemma {:induction false} StepLinks(c: Course, env: Env, owner: Owner, subsets: seq<string>, k: nat)
    requires Honest(c, env) && k < |c.later| && Encodable(c.dbs[k], env.header) && Encodable(c.dbs[k + 1], env.header)
    requires owner.kind in env.registry.partitions && subsets == env.registry.partitions[owner.kind] && owner.kind != MV
    ensures var last, row := Full(c.dbs[k], env.header, owner, subsets), c.later[k];
            if Named(row, owner) then
              && LinkOk(last, row, owner, Names(subsets), env.registry)
              && After(row, owner) == Full(c.dbs[k + 1], env.header, owner, subsets)
              && forall s :: Touches(last, row, owner, s, env.registry) <==>
                   s in subsets && ChangeAt(c, env.registry, owner, s, k)
            else
              && Full(c.dbs[k + 1], env.header, owner, subsets) == last
              && forall s :: !ChangeAt(c, env.registry, owner, s, k)
  {
    assert StepAt(c, env.header, env.registry, k);
    forall s
      ensures EvidenceOf(c.dbs[k], env.header, owner, s) != EvidenceOf(c.dbs[k + 1], env.header, owner, s) <==>
              Altered(c.dbs[k], c.dbs[k + 1], owner, s)
    {
      EvidenceShows(c.dbs[k], c.dbs[k + 1], env.header, owner, s);
    }
    if Named(c.later[k], owner) {
      assert Witnesses(c.later[k], c.dbs[k], c.dbs[k + 1], env.header, env.registry, owner);
      ListedIsFull(c.later[k].before, c.dbs[k], env.header, owner, subsets);
      ListedIsFull(c.later[k].after, c.dbs[k + 1], env.header, owner, subsets);
    }
  }

  /** A chain and one more link. */
  lemma {:induction false} Extended(start: View, rows: seq<AuditRow>, row: AuditRow, owner: Owner, keys: set<string>,
                                    registry: Registry)
    ensures var last := End(start, rows, owner);
            && (Linked(start, rows + [row], owner, keys, registry) <==>
                  Linked(start, rows, owner, keys, registry) && LinkOk(last, row, owner, keys, registry))
            && End(start, rows + [row], owner) == After(row, owner)
            && (forall s :: TouchingIds(start, rows + [row], owner, s, registry) ==
                  TouchingIds(start, rows, owner, s, registry)
                  + if Touches(last, row, owner, s, registry) then [row.id] else [])
            && TouchingOperations(start, rows + [row], owner, registry) ==
               TouchingOperations(start, rows, owner, registry)
               + if TouchesSome(last, row, owner, registry) then {row.operation} else {}
  {
    assert (rows + [row])[..|rows|] == rows;
  }

  /** A linked chain of an owner: where it ends, which links touch which partition, and by what operations. */
  ghost predicate Follows(start: View, rows: seq<AuditRow>, owner: Owner, subsets: seq<string>, registry: Registry,
                          last: View, ids: string -> seq<int>, operations: set<string>)
  {
    && Linked(start, rows, owner, Names(subsets), registry) && End(start, rows, owner) == last
    && (forall s :: s in subsets ==> TouchingIds(start, rows, owner, s, registry) == ids(s))
    && TouchingOperations(start, rows, owner, registry) == operations
  }

  lemma {:induction false} OneMoreFollows(start: View, rows: seq<AuditRow>, row: AuditRow, owner: Owner,
                                          subsets: seq<string>, registry: Registry, last: View,
                                          ids: string -> seq<int>, operations: set<string>, ids': string -> seq<int>,
                                          changed: string -> bool)
    requires Follows(start, rows, owner, subsets, registry, last, ids, operations)
    requires LinkOk(last, row, owner, Names(subsets), registry)
    requires forall s :: s in subsets ==> (Touches(last, row, owner, s, registry) <==> changed(s))
    requires forall s :: s in subsets ==> ids'(s) == ids(s) + if changed(s) then [row.id] else []
    ensures Follows(start, rows + [row], owner, subsets, registry, After(row, owner), ids',
              operations + if TouchesSome(last, row, owner, registry) then {row.operation} else {})
  {
    Extended(start, rows, row, owner, Names(subsets), registry);
  }

  ghost function IdsUpTo(c: Course, registry: Registry, owner: Owner, k: nat): string -> seq<int>
    requires k <= |c.later| && |c.dbs| == |c.later| + 1
  {
    s => ChangeIds(c, registry, owner, s, k)
  }

  /** The audit rows of an owner link up from the captured to the current database, change by change. */
  lemma {:induction false} ChainFollows(c: Course, env: Env, owner: Owner, subsets: seq<string>, k: nat)
    requires Honest(c, env) && k <= |c.later| && Encodable(c.dbs[k], env.header)
    requires owner.kind in env.registry.partitions && subsets == env.registry.partitions[owner.kind] && owner.kind != MV
    ensures Follows(Full(c.dbs[0], env.header, owner, subsets), Links(c, owner, env.highwater, k), owner, subsets,
                    env.registry, Full(c.dbs[k], env.header, owner, subsets), IdsUpTo(c, env.registry, owner, k),
                    ChangeOperations(c, env.registry, owner, k))
  {
    var start := Full(c.dbs[0], env.header, owner, subsets);
    if k == 0 {
      assert Links(c, owner, env.highwater, 0) == [];
    } else {
      DatabasesEncodable(c, env, k - 1);
      ChainFollows(c, env, owner, subsets, k - 1);
      NextLink(c, owner, env.highwater, k - 1);
      StepLinks(c, env, owner, subsets, k - 1);
      NextOperation(c, env.registry, owner, k - 1);
      var rows, row := Links(c, owner, env.highwater, k - 1), c.later[k - 1];
      if Named(row, owner) {
        OneMoreFollows(start, rows, row, owner, subsets, env.registry, Full(c.dbs[k - 1], env.header, owner, subsets),
                       IdsUpTo(c, env.registry, owner, k - 1), ChangeOperations(c, env.registry, owner, k - 1),
                       IdsUpTo(c, env.registry, owner, k), s => ChangeAt(c, env.registry, owner, s, k - 1));
        SomeChange(c, env, owner, subsets, k - 1);
      } else {
        assert rows + [] == rows;
      }
    }
  }

  lemma {:induction false} NextOperation(c: Course, registry: Registry, owner: Owner, k: nat)
    requires k < |c.later| && |c.dbs| == |c.later| + 1
    ensures ChangeOperations(c, registry, owner, k + 1) ==
            ChangeOperations(c, registry, owner, k)
            + if Changes(c, registry, owner, k) then {c.later[k].operation} else {}
  {
  }

  lemma {:induction false} SomeChange(c: Course, env: Env, owner: Owner, subsets: seq<string>, k: nat)
    requires Honest(c, env) && k < |c.later| && Encodable(c.dbs[k], env.header) && Encodable(c.dbs[k + 1], env.header)
    requires owner.kind in env.registry.partitions && subsets == env.registry.partitions[owner.kind] && owner.kind != MV
    requires Named(c.later[k], owner)
    ensures TouchesSome(Full(c.dbs[k], env.header, owner, subsets), c.later[k], owner, env.registry) <==>
            Changes(c, env.registry, owner, k)
  {
    StepLinks(c, env, owner, subsets, k);
    var last, row := Full(c.dbs[k], env.header, owner, subsets), c.later[k];
    if TouchesSome(last, row, owner, env.registry) {
      var s :| s in After(row, owner) && Touches(last, row, owner, s, env.registry);
      assert ChangeAt(c, env.registry, owner, s, k);
    }
    if Changes(c, env.registry, owner, k) {
      var s :| s in subsets && ChangeAt(c, env.registry, owner, s, k);
      assert Touches(last, row, owner, s, env.registry);
    }
  }

  // ---- one owner of the check ----

  /** The receipt rows of an owner of the captured database. */
  ghost function CapturedStates(d: Database, env: Env, authority: Owner -> Option<string>, owner: Owner)
    : Option<seq<SavedState>>
    requires Encodable(d, env.header)
  {
    if owner in d && owner.kind in env.registry.partitions then
      var states := StatesIn(d, env.header, owner, env.registry.partitions[owner.kind]);
      Some(seq(|states|, i requires 0 <= i < |states| =>
        SavedState(states[i], true, authority(owner), true,
                   if owner.kind in {"mv", "member"} then
                     Some(Framing.DigestOf(env.header(owner, states[i].subset), RowsIn(d, owner, states[i].subset)))
                   else None)))
    else None
  }

  /** What a check reads for an owner after the capture: what was recorded, or nothing. */
  ghost predicate CapturedEntry(c: Course, env: Env, authority: Owner -> Option<string>, entry: Entry)
    requires c.dbs != [] && Encodable(c.dbs[0], env.header)
  {
    && entry.owner.kind in env.registry.partitions && Present(c, env, entry.owner)
    && entry.states == CapturedStates(c.dbs[0], env, authority, entry.owner)
  }

  /** The owner is in the receipt or named by the check. */
  predicate Present(c: Course, env: Env, owner: Owner)
    requires c.dbs != []
  {
    owner in c.dbs[0] || owner in env.owners
  }

  lemma {:induction false} RecordedLists(d: Database, header: Header, owner: Owner, subsets: seq<string>,
                                         rows: seq<SavedState>)
    requires Encodable(d, header) && StatesOf(rows) == StatesIn(d, header, owner, subsets)
    ensures Lists(StatesOf(rows), d, header, owner, subsets)
  {
    var states, scopes := StatesOf(rows), Sorted(subsets);
    SortedKeepsNames(subsets);
    SameMembers(scopes, subsets);
    forall i | 0 <= i < |states|
      ensures states[i].subset in subsets && states[i].evidence == EvidenceOf(d, header, owner, states[i].subset)
    {
      assert scopes[i] in scopes;
    }
    forall s | s in subsets
      ensures exists i :: Carries(states, owner, i, s)
    {
      assert s in scopes;
      var i :| 0 <= i < |scopes| && scopes[i] == s;
      assert Carries(states, owner, i, s);
    }
  }

  lemma {:induction false} CapturedAreListed(c: Course, env: Env, authority: Owner -> Option<string>, entry: Entry)
    requires Readable(env) && c.dbs != [] && Encodable(c.dbs[0], env.header) && CapturedEntry(c, env, authority, entry)
    requires entry.owner in c.dbs[0]
    ensures entry.states.Some? && entry.states.value != []
    ensures StatesOf(entry.states.value) == StatesIn(c.dbs[0], env.header, entry.owner, Subsets(env, entry))
  {
    ScopesAreSubsets(env, entry);
    var states := StatesIn(c.dbs[0], env.header, entry.owner, Subsets(env, entry));
    assert |states| == |Subsets(env, entry)|;
    assert StatesOf(entry.states.value) == states;
  }

  lemma {:induction false} AbsentIsEmpty(d: Database, env: Env, owner: Owner, subsets: seq<string>)
    requires Readable(env) && Encodable(d, env.header) && owner !in d
    requires forall s :: s in subsets ==> Framing.Framable([env.header(owner, s)])
    ensures EmptyStart(subsets, Empties(env.header, owner, subsets)) == Full(d, env.header, owner, subsets)
  {
    assert forall s :: s in subsets ==> RowsIn(d, owner, s) == [];
    assert forall s :: [env.header(owner, s)] + [] == [env.header(owner, s)];
  }

  lemma {:induction false} StartsFull(c: Course, env: Env, authority: Owner -> Option<string>, entry: Entry)
    requires Readable(env) && c.dbs != [] && Encodable(c.dbs[0], env.header) && CapturedEntry(c, env, authority, entry)
    ensures StartOf(env, entry) == Full(c.dbs[0], env.header, entry.owner, Subsets(env, entry))
  {
    var owner, subsets := entry.owner, Subsets(env, entry);
    if owner in c.dbs[0] {
      CapturedAreListed(c, env, authority, entry);
      RecordedLists(c.dbs[0], env.header, owner, subsets, entry.states.value);
      ListedIsFull(StatesOf(entry.states.value), c.dbs[0], env.header, owner, subsets);
    } else {
      HeadersFramable(env, owner, subsets);
      AbsentIsEmpty(c.dbs[0], env, owner, subsets);
    }
  }

  /** The rows replayed for an owner are those of the course. */
  lemma {:induction false} AllLinks(c: Course, env: Env, entry: Entry)
    requires Honest(c, env)
    ensures LinksOf(env, entry) == Links(c, entry.owner, env.highwater, |c.later|)
  {
    RowsForAppend(c.past, c.later, entry.owner, env.highwater);
    NoLaterLinks(c.past, entry.owner, env.highwater);
    assert c.later[..|c.later|] == c.later;
    assert [] + RowsFor(c.later, entry.owner, env.highwater) == RowsFor(c.later, entry.owner, env.highwater);
  }

  lemma {:induction false} LandsOnCurrent(env: Env, entry: Entry)
    requires Readable(env) && entry.owner.kind in env.registry.partitions
    ensures Lands(Full(env.database, env.header, entry.owner, Subsets(env, entry)), NativeOf(env, entry))
  {
    var native, scopes := NativeOf(env, entry), Sorted(Subsets(env, entry));
    ScopesAreSubsets(env, entry);
    forall i | 0 <= i < |native|
      ensures native[i].subset in Subsets(env, entry)
    {
      assert scopes[i] in scopes;
    }
  }

  /** The replay of a captured owner finds a linked chain, with exactly the changes of the course. */
  lemma {:induction false} EntryFollows(c: Course, env: Env, authority: Owner -> Option<string>, entry: Entry)
    requires Readable(env) && Honest(c, env) && CapturedEntry(c, env, authority, entry) && entry.owner.kind != MV
    ensures Accepts(StartOf(env, entry), LinksOf(env, entry), NativeOf(env, entry), entry.owner,
                    Names(Subsets(env, entry)), env.registry)
    ensures forall s :: s in Subsets(env, entry) ==>
      LinksTouching(env, entry, s) == ChangeIds(c, env.registry, entry.owner, s, |c.later|)
    ensures OperationsOf(env, entry) == ChangeOperations(c, env.registry, entry.owner, |c.later|)
  {
    var owner, subsets := entry.owner, Subsets(env, entry);
    StartsFull(c, env, authority, entry);
    ChainFollows(c, env, owner, subsets, |c.later|);
    AllLinks(c, env, entry);
    LandsOnCurrent(env, entry);
  }

  // ---- when an owner changed ----

  lemma {:induction false} ChangeIdsNonEmpty(c: Course, registry: Registry, owner: Owner, subset: string, k: nat)
    requires k <= |c.later| && |c.dbs| == |c.later| + 1
    ensures ChangeIds(c, registry, owner, subset, k) != [] <==>
            exists i: nat :: i < k && ChangeAt(c, registry, owner, subset, i)
  {
    if k > 0 {
      ChangeIdsNonEmpty(c, registry, owner, subset, k - 1);
    }
  }

  /** An owner that was not captured and is there, or named, later has a change that brings it about. */
  lemma {:induction false} NewOwnerChanges(c: Course, env: Env, owner: Owner, subset: string, k: nat) returns (i: nat)
    requires Honest(c, env) && owner.kind != MV && owner !in c.dbs[0] && k <= |c.later| && owner in c.dbs[k]
    ensures i < k && ChangeAt(c, env.registry, owner, subset, i)
  {
    if owner in c.dbs[k - 1] {
      i := NewOwnerChanges(c, env, owner, subset, k - 1);
    } else {
      i := k - 1;
      assert StepAt(c, env.header, env.registry, i);
      assert Altered(c.dbs[i], c.dbs[i + 1], owner, subset);
    }
  }

  ghost predicate NamedLater(c: Course, owner: Owner) {
    exists i :: 0 <= i < |c.later| && Named(c.later[i], owner)
  }

  lemma {:induction false} NewOwnerIsEvidenced(c: Course, env: Env, owner: Owner, subset: string) returns (i: nat)
    requires Honest(c, env) && owner.kind != MV && owner !in c.dbs[0]
    requires owner in env.database || NamedLater(c, owner)
    ensures i < |c.later| && ChangeAt(c, env.registry, owner, subset, i)
  {
    if owner in env.database {
      i := NewOwnerChanges(c, env, owner, subset, |c.later|);
    } else {
      var j :| 0 <= j < |c.later| && Named(c.later[j], owner);
      assert StepAt(c, env.header, env.registry, j);
      assert Witnesses(c.later[j], c.dbs[j], c.dbs[j + 1], env.header, env.registry, owner);
      if owner in c.dbs[j] {
        i := NewOwnerChanges(c, env, owner, subset, j);
      } else {
        i := NewOwnerChanges(c, env, owner, subset, j + 1);
      }
    }
  }

  // ---- the whole check ----

  /** Checked and dressed rows of one owner are the captured ones. */
  lemma {:induction false} RecordedIsCaptured(d: Database, env: Env, authority: Owner -> Option<string>, group: Group)
    requires Encodable(d, env.header)
    requires Recorded(d, env.header, env.registry, authority, group.owner, group.rows)
    requires OwnRows(group) && GroupComplete(group.rows, env.registry)
    ensures CapturedStates(d, env, authority, group.owner) == Some(group.rows)
  {
    var rows, states := group.rows, StatesOf(group.rows);
    forall i | 0 <= i < |rows|
      ensures rows[i] == CapturedStates(d, env, authority, group.owner).value[i]
    {
      assert states[i] == rows[i].state && Dressed(Parsed(rows[i]), authority) && RowOk(rows[i]);
      if group.owner.kind in NAMED_KINDS {
        RecordedViewCompares(d, env.header, env.registry, authority, group.owner, rows, i);
      }
    }
    assert rows == CapturedStates(d, env, authority, group.owner).value;
  }

  lemma {:induction false} GroupIsCaptured(c: Course, env: Env, authority: Owner -> Option<string>, lines: seq<Line>,
                                           captured: seq<Group>, read: seq<Group>, g: nat)
    requires ValidReceipt(lines, env.registry) && forall j :: 0 <= j < |lines| ==> Dressed(lines[j], authority)
    requires Partitions(captured, RowsOf(lines), env.registry) && Partitions(read, RowsOf(lines), env.registry)
    requires c.dbs != [] && Records(captured, c.dbs[0], env.header, env.registry) && g < |read|
    ensures read[g].owner in c.dbs[0]
    ensures CapturedStates(c.dbs[0], env, authority, read[g].owner) == Some(read[g].rows)
  {
    GroupIsRecorded(c.dbs[0], authority, env.header, env.registry, lines, captured, read, g);
    RecordedIsCaptured(c.dbs[0], env, authority, read[g]);
  }

  /** What the check reads for each owner of a capture: its recorded states, or none. */
  lemma {:induction false} EntryIsCaptured(c: Course, env: Env, authority: Owner -> Option<string>, lines: seq<Line>,
                                           captured: seq<Group>, read: seq<Group>, joined: seq<Entry>, k: nat)
    requires ValidReceipt(lines, env.registry) && forall j :: 0 <= j < |lines| ==> Dressed(lines[j], authority)
    requires Partitions(captured, RowsOf(lines), env.registry) && Partitions(read, RowsOf(lines), env.registry)
    requires c.dbs != [] && Records(captured, c.dbs[0], env.header, env.registry)
    requires OuterJoin(FromGroups(read), FromOwners(env.owners), joined) && k < |joined|
    requires joined[k].owner.kind in env.registry.partitions
    ensures CapturedEntry(c, env, authority, joined[k])
  {
    var entry := joined[k];
    if entry.owner in c.dbs[0] {
      var g := RecordedOwner(lines, captured, read, c.dbs[0], env.header, env.registry, entry.owner);
      LookupSelf(FromGroups(read), g);
      GroupIsCaptured(c, env, authority, lines, captured, read, g);
    } else {
      if entry.states.Some? {
        var g := LookupGroup(read, entry.owner);
        GroupIsCaptured(c, env, authority, lines, captured, read, g);
      }
      JoinedIsNamed(c, env, authority, lines, captured, read, joined, k);
    }
  }

  lemma {:induction false} JoinedIsNamed(c: Course, env: Env, authority: Owner -> Option<string>, lines: seq<Line>,
                                         captured: seq<Group>, read: seq<Group>, joined: seq<Entry>, k: nat)
    requires ValidReceipt(lines, env.registry) && forall j :: 0 <= j < |lines| ==> Dressed(lines[j], authority)
    requires Partitions(captured, RowsOf(lines), env.registry) && Partitions(read, RowsOf(lines), env.registry)
    requires c.dbs != [] && Records(captured, c.dbs[0], env.header, env.registry)
    requires OuterJoin(FromGroups(read), FromOwners(env.owners), joined) && k < |joined|
    ensures Present(c, env, joined[k].owner)
  {
    var owner := joined[k].owner;
    assert owner in OwnersOf(joined);
    if owner in OwnersOf(FromGroups(read)) {
      var g :| 0 <= g < |read| && FromGroups(read)[g].owner == owner;
      GroupIsCaptured(c, env, authority, lines, captured, read, g);
    } else {
      var n :| 0 <= n < |env.owners| && FromOwners(env.owners)[n].owner == owner;
    }
  }

  // ---- what the comparisons say ----

  /** Some step changes a partition of an owner outside the materialised view. */
  ghost predicate SomethingChanged(c: Course, registry: Registry)
    requires |c.dbs| == |c.later| + 1
  {
    exists owner: Owner, i: nat :: owner.kind != MV && i < |c.later| && Changes(c, registry, owner, i)
  }

  /** The comparison with the legacy tables refuses an owner, given the operations that changed it. */
  ghost predicate LegacyRefuses(c: Course, env: Env, authority: Owner -> Option<string>, owner: Owner)
    requires |c.dbs| == |c.later| + 1 && Encodable(c.dbs[0], env.header)
  {
    && owner.kind != MV && Present(c, env, owner)
    && !env.legacyHolds(owner, CapturedStates(c.dbs[0], env, authority, owner),
                        ChangeOperations(c, env.registry, owner, |c.later|))
  }

  /** A match owner of the discipline changed, and its legacy rows did not drift. */
  ghost predicate MatchChanged(c: Course, env: Env, authority: Owner -> Option<string>, owner: Owner,
                               discipline: string)
    requires |c.dbs| == |c.later| + 1 && Encodable(c.dbs[0], env.header)
  {
    && owner.kind == "match" && Present(c, env, owner) && !LegacyRefuses(c, env, authority, owner)
    && (if owner in c.dbs[0] then authority(owner) else env.authority(owner)) == Some(discipline)
    && exists i: nat :: i < |c.later| && Changes(c, env.registry, owner, i)
  }

  ghost function ViewOutcome(c: Course, env: Env, authority: Owner -> Option<string>, owner: Owner): MvOutcome
    requires c.dbs != [] && Encodable(c.dbs[0], env.header)
  {
    env.mv(owner, CapturedStates(c.dbs[0], env, authority, owner))
  }

  /** A view owner cannot be read, or differs although no match of its discipline changed. */
  ghost predicate ViewRefuses(c: Course, env: Env, authority: Owner -> Option<string>, owner: Owner)
    requires |c.dbs| == |c.later| + 1 && Encodable(c.dbs[0], env.header)
  {
    && owner.kind == MV && Present(c, env, owner)
    && match ViewOutcome(c, env, authority, owner)
       case Same => false
       case Different => !exists o :: MatchChanged(c, env, authority, o, env.mvDiscipline(owner))
       case InvalidMetadata => true
       case MissingValues => false
  }

  ghost predicate ViewMoved(c: Course, env: Env, authority: Owner -> Option<string>)
    requires c.dbs != [] && Encodable(c.dbs[0], env.header)
  {
    exists o: Owner :: o.kind == MV && Present(c, env, o) && ViewOutcome(c, env, authority, o) == Different
  }

  ghost predicate Refused(c: Course, env: Env, authority: Owner -> Option<string>)
    requires |c.dbs| == |c.later| + 1 && Encodable(c.dbs[0], env.header)
  {
    || !env.mvFresh
    || (exists o :: LegacyRefuses(c, env, authority, o))
    || (exists o :: ViewRefuses(c, env, authority, o))
  }

  /** The check names every owner of the current database and every owner a later row names. */
  ghost predicate NamesOwners(c: Course, env: Env) {
    forall o :: o in env.owners <==> o in env.database || NamedLater(c, o)
  }

  // ---- the whole check ----

  /** A captured owner holds exactly where the legacy comparison accepts it, and shows exactly its changes. */
  lemma {:induction false} CapturedOwnerHolds(c: Course, env: Env, authority: Owner -> Option<string>, entry: Entry)
    requires Readable(env) && Honest(c, env) && NamesOwners(c, env)
    requires CapturedEntry(c, env, authority, entry) && entry.owner.kind != MV
    ensures OwnerHolds(env, entry) <==> !LegacyRefuses(c, env, authority, entry.owner)
    ensures forall s :: s in Subsets(env, entry) ==>
      (LinksTouching(env, entry, s) != [] <==>
         exists i: nat :: i < |c.later| && ChangeAt(c, env.registry, entry.owner, s, i))
  {
    var owner, subsets := entry.owner, Subsets(env, entry);
    EntryFollows(c, env, authority, entry);
    forall s | s in subsets
      ensures LinksTouching(env, entry, s) != [] <==>
              exists i: nat :: i < |c.later| && ChangeAt(c, env.registry, owner, s, i)
    {
      ChangeIdsNonEmpty(c, env.registry, owner, s, |c.later|);
    }
    if entry.states.None? {
      var i := NewOwnerIsEvidenced(c, env, owner, subsets[0]);
      assert LinksTouching(env, entry, subsets[0]) != [];
    }
  }

  /** The owners of a captured course, as a check joins them. */
  ghost predicate Joined(c: Course, env: Env, authority: Owner -> Option<string>, entries: seq<Entry>)
    requires c.dbs != [] && Encodable(c.dbs[0], env.header)
  {
    && (forall k :: 0 <= k < |entries| ==>
          entries[k].owner.kind in env.registry.partitions && CapturedEntry(c, env, authority, entries[k]))
    && forall owner :: Present(c, env, owner) ==> exists k :: 0 <= k < |entries| && entries[k].owner == owner
  }

  lemma {:induction false} OwnerRowAt(env: Env, entry: Entry, i: nat)
    requires Readable(env) && entry.owner.kind in env.registry.partitions && OwnerHolds(env, entry)
    requires i < |OwnerRows(env, entry)|
    ensures i < |Sorted(Subsets(env, entry))|
    ensures var row, s := OwnerRows(env, entry)[i], Sorted(Subsets(env, entry))[i];
            && s in Subsets(env, entry) && row in OwnerRows(env, entry)
            && row.status == if LinksTouching(env, entry, s) != [] then Changed else Unchanged
  {
    ScopesAreSubsets(env, entry);
    assert Sorted(Subsets(env, entry))[i] in Sorted(Subsets(env, entry));
  }

  lemma {:induction false} OwnerRowsShow(env: Env, entry: Entry)
    requires Readable(env) && entry.owner.kind in env.registry.partitions && OwnerHolds(env, entry)
    ensures forall row :: row in OwnerRows(env, entry) ==> row.status != Blocking
    ensures (exists row :: row in OwnerRows(env, entry) && row.status == Changed) <==>
            exists s :: s in Subsets(env, entry) && LinksTouching(env, entry, s) != []
  {
    var rows, scopes := OwnerRows(env, entry), Sorted(Subsets(env, entry));
    forall i | 0 <= i < |rows|
      ensures rows[i].status != Blocking && scopes[i] in Subsets(env, entry) && rows[i] in rows
      ensures rows[i].status == Changed <==> LinksTouching(env, entry, scopes[i]) != []
    {
      OwnerRowAt(env, entry, i);
    }
    if s :| s in Subsets(env, entry) && LinksTouching(env, entry, s) != [] {
      ScopesAreSubsets(env, entry);
      var i :| 0 <= i < |scopes| && scopes[i] == s;
      assert rows[i].status == Changed;
    }
  }

  /** A row of the first pass blocks only for a refused owner, and reports only a change. */
  lemma {:induction false} RowShows(c: Course, env: Env, authority: Owner -> Option<string>, entries: seq<Entry>,
                                    row: Row)
    requires Readable(env) && Honest(c, env) && NamesOwners(c, env) && Joined(c, env, authority, entries)
    requires row in ExpectedRows(env, entries)
    ensures row.status == Blocking ==> exists o :: LegacyRefuses(c, env, authority, o)
    ensures row.status == Changed ==> SomethingChanged(c, env.registry)
  {
    var k := ExpectedRowOwner(env, entries, row);
    CapturedOwnerHolds(c, env, authority, entries[k]);
    if OwnerHolds(env, entries[k]) {
      OwnerRowsShow(env, entries[k]);
      if row.status == Changed {
        var s :| s in Subsets(env, entries[k]) && LinksTouching(env, entries[k], s) != [];
        var j: nat :| j < |c.later| && ChangeAt(c, env.registry, entries[k].owner, s, j);
        assert Changes(c, env.registry, entries[k].owner, j);
      }
    }
  }

  lemma {:induction false} HasRow(rows: seq<Row>, row: Row)
    requires row in rows
    ensures Has(rows, row.status)
  {
    var n :| 0 <= n < |rows| && rows[n] == row;
  }

  lemma {:induction false} ChangedOwnerShows(c: Course, env: Env, authority: Owner -> Option<string>,
                                             entries: seq<Entry>, owner: Owner, i: nat)
    requires Readable(env) && Honest(c, env) && NamesOwners(c, env) && Joined(c, env, authority, entries)
    requires owner.kind != MV && i < |c.later| && Changes(c, env.registry, owner, i)
    ensures LegacyRefuses(c, env, authority, owner) || Has(ExpectedRows(env, entries), Changed)
  {
    assert NamedLater(c, owner) && Present(c, env, owner);
    var k :| 0 <= k < |entries| && entries[k].owner == owner;
    CapturedOwnerHolds(c, env, authority, entries[k]);
    if OwnerHolds(env, entries[k]) {
      OwnerRowsShow(env, entries[k]);
      var s :| s in Subsets(env, entries[k]) && ChangeAt(c, env.registry, owner, s, i);
      assert LinksTouching(env, entries[k], s) != [];
      var row :| row in OwnerRows(env, entries[k]) && row.status == Changed;
      RowsAreExpected(env, entries, k, row);
      HasRow(ExpectedRows(env, entries), row);
    }
  }

  lemma {:induction false} RefusedOwnerShows(c: Course, env: Env, authority: Owner -> Option<string>,
                                             entries: seq<Entry>, owner: Owner)
    requires Readable(env) && Honest(c, env) && NamesOwners(c, env) && Joined(c, env, authority, entries)
    requires LegacyRefuses(c, env, authority, owner)
    ensures Has(ExpectedRows(env, entries), Blocking)
  {
    var k :| 0 <= k < |entries| && entries[k].owner == owner;
    CapturedOwnerHolds(c, env, authority, entries[k]);
    FailingOwnerBlocks(env, entries[k]);
    RowsAreExpected(env, entries, k, Row(Some(owner), None, Blocking));
    HasRow(ExpectedRows(env, entries), Row(Some(owner), None, Blocking));
  }

  /**
   The first pass blocks exactly on a refused owner, and otherwise has a changed row exactly where there is
   a change.
   */
  lemma {:induction false} ChangesShow(c: Course, env: Env, authority: Owner -> Option<string>, entries: seq<Entry>)
    requires Readable(env) && Honest(c, env) && NamesOwners(c, env) && Joined(c, env, authority, entries)
    ensures var rows := ExpectedRows(env, entries);
            && (Has(rows, Blocking) <==> exists o :: LegacyRefuses(c, env, authority, o))
            && (!Has(rows, Blocking) ==> (Has(rows, Changed) <==> SomethingChanged(c, env.registry)))
  {
    var rows := ExpectedRows(env, entries);
    forall i | 0 <= i < |rows|
      ensures rows[i].status == Blocking ==> exists o :: LegacyRefuses(c, env, authority, o)
      ensures rows[i].status == Changed ==> SomethingChanged(c, env.registry)
    {
      RowShows(c, env, authority, entries, rows[i]);
    }
    if o :| LegacyRefuses(c, env, authority, o) {
      RefusedOwnerShows(c, env, authority, entries, o);
    } else if owner: Owner, i: nat :| owner.kind != MV && i < |c.later| && Changes(c, env.registry, owner, i) {
      ChangedOwnerShows(c, env, authority, entries, owner, i);
    }
  }

  /** An entry is evidence for a discipline. */
  ghost predicate IsEvidence(env: Env, entry: Entry, discipline: string)
    requires Readable(env) && entry.owner.kind in env.registry.partitions
  {
    && entry.owner.kind == "match" && DisciplineOf(env, entry) == Some(discipline)
    && OwnerHolds(env, entry) && OperationsOf(env, entry) != {}
  }

  lemma {:induction false} EvidencedHas(env: Env, entries: seq<Entry>, discipline: string, k: nat)
    requires Readable(env) && forall i :: 0 <= i < |entries| ==> entries[i].owner.kind in env.registry.partitions
    requires k < |entries| && IsEvidence(env, entries[k], discipline)
    ensures Evidenced(env, entries, discipline)
  {
    if k < |entries| - 1 {
      EvidencedHas(env, entries[..|entries| - 1], discipline, k);
    }
  }

  lemma {:induction false} EvidencedBy(env: Env, entries: seq<Entry>, discipline: string) returns (k: nat)
    requires Readable(env) && forall i :: 0 <= i < |entries| ==> entries[i].owner.kind in env.registry.partitions
    requires Evidenced(env, entries, discipline)
    ensures k < |entries| && IsEvidence(env, entries[k], discipline)
  {
    var n := |entries| - 1;
    if IsEvidence(env, entries[n], discipline) {
      k := n;
    } else {
      k := EvidencedBy(env, entries[..n], discipline);
    }
  }

  lemma {:induction false} DisciplineIsCaptured(c: Course, env: Env, authority: Owner -> Option<string>, entry: Entry)
    requires Readable(env) && c.dbs != [] && Encodable(c.dbs[0], env.header) && CapturedEntry(c, env, authority, entry)
    ensures DisciplineOf(env, entry) ==
            if entry.owner in c.dbs[0] then authority(entry.owner) else env.authority(entry.owner)
  {
    if entry.owner in c.dbs[0] {
      CapturedAreListed(c, env, authority, entry);
    }
  }

  lemma {:induction false} EntryIsEvidence(c: Course, env: Env, authority: Owner -> Option<string>, entry: Entry,
                                           discipline: string)
    requires Readable(env) && Honest(c, env) && NamesOwners(c, env) && CapturedEntry(c, env, authority, entry)
    ensures IsEvidence(env, entry, discipline) <==> MatchChanged(c, env, authority, entry.owner, discipline)
  {
    if entry.owner.kind == "match" {
      CapturedOwnerHolds(c, env, authority, entry);
      EntryFollows(c, env, authority, entry);
      DisciplineIsCaptured(c, env, authority, entry);
      var operations := ChangeOperations(c, env.registry, entry.owner, |c.later|);
      if i: nat :| i < |c.later| && Changes(c, env.registry, entry.owner, i) {
        assert c.later[i].operation in operations;
      }
      if operations != {} {
        var operation := Member(operations);
      }
    }
  }

  /** The evidenced disciplines are those with a changed match. */
  lemma {:induction false} DisciplinesShow(c: Course, env: Env, authority: Owner -> Option<string>, entries: seq<Entry>,
                                          discipline: string)
    requires Readable(env) && Honest(c, env) && NamesOwners(c, env) && Joined(c, env, authority, entries)
    ensures Evidenced(env, entries, discipline) <==> exists o :: MatchChanged(c, env, authority, o, discipline)
  {
    if o :| MatchChanged(c, env, authority, o, discipline) {
      var k :| 0 <= k < |entries| && entries[k].owner == o;
      EntryIsEvidence(c, env, authority, entries[k], discipline);
      EvidencedHas(env, entries, discipline, k);
    }
    if Evidenced(env, entries, discipline) {
      var k := EvidencedBy(env, entries, discipline);
      EntryIsEvidence(c, env, authority, entries[k], discipline);
    }
  }

  /** A view owner stops the second pass exactly where its comparison refuses. */
  lemma {:induction false} ViewStops(c: Course, env: Env, authority: Owner -> Option<string>, entries: seq<Entry>,
                                     disciplines: set<string>, entry: Entry)
    requires Readable(env) && Honest(c, env) && NamesOwners(c, env) && Joined(c, env, authority, entries)
    requires forall d :: d in disciplines <==> Evidenced(env, entries, d)
    requires CapturedEntry(c, env, authority, entry) && entry.owner.kind == MV
    requires ViewOutcome(c, env, authority, entry.owner) != MissingValues
    ensures MvStops(env, entry, disciplines) <==> ViewRefuses(c, env, authority, entry.owner)
  {
    DisciplinesShow(c, env, authority, entries, env.mvDiscipline(entry.owner));
  }

  /**
   The second pass blocks exactly on a refused view owner, and otherwise has a changed row exactly for a
   moved one.
   */
  lemma {:induction false} MovesShow(c: Course, env: Env, authority: Owner -> Option<string>, entries: seq<Entry>,
                                     disciplines: set<string>)
    requires Readable(env) && Honest(c, env) && NamesOwners(c, env) && Joined(c, env, authority, entries)
    requires env.mvFresh && forall d :: d in disciplines <==> Evidenced(env, entries, d)
    requires forall o: Owner :: o.kind == MV && Present(c, env, o) ==>
      ViewOutcome(c, env, authority, o) != MissingValues
    ensures MvRowsFrom(env, entries, disciplines).Success?
    ensures var rows := MvRowsFrom(env, entries, disciplines).value;
            && (Has(rows, Blocking) <==> exists o :: ViewRefuses(c, env, authority, o))
            && (!Has(rows, Blocking) ==> (Has(rows, Changed) <==> ViewMoved(c, env, authority)))
  {
    forall k | 0 <= k < |entries| && entries[k].owner.kind == MV
      ensures env.mv(entries[k].owner, entries[k].states) == ViewOutcome(c, env, authority, entries[k].owner)
      ensures MvStops(env, entries[k], disciplines) <==> ViewRefuses(c, env, authority, entries[k].owner)
    {
      ViewStops(c, env, authority, entries, disciplines, entries[k]);
    }
    ComparedViewPasses(env, entries, disciplines);
    MvRowsMean(env, entries, disciplines);
    if o :| ViewRefuses(c, env, authority, o) {
      var k :| 0 <= k < |entries| && entries[k].owner == o;
    }
    if o: Owner :| o.kind == MV && Present(c, env, o) && ViewOutcome(c, env, authority, o) == Different {
      var k :| 0 <= k < |entries| && entries[k].owner == o;
    }
  }

  /**
   End to end: a database is captured, and then changes, each change of an owner evidenced by an audit row.
   The check of its receipt exits with 1 exactly if the view is stale or a comparison refuses some owner; else
   with 2 exactly if some step changed a partition, or the view moved with it; else with 0.
   */
  method CaptureThenAudit(c: Course, owners: seq<Owner>, authority: Owner -> Option<string>, env: Env)
    returns (result: Result<Verdict>)
    requires Readable(env) && Honest(c, env) && NamesOwners(c, env)
    requires Strict(FromOwners(owners)) && forall o :: o in owners <==> o in c.dbs[0]
    requires forall o :: o in owners || o in env.owners ==> o.kind in env.registry.partitions
    requires forall o: Owner :: o.kind == MV && Present(c, env, o) ==>
      ViewOutcome(c, env, authority, o) != MissingValues
    ensures result.Success? <==> env.precheckPasses
    ensures result.Success? ==>
      result.value.exitCode == if Refused(c, env, authority) then 1
                               else if SomethingChanged(c, env.registry) || ViewMoved(c, env, authority) then 2
                               else 0
  {
    var lines, captured := CaptureOwners(c.dbs[0], env.header, owners, authority, env.registry);
    var verdict, rows, joined, read, disciplines := CheckReceipt.CheckReceipt(env, lines);
    result := verdict;
    forall o | o in env.owners ensures o.kind in env.registry.partitions {
    }
    if env.precheckPasses {
      JoinedByCheck(c, env, authority, lines, captured, read, joined);
      PassesShow(c, env, authority, joined, disciplines);
    }
  }

  /** What both passes together show. */
  lemma {:induction false} PassesShow(c: Course, env: Env, authority: Owner -> Option<string>, entries: seq<Entry>,
                                      disciplines: set<string>)
    requires Readable(env) && Honest(c, env) && NamesOwners(c, env) && Joined(c, env, authority, entries)
    requires forall d :: d in disciplines <==> Evidenced(env, entries, d)
    requires forall o: Owner :: o.kind == MV && Present(c, env, o) ==>
      ViewOutcome(c, env, authority, o) != MissingValues
    ensures MvRows(env, entries, disciplines).Success?
    ensures var rows := ExpectedRows(env, entries) + MvRows(env, entries, disciplines).value;
            && (Has(rows, Blocking) <==> Refused(c, env, authority))
            && (!Has(rows, Blocking) ==>
                  (Has(rows, Changed) <==> SomethingChanged(c, env.registry) || ViewMoved(c, env, authority)))
  {
    ChangesShow(c, env, authority, entries);
    if env.mvFresh {
      MovesShow(c, env, authority, entries, disciplines);
    } else {
      assert MvRows(env, entries, disciplines).value[0].status == Blocking;
    }
    var mv := MvRows(env, entries, disciplines).value;
    HasConcat(ExpectedRows(env, entries), mv, Blocking);
    HasConcat(ExpectedRows(env, entries), mv, Changed);
  }

  lemma {:induction false} JoinedByCheck(c: Course, env: Env, authority: Owner -> Option<string>, lines: seq<Line>,
                                         captured: seq<Group>, read: seq<Group>, joined: seq<Entry>)
    requires ValidReceipt(lines, env.registry) && forall j :: 0 <= j < |lines| ==> Dressed(lines[j], authority)
    requires Partitions(captured, RowsOf(lines), env.registry) && Partitions(read, RowsOf(lines), env.registry)
    requires c.dbs != [] && Records(captured, c.dbs[0], env.header, env.registry)
    requires OuterJoin(FromGroups(read), FromOwners(env.owners), joined)
    requires forall i :: 0 <= i < |joined| ==> joined[i].owner.kind in env.registry.partitions
    ensures Joined(c, env, authority, joined)
  {
    forall k | 0 <= k < |joined|
      ensures CapturedEntry(c, env, authority, joined[k])
    {
      EntryIsCaptured(c, env, authority, lines, captured, read, joined, k);
    }
    forall owner | Present(c, env, owner)
      ensures exists k :: 0 <= k < |joined| && joined[k].owner == owner
    {
      if owner in c.dbs[0] {
        var g := RecordedOwner(lines, captured, read, c.dbs[0], env.header, env.registry, owner);
        assert FromGroups(read)[g].owner in OwnersOf(joined);
      } else {
        var n :| 0 <= n < |env.owners| && env.owners[n] == owner;
        assert FromOwners(env.owners)[n].owner in OwnersOf(joined);
      }
    }
  }
}
