/**
 Replaying one owner's before/after audit links from the receipt state to the current rows.

 The tables PARTITIONS and OPERATIONS["stats.member_merge"] are the parameters of `Registry`;
 whether a link's payload validates on its own is the field `payloadOk` of the link.
 */
module AuditChain {
  import opened Wrappers
  import Framing

  datatype Owner = Owner(kind: string, key: string)

  /** The three fields that state equality compares. */
  datatype Evidence = Evidence(ownerExists: bool, digest: Framing.Digest)

  datatype State = State(owner: Owner, subset: string, evidence: Evidence, identity: Option<Framing.Bytes>)

  datatype AuditRow = AuditRow(id: int, payloadOk: bool, operation: string, before: seq<State>, after: seq<State>)

  datatype Registry = Registry(partitions: map<string, seq<string>>, mergeScopes: map<string, set<string>>)

  datatype Status = Status(subset: string, changed: bool, auditIds: seq<int>)

  datatype Report = Report(statuses: seq<Status>, operations: set<string>)

  /** One owner's partitions, each with its evidence; a later entry of a list replaces an earlier one. */
  type View = map<string, Evidence>

  const MERGE := "stats.member_merge"

  function ViewOf(states: seq<State>, owner: Owner): View {
    if states == [] then map[]
    else
      var rest := ViewOf(states[..|states| - 1], owner);
      var last := states[|states| - 1];
      if last.owner == owner then rest[last.subset := last.evidence] else rest
  }

  /** The rows of the audit query for one owner, in id order. */
  function RowsFor(log: seq<AuditRow>, owner: Owner, highwater: int): seq<AuditRow> {
    if log == [] then []
    else
      var rest := RowsFor(log[1..], owner, highwater);
      if log[0].id > highwater && exists i :: 0 <= i < |log[0].after| && log[0].after[i].owner == owner
      then [log[0]] + rest else rest
  }

  // ---- what an accepted chain is ----

  function Before(row: AuditRow, owner: Owner): View { ViewOf(row.before, owner) }

  function After(row: AuditRow, owner: Owner): View { ViewOf(row.after, owner) }

  /** The state a chain ends in: the last link's after, or the start when there is no link. */
  function End(start: View, rows: seq<AuditRow>, owner: Owner): View {
    if rows == [] then start else After(rows[|rows| - 1], owner)
  }

  /** Reading a state's scope refuses a partition that the registry does not list for the kind. */
  predicate LinkOk(last: View, row: AuditRow, owner: Owner, subsets: set<string>, registry: Registry) {
    && row.payloadOk
    && Before(row, owner) == last
    && After(row, owner).Keys <= last.Keys
    && After(row, owner).Keys <= subsets
    && (row.operation == MERGE && After(row, owner).Keys != {} ==> owner.kind in registry.mergeScopes)
  }

  predicate Linked(start: View, rows: seq<AuditRow>, owner: Owner, subsets: set<string>, registry: Registry) {
    rows == [] ||
    var n := |rows| - 1;
    && Linked(start, rows[..n], owner, subsets, registry)
    && LinkOk(End(start, rows[..n], owner), rows[n], owner, subsets, registry)
  }

  /** The current rows are exactly what the chain says they are. */
  predicate Lands(end: View, native: seq<State>) {
    forall i :: 0 <= i < |native| ==> native[i].subset in end && end[native[i].subset] == native[i].evidence
  }

  predicate Accepts(start: View, rows: seq<AuditRow>, native: seq<State>, owner: Owner, subsets: set<string>,
                    registry: Registry) {
    Linked(start, rows, owner, subsets, registry) && Lands(End(start, rows, owner), native)
  }

  /** A link counts for a partition when it changes it, or when a merge may have re-mapped identities in it. */
  predicate Touches(last: View, row: AuditRow, owner: Owner, subset: string, registry: Registry) {
    && subset in After(row, owner)
    && subset in last
    && (last[subset] != After(row, owner)[subset]
        || (row.operation == MERGE && owner.kind in registry.mergeScopes && subset in registry.mergeScopes[owner.kind]))
  }

  function TouchingIds(start: View, rows: seq<AuditRow>, owner: Owner, subset: string, registry: Registry): seq<int> {
    if rows == [] then []
    else
      var n := |rows| - 1;
      TouchingIds(start, rows[..n], owner, subset, registry)
      + if Touches(End(start, rows[..n], owner), rows[n], owner, subset, registry) then [rows[n].id] else []
  }

  ghost predicate TouchesSome(last: View, row: AuditRow, owner: Owner, registry: Registry) {
    exists s :: s in After(row, owner) && Touches(last, row, owner, s, registry)
  }

  ghost function TouchingOperations(start: View, rows: seq<AuditRow>, owner: Owner, registry: Registry): set<string> {
    if rows == [] then {}
    else
      var n := |rows| - 1;
      TouchingOperations(start, rows[..n], owner, registry)
      + if TouchesSome(End(start, rows[..n], owner), rows[n], owner, registry) then {rows[n].operation} else {}
  }

  function EmptyStart(subsets: seq<string>, empties: map<string, Evidence>): View {
    map s | s in subsets && s in empties :: empties[s]
  }

  function Start(owner: Owner, subsets: seq<string>, initial: Option<seq<State>>,
                 empties: map<string, Evidence>): View {
    if initial.Some? && initial.value != [] then ViewOf(initial.value, owner) else EmptyStart(subsets, empties)
  }

  function Names(subsets: seq<string>): set<string> {
    set s | s in subsets
  }

  /** The capture reads exactly the owner's partitions. */
  predicate SameSubsets(native: seq<State>, subsets: seq<string>) {
    (set i | 0 <= i < |native| :: native[i].subset) == Names(subsets)
  }

  /** Folds one link's after states into the per-partition ids and the operations; fails on a missing key. */
  method AbsorbLink(last: View, row: AuditRow, owner: Owner, ids: map<string, seq<int>>, operations: set<string>,
                    registry: Registry)
    returns (ok: bool, ids': map<string, seq<int>>, operations': set<string>)
    ensures ok <==> && After(row, owner).Keys <= last.Keys
                    && (forall s :: Touches(last, row, owner, s, registry) ==> s in ids)
                    && (row.operation == MERGE && After(row, owner).Keys != {} ==> owner.kind in registry.mergeScopes)
    ensures ok ==> ids'.Keys == ids.Keys
    ensures ok ==> forall s :: s in ids ==>
      ids'[s] == ids[s] + if Touches(last, row, owner, s, registry) then [row.id] else []
    ensures ok ==>
      operations' == operations + if TouchesSome(last, row, owner, registry) then {row.operation} else {}
  {
    var after := After(row, owner);
    ids', operations' := ids, operations;
    var todo := after.Keys;
    while todo != {}
      invariant todo <= after.Keys
      invariant after.Keys - todo <= last.Keys
      invariant forall s :: s in after.Keys - todo && Touches(last, row, owner, s, registry) ==> s in ids
      invariant row.operation == MERGE && after.Keys - todo != {} ==> owner.kind in registry.mergeScopes
      invariant ids'.Keys == ids.Keys
      invariant forall s :: s in ids ==>
        ids'[s] == ids[s] + if s !in todo && Touches(last, row, owner, s, registry) then [row.id] else []
      invariant operations' == operations +
        (if exists s :: s in after.Keys - todo && Touches(last, row, owner, s, registry) then {row.operation} else {})
    {
      var scope :| scope in todo;
      if scope !in last {
        return false, ids', operations';
      }
      if row.operation == MERGE && owner.kind !in registry.mergeScopes {
        return false, ids', operations';
      }
      var identityChange := row.operation == MERGE && scope in registry.mergeScopes[owner.kind];
      ghost var done := after.Keys - todo;
      if last[scope] != after[scope] || identityChange {
        assert Touches(last, row, owner, scope, registry);
        if scope !in ids {
          return false, ids', operations';
        }
        operations' := operations' + {row.operation};
        ids' := ids'[scope := ids'[scope] + [row.id]];
      }
      todo := todo - {scope};
      assert after.Keys - todo == done + {scope};
    }
    assert after.Keys - todo == after.Keys;
    ok := true;
  }

  /** The loop over the audit rows: what was last proved, and which links touched which partition. */
  method Replay(owner: Owner, subsets: seq<string>, start: View, rows: seq<AuditRow>, registry: Registry)
    returns (ok: bool, last: View, ids: map<string, seq<int>>, operations: set<string>)
    ensures ok <==> Linked(start, rows, owner, Names(subsets), registry)
    ensures ok ==> last == End(start, rows, owner) && ids.Keys == Names(subsets)
    ensures ok ==> forall s :: s in ids ==> ids[s] == TouchingIds(start, rows, owner, s, registry)
    ensures ok ==> operations == TouchingOperations(start, rows, owner, registry)
  {
    last, ids, operations := start, map s | s in subsets :: [], {};
    for n := 0 to |rows|
      invariant last == End(start, rows[..n], owner)
      invariant Linked(start, rows[..n], owner, Names(subsets), registry)
      invariant ids.Keys == Names(subsets)
      invariant forall s :: s in ids ==> ids[s] == TouchingIds(start, rows[..n], owner, s, registry)
      invariant operations == TouchingOperations(start, rows[..n], owner, registry)
    {
      var row := rows[n];
      OneMoreLink(start, rows, n, owner, Names(subsets), registry);
      if !row.payloadOk || !(After(row, owner).Keys <= Names(subsets)) || Before(row, owner) != last {
        return false, last, ids, operations;
      }
      ok, ids, operations := AbsorbLink(last, row, owner, ids, operations, registry);
      if !ok {
        return;
      }
      last := After(row, owner);
    }
    assert rows[..|rows|] == rows;
    ok := true;
  }

  /** What one more row does to the linkage and to the counts. */
  lemma {:induction false} OneMoreLink(start: View, rows: seq<AuditRow>, n: nat, owner: Owner, keys: set<string>,
                                       registry: Registry)
    requires n < |rows|
    ensures var last := End(start, rows[..n], owner);
            && (Linked(start, rows[..n + 1], owner, keys, registry) <==>
                  Linked(start, rows[..n], owner, keys, registry) && LinkOk(last, rows[n], owner, keys, registry))
            && (Linked(start, rows, owner, keys, registry) ==> LinkOk(last, rows[n], owner, keys, registry))
            && End(start, rows[..n + 1], owner) == After(rows[n], owner)
            && (forall s :: TouchingIds(start, rows[..n + 1], owner, s, registry) ==
                  TouchingIds(start, rows[..n], owner, s, registry)
                  + if Touches(last, rows[n], owner, s, registry) then [rows[n].id] else [])
            && TouchingOperations(start, rows[..n + 1], owner, registry) ==
                 TouchingOperations(start, rows[..n], owner, registry)
                 + if TouchesSome(last, rows[n], owner, registry) then {rows[n].operation} else {}
  {
    assert rows[..n + 1][..n] == rows[..n];
    if Linked(start, rows, owner, keys, registry) {
      LinkedAt(start, rows, n, owner, keys, registry);
    }
  }

  /** The comparison of the current rows with the last proved state, partition by partition. */
  method Land(last: View, ids: map<string, seq<int>>, native: seq<State>) returns (ok: bool, statuses: seq<Status>)
    requires forall i :: 0 <= i < |native| ==> native[i].subset in ids
    ensures ok <==> Lands(last, native)
    ensures ok ==> |statuses| == |native|
    ensures ok ==> forall i :: 0 <= i < |native| ==>
      statuses[i] == Status(native[i].subset, ids[native[i].subset] != [], ids[native[i].subset])
  {
    statuses := [];
    for k := 0 to |native|
      invariant |statuses| == k
      invariant Lands(last, native[..k])
      invariant forall i :: 0 <= i < k ==>
        statuses[i] == Status(native[i].subset, ids[native[i].subset] != [], ids[native[i].subset])
    {
      var state := native[k];
      if state.subset !in last || last[state.subset] != state.evidence {
        return false, statuses;
      }
      statuses := statuses + [Status(state.subset, ids[state.subset] != [], ids[state.subset])];
    }
    ok := true;
  }

  /**
   One owner's replay. It succeeds exactly on an accepted chain that, without a receipt state, has
   creation evidence; each current partition is then reported with every link that touched it.
   */
  method OwnerChain(owner: Owner, subsets: seq<string>, initial: Option<seq<State>>, empties: map<string, Evidence>,
                    rows: seq<AuditRow>, native: seq<State>, registry: Registry)
    returns (result: Result<Report>)
    requires SameSubsets(native, subsets)
    ensures result.Success? <==>
      ChainHolds(Start(owner, subsets, initial, empties), initial.Some?, rows, native, owner, subsets, registry)
    ensures result.Success? ==>
      ReportOf(result.value, Start(owner, subsets, initial, empties), rows, native, owner, registry)
  {
    var start := Start(owner, subsets, initial, empties);
    var ok, last, ids, operations := Replay(owner, subsets, start, rows, registry);
    if !ok {
      return Failure("missing/reordered before-after link");
    }
    assert forall i :: 0 <= i < |native| ==> native[i].subset in ids by {
      assert forall i :: 0 <= i < |native| ==> native[i].subset in set j | 0 <= j < |native| :: native[j].subset;
    }
    var landed, statuses := Land(last, ids, native);
    if !landed {
      return Failure("current state differs from last after");
    }
    if initial.None? && forall s :: s in subsets ==> ids[s] == [] {
      return Failure("unexpected current owner without creation evidence");
    }
    result := Success(Report(statuses, operations));
  }

  /** What the replay of one owner demands. */
  ghost predicate ChainHolds(start: View, inReceipt: bool, rows: seq<AuditRow>, native: seq<State>, owner: Owner,
                             subsets: seq<string>, registry: Registry)
  {
    && Accepts(start, rows, native, owner, Names(subsets), registry)
    && (inReceipt || exists s :: s in subsets && TouchingIds(start, rows, owner, s, registry) != [])
  }

  /** What a successful replay reports. */
  ghost predicate ReportOf(report: Report, start: View, rows: seq<AuditRow>, native: seq<State>, owner: Owner,
                           registry: Registry)
  {
    && report.operations == TouchingOperations(start, rows, owner, registry)
    && |report.statuses| == |native|
    && forall i :: 0 <= i < |native| ==>
         var ids := TouchingIds(start, rows, owner, native[i].subset, registry);
         report.statuses[i] == Status(native[i].subset, ids != [], ids)
  }

  /** Every prefix of a linked chain is linked, and the link after it is sound. */
  lemma {:induction false} LinkedAt(start: View, rows: seq<AuditRow>, k: nat, owner: Owner, keys: set<string>,
                                    registry: Registry)
    requires k <= |rows| && Linked(start, rows, owner, keys, registry)
    ensures Linked(start, rows[..k], owner, keys, registry)
    ensures k < |rows| ==> LinkOk(End(start, rows[..k], owner), rows[k], owner, keys, registry)
  {
    if k == |rows| {
      assert rows[..k] == rows;
    } else if k < |rows| - 1 {
      LinkedAt(start, rows[..|rows| - 1], k, owner, keys, registry);
      assert rows[..|rows| - 1][..k] == rows[..k];
    }
  }

  // ---- what acceptance proves ----

  /** Partitions never come back along a chain, and an untouched one keeps its receipt evidence. */
  lemma {:induction false} UntouchedKeepsStart(start: View, rows: seq<AuditRow>, owner: Owner, keys: set<string>,
                                               registry: Registry, subset: string)
    requires Linked(start, rows, owner, keys, registry)
    requires subset in End(start, rows, owner)
    ensures subset in start
    ensures TouchingIds(start, rows, owner, subset, registry) == [] ==> End(start, rows, owner)[subset] == start[subset]
  {
    if rows != [] {
      var n := |rows| - 1;
      UntouchedKeepsStart(start, rows[..n], owner, keys, registry, subset);
    }
  }

  /** A partition reported unchanged has its initial evidence now. */
  lemma {:induction false} UnchangedMeansInitial(start: View, rows: seq<AuditRow>, native: seq<State>, owner: Owner,
                                                 keys: set<string>, registry: Registry, i: nat)
    requires Accepts(start, rows, native, owner, keys, registry)
    requires i < |native| && TouchingIds(start, rows, owner, native[i].subset, registry) == []
    ensures native[i].subset in start && native[i].evidence == start[native[i].subset]
  {
    UntouchedKeepsStart(start, rows, owner, keys, registry, native[i].subset);
  }

  /** Keys only disappear along a chain, so what is present at the end was present at every cut. */
  lemma {:induction false} PresentAtCut(start: View, rows: seq<AuditRow>, cut: nat, owner: Owner, keys: set<string>,
                                        registry: Registry, subset: string)
    requires cut <= |rows|
    requires Linked(start, rows, owner, keys, registry)
    requires subset in End(start, rows, owner)
    ensures subset in End(start, rows[..cut], owner)
    decreases |rows| - cut
  {
    if cut == |rows| {
      assert rows[..cut] == rows;
    } else {
      PresentAtCut(start, rows, cut + 1, owner, keys, registry, subset);
      LinkedAt(start, rows, cut, owner, keys, registry);
    }
  }

  /**
   Tamper evidence. If a block of links is replaced by another and both chains are accepted, both
   blocks leave every current partition in the same state: no substitution hides a net effect.
   */
  lemma {:induction false} ReplacedBlockSameEffect(start: View, head: seq<AuditRow>, block: seq<AuditRow>,
                                                   other: seq<AuditRow>, tail: seq<AuditRow>, native: seq<State>,
                                                   owner: Owner, keys: set<string>, registry: Registry)
    requires Accepts(start, head + block + tail, native, owner, keys, registry)
    requires Accepts(start, head + other + tail, native, owner, keys, registry)
    ensures forall i :: 0 <= i < |native| ==>
      var s := native[i].subset;
      && s in End(start, head + block, owner) && s in End(start, head + other, owner)
      && End(start, head + block, owner)[s] == End(start, head + other, owner)[s]
    ensures tail != [] ==> End(start, head + block, owner) == End(start, head + other, owner)
  {
    var a, b := head + block + tail, head + other + tail;
    assert a[..|head + block|] == head + block && b[..|head + other|] == head + other;
    forall i | 0 <= i < |native|
      ensures native[i].subset in End(start, head + block, owner) && native[i].subset in End(start, head + other, owner)
    {
      PresentAtCut(start, a, |head + block|, owner, keys, registry, native[i].subset);
      PresentAtCut(start, b, |head + other|, owner, keys, registry, native[i].subset);
    }
    if tail == [] {
      assert a == head + block && b == head + other;
    } else {
      assert a[|head + block|] == tail[0] == b[|head + other|];
      LinkedAt(start, a, |head + block|, owner, keys, registry);
      LinkedAt(start, b, |head + other|, owner, keys, registry);
    }
  }

  /** A contiguous block can be removed unnoticed only if it has no net effect on any current partition. */
  lemma {:induction false} RemovedBlockHasNoEffect(start: View, head: seq<AuditRow>, block: seq<AuditRow>,
                                                   tail: seq<AuditRow>, native: seq<State>, owner: Owner,
                                                   keys: set<string>, registry: Registry)
    requires Accepts(start, head + block + tail, native, owner, keys, registry)
    requires Accepts(start, head + tail, native, owner, keys, registry)
    ensures forall i :: 0 <= i < |native| ==>
      var s := native[i].subset;
      && s in End(start, head, owner) && s in End(start, head + block, owner)
      && End(start, head, owner)[s] == End(start, head + block, owner)[s]
  {
    assert head + [] + tail == head + tail && head + [] == head;
    ReplacedBlockSameEffect(start, head, block, [], tail, native, owner, keys, registry);
  }

  /** Two neighbouring links can be swapped unnoticed only if each of them changes nothing at all. */
  lemma {:induction false} SwappedLinksAreNoOps(start: View, head: seq<AuditRow>, a: AuditRow, b: AuditRow,
                                                tail: seq<AuditRow>, native: seq<State>, owner: Owner,
                                                keys: set<string>, registry: Registry)
    requires Accepts(start, head + [a, b] + tail, native, owner, keys, registry)
    requires Accepts(start, head + [b, a] + tail, native, owner, keys, registry)
    ensures Before(a, owner) == After(a, owner) == Before(b, owner) == After(b, owner)
  {
    var n := |head|;
    var x, y := head + [a, b] + tail, head + [b, a] + tail;
    assert x[..n] == head == y[..n];
    assert x[..n + 1] == head + [a] && y[..n + 1] == head + [b];
    LinkedAt(start, x, n, owner, keys, registry);
    LinkedAt(start, x, n + 1, owner, keys, registry);
    LinkedAt(start, y, n, owner, keys, registry);
    LinkedAt(start, y, n + 1, owner, keys, registry);
  }

  // ---- which audit rows are replayed ----

  /** Audit rows in id order. */
  predicate Rising(rows: seq<AuditRow>) {
    forall i, j :: 0 <= i < j < |rows| ==> rows[i].id < rows[j].id
  }

  lemma {:induction false} RowsForAppend(a: seq<AuditRow>, b: seq<AuditRow>, owner: Owner, highwater: int)
    ensures RowsFor(a + b, owner, highwater) == RowsFor(a, owner, highwater) + RowsFor(b, owner, highwater)
  {
    if a == [] {
      assert a + b == b;
    } else {
      RowsForAppend(a[1..], b, owner, highwater);
      assert (a + b)[1..] == a[1..] + b;
    }
  }

  /** A row is replayed exactly when the log holds it beyond the high water with an after state of the owner. */
  lemma {:induction false} RowsForSelects(log: seq<AuditRow>, owner: Owner, highwater: int, row: AuditRow)
    ensures row in RowsFor(log, owner, highwater) <==>
            row in log && row.id > highwater && exists i :: 0 <= i < |row.after| && row.after[i].owner == owner
  {
    if log != [] {
      RowsForSelects(log[1..], owner, highwater, row);
      assert log == [log[0]] + log[1..];
    }
  }

  /** Rows are replayed in id order. */
  lemma {:induction false} RowsForRise(log: seq<AuditRow>, owner: Owner, highwater: int)
    requires Rising(log)
    ensures Rising(RowsFor(log, owner, highwater))
  {
    if log != [] {
      var rest := RowsFor(log[1..], owner, highwater);
      RowsForRise(log[1..], owner, highwater);
      forall j | 0 <= j < |rest|
        ensures log[0].id < rest[j].id
      {
        RowsForSelects(log[1..], owner, highwater, rest[j]);
        var k :| 0 <= k < |log[1..]| && log[1..][k] == rest[j];
        assert log[1..][k] == log[k + 1];
      }
    }
  }

  // ---- which partition states a link carries ----

  predicate Carries(states: seq<State>, owner: Owner, i: int, subset: string) {
    0 <= i < |states| && states[i].owner == owner && states[i].subset == subset
  }

  /** A view holds, for each partition listed for the owner, the evidence of the last state that lists it. */
  lemma {:induction false} LastStateIsHeld(states: seq<State>, owner: Owner, subset: string, i: nat)
    requires Carries(states, owner, i, subset) && forall j :: i < j ==> !Carries(states, owner, j, subset)
    ensures subset in ViewOf(states, owner) && ViewOf(states, owner)[subset] == states[i].evidence
    decreases |states|
  {
    var n := |states| - 1;
    if i < n {
      assert !Carries(states, owner, n, subset);
      forall j | i < j
        ensures !Carries(states[..n], owner, j, subset)
      {
        assert !Carries(states, owner, j, subset);
      }
      LastStateIsHeld(states[..n], owner, subset, i);
    }
  }

  lemma {:induction false} UnlistedIsNotHeld(states: seq<State>, owner: Owner, subset: string)
    requires forall i :: !Carries(states, owner, i, subset)
    ensures subset !in ViewOf(states, owner)
  {
    if states != [] {
      var n := |states| - 1;
      assert !Carries(states, owner, n, subset);
      forall i ensures !Carries(states[..n], owner, i, subset) {
        assert !Carries(states, owner, i, subset);
      }
      UnlistedIsNotHeld(states[..n], owner, subset);
    }
  }

  // ---- a linked chain, link by link ----

  /** What a link begins with: the start, or what the link before it left. */
  function Left(start: View, rows: seq<AuditRow>, owner: Owner, k: nat): View
    requires k <= |rows|
  {
    if k == 0 then start else ViewOf(rows[k - 1].after, owner)
  }

  /** A link's payload validates, it begins where the chain stands, and it drops but never adds partitions. */
  predicate LinkSound(start: View, rows: seq<AuditRow>, owner: Owner, subsets: set<string>, registry: Registry, k: nat)
    requires k < |rows|
  {
    var before, after := ViewOf(rows[k].before, owner), ViewOf(rows[k].after, owner);
    && rows[k].payloadOk && before == Left(start, rows, owner, k)
    && after.Keys <= before.Keys && after.Keys <= subsets
    && (rows[k].operation == "stats.member_merge" && after != map[] ==> owner.kind in registry.mergeScopes)
  }

  /** A chain is linked exactly when each of its links is sound. */
  lemma {:induction false} LinkedExactly(start: View, rows: seq<AuditRow>, owner: Owner, subsets: set<string>,
                                         registry: Registry)
    ensures Linked(start, rows, owner, subsets, registry) <==>
            forall k: nat :: k < |rows| ==> LinkSound(start, rows, owner, subsets, registry, k)
  {
    if rows != [] {
      var n := |rows| - 1;
      LinkedExactly(start, rows[..n], owner, subsets, registry);
      forall k: nat | k < n
        ensures LinkSound(start, rows[..n], owner, subsets, registry, k) <==>
                LinkSound(start, rows, owner, subsets, registry, k)
      {
      }
      assert Left(start, rows, owner, n) == End(start, rows[..n], owner);
      assert LinkOk(End(start, rows[..n], owner), rows[n], owner, subsets, registry) <==>
             LinkSound(start, rows, owner, subsets, registry, n);
    }
  }
}
