/**
 Reading a receipt's owner rows as one group per owner, and joining the receipt owners with the
 owners the database and the audit log name.

 An owner key is represented by its serialised text, so the sort key of a scope is the triple of
 strings (kind, key text, partition).
 */
module OwnerJoin {
  import opened Wrappers
  import opened Ordering
  import opened AuditChain
  import Framing

  /** One parsed receipt row; `named` is the digest recomputed from the row's named values, when it has some. */
  datatype SavedState = SavedState(state: State, hasAuthority: bool, discipline: Option<string>, digestsOk: bool,
                                   named: Option<Framing.Digest>)

  datatype Line = Malformed | Parsed(saved: SavedState)

  datatype Group = Group(owner: Owner, rows: seq<SavedState>)

  predicate OwnerLess(a: Owner, b: Owner) {
    Less(a.kind, b.kind) || (a.kind == b.kind && Less(a.key, b.key))
  }

  predicate ScopeLess(a: State, b: State) {
    OwnerLess(a.owner, b.owner) || (a.owner == b.owner && Less(a.subset, b.subset))
  }

  lemma {:induction false} OwnerTrichotomy(a: Owner, b: Owner)
    ensures OwnerLess(a, b) || a == b || OwnerLess(b, a)
    ensures !(OwnerLess(a, b) && OwnerLess(b, a)) && !OwnerLess(a, a)
  {
    Trichotomy(a.kind, b.kind);
    Trichotomy(a.key, b.key);
    Irreflexive(a.kind);
    Irreflexive(a.key);
    if Less(a.kind, b.kind) && Less(b.kind, a.kind) { Transitive(a.kind, b.kind, a.kind); }
    if Less(a.key, b.key) && Less(b.key, a.key) { Transitive(a.key, b.key, a.key); }
  }

  lemma {:induction false} OwnerTransitive(a: Owner, b: Owner, c: Owner)
    requires OwnerLess(a, b) && OwnerLess(b, c)
    ensures OwnerLess(a, c)
  {
    Irreflexive(a.kind);
    if Less(a.kind, b.kind) && Less(b.kind, c.kind) { Transitive(a.kind, b.kind, c.kind); }
    if a.kind == b.kind == c.kind { Transitive(a.key, b.key, c.key); }
  }

  // ---- the receipt reader ----

  /** The checks of one row inside the loop. */
  predicate RowOk(saved: SavedState) {
    && saved.state.evidence.ownerExists
    && saved.state.identity.None?
    && saved.hasAuthority
    && (saved.named.Some? ==> saved.named.value == saved.state.evidence.digest)
  }

  function SubsetsOf(rows: seq<SavedState>): set<string> {
    set i | 0 <= i < |rows| :: rows[i].state.subset
  }

  /** The partition check of one finished group. */
  predicate GroupComplete(rows: seq<SavedState>, registry: Registry) {
    && (forall i :: 0 <= i < |rows| ==> rows[i].digestsOk)
    && (forall i :: 0 <= i < |rows| ==>
          && rows[i].state.owner.kind in registry.partitions
          && SubsetsOf(rows) == Names(registry.partitions[rows[i].state.owner.kind]))
  }

  function RowsOf(lines: seq<Line>): seq<SavedState>
    requires forall i :: 0 <= i < |lines| ==> lines[i].Parsed?
  {
    seq(|lines|, i requires 0 <= i < |lines| => lines[i].saved)
  }

  /** All the rows of one owner, wherever they are. */
  function RowsOfOwner(rows: seq<SavedState>, owner: Owner): seq<SavedState> {
    if rows == [] then []
    else
      var last := rows[|rows| - 1];
      RowsOfOwner(rows[..|rows| - 1], owner) + if last.state.owner == owner then [last] else []
  }

  /** A receipt file the reader accepts, stated line by line and owner by owner. */
  ghost predicate ValidReceipt(lines: seq<Line>, registry: Registry) {
    && (forall i :: 0 <= i < |lines| ==> lines[i].Parsed? && RowOk(lines[i].saved))
    && (forall i, j :: 0 <= i < j < |lines| ==> ScopeLess(lines[i].saved.state, lines[j].saved.state))
    && (forall i :: 0 <= i < |lines| ==>
          GroupComplete(RowsOfOwner(RowsOf(lines), lines[i].saved.state.owner), registry))
  }

  function Flatten(groups: seq<Group>): seq<SavedState> {
    if groups == [] then [] else Flatten(groups[..|groups| - 1]) + groups[|groups| - 1].rows
  }

  ghost predicate Increasing(groups: seq<Group>) {
    forall i, j :: 0 <= i < j < |groups| ==> OwnerLess(groups[i].owner, groups[j].owner)
  }

  ghost predicate OwnRows(group: Group) {
    && group.rows != []
    && forall i :: 0 <= i < |group.rows| ==> group.rows[i].state.owner == group.owner
  }

  /** The groups cut the rows into one contiguous, complete block per owner. */
  ghost predicate Partitions(groups: seq<Group>, rows: seq<SavedState>, registry: Registry) {
    && Flatten(groups) == rows
    && Increasing(groups)
    && forall i :: 0 <= i < |groups| ==> OwnRows(groups[i]) && GroupComplete(groups[i].rows, registry)
  }

  lemma {:induction false} RowsOfOwnerAppend(a: seq<SavedState>, b: seq<SavedState>, owner: Owner)
    ensures RowsOfOwner(a + b, owner) == RowsOfOwner(a, owner) + RowsOfOwner(b, owner)
  {
    if b == [] {
      assert a + b == a;
    } else {
      RowsOfOwnerAppend(a, b[..|b| - 1], owner);
      assert (a + b)[..|a + b| - 1] == a + b[..|b| - 1];
    }
  }

  lemma {:induction false} AllOfOneOwner(rows: seq<SavedState>, owner: Owner)
    requires forall i :: 0 <= i < |rows| ==> rows[i].state.owner == owner
    ensures RowsOfOwner(rows, owner) == rows
  {
    if rows != [] { AllOfOneOwner(rows[..|rows| - 1], owner); }
  }

  lemma {:induction false} NoneOfOneOwner(rows: seq<SavedState>, owner: Owner)
    requires forall i :: 0 <= i < |rows| ==> rows[i].state.owner != owner
    ensures RowsOfOwner(rows, owner) == []
  {
    if rows != [] { NoneOfOneOwner(rows[..|rows| - 1], owner); }
  }

  /** In sorted rows a maximal run of one owner is all there is of that owner. */
  lemma {:induction false} RunIsWhole(before: seq<SavedState>, run: seq<SavedState>, after: seq<SavedState>,
                                      owner: Owner)
    requires forall i :: 0 <= i < |run| ==> run[i].state.owner == owner
    requires forall i :: 0 <= i < |before| ==> before[i].state.owner != owner
    requires forall i :: 0 <= i < |after| ==> after[i].state.owner != owner
    ensures RowsOfOwner(before + run + after, owner) == run
  {
    RowsOfOwnerAppend(before + run, after, owner);
    RowsOfOwnerAppend(before, run, owner);
    AllOfOneOwner(run, owner);
    NoneOfOneOwner(before, owner);
    NoneOfOneOwner(after, owner);
  }

  lemma {:induction false} ScopeTransitive(a: State, b: State, c: State)
    requires ScopeLess(a, b) && ScopeLess(b, c)
    ensures ScopeLess(a, c)
  {
    OwnerTrichotomy(a.owner, a.owner);
    if OwnerLess(a.owner, b.owner) && OwnerLess(b.owner, c.owner) { OwnerTransitive(a.owner, b.owner, c.owner); }
    if a.owner == b.owner == c.owner { Transitive(a.subset, b.subset, c.subset); }
  }

  ghost predicate SortedRows(rows: seq<SavedState>) {
    forall i, j :: 0 <= i < j < |rows| ==> ScopeLess(rows[i].state, rows[j].state)
  }

  /** Across the end of a run, sorted rows never return to the run's owner. */
  lemma {:induction false} NeverReturns(rows: seq<SavedState>, cut: nat, owner: Owner)
    requires SortedRows(rows) && 0 < cut < |rows|
    requires rows[cut - 1].state.owner == owner && rows[cut].state.owner != owner
    ensures forall i :: cut <= i < |rows| ==> OwnerLess(owner, rows[i].state.owner) && rows[i].state.owner != owner
  {
    forall i | cut <= i < |rows|
      ensures OwnerLess(owner, rows[i].state.owner) && rows[i].state.owner != owner
    {
      OwnerTrichotomy(owner, rows[cut].state.owner);
      OwnerTrichotomy(owner, rows[i].state.owner);
      assert ScopeLess(rows[cut - 1].state, rows[cut].state);
      assert ScopeLess(rows[cut - 1].state, rows[i].state);
      if i > cut { assert ScopeLess(rows[cut].state, rows[i].state); }
    }
  }

  /** What the reader carries from line to line. */
  ghost predicate Reading(lines: seq<Line>, n: nat, groups: seq<Group>, current: Option<Owner>, rows: seq<SavedState>,
                          registry: Registry)
  {
    && n <= |lines|
    && (forall i :: 0 <= i < n ==> lines[i].Parsed? && RowOk(lines[i].saved))
    && SortedRows(RowsOf(lines[..n]))
    && Partitions(groups, Flatten(groups), registry)
    && Flatten(groups) + rows == RowsOf(lines[..n])
    && (n == 0 <==> current.None?)
    && (current.None? ==> rows == [] && groups == [])
    && (current.Some? ==> OwnRows(Group(current.value, rows)) && rows[|rows| - 1] == lines[n - 1].saved)
    && (current.Some? ==> forall i :: 0 <= i < |groups| ==> OwnerLess(groups[i].owner, current.value))
  }

  lemma {:induction false} FlattenOwners(groups: seq<Group>, k: nat)
    requires k < |Flatten(groups)|
    requires forall i :: 0 <= i < |groups| ==> OwnRows(groups[i])
    ensures exists g :: 0 <= g < |groups| && groups[g].owner == Flatten(groups)[k].state.owner
  {
    var head := groups[..|groups| - 1];
    if k < |Flatten(head)| {
      FlattenOwners(head, k);
      var g :| 0 <= g < |head| && head[g].owner == Flatten(head)[k].state.owner;
      assert groups[g].owner == Flatten(groups)[k].state.owner;
    } else {
      assert groups[|groups| - 1].owner == Flatten(groups)[k].state.owner;
    }
  }

  /** Every row of the flattened groups is a row of the group of its owner. */
  lemma {:induction false} FlattenRow(groups: seq<Group>, k: nat) returns (g: nat)
    requires k < |Flatten(groups)|
    requires forall i :: 0 <= i < |groups| ==> OwnRows(groups[i])
    ensures g < |groups| && groups[g].owner == Flatten(groups)[k].state.owner && Flatten(groups)[k] in groups[g].rows
  {
    var head := groups[..|groups| - 1];
    if k < |Flatten(head)| {
      g := FlattenRow(head, k);
    } else {
      g := |groups| - 1;
      assert Flatten(groups)[k] == groups[g].rows[k - |Flatten(head)|];
    }
  }

  lemma {:induction false} GroupSorted(groups: seq<Group>, g: nat)
    requires g < |groups| && SortedRows(Flatten(groups))
    ensures SortedRows(groups[g].rows)
  {
    var n := |groups| - 1;
    var head, all := Flatten(groups[..n]), Flatten(groups);
    if g < n {
      forall i, j | 0 <= i < j < |head| ensures ScopeLess(head[i].state, head[j].state) {
        assert all[i] == head[i] && all[j] == head[j];
      }
      GroupSorted(groups[..n], g);
    } else {
      var rows := groups[n].rows;
      forall i, j | 0 <= i < j < |rows| ensures ScopeLess(rows[i].state, rows[j].state) {
        assert all[|head| + i] == rows[i] && all[|head| + j] == rows[j];
      }
    }
  }

  /** In sorted rows a run that ends where the owner changes is all there is of its owner. */
  lemma {:induction false} FinishedRunIsWhole(all: seq<SavedState>, n: nat, before: seq<SavedState>,
                                              rows: seq<SavedState>, current: Owner)
    requires 0 < n <= |all| && all[..n] == before + rows && rows != [] && SortedRows(all)
    requires forall i :: 0 <= i < |before| ==> before[i].state.owner != current
    requires forall i :: 0 <= i < |rows| ==> rows[i].state.owner == current
    requires n < |all| ==> all[n].state.owner != current
    ensures RowsOfOwner(all, current) == rows
  {
    var after := all[n..];
    assert all == before + rows + after;
    if n < |all| {
      assert all[n - 1] == (before + rows)[n - 1];
      NeverReturns(all, n, current);
      assert forall i :: 0 <= i < |after| ==> after[i] == all[n + i];
    }
    RunIsWhole(before, rows, after, current);
  }

  /** A valid file's finished run passes the partition check; used when the check fails. */
  lemma {:induction false} FinishedRunComplete(lines: seq<Line>, n: nat, groups: seq<Group>, current: Owner,
                                               rows: seq<SavedState>, registry: Registry)
    requires Reading(lines, n, groups, Some(current), rows, registry) && n > 0
    requires ValidReceipt(lines, registry)
    requires n == |lines| || lines[n].saved.state.owner != current
    ensures GroupComplete(rows, registry)
  {
    assert RowsOf(lines)[..n] == RowsOf(lines[..n]);
    EarlierGroupsDiffer(groups, current);
    FinishedRunIsWhole(RowsOf(lines), n, Flatten(groups), rows, current);
    assert lines[n - 1].saved.state.owner == current;
  }

  lemma {:induction false} EarlierGroupsDiffer(groups: seq<Group>, current: Owner)
    requires forall i :: 0 <= i < |groups| ==> OwnRows(groups[i]) && OwnerLess(groups[i].owner, current)
    ensures forall i :: 0 <= i < |Flatten(groups)| ==> Flatten(groups)[i].state.owner != current
  {
    forall i | 0 <= i < |Flatten(groups)|
      ensures Flatten(groups)[i].state.owner != current
    {
      FlattenOwners(groups, i);
      OwnerTrichotomy(Flatten(groups)[i].state.owner, current);
    }
  }

  /** The same, as the reader meets it: an incomplete run means that the receipt is not valid. */
  lemma {:induction false} IncompleteRunRejects(lines: seq<Line>, n: nat, groups: seq<Group>, current: Owner,
                                                rows: seq<SavedState>, registry: Registry)
    requires Reading(lines, n, groups, Some(current), rows, registry) && n > 0
    requires n == |lines| || (lines[n].Parsed? && lines[n].saved.state.owner != current)
    requires !GroupComplete(rows, registry)
    ensures !ValidReceipt(lines, registry)
  {
    if ValidReceipt(lines, registry) {
      FinishedRunComplete(lines, n, groups, current, rows, registry);
    }
  }

  /** Closing a complete run turns it into the next group. */
  lemma {:induction false} CloseGroup(groups: seq<Group>, current: Owner, rows: seq<SavedState>, registry: Registry)
    requires Partitions(groups, Flatten(groups), registry)
    requires OwnRows(Group(current, rows)) && GroupComplete(rows, registry)
    requires forall i :: 0 <= i < |groups| ==> OwnerLess(groups[i].owner, current)
    ensures Partitions(groups + [Group(current, rows)], Flatten(groups) + rows, registry)
  {
    var more := groups + [Group(current, rows)];
    assert more[..|groups|] == groups;
  }

  lemma {:induction false} AppendSorted(rows: seq<SavedState>, saved: SavedState)
    requires SortedRows(rows)
    requires rows != [] ==> ScopeLess(rows[|rows| - 1].state, saved.state)
    ensures SortedRows(rows + [saved])
  {
    forall i | 0 <= i < |rows| - 1
      ensures ScopeLess(rows[i].state, saved.state)
    {
      ScopeTransitive(rows[i].state, rows[|rows| - 1].state, saved.state);
    }
  }

  /** One more row of the current owner. */
  lemma {:induction false} ReadSame(lines: seq<Line>, n: nat, groups: seq<Group>, current: Option<Owner>,
                                    rows: seq<SavedState>, registry: Registry)
    requires Reading(lines, n, groups, current, rows, registry)
    requires n < |lines| && lines[n].Parsed? && RowOk(lines[n].saved)
    requires n > 0 ==> ScopeLess(lines[n - 1].saved.state, lines[n].saved.state)
    requires current.None? || current.value == lines[n].saved.state.owner
    ensures Reading(lines, n + 1, groups, Some(lines[n].saved.state.owner), rows + [lines[n].saved], registry)
  {
    var saved := lines[n].saved;
    AppendSorted(RowsOf(lines[..n]), saved);
    assert RowsOf(lines[..n + 1]) == RowsOf(lines[..n]) + [saved];
    assert Flatten(groups) + (rows + [saved]) == (Flatten(groups) + rows) + [saved];
  }

  /** The first row of the next owner, after the finished group passed its check. */
  lemma {:induction false} ReadNext(lines: seq<Line>, n: nat, groups: seq<Group>, current: Owner,
                                    rows: seq<SavedState>, registry: Registry)
    requires Reading(lines, n, groups, Some(current), rows, registry)
    requires 0 < n < |lines| && lines[n].Parsed? && RowOk(lines[n].saved)
    requires ScopeLess(lines[n - 1].saved.state, lines[n].saved.state)
    requires current != lines[n].saved.state.owner && GroupComplete(rows, registry)
    ensures Reading(lines, n + 1, groups + [Group(current, rows)], Some(lines[n].saved.state.owner), [lines[n].saved],
                    registry)
  {
    var saved := lines[n].saved;
    var more := groups + [Group(current, rows)];
    CloseGroup(groups, current, rows, registry);
    assert more[..|groups|] == groups;
    AppendSorted(RowsOf(lines[..n]), saved);
    assert RowsOf(lines[..n + 1]) == RowsOf(lines[..n]) + [saved];
    forall i | 0 <= i < |more|
      ensures OwnerLess(more[i].owner, saved.state.owner)
    {
      if i < |groups| { OwnerTransitive(groups[i].owner, current, saved.state.owner); }
    }
  }

  /** One accepted line. */
  lemma {:induction false} ReadLine(lines: seq<Line>, n: nat, groups: seq<Group>, current: Option<Owner>,
                                    rows: seq<SavedState>, registry: Registry)
    requires Reading(lines, n, groups, current, rows, registry)
    requires n < |lines| && lines[n].Parsed? && RowOk(lines[n].saved)
    requires n > 0 ==> ScopeLess(lines[n - 1].saved.state, lines[n].saved.state)
    requires current.Some? && current.value != lines[n].saved.state.owner ==> GroupComplete(rows, registry)
    ensures var closes := current.Some? && current.value != lines[n].saved.state.owner;
            Reading(lines, n + 1, if closes then groups + [Group(current.value, rows)] else groups,
                    Some(lines[n].saved.state.owner), (if closes then [] else rows) + [lines[n].saved], registry)
  {
    if current.Some? && current.value != lines[n].saved.state.owner {
      ReadNext(lines, n, groups, current.value, rows, registry);
      assert [] + [lines[n].saved] == [lines[n].saved];
    } else {
      ReadSame(lines, n, groups, current, rows, registry);
    }
  }

  /** What any valid file guarantees about its next line. */
  lemma {:induction false} NextLineOk(lines: seq<Line>, n: nat, registry: Registry)
    requires n < |lines|
    ensures ValidReceipt(lines, registry) ==> lines[n].Parsed? && RowOk(lines[n].saved)
    ensures ValidReceipt(lines, registry) && n > 0 ==> ScopeLess(lines[n - 1].saved.state, lines[n].saved.state)
  {
  }

  /** A file read to its end with every check passed is valid. */
  lemma {:induction false} ReadToEnd(lines: seq<Line>, groups: seq<Group>, current: Owner, rows: seq<SavedState>,
                                     registry: Registry)
    requires Reading(lines, |lines|, groups, Some(current), rows, registry)
    requires GroupComplete(rows, registry)
    ensures ValidReceipt(lines, registry)
    ensures Partitions(groups + [Group(current, rows)], RowsOf(lines), registry)
  {
    CloseGroup(groups, current, rows, registry);
    assert lines[..|lines|] == lines;
    PartitionedIsValid(lines, groups + [Group(current, rows)], registry);
  }

  /** Sorted, checked lines that fall into complete groups are a valid receipt. */
  lemma {:induction false} PartitionedIsValid(lines: seq<Line>, groups: seq<Group>, registry: Registry)
    requires forall i :: 0 <= i < |lines| ==> lines[i].Parsed? && RowOk(lines[i].saved)
    requires SortedRows(RowsOf(lines)) && Partitions(groups, RowsOf(lines), registry)
    ensures ValidReceipt(lines, registry)
  {
    forall i | 0 <= i < |lines|
      ensures GroupComplete(RowsOfOwner(RowsOf(lines), lines[i].saved.state.owner), registry)
    {
      FlattenOwners(groups, i);
      var g :| 0 <= g < |groups| && groups[g].owner == Flatten(groups)[i].state.owner;
      GroupIsWhole(groups, g);
    }
    forall i, j | 0 <= i < j < |lines|
      ensures ScopeLess(lines[i].saved.state, lines[j].saved.state)
    {
      assert RowsOf(lines)[i] == lines[i].saved && RowsOf(lines)[j] == lines[j].saved;
    }
  }

  /** In a partition, a group holds every row of its owner. */
  lemma {:induction false} GroupIsWhole(groups: seq<Group>, g: nat)
    requires g < |groups| && Increasing(groups)
    requires forall i :: 0 <= i < |groups| ==> OwnRows(groups[i])
    ensures RowsOfOwner(Flatten(groups), groups[g].owner) == groups[g].rows
  {
    var n := |groups| - 1;
    var head, last := groups[..n], groups[n];
    if g < n {
      GroupIsWhole(head, g);
      OwnerTrichotomy(groups[g].owner, last.owner);
      OtherOwnersRows(Flatten(head), last, groups[g].owner);
    } else {
      LastGroupIsWhole(head, last);
    }
  }

  lemma {:induction false} OtherOwnersRows(before: seq<SavedState>, last: Group, owner: Owner)
    requires OwnRows(last) && owner != last.owner
    ensures RowsOfOwner(before + last.rows, owner) == RowsOfOwner(before, owner)
  {
    RowsOfOwnerAppend(before, last.rows, owner);
    NoneOfOneOwner(last.rows, owner);
  }

  lemma {:induction false} LastGroupIsWhole(head: seq<Group>, last: Group)
    requires OwnRows(last) && forall i :: 0 <= i < |head| ==> OwnRows(head[i]) && OwnerLess(head[i].owner, last.owner)
    ensures RowsOfOwner(Flatten(head) + last.rows, last.owner) == last.rows
  {
    RowsOfOwnerAppend(Flatten(head), last.rows, last.owner);
    EarlierGroupsDiffer(head, last.owner);
    NoneOfOneOwner(Flatten(head), last.owner);
    AllOfOneOwner(last.rows, last.owner);
  }

  /**
   The streaming reader. It finishes exactly on a valid receipt, and then its groups partition the
   lines: one contiguous group per owner, in owner order, each with its complete set of partitions.
   */
  method SavedOwners(lines: seq<Line>, registry: Registry) returns (groups: seq<Group>, ok: bool)
    ensures ok <==> ValidReceipt(lines, registry)
    ensures ok ==> Partitions(groups, RowsOf(lines), registry)
  {
    groups := [];
    var previous: Option<State> := None;
    var current: Option<Owner> := None;
    var rows: seq<SavedState> := [];
    for n := 0 to |lines|
      invariant Reading(lines, n, groups, current, rows, registry)
      invariant previous == if n == 0 then None else Some(lines[n - 1].saved.state)
    {
      NextLineOk(lines, n, registry);
      if lines[n].Malformed? {
        return groups, false;
      }
      var saved := lines[n].saved;
      if previous.Some? && !ScopeLess(previous.value, saved.state) {
        return groups, false;
      }
      previous := Some(saved.state);
      ghost var groupsBefore, currentBefore, rowsBefore := groups, current, rows;
      if current.Some? && saved.state.owner != current.value {
        if !GroupComplete(rows, registry) {
          IncompleteRunRejects(lines, n, groups, current.value, rows, registry);
          return groups, false;
        }
        groups, rows := groups + [Group(current.value, rows)], [];
      }
      if !RowOk(saved) {
        return groups, false;
      }
      ReadLine(lines, n, groupsBefore, currentBefore, rowsBefore, registry);
      current := Some(saved.state.owner);
      rows := rows + [saved];
    }
    if current.Some? {
      if !GroupComplete(rows, registry) {
        IncompleteRunRejects(lines, |lines|, groups, current.value, rows, registry);
        return groups, false;
      }
      ReadToEnd(lines, groups, current.value, rows, registry);
      groups := groups + [Group(current.value, rows)];
    }
    ok := true;
  }

  // ---- the full outer join ----

  /** One item of a stream: an owner with its receipt rows, or an owner the database side names. */
  datatype Entry = Entry(owner: Owner, states: Option<seq<SavedState>>)

  function FromGroups(groups: seq<Group>): seq<Entry> {
    seq(|groups|, i requires 0 <= i < |groups| => Entry(groups[i].owner, Some(groups[i].rows)))
  }

  function FromOwners(owners: seq<Owner>): seq<Entry> {
    seq(|owners|, i requires 0 <= i < |owners| => Entry(owners[i], None))
  }

  /** The stable two-stream merge by owner: on a tie the first stream goes first. */
  function Merged(a: seq<Entry>, b: seq<Entry>): seq<Entry>
    decreases |a| + |b|
  {
    if a == [] then b
    else if b == [] then a
    else if OwnerLess(b[0].owner, a[0].owner) then [b[0]] + Merged(a, b[1..])
    else [a[0]] + Merged(a[1..], b)
  }

  /** Grouping neighbours with one owner; the first entry that has receipt rows supplies them. */
  function Collapse(entries: seq<Entry>): seq<Entry>
    decreases |entries|
  {
    if |entries| <= 1 then entries
    else if entries[0].owner == entries[1].owner then Collapse([Pick(entries[0], entries[1])] + entries[2..])
    else [entries[0]] + Collapse(entries[1..])
  }

  function Pick(first: Entry, second: Entry): Entry {
    Entry(first.owner, if first.states.Some? then first.states else second.states)
  }

  ghost predicate Strict(entries: seq<Entry>) {
    forall i, j :: 0 <= i < j < |entries| ==> OwnerLess(entries[i].owner, entries[j].owner)
  }

  function OwnersOf(entries: seq<Entry>): set<Owner> {
    set i | 0 <= i < |entries| :: entries[i].owner
  }

  function Lookup(entries: seq<Entry>, owner: Owner): Option<seq<SavedState>> {
    if entries == [] then None
    else if entries[0].owner == owner then entries[0].states
    else Lookup(entries[1..], owner)
  }

  /** The exact full outer join: every owner of either stream once, in order, with its receipt rows if any. */
  ghost predicate OuterJoin(a: seq<Entry>, b: seq<Entry>, joined: seq<Entry>) {
    && Strict(joined)
    && OwnersOf(joined) == OwnersOf(a) + OwnersOf(b)
    && forall i :: 0 <= i < |joined| ==> joined[i].states == Lookup(a, joined[i].owner)
  }

  /** The join as one recursion, the reference the merge and the grouping are compared with. */
  function Join(a: seq<Entry>, b: seq<Entry>): seq<Entry>
    decreases |a| + |b|
  {
    if a == [] then b
    else if b == [] then a
    else if OwnerLess(b[0].owner, a[0].owner) then [b[0]] + Join(a, b[1..])
    else if a[0].owner == b[0].owner then [a[0]] + Join(a[1..], b[1..])
    else [a[0]] + Join(a[1..], b)
  }

  ghost predicate Streams(a: seq<Entry>, b: seq<Entry>) {
    && Strict(a) && Strict(b)
    && (forall i :: 0 <= i < |a| ==> a[i].states.Some?)
    && (forall i :: 0 <= i < |b| ==> b[i].states.None?)
  }

  lemma {:induction false} CollapseStrict(a: seq<Entry>)
    requires Strict(a)
    ensures Collapse(a) == a
  {
    if |a| > 1 {
      OwnerTrichotomy(a[0].owner, a[1].owner);
      CollapseStrict(a[1..]);
    }
  }

  lemma {:induction false} CollapseCons(e: Entry, rest: seq<Entry>)
    requires rest == [] || rest[0].owner != e.owner
    ensures Collapse([e] + rest) == [e] + Collapse(rest)
  {
    assert ([e] + rest)[1..] == rest;
  }

  lemma {:induction false} CollapsePair(e: Entry, f: Entry, rest: seq<Entry>)
    requires e.owner == f.owner && (rest == [] || rest[0].owner != e.owner)
    ensures Collapse([e] + ([f] + rest)) == [Pick(e, f)] + Collapse(rest)
  {
    var all := [e] + ([f] + rest);
    assert all[0] == e && all[1] == f && all[2..] == rest;
    CollapseCons(Pick(e, f), rest);
  }

  lemma {:induction false} MergedHead(a: seq<Entry>, b: seq<Entry>, owner: Owner)
    requires a == [] || a[0].owner != owner
    requires b == [] || b[0].owner != owner
    ensures Merged(a, b) == [] || Merged(a, b)[0].owner != owner
  {
  }

  /** The next entry of a stream has another owner. */
  lemma {:induction false} NextDiffers(a: seq<Entry>)
    requires Strict(a) && |a| > 1
    ensures a[1].owner != a[0].owner && Strict(a[1..])
  {
    OwnerTrichotomy(a[0].owner, a[1].owner);
  }

  lemma {:induction false} MergedTie(a: seq<Entry>, b: seq<Entry>)
    requires a != [] && b != [] && a[0].owner == b[0].owner
    requires |a| > 1 ==> OwnerLess(a[0].owner, a[1].owner)
    ensures Merged(a, b) == [a[0]] + ([b[0]] + Merged(a[1..], b[1..]))
  {
    OwnerTrichotomy(a[0].owner, b[0].owner);
    if |a| == 1 {
      assert a[1..] == [] && b == [b[0]] + b[1..];
    } else {
      assert OwnerLess(b[0].owner, a[1..][0].owner);
    }
  }

  lemma {:induction false} CollapseMerged(a: seq<Entry>, b: seq<Entry>)
    requires Streams(a, b)
    ensures Collapse(Merged(a, b)) == Join(a, b)
    decreases |a| + |b|
  {
    if a == [] {
      CollapseStrict(b);
    } else if b == [] {
      CollapseStrict(a);
    } else {
      OwnerTrichotomy(a[0].owner, b[0].owner);
      if |a| > 1 { NextDiffers(a); }
      if |b| > 1 { NextDiffers(b); }
      if OwnerLess(b[0].owner, a[0].owner) {
        CollapseMerged(a, b[1..]);
        MergedHead(a, b[1..], b[0].owner);
        CollapseCons(b[0], Merged(a, b[1..]));
      } else if a[0].owner == b[0].owner {
        CollapseMerged(a[1..], b[1..]);
        MergedTie(a, b);
        MergedHead(a[1..], b[1..], a[0].owner);
        CollapsePair(a[0], b[0], Merged(a[1..], b[1..]));
      } else {
        CollapseMerged(a[1..], b);
        MergedHead(a[1..], b, a[0].owner);
        CollapseCons(a[0], Merged(a[1..], b));
      }
    }
  }

  /** An owner below every entry of a stream is not found in it. */
  lemma {:induction false} LookupBelow(a: seq<Entry>, owner: Owner)
    requires forall i :: 0 <= i < |a| ==> OwnerLess(owner, a[i].owner)
    ensures Lookup(a, owner) == None && owner !in OwnersOf(a)
  {
    OwnerTrichotomy(owner, owner);
    if a != [] { LookupBelow(a[1..], owner); }
  }

  lemma {:induction false} OwnersOfCons(e: Entry, a: seq<Entry>)
    ensures OwnersOf([e] + a) == {e.owner} + OwnersOf(a)
  {
    var all := [e] + a;
    assert all[0] == e && forall i :: 0 <= i < |a| ==> all[i + 1] == a[i];
  }

  /** Prepending the least owner keeps a join a join. */
  lemma {:induction false} JoinCons(a: seq<Entry>, b: seq<Entry>, head: Entry, joined: seq<Entry>)
    requires OuterJoin(a, b, joined)
    requires forall i :: 0 <= i < |a| ==> OwnerLess(head.owner, a[i].owner)
    requires forall i :: 0 <= i < |b| ==> OwnerLess(head.owner, b[i].owner)
    ensures Strict([head] + joined)
    ensures OwnersOf([head] + joined) == {head.owner} + OwnersOf(a) + OwnersOf(b)
    ensures forall i :: 0 <= i < |joined| ==> joined[i].owner != head.owner
  {
    OwnersOfCons(head, joined);
    forall i | 0 <= i < |joined|
      ensures OwnerLess(head.owner, joined[i].owner) && joined[i].owner != head.owner
    {
      assert joined[i].owner in OwnersOf(joined);
      OwnerTrichotomy(head.owner, joined[i].owner);
    }
  }

  lemma {:induction false} JoinIsOuter(a: seq<Entry>, b: seq<Entry>)
    requires Streams(a, b)
    ensures OuterJoin(a, b, Join(a, b))
    decreases |a| + |b|
  {
    if a == [] {
    } else if b == [] {
      forall i | 0 <= i < |a| ensures a[i].states == Lookup(a, a[i].owner) {
        LookupSelf(a, i);
      }
    } else {
      OwnerTrichotomy(a[0].owner, b[0].owner);
      OwnersOfCons(a[0], a[1..]);
      OwnersOfCons(b[0], b[1..]);
      assert a == [a[0]] + a[1..] && b == [b[0]] + b[1..];
      var fromB, tie := OwnerLess(b[0].owner, a[0].owner), a[0].owner == b[0].owner;
      var head := if fromB then b[0] else a[0];
      var a', b' := if fromB then a else a[1..], if fromB || tie then b[1..] else b;
      forall i | 0 <= i < |a'| ensures OwnerLess(head.owner, a'[i].owner) {
        if fromB && i > 0 { OwnerTransitive(head.owner, a[0].owner, a[i].owner); }
      }
      forall i | 0 <= i < |b'| ensures OwnerLess(head.owner, b'[i].owner) {
        if !fromB && !tie && i > 0 { OwnerTransitive(head.owner, b[0].owner, b[i].owner); }
      }
      JoinIsOuter(a', b');
      JoinCons(a', b', head, Join(a', b'));
      LookupBelow(a', head.owner);
    }
  }

  lemma {:induction false} LookupSelf(a: seq<Entry>, i: nat)
    requires Strict(a) && i < |a|
    ensures Lookup(a, a[i].owner) == a[i].states
  {
    if i > 0 {
      OwnerTrichotomy(a[0].owner, a[i].owner);
      LookupSelf(a[1..], i - 1);
    }
  }

  /**
   Every owner of either stream exactly once, in owner order, with its receipt rows when it has some.
   `owners` is the DISTINCT, ORDERed result of the current-owners query.
   */
  method AllOwners(groups: seq<Group>, owners: seq<Owner>) returns (joined: seq<Entry>)
    requires Increasing(groups) && Strict(FromOwners(owners))
    ensures OuterJoin(FromGroups(groups), FromOwners(owners), joined)
  {
    joined := GroupByOwner(Merged(FromGroups(groups), FromOwners(owners)));
    CollapseMerged(FromGroups(groups), FromOwners(owners));
    JoinIsOuter(FromGroups(groups), FromOwners(owners));
  }

  /** The groups so far, the last of them still open, and the entries to come. */
  ghost predicate Held(joined: seq<Entry>, rest: seq<Entry>, all: seq<Entry>) {
    && joined != []
    && joined[..|joined| - 1] + Collapse([joined[|joined| - 1]] + rest) == all
  }

  lemma {:induction false} HeldNext(joined: seq<Entry>, entry: Entry, rest: seq<Entry>, all: seq<Entry>)
    requires Held(joined, [entry] + rest, all)
    ensures var k := |joined| - 1;
            Held(if joined[k].owner == entry.owner then joined[..k] + [Pick(joined[k], entry)] else joined + [entry],
              rest, all)
  {
    var k := |joined| - 1;
    var open := [joined[k]] + ([entry] + rest);
    assert open[0] == joined[k] && open[1] == entry && open[2..] == rest && open[1..] == [entry] + rest;
    if joined[k].owner == entry.owner {
      assert (joined[..k] + [Pick(joined[k], entry)])[..k] == joined[..k];
    } else {
      assert (joined + [entry])[..k + 1] == joined == joined[..k] + [joined[k]];
    }
  }

  /** Neighbours with one owner become one entry. */
  method GroupByOwner(merged: seq<Entry>) returns (joined: seq<Entry>)
    ensures joined == Collapse(merged)
  {
    joined := [];
    for n := 0 to |merged|
      invariant if n == 0 then joined == [] else Held(joined, merged[n..], Collapse(merged))
    {
      var entry := merged[n];
      assert merged[n..] == [entry] + merged[n + 1..];
      if n > 0 {
        HeldNext(joined, entry, merged[n + 1..], Collapse(merged));
      }
      if n > 0 && joined[|joined| - 1].owner == entry.owner {
        joined := joined[..|joined| - 1] + [Pick(joined[|joined| - 1], entry)];
      } else {
        joined := joined + [entry];
      }
    }
    if merged != [] {
      assert [joined[|joined| - 1]] + merged[|merged|..] == [joined[|joined| - 1]];
    }
  }

  // ---- an accepted receipt, line by line ----

  predicate LineFor(lines: seq<Line>, j: int, owner: Owner, subset: string) {
    && 0 <= j < |lines| && lines[j].Parsed?
    && lines[j].saved.state.owner == owner && lines[j].saved.state.subset == subset
  }

  /** A line of an owner that existed, with authority, true digests and no identity map, of a listed partition. */
  predicate LineSound(line: Line, registry: Registry) {
    && line.Parsed?
    && line.saved.state.evidence.ownerExists && line.saved.state.identity == None && line.saved.hasAuthority
    && line.saved.digestsOk
    && (line.saved.named == None || line.saved.named == Some(line.saved.state.evidence.digest))
    && line.saved.state.owner.kind in registry.partitions
    && line.saved.state.subset in registry.partitions[line.saved.state.owner.kind]
  }

  /** Each partition of a recorded owner has its line. */
  ghost predicate OwnerWhole(lines: seq<Line>, owner: Owner, registry: Registry) {
    owner.kind in registry.partitions ==>
      forall s :: s in registry.partitions[owner.kind] ==> exists j :: LineFor(lines, j, owner, s)
  }

  lemma {:induction false} RowsOfOwnerHold(rows: seq<SavedState>, owner: Owner, row: SavedState)
    ensures row in RowsOfOwner(rows, owner) <==> row in rows && row.state.owner == owner
  {
    if rows != [] {
      RowsOfOwnerHold(rows[..|rows| - 1], owner, row);
      assert rows == rows[..|rows| - 1] + [rows[|rows| - 1]];
    }
  }

  lemma {:induction false} OwnerSubsets(lines: seq<Line>, owner: Owner, s: string)
    requires forall i :: 0 <= i < |lines| ==> lines[i].Parsed?
    ensures s in SubsetsOf(RowsOfOwner(RowsOf(lines), owner)) <==> exists j :: LineFor(lines, j, owner, s)
  {
    var rows, own := RowsOf(lines), RowsOfOwner(RowsOf(lines), owner);
    if s in SubsetsOf(own) {
      var k :| 0 <= k < |own| && own[k].state.subset == s;
      RowsOfOwnerHold(rows, owner, own[k]);
      var j :| 0 <= j < |rows| && rows[j] == own[k];
      assert LineFor(lines, j, owner, s);
    }
    if j :| LineFor(lines, j, owner, s) {
      RowsOfOwnerHold(rows, owner, rows[j]);
      assert rows[j] in rows;
      var k :| 0 <= k < |own| && own[k] == rows[j];
    }
  }

  /** The partitions of an owner's lines are the listed ones. */
  lemma {:induction false} OwnerSubsetsExactly(lines: seq<Line>, owner: Owner, subsets: seq<string>)
    requires forall i :: 0 <= i < |lines| ==> lines[i].Parsed?
    ensures SubsetsOf(RowsOfOwner(RowsOf(lines), owner)) == Names(subsets) <==>
            && (forall s :: s in subsets ==> exists j :: LineFor(lines, j, owner, s))
            && (forall i :: 0 <= i < |lines| && lines[i].saved.state.owner == owner ==>
                  lines[i].saved.state.subset in subsets)
  {
    var found := SubsetsOf(RowsOfOwner(RowsOf(lines), owner));
    forall s ensures s in found <==> exists j :: LineFor(lines, j, owner, s) {
      OwnerSubsets(lines, owner, s);
    }
    assert forall i :: 0 <= i < |lines| && lines[i].saved.state.owner == owner ==>
             LineFor(lines, i, owner, lines[i].saved.state.subset);
    assert found == Names(subsets) <==> forall s :: s in found <==> s in subsets;
  }

  lemma {:induction false} OwnerRowsAre(lines: seq<Line>, owner: Owner)
    requires forall i :: 0 <= i < |lines| ==> lines[i].Parsed?
    ensures var own := RowsOfOwner(RowsOf(lines), owner);
            && (forall i :: 0 <= i < |lines| && lines[i].saved.state.owner == owner ==> lines[i].saved in own)
            && (forall row :: row in own ==>
                  row.state.owner == owner && exists i :: 0 <= i < |lines| && lines[i].saved == row)
  {
    var rows, own := RowsOf(lines), RowsOfOwner(RowsOf(lines), owner);
    forall i | 0 <= i < |lines| && lines[i].saved.state.owner == owner
      ensures lines[i].saved in own
    {
      RowsOfOwnerHold(rows, owner, rows[i]);
      assert rows[i] in rows;
    }
    forall row | row in own
      ensures row.state.owner == owner && exists i :: 0 <= i < |lines| && lines[i].saved == row
    {
      RowsOfOwnerHold(rows, owner, row);
      var j :| 0 <= j < |rows| && rows[j] == row;
      assert lines[j].saved == row;
    }
  }

  /** The group check of an owner's rows, line by line. */
  lemma {:induction false} GroupCheckedExactly(lines: seq<Line>, owner: Owner, registry: Registry, n: nat)
    requires forall i :: 0 <= i < |lines| ==> lines[i].Parsed?
    requires n < |lines| && lines[n].saved.state.owner == owner
    ensures GroupComplete(RowsOfOwner(RowsOf(lines), owner), registry) <==>
            && owner.kind in registry.partitions && OwnerWhole(lines, owner, registry)
            && forall i :: 0 <= i < |lines| && lines[i].saved.state.owner == owner ==>
                 lines[i].saved.digestsOk && lines[i].saved.state.subset in registry.partitions[owner.kind]
  {
    var own := RowsOfOwner(RowsOf(lines), owner);
    OwnerRowsAre(lines, owner);
    assert lines[n].saved in own;
    assert forall k :: 0 <= k < |own| ==> own[k] in own;
    assert (forall k :: 0 <= k < |own| ==> own[k].digestsOk) <==>
           forall i :: 0 <= i < |lines| && lines[i].saved.state.owner == owner ==> lines[i].saved.digestsOk;
    if owner.kind in registry.partitions {
      OwnerSubsetsExactly(lines, owner, registry.partitions[owner.kind]);
    }
  }

  /**
   A receipt is accepted exactly when its lines are in order, each of them is sound, and every recorded
   owner has a line for each of its partitions.
   */
  lemma {:induction false} AcceptedExactly(lines: seq<Line>, registry: Registry)
    ensures ValidReceipt(lines, registry) <==>
            && (forall i :: 0 <= i < |lines| ==> LineSound(lines[i], registry))
            && (forall i, j :: 0 <= i < j < |lines| ==> ScopeLess(lines[i].saved.state, lines[j].saved.state))
            && (forall i :: 0 <= i < |lines| ==> OwnerWhole(lines, lines[i].saved.state.owner, registry))
  {
    if forall i :: 0 <= i < |lines| ==> lines[i].Parsed? {
      forall i | 0 <= i < |lines|
        ensures var owner := lines[i].saved.state.owner;
                GroupComplete(RowsOfOwner(RowsOf(lines), owner), registry) <==>
                && owner.kind in registry.partitions && OwnerWhole(lines, owner, registry)
                && forall j :: 0 <= j < |lines| && lines[j].saved.state.owner == owner ==>
                     lines[j].saved.digestsOk && lines[j].saved.state.subset in registry.partitions[owner.kind]
      {
        GroupCheckedExactly(lines, lines[i].saved.state.owner, registry, i);
      }
    }
  }
}
