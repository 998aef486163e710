/**
 Capturing a receipt of the owner rows and reconciling a later database with it.

 The database is a map from owners to the encoded rows of their partitions. The comparison with the
 retained legacy tables and with the materialised view enter as the functions `legacyHolds` and `mv`.
 */
module CheckReceipt {
  import opened Wrappers
  import opened Ordering
  import opened AuditChain
  import opened OwnerJoin
  import Framing

  type Database = map<Owner, map<string, seq<Framing.Bytes>>>

  datatype MvOutcome = Same | Different | InvalidMetadata | MissingValues

  /** Everything one check reads besides the receipt's owner rows. */
  datatype Env = Env(
    registry: Registry,
    header: (Owner, string) -> Framing.Bytes,
    database: Database,
    owners: seq<Owner>,
    log: seq<AuditRow>,
    highwater: int,
    precheckPasses: bool,
    legacyHolds: (Owner, Option<seq<SavedState>>, set<string>) -> bool,
    authority: Owner -> Option<string>,
    mvFresh: bool,
    mv: (Owner, Option<seq<SavedState>>) -> MvOutcome,
    mvDiscipline: Owner -> string)

  datatype RowStatus = Unchanged | Changed | Blocking

  datatype Row = Row(owner: Option<Owner>, subset: Option<string>, status: RowStatus)

  datatype Counts = Counts(same: nat, changed: nat, blocking: nat)

  datatype Verdict = Verdict(exitCode: nat, counts: Counts, details: seq<Row>, truncated: bool)

  const MV := "mv"
  const DETAIL_LIMIT := 100

  // ---- evidence of a database ----

  function RowsIn(database: Database, owner: Owner, subset: string): seq<Framing.Bytes> {
    if owner in database && subset in database[owner] then database[owner][subset] else []
  }

  /** No encoded row or header reaches the 2^64 bytes the length prefix can hold. */
  ghost predicate Encodable(database: Database, header: (Owner, string) -> Framing.Bytes) {
    forall owner: Owner, subset: string ::
      Framing.Framable([header(owner, subset)] + RowsIn(database, owner, subset))
  }

  function EvidenceOf(database: Database, header: (Owner, string) -> Framing.Bytes, owner: Owner,
                      subset: string): Evidence
    requires Framing.Framable([header(owner, subset)] + RowsIn(database, owner, subset))
  {
    Evidence(owner in database, Framing.DigestOf(header(owner, subset), RowsIn(database, owner, subset)))
  }

  /** The evidence of a partition whose owner does not exist: no rows. */
  function Empties(header: (Owner, string) -> Framing.Bytes, owner: Owner, subsets: seq<string>): map<string, Evidence>
    requires forall s :: s in subsets ==> Framing.Framable([header(owner, s)])
  {
    map s | s in subsets ::
      assert [header(owner, s)] + [] == [header(owner, s)];
      Evidence(false, Framing.DigestOf(header(owner, s), []))
  }

  /** One owner's states: its partitions in scope order, whatever order the registry lists them in. */
  function StatesIn(database: Database, header: (Owner, string) -> Framing.Bytes, owner: Owner, subsets: seq<string>):
    seq<State>
    requires forall s :: s in Sorted(subsets) ==> Framing.Framable([header(owner, s)] + RowsIn(database, owner, s))
  {
    var scopes := Sorted(subsets);
    seq(|scopes|, i requires 0 <= i < |scopes| =>
      State(owner, scopes[i], EvidenceOf(database, header, owner, scopes[i]), None))
  }

  function SubsetNames(states: seq<State>): seq<string> {
    seq(|states|, i requires 0 <= i < |states| => states[i].subset)
  }

  /**
   The native capture of one owner. It sorts the scopes, refuses a repeated one, and digests the rows of
   each: the partitions come out in order, each as often as the registry lists it.
   */
  method CaptureNative(database: Database, header: (Owner, string) -> Framing.Bytes, owner: Owner, subsets: seq<string>)
    returns (result: Result<seq<State>>)
    requires Encodable(database, header)
    ensures result.Success? <==> Distinct(subsets)
    ensures result.Success? ==> result.value == StatesIn(database, header, owner, subsets)
    ensures result.Success? ==> Ascending(SubsetNames(result.value))
    ensures result.Success? ==> multiset(SubsetNames(result.value)) == multiset(subsets)
    ensures result.Success? ==> forall i :: 0 <= i < |result.value| ==>
      var state := result.value[i];
      state == State(owner, state.subset, EvidenceOf(database, header, owner, state.subset), None)
  {
    var scopes := Sorted(subsets);
    DistinctSorted(subsets);
    DistinctByCount(scopes);
    if |Members(scopes)| != |scopes| {
      return Failure("duplicate scope");
    }
    SortedAscends(subsets);
    SortedKeepsNames(subsets);
    var states := DigestScopes(database, header, owner, scopes);
    assert SubsetNames(states) == scopes;
    result := Success(states);
  }

  /** The loop over the scopes. */
  method DigestScopes(database: Database, header: (Owner, string) -> Framing.Bytes, owner: Owner, scopes: seq<string>)
    returns (states: seq<State>)
    requires Encodable(database, header)
    ensures |states| == |scopes|
    ensures forall k :: 0 <= k < |states| ==>
      states[k] == State(owner, scopes[k], EvidenceOf(database, header, owner, scopes[k]), None)
  {
    states := [];
    for i := 0 to |scopes|
      invariant |states| == i
      invariant forall k :: 0 <= k < i ==>
        states[k] == State(owner, scopes[k], EvidenceOf(database, header, owner, scopes[k]), None)
    {
      var digest := Framing.SemanticDigest(header(owner, scopes[i]), RowsIn(database, owner, scopes[i]));
      states := states + [State(owner, scopes[i], Evidence(owner in database, digest), None)];
    }
  }

  // ---- capture: the owner rows of a fresh receipt ----

  /** The kinds whose receipt rows carry the named values of their partition. */
  const NAMED_KINDS := {MV, "member"}

  /**
   One receipt row as the reader parses it. Named values are the rows of the partition themselves, so the
   reader's digest of them is the digest of those rows.
   */
  function Saved(state: State, database: Database, header: (Owner, string) -> Framing.Bytes,
                 authority: Owner -> Option<string>): SavedState
    requires Framing.Framable([header(state.owner, state.subset)] + RowsIn(database, state.owner, state.subset))
  {
    var digest := Framing.DigestOf(header(state.owner, state.subset), RowsIn(database, state.owner, state.subset));
    SavedState(state, true, authority(state.owner), true,
               if state.owner.kind in NAMED_KINDS then Some(digest) else None)
  }

  function StatesOf(rows: seq<SavedState>): seq<State> {
    seq(|rows|, i requires 0 <= i < |rows| => rows[i].state)
  }

  /**
   A receipt that records exactly the owners of a database with their evidence, group by group. What else
   its rows carry, authority and named values, is left open.
   */
  ghost predicate Records(groups: seq<Group>, database: Database, header: (Owner, string) -> Framing.Bytes,
                          registry: Registry)
  {
    && Encodable(database, header)
    && (forall i :: 0 <= i < |groups| ==>
          && groups[i].owner in database
          && groups[i].owner.kind in registry.partitions
          && StatesOf(groups[i].rows) ==
               StatesIn(database, header, groups[i].owner, registry.partitions[groups[i].owner.kind]))
    && (forall o :: o in database ==> exists i :: 0 <= i < |groups| && groups[i].owner == o)
  }

  /** Every kind has partitions, none of them twice; their order does not matter. */
  ghost predicate WellFormed(registry: Registry) {
    forall kind :: kind in registry.partitions ==>
      registry.partitions[kind] != [] && Distinct(registry.partitions[kind])
  }

  function Derived(codes: seq<string>): seq<string> {
    seq(|codes|, i requires 0 <= i < |codes| => "derived/" + codes[i])
  }

  /** The partitions the program ships, for the derived statistics `codes`. */
  function ShippedPartitions(codes: seq<string>): map<string, seq<string>> {
    map["match" := MATCH_HEAD + Derived(codes) + ["event_body", "event_fight"],
        "job" := ["identity", "hints", "lifecycle"],
        "member" := ["identity"],
        "baseline" := ["rows"],
        "channel" := ["row"],
        "alias" := ["job_ref"],
        "evaluation" := ["match_ref"],
        "override" := ["match_ref"],
        "rule" := ["depends_on"],
        "outbox" := ["changed_tables"],
        "vocabulary" := ["definition"],
        "mv" := ["derived_row"]]
  }

  const MATCH_HEAD := ["header", "lifecycle", "updated_at", "duration", "teams", "players", "segments", "team_scores",
    "raw_facts"]

  lemma {:induction false} DerivedAreDistinct(codes: seq<string>)
    requires Distinct(codes)
    ensures Distinct(Derived(codes))
    ensures forall i :: 0 <= i < |codes| ==> |Derived(codes)[i]| >= 8 && Derived(codes)[i][..2] == "de"
  {
    forall i, j | 0 <= i < j < |codes| ensures Derived(codes)[i] != Derived(codes)[j] {
      assert ("derived/" + codes[i])[8..] == codes[i] && ("derived/" + codes[j])[8..] == codes[j];
    }
  }

  lemma {:induction false} DistinctConcat(a: seq<string>, b: seq<string>)
    requires Distinct(a) && Distinct(b)
    requires forall i, j :: 0 <= i < |a| && 0 <= j < |b| ==> a[i] != b[j]
    ensures Distinct(a + b)
  {
  }

  lemma {:induction false} MatchHeadIsDistinct()
    ensures Distinct(MATCH_HEAD)
    ensures forall i :: 0 <= i < |MATCH_HEAD| ==>
      |MATCH_HEAD[i]| >= 2 && MATCH_HEAD[i][0] != 'e' && MATCH_HEAD[i][1] != 'v'
    ensures forall i :: 0 <= i < |MATCH_HEAD| ==> MATCH_HEAD[i][0] != 'd' || MATCH_HEAD[i][1] != 'e'
  {
    assert MATCH_HEAD[0][0] == 'h' && MATCH_HEAD[1][0] == 'l' && MATCH_HEAD[2][0] == 'u' && MATCH_HEAD[3][0] == 'd';
    assert MATCH_HEAD[4][0] == 't' && MATCH_HEAD[5][0] == 'p' && MATCH_HEAD[6][0] == 's' && MATCH_HEAD[7][0] == 't';
    assert MATCH_HEAD[8][0] == 'r' && |MATCH_HEAD[4]| != |MATCH_HEAD[7]|;
    assert MATCH_HEAD[0][1] == 'e' && MATCH_HEAD[1][1] == 'i' && MATCH_HEAD[2][1] == 'p' && MATCH_HEAD[3][1] == 'u';
    assert MATCH_HEAD[4][1] == 'e' && MATCH_HEAD[5][1] == 'l' && MATCH_HEAD[6][1] == 'e' && MATCH_HEAD[7][1] == 'e';
    assert MATCH_HEAD[8][1] == 'a';
  }

  /** The shipped partitions are well formed, although their lists are not in order. */
  lemma {:induction false} ShippedPartitionsAreWellFormed(codes: seq<string>, mergeScopes: map<string, set<string>>)
    requires Distinct(codes)
    ensures WellFormed(Registry(ShippedPartitions(codes), mergeScopes))
    ensures !Ascending(ShippedPartitions(codes)["job"])
  {
    var derived, tail := Derived(codes), ["event_body", "event_fight"];
    MatchHeadIsDistinct();
    DerivedAreDistinct(codes);
    assert forall i :: 0 <= i < |derived| ==> derived[i][..2][0] == 'd' && derived[i][..2][1] == 'e';
    DistinctConcat(MATCH_HEAD, derived);
    assert |tail[0]| != |tail[1]| && tail[0][0] == 'e' && tail[1][0] == 'e' && tail[0][1] == 'v' && tail[1][1] == 'v';
    DistinctConcat(MATCH_HEAD + derived, tail);
    var job := ShippedPartitions(codes)["job"];
    assert job == ["identity", "hints", "lifecycle"];
    assert |job[0]| != |job[1]| && |job[1]| != |job[2]| && job[0][1] == 'd' && job[2][1] == 'i';
    assert job[0][0] == 'i' && job[1][0] == 'h';
    assert !Less(job[0], job[1]);
  }

  lemma {:induction false} AppendGroupSorted(rows: seq<SavedState>, more: seq<SavedState>)
    requires SortedRows(rows) && SortedRows(more)
    requires forall i, j :: 0 <= i < |rows| && 0 <= j < |more| ==> OwnerLess(rows[i].state.owner, more[j].state.owner)
    ensures SortedRows(rows + more)
  {
  }

  /** A complete run of a later owner becomes the next group. */
  lemma {:induction false} NextGroup(groups: seq<Group>, before: seq<SavedState>, owner: Owner, rows: seq<SavedState>,
                                     registry: Registry)
    requires SortedRows(before) && Partitions(groups, before, registry)
    requires OwnRows(Group(owner, rows)) && GroupComplete(rows, registry) && SortedRows(rows)
    requires forall i :: 0 <= i < |groups| ==> OwnerLess(groups[i].owner, owner)
    ensures SortedRows(before + rows) && Partitions(groups + [Group(owner, rows)], before + rows, registry)
  {
    CloseGroup(groups, owner, rows, registry);
    forall i, j | 0 <= i < |before| && 0 <= j < |rows|
      ensures OwnerLess(before[i].state.owner, rows[j].state.owner)
    {
      FlattenOwners(groups, i);
    }
    AppendGroupSorted(before, rows);
  }

  /** A line with the discipline of its owner's authority, and named values if and only if its kind has them. */
  ghost predicate Dressed(line: Line, authority: Owner -> Option<string>) {
    && line.Parsed?
    && line.saved.discipline == authority(line.saved.state.owner)
    && (line.saved.named.Some? <==> line.saved.state.owner.kind in NAMED_KINDS)
  }

  /** The lines of one owner. */
  method CaptureOwner(database: Database, header: (Owner, string) -> Framing.Bytes, owner: Owner,
                      authority: Owner -> Option<string>, registry: Registry)
    returns (written: seq<Line>)
    requires Encodable(database, header) && WellFormed(registry)
    requires owner in database && owner.kind in registry.partitions
    ensures forall i :: 0 <= i < |written| ==> written[i].Parsed? && RowOk(written[i].saved)
    ensures forall i :: 0 <= i < |written| ==> Dressed(written[i], authority)
    ensures StatesOf(RowsOf(written)) == StatesIn(database, header, owner, registry.partitions[owner.kind])
    ensures var rows := RowsOf(written);
            OwnRows(Group(owner, rows)) && GroupComplete(rows, registry) && SortedRows(rows)
  {
    var subsets := registry.partitions[owner.kind];
    var captured := CaptureNative(database, header, owner, subsets);
    var states := captured.value;
    written := seq(|states|, i requires 0 <= i < |states| => Parsed(Saved(states[i], database, header, authority)));
    assert StatesOf(RowsOf(written)) == states;
    CapturedGroup(database, header, owner, subsets, registry, RowsOf(written));
  }

  /**
   The owner loop of a capture. `owners` is the ordered list of the owners in the database; the lines
   it writes are accepted by the reader, record the database owner by owner and carry the authority fields,
   and the named values where the kind has them.
   */
  method CaptureOwners(database: Database, header: (Owner, string) -> Framing.Bytes, owners: seq<Owner>,
                       authority: Owner -> Option<string>, registry: Registry)
    returns (lines: seq<Line>, ghost groups: seq<Group>)
    requires Encodable(database, header) && WellFormed(registry)
    requires Strict(FromOwners(owners)) && forall o :: o in owners <==> o in database
    requires forall o :: o in owners ==> o.kind in registry.partitions
    ensures ValidReceipt(lines, registry)
    ensures Partitions(groups, RowsOf(lines), registry) && Records(groups, database, header, registry)
    ensures forall i :: 0 <= i < |lines| ==> Dressed(lines[i], authority)
  {
    lines, groups := [], [];
    for n := 0 to |owners|
      invariant Written(lines, groups, owners, n, database, header, registry)
      invariant forall i :: 0 <= i < |lines| ==> Dressed(lines[i], authority)
    {
      assert owners[n] in owners;
      var written := CaptureOwner(database, header, owners[n], authority, registry);
      WriteOwner(lines, groups, owners, n, database, header, registry, written);
      lines, groups := lines + written, groups + [Group(owners[n], RowsOf(written))];
    }
    WrittenRecords(lines, groups, owners, database, header, registry);
  }

  /** The lines and groups of the first `n` owners. */
  ghost predicate Written(lines: seq<Line>, groups: seq<Group>, owners: seq<Owner>, n: nat, database: Database,
                          header: (Owner, string) -> Framing.Bytes, registry: Registry)
    requires Encodable(database, header) && n <= |owners|
    requires forall o :: o in owners ==> o.kind in registry.partitions && o in database
  {
    && (forall i :: 0 <= i < |lines| ==> lines[i].Parsed? && RowOk(lines[i].saved))
    && |groups| == n
    && (forall i :: 0 <= i < n ==> groups[i].owner == owners[i])
    && (forall i :: 0 <= i < n ==>
          owners[i] in owners
          && StatesOf(groups[i].rows) == StatesIn(database, header, owners[i], registry.partitions[owners[i].kind]))
    && SortedRows(RowsOf(lines)) && Partitions(groups, RowsOf(lines), registry)
  }

  /** All owners written: the reader accepts the lines, and they record the database. */
  lemma {:induction false} WrittenRecords(lines: seq<Line>, groups: seq<Group>, owners: seq<Owner>, database: Database,
                                          header: (Owner, string) -> Framing.Bytes, registry: Registry)
    requires Encodable(database, header) && forall o :: o in owners <==> o in database
    requires forall o :: o in owners ==> o.kind in registry.partitions && o in database
    requires Written(lines, groups, owners, |owners|, database, header, registry)
    ensures ValidReceipt(lines, registry)
    ensures Partitions(groups, RowsOf(lines), registry) && Records(groups, database, header, registry)
  {
    PartitionedIsValid(lines, groups, registry);
    forall o | o in database ensures exists i :: 0 <= i < |groups| && groups[i].owner == o {
      assert o in owners;
      var i :| 0 <= i < |owners| && owners[i] == o;
      assert groups[i].owner == o;
    }
  }

  lemma {:induction false} WriteOwner(lines: seq<Line>, groups: seq<Group>, owners: seq<Owner>, n: nat,
                                      database: Database, header: (Owner, string) -> Framing.Bytes, registry: Registry,
                                      written: seq<Line>)
    requires Encodable(database, header) && n < |owners| && Strict(FromOwners(owners))
    requires forall o :: o in owners ==> o.kind in registry.partitions && o in database
    requires Written(lines, groups, owners, n, database, header, registry) && owners[n] in owners
    requires forall i :: 0 <= i < |written| ==> written[i].Parsed? && RowOk(written[i].saved)
    requires var rows := RowsOf(written);
             && StatesOf(rows) == StatesIn(database, header, owners[n], registry.partitions[owners[n].kind])
             && OwnRows(Group(owners[n], rows)) && GroupComplete(rows, registry) && SortedRows(rows)
    ensures Written(lines + written, groups + [Group(owners[n], RowsOf(written))], owners, n + 1, database,
                    header, registry)
  {
    forall i | 0 <= i < n ensures OwnerLess(groups[i].owner, owners[n]) {
      assert OwnerLess(FromOwners(owners)[i].owner, FromOwners(owners)[n].owner);
    }
    NextGroup(groups, RowsOf(lines), owners[n], RowsOf(written), registry);
    assert RowsOf(lines + written) == RowsOf(lines) + RowsOf(written);
  }

  /** Rows with the captured states of one owner are a complete, sorted group. */
  lemma {:induction false} CapturedGroup(database: Database, header: (Owner, string) -> Framing.Bytes, owner: Owner,
                                         subsets: seq<string>, registry: Registry, rows: seq<SavedState>)
    requires Encodable(database, header) && owner in database
    requires owner.kind in registry.partitions && subsets == registry.partitions[owner.kind]
    requires subsets != [] && Distinct(subsets)
    requires StatesOf(rows) == StatesIn(database, header, owner, subsets)
    requires forall i :: 0 <= i < |rows| ==> rows[i].digestsOk
    ensures OwnRows(Group(owner, rows)) && GroupComplete(rows, registry) && SortedRows(rows)
  {
    var scopes := Sorted(subsets);
    SortedKeepsNames(subsets);
    SameMembers(scopes, subsets);
    SortedAscends(subsets);
    forall i | 0 <= i < |rows| ensures rows[i].state.owner == owner && rows[i].state.subset == scopes[i] {
      assert StatesOf(rows)[i] == rows[i].state;
    }
    assert |rows| == |StatesOf(rows)| == |scopes|;
    assert SubsetsOf(rows) == Names(subsets) by {
      forall s | s in subsets ensures s in SubsetsOf(rows) {
        assert s in scopes;
        var i :| 0 <= i < |scopes| && scopes[i] == s;
        assert rows[i].state.subset == s;
      }
      forall s | s in SubsetsOf(rows) ensures s in subsets {
        var i :| 0 <= i < |rows| && rows[i].state.subset == s;
        assert scopes[i] in scopes;
      }
    }
  }

  // ---- check: one owner ----

  function Initial(entry: Entry): Option<seq<State>> {
    if entry.states.None? then None else Some(StatesOf(entry.states.value))
  }

  ghost predicate Readable(env: Env) {
    && Encodable(env.database, env.header)
    && WellFormed(env.registry)
    && Strict(FromOwners(env.owners))
  }

  lemma {:induction false} HeadersFramable(env: Env, owner: Owner, subsets: seq<string>)
    requires Readable(env)
    ensures forall s :: s in subsets ==> Framing.Framable([env.header(owner, s)])
  {
    forall s | s in subsets ensures Framing.Framable([env.header(owner, s)]) {
      var rows := [env.header(owner, s)] + RowsIn(env.database, owner, s);
      assert Framing.Framable(rows) && rows[0] == env.header(owner, s);
    }
  }

  ghost function Subsets(env: Env, entry: Entry): seq<string>
    requires entry.owner.kind in env.registry.partitions
  {
    env.registry.partitions[entry.owner.kind]
  }

  ghost function StartOf(env: Env, entry: Entry): View
    requires Readable(env) && entry.owner.kind in env.registry.partitions
  {
    HeadersFramable(env, entry.owner, Subsets(env, entry));
    Start(entry.owner, Subsets(env, entry), Initial(entry), Empties(env.header, entry.owner, Subsets(env, entry)))
  }

  ghost function LinksOf(env: Env, entry: Entry): seq<AuditRow> {
    RowsFor(env.log, entry.owner, env.highwater)
  }

  ghost function NativeOf(env: Env, entry: Entry): seq<State>
    requires Readable(env) && entry.owner.kind in env.registry.partitions
  {
    StatesIn(env.database, env.header, entry.owner, Subsets(env, entry))
  }

  /** The owner's chain is accepted and its retained legacy projection has not drifted. */
  ghost predicate OwnerHolds(env: Env, entry: Entry)
    requires Readable(env) && entry.owner.kind in env.registry.partitions
  {
    && ChainHolds(StartOf(env, entry), entry.states.Some?, LinksOf(env, entry), NativeOf(env, entry), entry.owner,
                  Subsets(env, entry), env.registry)
    && env.legacyHolds(entry.owner, entry.states, OperationsOf(env, entry))
  }

  ghost function OperationsOf(env: Env, entry: Entry): set<string>
    requires Readable(env) && entry.owner.kind in env.registry.partitions
  {
    TouchingOperations(StartOf(env, entry), LinksOf(env, entry), entry.owner, env.registry)
  }

  ghost function LinksTouching(env: Env, entry: Entry, subset: string): seq<int>
    requires Readable(env) && entry.owner.kind in env.registry.partitions
  {
    TouchingIds(StartOf(env, entry), LinksOf(env, entry), entry.owner, subset, env.registry)
  }

  /** The rows one owner contributes: a status per partition in scope order, or a single blocking row. */
  ghost function OwnerRows(env: Env, entry: Entry): seq<Row>
    requires Readable(env) && entry.owner.kind in env.registry.partitions
  {
    if !OwnerHolds(env, entry) then [Row(Some(entry.owner), None, Blocking)]
    else
      var scopes := Sorted(Subsets(env, entry));
      seq(|scopes|, i requires 0 <= i < |scopes| =>
        Row(Some(entry.owner), Some(scopes[i]),
            if LinksTouching(env, entry, scopes[i]) != [] then Changed else Unchanged))
  }

  lemma {:induction false} ScopesAreSubsets(env: Env, entry: Entry)
    requires Readable(env) && entry.owner.kind in env.registry.partitions
    ensures var scopes := Sorted(Subsets(env, entry));
            && |scopes| == |Subsets(env, entry)|
            && (forall s :: s in scopes <==> s in Subsets(env, entry))
            && Ascending(scopes)
  {
    SortedKeepsNames(Subsets(env, entry));
    SameMembers(Sorted(Subsets(env, entry)), Subsets(env, entry));
    SortedAscends(Subsets(env, entry));
  }

  lemma {:induction false} NativeIndex(env: Env, entry: Entry, subset: string) returns (i: nat)
    requires Readable(env) && entry.owner.kind in env.registry.partitions && subset in Subsets(env, entry)
    ensures i < |NativeOf(env, entry)|
    ensures NativeOf(env, entry)[i] ==
              State(entry.owner, subset, EvidenceOf(env.database, env.header, entry.owner, subset), None)
  {
    var scopes := Sorted(Subsets(env, entry));
    ScopesAreSubsets(env, entry);
    assert subset in scopes;
    i :| 0 <= i < |scopes| && scopes[i] == subset;
  }

  lemma {:induction false} NativeSubsets(env: Env, entry: Entry)
    requires Readable(env) && entry.owner.kind in env.registry.partitions
    ensures SameSubsets(NativeOf(env, entry), Subsets(env, entry))
  {
    var native, scopes := NativeOf(env, entry), Sorted(Subsets(env, entry));
    ScopesAreSubsets(env, entry);
    var captured := set i | 0 <= i < |native| :: native[i].subset;
    forall s | s in Subsets(env, entry) ensures s in captured {
      assert s in scopes;
      var i :| 0 <= i < |scopes| && scopes[i] == s;
      assert native[i].subset == s;
    }
    forall s | s in captured ensures s in Subsets(env, entry) {
      var i :| 0 <= i < |native| && native[i].subset == s;
      assert scopes[i] in scopes;
    }
  }

  /** The replay of one owner inside the check. */
  method ReplayOwner(env: Env, entry: Entry) returns (result: Result<Report>)
    requires Readable(env) && entry.owner.kind in env.registry.partitions
    ensures result.Success? <==>
      ChainHolds(StartOf(env, entry), entry.states.Some?, LinksOf(env, entry), NativeOf(env, entry), entry.owner,
                 Subsets(env, entry), env.registry)
    ensures result.Success? ==>
      ReportOf(result.value, StartOf(env, entry), LinksOf(env, entry), NativeOf(env, entry), entry.owner, env.registry)
  {
    var owner, subsets := entry.owner, env.registry.partitions[entry.owner.kind];
    var captured := CaptureNative(env.database, env.header, owner, subsets);
    var native := captured.value;
    assert native == NativeOf(env, entry);
    NativeSubsets(env, entry);
    HeadersFramable(env, owner, subsets);
    result := OwnerChain(owner, subsets, Initial(entry), Empties(env.header, owner, subsets),
                         RowsFor(env.log, owner, env.highwater), native, env.registry);
  }

  method CheckOwner(env: Env, entry: Entry) returns (rows: seq<Row>, operations: set<string>)
    requires Readable(env) && entry.owner.kind in env.registry.partitions
    ensures rows == OwnerRows(env, entry)
    ensures operations == if OwnerHolds(env, entry) then OperationsOf(env, entry) else {}
  {
    var result := ReplayOwner(env, entry);
    if result.Failure? || !env.legacyHolds(entry.owner, entry.states, result.value.operations) {
      return [Row(Some(entry.owner), None, Blocking)], {};
    }
    var statuses := result.value.statuses;
    rows := seq(|statuses|, i requires 0 <= i < |statuses| =>
      Row(Some(entry.owner), Some(statuses[i].subset), if statuses[i].changed then Changed else Unchanged));
    operations := result.value.operations;
  }

  // ---- the running tally ----

  function CountsOf(rows: seq<Row>): Counts {
    if rows == [] then Counts(0, 0, 0)
    else
      var before := CountsOf(rows[..|rows| - 1]);
      match rows[|rows| - 1].status
      case Unchanged => before.(same := before.same + 1)
      case Changed => before.(changed := before.changed + 1)
      case Blocking => before.(blocking := before.blocking + 1)
  }

  function FirstRows(rows: seq<Row>): seq<Row> {
    if |rows| <= DETAIL_LIMIT then rows else rows[..DETAIL_LIMIT]
  }

  class Tally {
    var counts: Counts
    var results: seq<Row>
    ghost var emitted: seq<Row>

    ghost predicate Valid()
      reads this
    {
      counts == CountsOf(emitted) && results == FirstRows(emitted)
    }

    constructor ()
      ensures Valid() && emitted == []
    {
      counts, results, emitted := Counts(0, 0, 0), [], [];
    }

    /** Counts every row; keeps only the first of them. */
    method Emit(row: Row)
      requires Valid()
      modifies this
      ensures Valid() && emitted == old(emitted) + [row]
    {
      match row.status {
        case Unchanged => counts := counts.(same := counts.same + 1);
        case Changed => counts := counts.(changed := counts.changed + 1);
        case Blocking => counts := counts.(blocking := counts.blocking + 1);
      }
      if |results| < DETAIL_LIMIT {
        results := results + [row];
      }
      emitted := emitted + [row];
      assert emitted[..|emitted| - 1] == old(emitted);
    }

    method EmitAll(rows: seq<Row>)
      requires Valid()
      modifies this
      ensures Valid() && emitted == old(emitted) + rows
    {
      for i := 0 to |rows|
        invariant Valid() && emitted == old(emitted) + rows[..i]
      {
        Emit(rows[i]);
        assert rows[..i + 1] == rows[..i] + [rows[i]];
      }
      assert rows[..|rows|] == rows;
    }
  }

  ghost predicate Has(rows: seq<Row>, status: RowStatus) {
    exists i :: 0 <= i < |rows| && rows[i].status == status
  }

  lemma {:induction false} CountsFaithful(rows: seq<Row>)
    ensures CountsOf(rows).blocking > 0 <==> Has(rows, Blocking)
    ensures CountsOf(rows).changed > 0 <==> Has(rows, Changed)
    ensures CountsOf(rows).same + CountsOf(rows).changed + CountsOf(rows).blocking == |rows|
  {
    if rows != [] {
      var n := |rows| - 1;
      CountsFaithful(rows[..n]);
      forall s: RowStatus
        ensures Has(rows, s) <==> Has(rows[..n], s) || rows[n].status == s
      {
        if Has(rows[..n], s) {
          var i :| 0 <= i < n && rows[..n][i].status == s;
          assert rows[i].status == s;
        }
        if Has(rows, s) && rows[n].status != s {
          var i :| 0 <= i < |rows| && rows[i].status == s;
          assert rows[..n][i].status == s;
        }
      }
    }
  }

  // ---- check: the two passes ----

  /** The rows of the first pass: every owner outside the materialised view. */
  ghost function ExpectedRows(env: Env, entries: seq<Entry>): seq<Row>
    requires Readable(env) && forall i :: 0 <= i < |entries| ==> entries[i].owner.kind in env.registry.partitions
  {
    if entries == [] then []
    else
      var n := |entries| - 1;
      ExpectedRows(env, entries[..n]) + if entries[n].owner.kind == MV then [] else OwnerRows(env, entries[n])
  }

  function DisciplineOf(env: Env, entry: Entry): Option<string> {
    if entry.states.Some? && entry.states.value != [] then entry.states.value[0].discipline
    else env.authority(entry.owner)
  }

  /** A discipline with a match owner whose accepted chain has a touching link. */
  ghost predicate Evidenced(env: Env, entries: seq<Entry>, discipline: string)
    requires Readable(env) && forall i :: 0 <= i < |entries| ==> entries[i].owner.kind in env.registry.partitions
  {
    if entries == [] then false
    else
      var n := |entries| - 1;
      || Evidenced(env, entries[..n], discipline)
      || (&& entries[n].owner.kind == "match"
          && DisciplineOf(env, entries[n]) == Some(discipline)
          && OwnerHolds(env, entries[n])
          && OperationsOf(env, entries[n]) != {})
  }

  method OwnerPass(env: Env, entries: seq<Entry>) returns (rows: seq<Row>, disciplines: set<string>)
    requires Readable(env) && forall i :: 0 <= i < |entries| ==> entries[i].owner.kind in env.registry.partitions
    ensures rows == ExpectedRows(env, entries)
    ensures forall d :: d in disciplines <==> Evidenced(env, entries, d)
  {
    rows, disciplines := [], {};
    for n := 0 to |entries|
      invariant rows == ExpectedRows(env, entries[..n])
      invariant forall d :: d in disciplines <==> Evidenced(env, entries[..n], d)
    {
      var entry := entries[n];
      assert entries[..n + 1][..n] == entries[..n] && entries[..n + 1][n] == entry;
      if entry.owner.kind != MV {
        var ownerRows, operations := CheckOwner(env, entry);
        if operations != {} && entry.owner.kind == "match" && DisciplineOf(env, entry).Some? {
          disciplines := disciplines + {DisciplineOf(env, entry).value};
        }
        rows := rows + ownerRows;
      }
    }
    assert entries[..|entries|] == entries;
  }

  /** One materialised-view owner stops the pass with a blocking row. */
  predicate MvStops(env: Env, entry: Entry, disciplines: set<string>) {
    var outcome := env.mv(entry.owner, entry.states);
    outcome == InvalidMetadata || (outcome == Different && env.mvDiscipline(entry.owner) !in disciplines)
  }

  /** The rows of the second pass; `Failure` is the missing key that nothing catches. */
  function MvRows(env: Env, entries: seq<Entry>, disciplines: set<string>): Result<seq<Row>> {
    if !env.mvFresh then Success([Row(None, None, Blocking)]) else MvRowsFrom(env, entries, disciplines)
  }

  /** A blocking owner ends the pass; the owners behind it are not looked at. */
  function MvRowsFrom(env: Env, entries: seq<Entry>, disciplines: set<string>): Result<seq<Row>> {
    if entries == [] then Success([])
    else if entries[0].owner.kind != MV then MvRowsFrom(env, entries[1..], disciplines)
    else
      var outcome := env.mv(entries[0].owner, entries[0].states);
      if outcome == MissingValues then Failure("KeyError")
      else if MvStops(env, entries[0], disciplines) then Success([Row(None, None, Blocking)])
      else
        Behind([Row(Some(entries[0].owner), Some("derived_row"), if outcome == Different then Changed else Unchanged)],
               MvRowsFrom(env, entries[1..], disciplines))
  }

  function Behind(rows: seq<Row>, rest: Result<seq<Row>>): Result<seq<Row>> {
    if rest.Failure? then rest else Success(rows + rest.value)
  }

  lemma {:induction false} BehindTwice(rows: seq<Row>, more: seq<Row>, rest: Result<seq<Row>>)
    ensures Behind(rows, Behind(more, rest)) == Behind(rows + more, rest) && Behind([], rest) == rest
  {
    if rest.Success? {
      assert rows + (more + rest.value) == (rows + more) + rest.value;
      assert [] + rest.value == rest.value;
    }
  }

  method MvPass(env: Env, entries: seq<Entry>, disciplines: set<string>) returns (rows: seq<Row>, crashed: bool)
    ensures crashed <==> MvRows(env, entries, disciplines).Failure?
    ensures !crashed ==> rows == MvRows(env, entries, disciplines).value
  {
    rows, crashed := [], false;
    assert entries[0..] == entries;
    BehindTwice([], [], MvRowsFrom(env, entries, disciplines));
    if !env.mvFresh {
      rows := [Row(None, None, Blocking)];
      return;
    }
    for n := 0 to |entries|
      invariant !crashed
      invariant MvRowsFrom(env, entries, disciplines) == Behind(rows, MvRowsFrom(env, entries[n..], disciplines))
    {
      var entry := entries[n];
      assert entries[n..][0] == entry && entries[n..][1..] == entries[n + 1..];
      if entry.owner.kind == MV {
        var outcome := env.mv(entry.owner, entry.states);
        if outcome == MissingValues {
          return rows, true;
        }
        if MvStops(env, entry, disciplines) {
          rows := rows + [Row(None, None, Blocking)];
          return;
        }
        var status := if outcome == Different then Changed else Unchanged;
        BehindTwice(rows, [Row(Some(entry.owner), Some("derived_row"), status)],
          MvRowsFrom(env, entries[n + 1..], disciplines));
        rows := rows + [Row(Some(entry.owner), Some("derived_row"), status)];
      }
    }
  }

  /** What the second pass says: whether a view owner stops it, and whether one is different. */
  lemma {:induction false} MvRowsMean(env: Env, entries: seq<Entry>, disciplines: set<string>)
    requires MvRowsFrom(env, entries, disciplines).Success?
    ensures var rows := MvRowsFrom(env, entries, disciplines).value;
            && (!Has(rows, Blocking) <==>
                  forall i :: 0 <= i < |entries| && entries[i].owner.kind == MV ==>
                    !MvStops(env, entries[i], disciplines)
                      && env.mv(entries[i].owner, entries[i].states) in {Same, Different})
            && (!Has(rows, Blocking) ==>
                  (Has(rows, Changed) <==>
                     exists i :: 0 <= i < |entries| && entries[i].owner.kind == MV
                                 && env.mv(entries[i].owner, entries[i].states) == Different))
  {
    if entries != [] {
      var rest := entries[1..];
      assert entries == [entries[0]] + rest;
      if entries[0].owner.kind != MV {
        MvRowsMean(env, rest, disciplines);
      } else if MvStops(env, entries[0], disciplines) {
        assert MvRowsFrom(env, entries, disciplines).value[0].status == Blocking;
      } else {
        MvRowsMean(env, rest, disciplines);
        var head := [Row(Some(entries[0].owner), Some("derived_row"),
                         if env.mv(entries[0].owner, entries[0].states) == Different then Changed else Unchanged)];
        HasConcat(head, MvRowsFrom(env, rest, disciplines).value, Blocking);
        HasConcat(head, MvRowsFrom(env, rest, disciplines).value, Changed);
        assert head[0].status == Changed || head[0].status == Unchanged;
      }
      assert forall i :: 0 <= i < |rest| ==> rest[i] == entries[i + 1];
      assert forall i :: 0 < i < |entries| ==> entries[i] == rest[i - 1];
    }
  }

  lemma {:induction false} HasConcat(a: seq<Row>, b: seq<Row>, s: RowStatus)
    ensures Has(a + b, s) <==> Has(a, s) || Has(b, s)
  {
    if Has(a, s) {
      var i :| 0 <= i < |a| && a[i].status == s;
      assert (a + b)[i].status == s;
    }
    if Has(b, s) {
      var i :| 0 <= i < |b| && b[i].status == s;
      assert (a + b)[|a| + i].status == s;
    }
    if Has(a + b, s) {
      var i :| 0 <= i < |a + b| && (a + b)[i].status == s;
      if i < |a| { assert a[i].status == s; } else { assert b[i - |a|].status == s; }
    }
  }

  // ---- what exit code 0 proves ----

  /** A receipt row whose partition is, now, in exactly the recorded state. */
  ghost predicate StillCurrent(env: Env, saved: SavedState)
    requires Readable(env)
  {
    EvidenceOf(env.database, env.header, saved.state.owner, saved.state.subset) == saved.state.evidence
  }

  /** Outside the materialised view: every receipt row is current, and no named owner is missing from the receipt. */
  ghost predicate Reconciled(env: Env, lines: seq<Line>)
    requires Readable(env)
  {
    && (forall i :: 0 <= i < |lines| && lines[i].Parsed? && lines[i].saved.state.owner.kind != MV ==>
          StillCurrent(env, lines[i].saved))
    && (forall k :: 0 <= k < |env.owners| && env.owners[k].kind != MV ==>
          exists i :: 0 <= i < |lines| && lines[i].Parsed? && lines[i].saved.state.owner == env.owners[k])
  }

  /** In a list of distinct partitions every entry is what the view holds. */
  lemma {:induction false} ViewOfDistinct(states: seq<State>, owner: Owner, k: nat)
    requires k < |states| && states[k].owner == owner
    requires forall i, j :: 0 <= i < j < |states| ==> states[i].subset != states[j].subset
    ensures states[k].subset in ViewOf(states, owner) && ViewOf(states, owner)[states[k].subset] == states[k].evidence
  {
    var n := |states| - 1;
    if k < n {
      ViewOfDistinct(states[..n], owner, k);
    }
  }

  /** An owner without a touching link is in the receipt. */
  lemma {:induction false} QuietOwnerIsInReceipt(env: Env, entry: Entry)
    requires Readable(env) && entry.owner.kind in env.registry.partitions && Quiet(env, entry)
    ensures entry.states.Some?
  {
    forall s | s in Subsets(env, entry)
      ensures TouchingIds(StartOf(env, entry), LinksOf(env, entry), entry.owner, s, env.registry) == []
    {
      assert LinksTouching(env, entry, s) == [];
    }
  }

  /** Sorted rows of one owner are what its starting view holds. */
  lemma {:induction false} InitialView(env: Env, entry: Entry, k: nat)
    requires Readable(env) && entry.owner.kind in env.registry.partitions
    requires entry.states.Some? && k < |entry.states.value|
    requires OwnRows(Group(entry.owner, entry.states.value)) && SortedRows(entry.states.value)
    ensures var state := entry.states.value[k].state;
            state.subset in StartOf(env, entry) && StartOf(env, entry)[state.subset] == state.evidence
  {
    var rows := entry.states.value;
    var states := StatesOf(rows);
    forall i, j | 0 <= i < j < |states| ensures states[i].subset != states[j].subset {
      assert ScopeLess(rows[i].state, rows[j].state);
      OwnerTrichotomy(entry.owner, entry.owner);
      Irreflexive(states[i].subset);
    }
    ViewOfDistinct(states, entry.owner, k);
  }

  /** Each receipt row of an owner without a touching link is current. */
  lemma {:induction false} QuietOwnerIsCurrent(env: Env, entry: Entry, saved: SavedState)
    requires Readable(env) && entry.owner.kind in env.registry.partitions && Quiet(env, entry)
    requires entry.states.Some? && saved in entry.states.value
    requires OwnRows(Group(entry.owner, entry.states.value)) && SortedRows(entry.states.value)
    requires GroupComplete(entry.states.value, env.registry)
    ensures StillCurrent(env, saved)
  {
    var rows := entry.states.value;
    var k :| 0 <= k < |rows| && rows[k] == saved;
    InitialView(env, entry, k);
    var subset := saved.state.subset;
    assert subset in SubsetsOf(rows);
    var i := NativeIndex(env, entry, subset);
    assert LinksTouching(env, entry, subset) == [];
    UnchangedMeansInitial(StartOf(env, entry), LinksOf(env, entry), NativeOf(env, entry), entry.owner,
                          Names(Subsets(env, entry)), env.registry, i);
  }

  /** The first pass has the rows of each owner outside the materialised view, and no others. */
  lemma {:induction false} RowsAreExpected(env: Env, entries: seq<Entry>, k: nat, row: Row)
    requires Readable(env) && forall i :: 0 <= i < |entries| ==> entries[i].owner.kind in env.registry.partitions
    requires k < |entries| && entries[k].owner.kind != MV && row in OwnerRows(env, entries[k])
    ensures row in ExpectedRows(env, entries)
  {
    var n := |entries| - 1;
    if k < n {
      RowsAreExpected(env, entries[..n], k, row);
    }
  }

  lemma {:induction false} ExpectedRowOwner(env: Env, entries: seq<Entry>, row: Row) returns (k: nat)
    requires Readable(env) && forall i :: 0 <= i < |entries| ==> entries[i].owner.kind in env.registry.partitions
    requires row in ExpectedRows(env, entries)
    ensures k < |entries| && entries[k].owner.kind != MV && row in OwnerRows(env, entries[k])
  {
    var n := |entries| - 1;
    if entries[n].owner.kind != MV && row in OwnerRows(env, entries[n]) {
      k := n;
    } else {
      k := ExpectedRowOwner(env, entries[..n], row);
    }
  }

  lemma {:induction false} FailingOwnerBlocks(env: Env, entry: Entry)
    requires Readable(env) && entry.owner.kind in env.registry.partitions && !OwnerHolds(env, entry)
    ensures Row(Some(entry.owner), None, Blocking) in OwnerRows(env, entry)
  {
  }

  lemma {:induction false} OwnerUnchanged(env: Env, entry: Entry)
    requires Readable(env) && entry.owner.kind in env.registry.partitions
    ensures (forall row :: row in OwnerRows(env, entry) ==> row.status == Unchanged) <==> Quiet(env, entry)
  {
    var rows, scopes := OwnerRows(env, entry), Sorted(Subsets(env, entry));
    ScopesAreSubsets(env, entry);
    if !OwnerHolds(env, entry) {
      FailingOwnerBlocks(env, entry);
    } else {
      forall i | 0 <= i < |scopes|
        ensures rows[i] in rows && scopes[i] in scopes
        ensures rows[i].status == Unchanged <==> LinksTouching(env, entry, scopes[i]) == []
      {
      }
    }
  }

  /** The owner holds, and no link touched any of its partitions. */
  ghost predicate Quiet(env: Env, entry: Entry)
    requires Readable(env) && entry.owner.kind in env.registry.partitions
  {
    && OwnerHolds(env, entry)
    && forall s :: s in Subsets(env, entry) ==> LinksTouching(env, entry, s) == []
  }

  /** Every owner outside the materialised view is quiet. */
  ghost predicate AllQuiet(env: Env, entries: seq<Entry>)
    requires Readable(env) && forall i :: 0 <= i < |entries| ==> entries[i].owner.kind in env.registry.partitions
  {
    forall i :: 0 <= i < |entries| && entries[i].owner.kind != MV ==> Quiet(env, entries[i])
  }

  lemma {:induction false} AllUnchanged(rows: seq<Row>)
    ensures !Has(rows, Blocking) && !Has(rows, Changed) <==> forall row :: row in rows ==> row.status == Unchanged
  {
    if !Has(rows, Blocking) && !Has(rows, Changed) {
      forall row | row in rows
        ensures row.status == Unchanged
      {
        var i :| 0 <= i < |rows| && rows[i] == row;
        assert rows[i].status != Blocking && rows[i].status != Changed;
      }
    }
  }

  lemma {:induction false} QuietIffUnchanged(env: Env, entries: seq<Entry>)
    requires Readable(env) && forall i :: 0 <= i < |entries| ==> entries[i].owner.kind in env.registry.partitions
    ensures AllQuiet(env, entries) <==>
            !Has(ExpectedRows(env, entries), Blocking) && !Has(ExpectedRows(env, entries), Changed)
  {
    AllUnchanged(ExpectedRows(env, entries));
    if AllQuiet(env, entries) {
      forall row | row in ExpectedRows(env, entries)
        ensures row.status == Unchanged
      {
        var k := ExpectedRowOwner(env, entries, row);
        OwnerUnchanged(env, entries[k]);
      }
    } else {
      var k :| 0 <= k < |entries| && entries[k].owner.kind != MV && !Quiet(env, entries[k]);
      OwnerUnchanged(env, entries[k]);
      var row :| row in OwnerRows(env, entries[k]) && row.status != Unchanged;
      RowsAreExpected(env, entries, k, row);
    }
  }

  /** The owners whose kinds the registry knows; the query loop raises on any other. */
  predicate KindsKnown(env: Env) {
    forall i :: 0 <= i < |env.owners| ==> env.owners[i].kind in env.registry.partitions
  }

  lemma {:induction false} LookupGroup(groups: seq<Group>, owner: Owner) returns (g: nat)
    requires Lookup(FromGroups(groups), owner).Some?
    ensures g < |groups| && groups[g].owner == owner
            && Lookup(FromGroups(groups), owner) == Some(groups[g].rows)
  {
    assert FromGroups(groups)[1..] == FromGroups(groups[1..]);
    if groups[0].owner == owner {
      g := 0;
    } else {
      var k := LookupGroup(groups[1..], owner);
      g := k + 1;
    }
  }

  lemma {:induction false} JoinedKinds(env: Env, lines: seq<Line>, groups: seq<Group>, joined: seq<Entry>, i: nat)
    requires forall j :: 0 <= j < |lines| ==> lines[j].Parsed?
    requires Partitions(groups, RowsOf(lines), env.registry) && KindsKnown(env)
    requires OuterJoin(FromGroups(groups), FromOwners(env.owners), joined) && i < |joined|
    ensures joined[i].owner.kind in env.registry.partitions
  {
    assert joined[i].owner in OwnersOf(joined);
    if joined[i].owner in OwnersOf(FromGroups(groups)) {
      var g :| 0 <= g < |groups| && FromGroups(groups)[g].owner == joined[i].owner;
      assert groups[g].rows[0].state.owner == joined[i].owner;
    }
  }

  /** Only unchanged rows in the first pass: the whole database agrees with the receipt. */
  lemma {:induction false} UnchangedReconciles(env: Env, lines: seq<Line>, groups: seq<Group>, joined: seq<Entry>)
    requires Readable(env) && KindsKnown(env) && ValidReceipt(lines, env.registry)
    requires Partitions(groups, RowsOf(lines), env.registry)
    requires OuterJoin(FromGroups(groups), FromOwners(env.owners), joined)
    requires forall i :: 0 <= i < |joined| ==> joined[i].owner.kind in env.registry.partitions
    requires AllQuiet(env, joined)
    ensures Reconciled(env, lines)
  {
    forall i | 0 <= i < |lines| && lines[i].saved.state.owner.kind != MV
      ensures StillCurrent(env, lines[i].saved)
    {
      LineIsCurrent(env, lines, groups, joined, i);
    }
    forall n | 0 <= n < |env.owners| && env.owners[n].kind != MV
      ensures exists i :: 0 <= i < |lines| && lines[i].Parsed? && lines[i].saved.state.owner == env.owners[n]
    {
      var i := NamedOwnerHasLine(env, lines, groups, joined, n);
    }
  }

  lemma {:induction false} LineIsCurrent(env: Env, lines: seq<Line>, groups: seq<Group>, joined: seq<Entry>, i: nat)
    requires Readable(env) && ValidReceipt(lines, env.registry)
    requires Partitions(groups, RowsOf(lines), env.registry)
    requires OuterJoin(FromGroups(groups), FromOwners(env.owners), joined)
    requires forall j :: 0 <= j < |joined| ==> joined[j].owner.kind in env.registry.partitions
    requires AllQuiet(env, joined) && i < |lines| && lines[i].saved.state.owner.kind != MV
    ensures StillCurrent(env, lines[i].saved)
  {
    assert RowsOf(lines)[i] == lines[i].saved;
    var g := FlattenRow(groups, i);
    var owner := groups[g].owner;
    assert FromGroups(groups)[g].owner in OwnersOf(joined);
    var k :| 0 <= k < |joined| && joined[k].owner == owner;
    LookupSelf(FromGroups(groups), g);
    EntryIsCurrent(env, groups, joined, k, lines);
  }

  lemma {:induction false} NamedOwnerHasLine(env: Env, lines: seq<Line>, groups: seq<Group>, joined: seq<Entry>, n: nat)
    returns (i: nat)
    requires Readable(env) && ValidReceipt(lines, env.registry)
    requires Partitions(groups, RowsOf(lines), env.registry)
    requires OuterJoin(FromGroups(groups), FromOwners(env.owners), joined)
    requires forall j :: 0 <= j < |joined| ==> joined[j].owner.kind in env.registry.partitions
    requires AllQuiet(env, joined) && n < |env.owners| && env.owners[n].kind != MV
    ensures i < |lines| && lines[i].saved.state.owner == env.owners[n]
  {
    assert FromOwners(env.owners)[n].owner in OwnersOf(joined);
    var k :| 0 <= k < |joined| && joined[k].owner == env.owners[n];
    EntryIsCurrent(env, groups, joined, k, lines);
    assert joined[k].states == Lookup(FromGroups(groups), joined[k].owner);
    var g := LookupGroup(groups, joined[k].owner);
    i := LineOf(lines, groups, g);
  }

  /** Some line of the file belongs to each group. */
  lemma {:induction false} LineOf(lines: seq<Line>, groups: seq<Group>, g: nat) returns (i: nat)
    requires forall j :: 0 <= j < |lines| ==> lines[j].Parsed?
    requires Flatten(groups) == RowsOf(lines) && g < |groups| && OwnerJoin.OwnRows(groups[g])
    ensures i < |lines| && lines[i].saved.state.owner == groups[g].owner
  {
    i := FlattenIndex(groups, g);
    assert RowsOf(lines)[i] == lines[i].saved;
  }

  lemma {:induction false} FlattenIndex(groups: seq<Group>, g: nat) returns (i: nat)
    requires g < |groups| && OwnerJoin.OwnRows(groups[g])
    ensures i < |Flatten(groups)| && Flatten(groups)[i].state.owner == groups[g].owner
  {
    var n := |groups| - 1;
    if g < n {
      i := FlattenIndex(groups[..n], g);
    } else {
      i := |Flatten(groups[..n])|;
      assert Flatten(groups)[i] == groups[n].rows[0];
    }
  }

  lemma {:induction false} EntryIsCurrent(env: Env, groups: seq<Group>, joined: seq<Entry>, k: nat, lines: seq<Line>)
    requires Readable(env) && ValidReceipt(lines, env.registry)
    requires Partitions(groups, RowsOf(lines), env.registry)
    requires OuterJoin(FromGroups(groups), FromOwners(env.owners), joined)
    requires forall i :: 0 <= i < |joined| ==> joined[i].owner.kind in env.registry.partitions
    requires AllQuiet(env, joined) && k < |joined| && joined[k].owner.kind != MV
    ensures joined[k].states.Some?
    ensures forall saved :: saved in joined[k].states.value ==> StillCurrent(env, saved)
  {
    assert Quiet(env, joined[k]);
    assert joined[k].states == Lookup(FromGroups(groups), joined[k].owner);
    if joined[k].states.Some? {
      var g := LookupGroup(groups, joined[k].owner);
      SavedSorted(lines);
      GroupSorted(groups, g);
      forall saved | saved in joined[k].states.value ensures StillCurrent(env, saved) {
        QuietOwnerIsCurrent(env, joined[k], saved);
      }
    } else {
      QuietOwnerIsInReceipt(env, joined[k]);
    }
  }

  lemma {:induction false} SavedSorted(lines: seq<Line>)
    requires forall i :: 0 <= i < |lines| ==> lines[i].Parsed?
    requires forall i, j :: 0 <= i < j < |lines| ==> ScopeLess(lines[i].saved.state, lines[j].saved.state)
    ensures SortedRows(RowsOf(lines))
  {
  }

  function ExitCode(counts: Counts): nat {
    if counts.blocking > 0 then 1 else if counts.changed > 0 then 2 else 0
  }

  /** The prechecks pass, every named owner is of a known kind, and the reader accepts the file. */
  ghost predicate Streams(env: Env, lines: seq<Line>) {
    env.precheckPasses && KindsKnown(env) && ValidReceipt(lines, env.registry)
  }

  /** Every row is unchanged. */
  lemma {:induction false} QuietExactly(env: Env, entries: seq<Entry>, disciplines: set<string>)
    requires Readable(env) && forall i :: 0 <= i < |entries| ==> entries[i].owner.kind in env.registry.partitions
    requires MvRows(env, entries, disciplines).Success?
    ensures var rows := ExpectedRows(env, entries) + MvRows(env, entries, disciplines).value;
            !Has(rows, Blocking) && !Has(rows, Changed) <==>
            && AllQuiet(env, entries)
            && env.mvFresh
            && forall i :: 0 <= i < |entries| && entries[i].owner.kind == MV ==>
                 env.mv(entries[i].owner, entries[i].states) == Same
  {
    var mv := MvRows(env, entries, disciplines).value;
    HasConcat(ExpectedRows(env, entries), mv, Blocking);
    HasConcat(ExpectedRows(env, entries), mv, Changed);
    QuietIffUnchanged(env, entries);
    if env.mvFresh {
      MvRowsMean(env, entries, disciplines);
    } else {
      assert mv[0].status == Blocking;
    }
  }

  /**
   The whole check. `Failure` is an exception that reaches the command line (which exits with 1).
   Otherwise the exit code is decided by every row, however many there are: 1 as soon as one blocks,
   else 2 as soon as one changed, else 0; and 0 reconciles the whole database with the receipt.
   */
  method CheckReceipt(env: Env, lines: seq<Line>)
    returns (result: Result<Verdict>, rows: seq<Row>, ghost joined: seq<Entry>, ghost groups: seq<Group>,
             ghost disciplines: set<string>)
    requires Readable(env)
    ensures Streams(env, lines) ==>
      && Partitions(groups, RowsOf(lines), env.registry)
      && OuterJoin(FromGroups(groups), FromOwners(env.owners), joined)
      && (forall i :: 0 <= i < |joined| ==> joined[i].owner.kind in env.registry.partitions)
      && (forall d :: d in disciplines <==> Evidenced(env, joined, d))
    ensures result.Success? <==> Streams(env, lines) && MvRows(env, joined, disciplines).Success?
    ensures result.Success? ==> rows == ExpectedRows(env, joined) + MvRows(env, joined, disciplines).value
    ensures result.Success? ==> result.value.counts == CountsOf(rows) && result.value.details == FirstRows(rows)
    ensures result.Success? ==> (result.value.exitCode == 1 <==> Has(rows, Blocking))
    ensures result.Success? ==> (result.value.exitCode == 2 <==> !Has(rows, Blocking) && Has(rows, Changed))
    ensures result.Success? ==> result.value.exitCode in {0, 1, 2}
    ensures result.Success? && result.value.exitCode == 0 ==> Reconciled(env, lines)
    ensures result.Success? ==> (result.value.exitCode == 0 <==>
      && AllQuiet(env, joined)
      && env.mvFresh
      && forall i :: 0 <= i < |joined| && joined[i].owner.kind == MV ==>
           env.mv(joined[i].owner, joined[i].states) == Same)
  {
    rows, joined, groups, disciplines := [], [], [], {};
    if !env.precheckPasses {
      return Failure("precheck"), rows, joined, groups, disciplines;
    }
    var read, ok := SavedOwners(lines, env.registry);
    if !ok || !KindsKnown(env) {
      return Failure("receipt or owner stream"), rows, joined, groups, disciplines;
    }
    groups := read;
    var entries := AllOwners(read, env.owners);
    joined := entries;
    forall i | 0 <= i < |entries| ensures entries[i].owner.kind in env.registry.partitions {
      JoinedKinds(env, lines, read, entries, i);
    }
    var ownerRows, evidenced := OwnerPass(env, entries);
    disciplines := evidenced;
    var mvRows, crashed := MvPass(env, entries, evidenced);
    if crashed {
      return Failure("KeyError"), rows, joined, groups, disciplines;
    }
    rows := ownerRows + mvRows;
    CountsFaithful(rows);
    QuietExactly(env, entries, evidenced);
    if !Has(rows, Blocking) && !Has(rows, Changed) {
      UnchangedReconciles(env, lines, read, entries);
    }
    var verdict := Summarise(rows);
    result := Success(verdict);
  }

  method Summarise(rows: seq<Row>) returns (verdict: Verdict)
    ensures verdict.counts == CountsOf(rows) && verdict.details == FirstRows(rows)
    ensures verdict.exitCode == ExitCode(CountsOf(rows))
    ensures verdict.truncated <==> |rows| > DETAIL_LIMIT
  {
    var tally := new Tally();
    tally.EmitAll(rows);
    assert tally.emitted == rows;
    CountsFaithful(rows);
    var counts := tally.counts;
    var code := ExitCode(counts);
    verdict := Verdict(code, counts, tally.results, counts.same + counts.changed + counts.blocking > |tally.results|);
  }

  /**
   End to end: a receipt that records database `before`, checked later against `env.database` with every
   owner of it named, exits with 0 only if, outside the materialised view, both databases have the same
   owners and the same rows in every partition.
   */
  lemma {:induction false} ReconciledMeansSameDatabase(before: Database, env: Env, lines: seq<Line>, groups: seq<Group>,
                                                       owner: Owner)
    requires Readable(env) && ValidReceipt(lines, env.registry)
    requires Partitions(groups, RowsOf(lines), env.registry) && Records(groups, before, env.header, env.registry)
    requires forall o :: o in env.database ==> o in env.owners
    requires Reconciled(env, lines)
    requires owner.kind != MV && owner.kind in env.registry.partitions
    ensures owner in before <==> owner in env.database
    ensures forall s :: s in env.registry.partitions[owner.kind] ==>
      RowsIn(before, owner, s) == RowsIn(env.database, owner, s)
  {
    if owner in env.database {
      var k :| 0 <= k < |env.owners| && env.owners[k] == owner;
      var i :| 0 <= i < |lines| && lines[i].Parsed? && lines[i].saved.state.owner == owner;
      assert RowsOf(lines)[i] == lines[i].saved;
      var g := FlattenRow(groups, i);
    }
    if owner in before {
      var g :| 0 <= g < |groups| && groups[g].owner == owner;
      var subsets := env.registry.partitions[owner.kind];
      forall s | s in subsets
        ensures owner in env.database && RowsIn(before, owner, s) == RowsIn(env.database, owner, s)
      {
        SameRowsOf(before, env, lines, groups, g, s);
      }
      assert subsets[0] in subsets;
    }
  }

  /** A recorded partition that is still current has the rows it was recorded with. */
  lemma {:induction false} SameRowsOf(before: Database, env: Env, lines: seq<Line>, groups: seq<Group>, g: nat,
                                      s: string)
    requires Readable(env) && ValidReceipt(lines, env.registry)
    requires Partitions(groups, RowsOf(lines), env.registry) && Records(groups, before, env.header, env.registry)
    requires Reconciled(env, lines) && g < |groups| && groups[g].owner.kind != MV
    requires groups[g].owner.kind in env.registry.partitions && s in env.registry.partitions[groups[g].owner.kind]
    ensures var owner := groups[g].owner;
            owner in env.database && RowsIn(before, owner, s) == RowsIn(env.database, owner, s)
  {
    var owner := groups[g].owner;
    var subsets := env.registry.partitions[owner.kind];
    var scopes := Sorted(subsets);
    SortedKeepsNames(subsets);
    SameMembers(scopes, subsets);
    assert s in scopes;
    var n :| 0 <= n < |scopes| && scopes[n] == s;
    assert |StatesOf(groups[g].rows)| == |scopes|;
    var saved := groups[g].rows[n];
    assert StatesOf(groups[g].rows)[n] == saved.state;
    RecordedLine(lines, groups, g, saved);
    var i :| 0 <= i < |lines| && lines[i].saved == saved;
    assert StillCurrent(env, saved);
    Framing.DigestBindsRows(env.header(owner, s), RowsIn(before, owner, s),
                            env.header(owner, s), RowsIn(env.database, owner, s));
  }

  lemma {:induction false} RecordedLine(lines: seq<Line>, groups: seq<Group>, g: nat, saved: SavedState)
    requires forall j :: 0 <= j < |lines| ==> lines[j].Parsed?
    requires Flatten(groups) == RowsOf(lines) && g < |groups| && saved in groups[g].rows
    ensures exists i :: 0 <= i < |lines| && lines[i].saved == saved
  {
    FlattenHas(groups, g, saved);
    var i :| 0 <= i < |RowsOf(lines)| && RowsOf(lines)[i] == saved;
    assert lines[i].saved == saved;
  }

  lemma {:induction false} FlattenHas(groups: seq<Group>, g: nat, saved: SavedState)
    requires g < |groups| && saved in groups[g].rows
    ensures saved in Flatten(groups)
  {
    if g < |groups| - 1 {
      FlattenHas(groups[..|groups| - 1], g, saved);
    }
  }

  // ---- a capture and a later check ----

  /** Outside the materialised view: the same owners, with the same rows in every partition. */
  ghost predicate SameOutsideView(before: Database, after: Database, registry: Registry) {
    forall owner: Owner :: owner.kind != MV ==>
      && (owner in before <==> owner in after)
      && (owner in before ==> owner.kind in registry.partitions)
      && (owner in before ==> forall s :: s in registry.partitions[owner.kind] ==>
            RowsIn(before, owner, s) == RowsIn(after, owner, s))
  }

  /** Receipt rows as a capture writes them for one owner. */
  ghost predicate Recorded(before: Database, header: (Owner, string) -> Framing.Bytes, registry: Registry,
                           authority: Owner -> Option<string>, owner: Owner, rows: seq<SavedState>)
    requires Encodable(before, header)
  {
    && owner in before && owner.kind in registry.partitions
    && StatesOf(rows) == StatesIn(before, header, owner, registry.partitions[owner.kind])
    && forall i :: 0 <= i < |rows| ==> RowOk(rows[i]) && Dressed(Parsed(rows[i]), authority)
  }

  /**
   The check meets the database as it was captured, with no audit row since. The comparisons with the legacy
   tables and with the view find the captured rows, and only of these this is asked, as they are now.
   */
  ghost predicate Untouched(before: Database, owners: seq<Owner>, authority: Owner -> Option<string>, env: Env)
    requires Encodable(before, env.header)
  {
    && env.database == before && env.owners == owners
    && (forall i :: 0 <= i < |env.log| ==> env.log[i].id <= env.highwater)
    && env.precheckPasses && env.mvFresh
    && (forall owner, rows :: Recorded(before, env.header, env.registry, authority, owner, rows) ==>
          env.legacyHolds(owner, Some(rows), {}))
    && (forall owner, rows :: Recorded(before, env.header, env.registry, authority, owner, rows) && owner.kind == MV ==>
          env.mv(owner, Some(rows)) == Same)
  }

  lemma {:induction false} NoLaterLinks(log: seq<AuditRow>, owner: Owner, highwater: int)
    requires forall i :: 0 <= i < |log| ==> log[i].id <= highwater
    ensures RowsFor(log, owner, highwater) == []
  {
    if log != [] {
      NoLaterLinks(log[1..], owner, highwater);
    }
  }

  /** Where no view owner misses a value, no missing key is raised. */
  lemma {:induction false} ComparedViewPasses(env: Env, entries: seq<Entry>, disciplines: set<string>)
    requires forall i :: 0 <= i < |entries| && entries[i].owner.kind == MV ==>
      env.mv(entries[i].owner, entries[i].states) != MissingValues
    ensures MvRowsFrom(env, entries, disciplines).Success?
  {
    if entries != [] {
      assert forall i :: 0 <= i < |entries| - 1 ==> entries[1..][i] == entries[i + 1];
      ComparedViewPasses(env, entries[1..], disciplines);
    }
  }

  /** An owner whose receipt states are its native states, with no later link, is quiet. */
  lemma {:induction false} UntouchedOwnerIsQuiet(env: Env, entry: Entry)
    requires Readable(env) && entry.owner.kind in env.registry.partitions
    requires entry.states.Some? && StatesOf(entry.states.value) == NativeOf(env, entry)
    requires OwnRows(Group(entry.owner, entry.states.value)) && SortedRows(entry.states.value)
    requires LinksOf(env, entry) == [] && env.legacyHolds(entry.owner, entry.states, {})
    ensures Quiet(env, entry)
  {
    var native, start := NativeOf(env, entry), StartOf(env, entry);
    forall i | 0 <= i < |native|
      ensures native[i].subset in start && start[native[i].subset] == native[i].evidence
    {
      assert StatesOf(entry.states.value)[i] == entry.states.value[i].state;
      InitialView(env, entry, i);
    }
    assert Lands(End(start, [], entry.owner), native);
  }

  /** Two readings of one file have the same rows for an owner. */
  lemma {:induction false} SameGroupRows(lines: seq<Line>, captured: seq<Group>, read: seq<Group>, registry: Registry,
                                         g: nat)
    returns (c: nat)
    requires forall i :: 0 <= i < |lines| ==> lines[i].Parsed?
    requires Partitions(captured, RowsOf(lines), registry) && Partitions(read, RowsOf(lines), registry)
    requires g < |read|
    ensures c < |captured| && captured[c] == read[g]
  {
    var i := LineOf(lines, read, g);
    assert RowsOf(lines)[i] == lines[i].saved;
    c := FlattenRow(captured, i);
    GroupIsWhole(captured, c);
    GroupIsWhole(read, g);
  }

  /** Every owner of the database that was captured has its group in the file. */
  lemma {:induction false} RecordedOwner(lines: seq<Line>, captured: seq<Group>, read: seq<Group>, before: Database,
                                         header: (Owner, string) -> Framing.Bytes, registry: Registry, owner: Owner)
    returns (g: nat)
    requires forall i :: 0 <= i < |lines| ==> lines[i].Parsed?
    requires Partitions(captured, RowsOf(lines), registry) && Partitions(read, RowsOf(lines), registry)
    requires Records(captured, before, header, registry) && owner in before
    ensures g < |read| && read[g].owner == owner
  {
    var c :| 0 <= c < |captured| && captured[c].owner == owner;
    g := SameGroupRows(lines, read, captured, registry, c);
  }

  /** The rows of a group are lines of the file, checked and dressed. */
  lemma {:induction false} GroupRowsAreLines(lines: seq<Line>, registry: Registry, authority: Owner -> Option<string>,
                                             read: seq<Group>, g: nat, i: nat)
    requires ValidReceipt(lines, registry) && forall j :: 0 <= j < |lines| ==> Dressed(lines[j], authority)
    requires Flatten(read) == RowsOf(lines) && g < |read| && i < |read[g].rows|
    ensures RowOk(read[g].rows[i]) && Dressed(Parsed(read[g].rows[i]), authority)
  {
    RecordedLine(lines, read, g, read[g].rows[i]);
    var n :| 0 <= n < |lines| && lines[n].saved == read[g].rows[i];
    assert lines[n] == Parsed(lines[n].saved);
  }

  /** What the check reads back for an owner is what the capture recorded for it. */
  lemma {:induction false} EntryIsRecorded(before: Database, owners: seq<Owner>, authority: Owner -> Option<string>,
                                           env: Env, lines: seq<Line>, captured: seq<Group>, read: seq<Group>,
                                           joined: seq<Entry>, k: nat)
    requires ValidReceipt(lines, env.registry) && forall j :: 0 <= j < |lines| ==> Dressed(lines[j], authority)
    requires Partitions(captured, RowsOf(lines), env.registry) && Partitions(read, RowsOf(lines), env.registry)
    requires Records(captured, before, env.header, env.registry)
    requires env.owners == owners && forall o :: o in owners <==> o in before
    requires OuterJoin(FromGroups(read), FromOwners(env.owners), joined) && k < |joined|
    ensures var entry := joined[k];
            && entry.states.Some?
            && Recorded(before, env.header, env.registry, authority, entry.owner, entry.states.value)
            && OwnRows(Group(entry.owner, entry.states.value)) && SortedRows(entry.states.value)
  {
    var entry := joined[k];
    assert entry.owner in OwnersOf(joined);
    var g: nat;
    if entry.owner in OwnersOf(FromGroups(read)) {
      g :| 0 <= g < |read| && FromGroups(read)[g].owner == entry.owner;
    } else {
      var n :| 0 <= n < |owners| && FromOwners(env.owners)[n].owner == entry.owner;
      assert owners[n] in owners;
      g := RecordedOwner(lines, captured, read, before, env.header, env.registry, entry.owner);
    }
    LookupSelf(FromGroups(read), g);
    GroupIsRecorded(before, authority, env.header, env.registry, lines, captured, read, g);
  }

  lemma {:induction false} GroupIsRecorded(before: Database, authority: Owner -> Option<string>,
                                           header: (Owner, string) -> Framing.Bytes, registry: Registry,
                                           lines: seq<Line>, captured: seq<Group>, read: seq<Group>, g: nat)
    requires ValidReceipt(lines, registry) && forall j :: 0 <= j < |lines| ==> Dressed(lines[j], authority)
    requires Partitions(captured, RowsOf(lines), registry) && Partitions(read, RowsOf(lines), registry)
    requires Records(captured, before, header, registry) && g < |read|
    ensures Recorded(before, header, registry, authority, read[g].owner, read[g].rows)
    ensures OwnRows(read[g]) && SortedRows(read[g].rows)
  {
    var c := SameGroupRows(lines, captured, read, registry, g);
    SavedSorted(lines);
    GroupSorted(read, g);
    forall i | 0 <= i < |read[g].rows| ensures RowOk(read[g].rows[i]) && Dressed(Parsed(read[g].rows[i]), authority) {
      GroupRowsAreLines(lines, registry, authority, read, g, i);
    }
  }

  /**
   What the view's comparison finds in a captured row: a named value that is the digest of the rows the
   database had, so a comparison with a database that still has them finds no difference.
   */
  lemma {:induction false} RecordedViewCompares(before: Database, header: (Owner, string) -> Framing.Bytes,
                                                registry: Registry, authority: Owner -> Option<string>, owner: Owner,
                                                rows: seq<SavedState>, i: nat)
    requires Encodable(before, header) && Recorded(before, header, registry, authority, owner, rows)
    requires owner.kind in NAMED_KINDS && i < |rows|
    ensures var s := rows[i].state.subset;
            && s in registry.partitions[owner.kind]
            && rows[i].named == Some(Framing.DigestOf(header(owner, s), RowsIn(before, owner, s)))
  {
    var scopes := Sorted(registry.partitions[owner.kind]);
    SortedKeepsNames(registry.partitions[owner.kind]);
    SameMembers(scopes, registry.partitions[owner.kind]);
    assert StatesOf(rows)[i] == rows[i].state == StatesIn(before, header, owner, registry.partitions[owner.kind])[i];
    assert scopes[i] in scopes && Dressed(Parsed(rows[i]), authority);
  }

  /**
   End to end: a capture of one database, then a check of another with every owner of it named. Exit code 0
   means that outside the materialised view both databases are the same; and a database that nothing has
   touched since its capture does exit with 0, when the two comparisons accept the captured rows.
   */
  method CaptureThenCheck(before: Database, owners: seq<Owner>, authority: Owner -> Option<string>, env: Env)
    returns (result: Result<Verdict>)
    requires Readable(env) && Encodable(before, env.header)
    requires Strict(FromOwners(owners)) && forall o :: o in owners <==> o in before
    requires forall o :: o in owners ==> o.kind in env.registry.partitions
    requires forall o :: o in env.database ==> o in env.owners
    ensures result.Success? && result.value.exitCode == 0 ==> SameOutsideView(before, env.database, env.registry)
    ensures Untouched(before, owners, authority, env) ==> result.Success? && result.value.exitCode == 0
  {
    var lines, captured := CaptureOwners(before, env.header, owners, authority, env.registry);
    var verdict, rows, joined, read, disciplines := CheckReceipt(env, lines);
    result := verdict;
    if result.Success? && result.value.exitCode == 0 {
      ReconciledIsSame(before, owners, env, lines, captured);
    }
    if Untouched(before, owners, authority, env) {
      forall o | o in env.owners ensures o.kind in env.registry.partitions {
      }
      UntouchedIsQuiet(before, owners, authority, env, lines, captured, read, joined);
      ComparedViewPasses(env, joined, disciplines);
    }
  }

  lemma {:induction false} ReconciledIsSame(before: Database, owners: seq<Owner>, env: Env, lines: seq<Line>,
                                            captured: seq<Group>)
    requires Readable(env) && ValidReceipt(lines, env.registry) && KindsKnown(env)
    requires Partitions(captured, RowsOf(lines), env.registry) && Records(captured, before, env.header, env.registry)
    requires forall o :: o in owners <==> o in before
    requires forall o :: o in owners ==> o.kind in env.registry.partitions
    requires forall o :: o in env.database ==> o in env.owners
    requires Reconciled(env, lines)
    ensures SameOutsideView(before, env.database, env.registry)
  {
    forall owner: Owner | owner.kind != MV && (owner in before || owner in env.database)
      ensures owner in before && owner in env.database && owner.kind in env.registry.partitions
      ensures forall s :: s in env.registry.partitions[owner.kind] ==>
        RowsIn(before, owner, s) == RowsIn(env.database, owner, s)
    {
      KindIsKnown(before, owners, env, owner);
      ReconciledMeansSameDatabase(before, env, lines, captured, owner);
    }
  }

  lemma {:induction false} UntouchedIsQuiet(before: Database, owners: seq<Owner>, authority: Owner -> Option<string>,
                                            env: Env, lines: seq<Line>, captured: seq<Group>, read: seq<Group>,
                                            joined: seq<Entry>)
    requires Readable(env) && Encodable(before, env.header) && Untouched(before, owners, authority, env)
    requires ValidReceipt(lines, env.registry) && forall j :: 0 <= j < |lines| ==> Dressed(lines[j], authority)
    requires Partitions(captured, RowsOf(lines), env.registry) && Partitions(read, RowsOf(lines), env.registry)
    requires Records(captured, before, env.header, env.registry)
    requires forall o :: o in owners <==> o in before
    requires OuterJoin(FromGroups(read), FromOwners(env.owners), joined)
    requires forall i :: 0 <= i < |joined| ==> joined[i].owner.kind in env.registry.partitions
    ensures AllQuiet(env, joined)
    ensures forall k :: 0 <= k < |joined| && joined[k].owner.kind == MV ==>
      env.mv(joined[k].owner, joined[k].states) == Same
  {
    forall k | 0 <= k < |joined|
      ensures joined[k].owner.kind == MV ==> env.mv(joined[k].owner, joined[k].states) == Same
      ensures Quiet(env, joined[k])
    {
      EntryIsRecorded(before, owners, authority, env, lines, captured, read, joined, k);
      NoLaterLinks(env.log, joined[k].owner, env.highwater);
      UntouchedOwnerIsQuiet(env, joined[k]);
    }
  }

  lemma {:induction false} KindIsKnown(before: Database, owners: seq<Owner>, env: Env, owner: Owner)
    requires forall o :: o in owners <==> o in before
    requires forall o :: o in owners ==> o.kind in env.registry.partitions
    requires KindsKnown(env) && forall o :: o in env.database ==> o in env.owners
    requires owner in before || owner in env.database
    ensures owner.kind in env.registry.partitions
  {
    if owner in env.database {
      var k :| 0 <= k < |env.owners| && env.owners[k] == owner;
    }
  }
}
