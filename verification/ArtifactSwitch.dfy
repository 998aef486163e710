/**
 The two-image artifact switch: apply and rollback move the `storage_uri` of every row of a receipt
 between its original and its converted file, in one transaction, and then rewrite the receipt. The
 table and the receipt file are not updated together: a process can end between the two.

 The verification of the original and converted files and of the numerical libraries is one yes-or-no
 answer per attempt.
 */
module ArtifactSwitch {
  import opened Wrappers

  /** `rest` stands for the columns the switch neither reads nor writes. */
  datatype Row = Row(uri: string, kind: string, registry: int, rest: int)

  datatype Artifact = Artifact(id: int, kind: string, registry: int, oldUri: string, newUri: Option<string>)

  datatype Status = Exported | Staged | Applied | RolledBack

  /** The last completed switch, as the receipt records it. */
  datatype Record = Record(at: int, rowsChanged: nat)

  datatype Receipt = Receipt(status: Status, artifacts: seq<Artifact>, record: Option<Record>)

  type Table = map<int, Row>

  datatype State = State(table: Table, receipt: Receipt)

  const CONVERTED_MARK := "/discipline06/"

  // ---- the receipt's rows ----

  predicate InIdOrder(artifacts: seq<Artifact>) {
    forall i, j :: 0 <= i < j < |artifacts| ==> artifacts[i].id < artifacts[j].id
  }

  predicate FullyStaged(artifacts: seq<Artifact>) {
    forall i :: 0 <= i < |artifacts| ==> artifacts[i].newUri.Some?
  }

  predicate Usable(receipt: Receipt) {
    receipt.status != Exported && InIdOrder(receipt.artifacts) && FullyStaged(receipt.artifacts)
  }

  function Ids(artifacts: seq<Artifact>): set<int> {
    set i | 0 <= i < |artifacts| :: artifacts[i].id
  }

  function Destination(a: Artifact, forward: bool): string
    requires a.newUri.Some?
  {
    if forward then a.newUri.value else a.oldUri
  }

  /** Every row of the receipt is there and points to the files of one side. */
  predicate AllAt(table: Table, artifacts: seq<Artifact>, forward: bool)
    requires FullyStaged(artifacts)
  {
    forall i :: 0 <= i < |artifacts| ==>
      artifacts[i].id in table && table[artifacts[i].id].uri == Destination(artifacts[i], forward)
  }

  /** The registry columns of every row of the receipt are those of the export. */
  predicate RegistryUnchanged(table: Table, artifacts: seq<Artifact>) {
    forall i :: 0 <= i < |artifacts| ==>
      && artifacts[i].id in table
      && table[artifacts[i].id].kind == artifacts[i].kind && table[artifacts[i].id].registry == artifacts[i].registry
  }

  predicate ContainsAt(s: string, part: string, i: int) {
    0 <= i <= |s| - |part| && s[i..i + |part|] == part
  }

  predicate Contains(s: string, part: string) {
    exists i :: 0 <= i <= |s| && ContainsAt(s, part, i)
  }

  /** A row of a converted kind outside the receipt that still points to an unconverted file. */
  predicate Stranded(table: Table, artifacts: seq<Artifact>, kinds: set<string>, id: int) {
    id in table && table[id].kind in kinds && id !in Ids(artifacts) && !Contains(table[id].uri, CONVERTED_MARK)
  }

  predicate NoneStranded(table: Table, artifacts: seq<Artifact>, kinds: set<string>) {
    forall id :: id in table ==> !Stranded(table, artifacts, kinds, id)
  }

  // ---- one attempt ----

  /** Where the process ends: not at all, before the commit, or between the commit and the receipt write. */
  datatype Crash = NoCrash | BeforeCommit | AfterCommit

  datatype Attempt = Attempt(forward: bool, filesOk: bool, kinds: set<string>, at: int, crash: Crash)

  datatype Outcome = Blocked | Crashed | Switched(rowsChanged: nat)

  /** Every check up to the transaction's own writes. */
  predicate Accepted(s: State, a: Attempt) {
    && Usable(s.receipt) && a.filesOk
    && RegistryUnchanged(s.table, s.receipt.artifacts)
    && (a.forward ==> NoneStranded(s.table, s.receipt.artifacts, a.kinds))
    && (AllAt(s.table, s.receipt.artifacts, true) || AllAt(s.table, s.receipt.artifacts, false))
  }

  /** The table with the receipt's rows on one side. */
  function Moved(table: Table, artifacts: seq<Artifact>, forward: bool): Table
    requires FullyStaged(artifacts)
    decreases |artifacts|
  {
    if artifacts == [] then table
    else
      var n := |artifacts| - 1;
      var before := Moved(table, artifacts[..n], forward);
      if artifacts[n].id in before
      then before[artifacts[n].id := before[artifacts[n].id].(uri := Destination(artifacts[n], forward))]
      else before
  }

  function Completed(receipt: Receipt, forward: bool, at: int, rowsChanged: nat): Receipt {
    receipt.(status := if forward then Applied else RolledBack, record := Some(Record(at, rowsChanged)))
  }

  function RowsToChange(s: State, forward: bool): nat
    requires Usable(s.receipt)
  {
    if AllAt(s.table, s.receipt.artifacts, forward) then 0 else |s.receipt.artifacts|
  }

  /** The state after an attempt. */
  function After(s: State, a: Attempt): State {
    if !Accepted(s, a) || a.crash == BeforeCommit then s
    else
      State(Moved(s.table, s.receipt.artifacts, a.forward),
            if a.crash == AfterCommit then s.receipt
            else Completed(s.receipt, a.forward, a.at, RowsToChange(s, a.forward)))
  }

  function OutcomeOf(s: State, a: Attempt): Outcome {
    if !Accepted(s, a) then Blocked
    else if a.crash != NoCrash then Crashed
    else Switched(RowsToChange(s, a.forward))
  }

  class Deployment {
    var table: Table
    var receipt: Receipt

    function View(): State
      reads this
    {
      State(table, receipt)
    }

    /** One apply or rollback. */
    method Switch(a: Attempt) returns (outcome: Outcome)
      modifies this
      ensures outcome == OutcomeOf(old(View()), a)
      ensures View() == After(old(View()), a)
    {
      if !Usable(receipt) || !a.filesOk {
        return Blocked;
      }
      var artifacts := receipt.artifacts;
      if !RegistryUnchanged(table, artifacts) || (a.forward && !NoneStranded(table, artifacts, a.kinds)) {
        return Blocked;
      }
      var pending, changed := table, 0;
      if AllAt(table, artifacts, a.forward) {
        AlreadyThere(table, artifacts, a.forward);
      } else if AllAt(table, artifacts, !a.forward) {
        pending := MoveAll(table, artifacts, a.forward);
        changed := |artifacts|;
      } else {
        return Blocked;
      }
      if a.crash == BeforeCommit {
        return Crashed;
      }
      table := pending;
      if a.crash == AfterCommit {
        return Crashed;
      }
      receipt := Completed(receipt, a.forward, a.at, changed);
      outcome := Switched(changed);
    }

    /** The updates of one transaction; each of them finds its row where the transaction saw it. */
    static method MoveAll(table: Table, artifacts: seq<Artifact>, forward: bool) returns (pending: Table)
      requires FullyStaged(artifacts) && InIdOrder(artifacts) && AllAt(table, artifacts, !forward)
      ensures pending == Moved(table, artifacts, forward)
    {
      pending := table;
      for n := 0 to |artifacts|
        invariant pending == Moved(table, artifacts[..n], forward)
      {
        UntouchedByEarlier(table, artifacts, n, forward);
        var rowcount;
        pending, rowcount := UpdateOne(pending, artifacts[n], forward);
        if rowcount != 1 {
          assert false;
        }
        assert artifacts[..n + 1][..n] == artifacts[..n];
      }
      assert artifacts[..|artifacts|] == artifacts;
    }

    /** The guarded update of one row, and how many rows it changed. */
    static method UpdateOne(pending: Table, a: Artifact, forward: bool) returns (after: Table, rowcount: nat)
      requires a.newUri.Some?
      ensures rowcount == if a.id in pending && pending[a.id].uri == Destination(a, !forward) then 1 else 0
      ensures after == if rowcount == 1 then pending[a.id := pending[a.id].(uri := Destination(a, forward))]
        else pending
    {
      after, rowcount := pending, 0;
      if a.id in pending && pending[a.id].uri == Destination(a, !forward) {
        after, rowcount := pending[a.id := pending[a.id].(uri := Destination(a, forward))], 1;
      }
    }
  }

  // ---- what moving changes ----

  /** Row by row: the receipt's rows get the uri of the side, every other column and row stays. */
  lemma {:induction false} MovedRows(table: Table, artifacts: seq<Artifact>, forward: bool, id: int)
    requires FullyStaged(artifacts) && InIdOrder(artifacts)
    ensures Moved(table, artifacts, forward).Keys == table.Keys
    ensures id in table ==>
      var row := Moved(table, artifacts, forward)[id];
      && row.(uri := table[id].uri) == table[id]
      && (id !in Ids(artifacts) ==> row == table[id])
      && (forall i :: 0 <= i < |artifacts| && artifacts[i].id == id ==> row.uri == Destination(artifacts[i], forward))
    decreases |artifacts|
  {
    if artifacts != [] {
      var n := |artifacts| - 1;
      MovedRows(table, artifacts[..n], forward, id);
      MovedKeys(table, artifacts[..n], forward);
      assert id !in Ids(artifacts) ==> id !in Ids(artifacts[..n]) && artifacts[n].id != id;
      if artifacts[n].id == id {
        assert forall i :: 0 <= i < n ==> artifacts[i].id < id;
      } else {
        assert forall i :: 0 <= i < n ==> artifacts[..n][i] == artifacts[i];
      }
    }
  }

  lemma {:induction false} MovedKeys(table: Table, artifacts: seq<Artifact>, forward: bool)
    requires FullyStaged(artifacts)
    ensures Moved(table, artifacts, forward).Keys == table.Keys
    decreases |artifacts|
  {
    if artifacts != [] {
      MovedKeys(table, artifacts[..|artifacts| - 1], forward);
    }
  }

  lemma {:induction false} UntouchedByEarlier(table: Table, artifacts: seq<Artifact>, n: nat, forward: bool)
    requires FullyStaged(artifacts) && InIdOrder(artifacts) && n < |artifacts| && artifacts[n].id in table
    ensures artifacts[n].id in Moved(table, artifacts[..n], forward)
    ensures Moved(table, artifacts[..n], forward)[artifacts[n].id] == table[artifacts[n].id]
  {
    MovedRows(table, artifacts[..n], forward, artifacts[n].id);
    assert artifacts[n].id !in Ids(artifacts[..n]);
  }

  /** Two tables whose rows agree up to the receipt's uris have the same image. */
  lemma {:induction false} MovedDependsOnRest(t: Table, u: Table, artifacts: seq<Artifact>, forward: bool)
    requires FullyStaged(artifacts) && InIdOrder(artifacts) && t.Keys == u.Keys
    requires forall id :: id in t ==> t[id].(uri := u[id].uri) == u[id] && (id in Ids(artifacts) || t[id] == u[id])
    ensures Moved(t, artifacts, forward) == Moved(u, artifacts, forward)
  {
    forall id | id in t
      ensures id in Moved(t, artifacts, forward) && id in Moved(u, artifacts, forward)
      ensures Moved(t, artifacts, forward)[id] == Moved(u, artifacts, forward)[id]
    {
      MovedRows(t, artifacts, forward, id);
      MovedRows(u, artifacts, forward, id);
      if id in Ids(artifacts) {
        var i :| 0 <= i < |artifacts| && artifacts[i].id == id;
      }
    }
    MovedKeys(t, artifacts, forward);
    MovedKeys(u, artifacts, forward);
  }

  /** Only the last move counts. */
  lemma {:induction false} LastMoveWins(table: Table, artifacts: seq<Artifact>, first: bool, last: bool)
    requires FullyStaged(artifacts) && InIdOrder(artifacts)
    ensures Moved(Moved(table, artifacts, first), artifacts, last) == Moved(table, artifacts, last)
  {
    var u := Moved(table, artifacts, first);
    MovedKeys(table, artifacts, first);
    forall id | id in u
      ensures u[id].(uri := table[id].uri) == table[id] && (id in Ids(artifacts) || u[id] == table[id])
    {
      MovedRows(table, artifacts, first, id);
    }
    MovedDependsOnRest(u, table, artifacts, last);
  }

  /** Rows that are already on a side are not changed by moving them there. */
  lemma {:induction false} AlreadyThere(table: Table, artifacts: seq<Artifact>, forward: bool)
    requires FullyStaged(artifacts) && InIdOrder(artifacts) && AllAt(table, artifacts, forward)
    ensures Moved(table, artifacts, forward) == table
  {
    MovedKeys(table, artifacts, forward);
    forall id | id in table
      ensures Moved(table, artifacts, forward)[id] == table[id]
    {
      MovedRows(table, artifacts, forward, id);
      if id in Ids(artifacts) {
        var i :| 0 <= i < |artifacts| && artifacts[i].id == id;
      }
    }
  }

  lemma {:induction false} MovedIsThere(table: Table, artifacts: seq<Artifact>, forward: bool)
    requires FullyStaged(artifacts) && InIdOrder(artifacts)
    requires forall i :: 0 <= i < |artifacts| ==> artifacts[i].id in table
    ensures AllAt(Moved(table, artifacts, forward), artifacts, forward)
  {
    MovedKeys(table, artifacts, forward);
    forall i | 0 <= i < |artifacts|
      ensures artifacts[i].id in Moved(table, artifacts, forward)
      ensures Moved(table, artifacts, forward)[artifacts[i].id].uri == Destination(artifacts[i], forward)
    {
      MovedRows(table, artifacts, forward, artifacts[i].id);
    }
  }

  // ---- runs ----

  function Run(s: State, attempts: seq<Attempt>): State {
    if attempts == [] then s else After(Run(s, attempts[..|attempts| - 1]), attempts[|attempts| - 1])
  }

  /** The side the last attempt that got past its commit moved to. */
  function LastSide(s: State, attempts: seq<Attempt>): Option<bool> {
    if attempts == [] then None
    else
      var front, last := attempts[..|attempts| - 1], attempts[|attempts| - 1];
      if Accepted(Run(s, front), last) && last.crash != BeforeCommit then Some(last.forward) else LastSide(s, front)
  }

  lemma {:induction false} ArtifactsStay(s: State, attempts: seq<Attempt>)
    ensures Run(s, attempts).receipt.artifacts == s.receipt.artifacts
    ensures Usable(s.receipt) ==> Usable(Run(s, attempts).receipt)
  {
    if attempts != [] {
      ArtifactsStay(s, attempts[..|attempts| - 1]);
    }
  }

  /**
   Over any run of attempts, each crashing or not, the table is the starting table with all rows of the
   receipt where the last committed attempt put them: never a mixture, and no other column or row
   differs.
   */
  lemma {:induction false} RunsMoveAllOrNothing(s: State, attempts: seq<Attempt>)
    requires Usable(s.receipt)
    ensures Run(s, attempts).table ==
            match LastSide(s, attempts)
            case None => s.table
            case Some(forward) => Moved(s.table, s.receipt.artifacts, forward)
    ensures LastSide(s, attempts).Some? ==>
      AllAt(Run(s, attempts).table, s.receipt.artifacts, LastSide(s, attempts).value)
  {
    if attempts != [] {
      var front, last := attempts[..|attempts| - 1], attempts[|attempts| - 1];
      var before := Run(s, front);
      RunsMoveAllOrNothing(s, front);
      ArtifactsStay(s, front);
      if Accepted(before, last) && last.crash != BeforeCommit {
        MovedIsThere(before.table, s.receipt.artifacts, last.forward);
        if LastSide(s, front).Some? {
          LastMoveWins(s.table, s.receipt.artifacts, LastSide(s, front).value, last.forward);
        }
      }
    }
  }

  /** A table that is on neither side is left as it is by every run. */
  lemma {:induction false} MixedStateUntouched(s: State, attempts: seq<Attempt>)
    requires Usable(s.receipt)
    requires !AllAt(s.table, s.receipt.artifacts, true) && !AllAt(s.table, s.receipt.artifacts, false)
    ensures Run(s, attempts) == s
  {
    if attempts != [] {
      MixedStateUntouched(s, attempts[..|attempts| - 1]);
    }
  }

  /** Whatever happened since, a completed rollback restores the table the first apply found. */
  lemma {:induction false} RollbackRestores(s: State, attempts: seq<Attempt>)
    requires Usable(s.receipt) && AllAt(s.table, s.receipt.artifacts, false)
    requires attempts != [] && OutcomeOf(Run(s, attempts[..|attempts| - 1]), attempts[|attempts| - 1]).Switched?
    requires !attempts[|attempts| - 1].forward
    ensures Run(s, attempts).table == s.table && Run(s, attempts).receipt.status == RolledBack
  {
    RunsMoveAllOrNothing(s, attempts);
    AlreadyThere(s.table, s.receipt.artifacts, false);
  }

  /** After a process ended behind its commit, the same command again only repairs the receipt. */
  lemma {:induction false} RerunRepairsReceipt(s: State, a: Attempt, again: Attempt)
    requires Accepted(s, a) && a.crash == AfterCommit
    requires again == a.(at := again.at, crash := NoCrash)
    ensures var crashed := After(s, a);
            && OutcomeOf(crashed, again) == Switched(0)
            && After(crashed, again).table == After(s, again).table
            && After(crashed, again).receipt == Completed(s.receipt, a.forward, again.at, 0)
  {
    var artifacts := s.receipt.artifacts;
    var t := Moved(s.table, artifacts, a.forward);
    MovedIsThere(s.table, artifacts, a.forward);
    LastMoveWins(s.table, artifacts, a.forward, a.forward);
    StillAccepted(s, a, again);
  }

  /** Moving the receipt's rows takes none of an attempt's conditions away. */
  lemma {:induction false} StillAccepted(s: State, a: Attempt, again: Attempt)
    requires Accepted(s, a) && again.filesOk && again.kinds == a.kinds && (again.forward ==> a.forward)
    ensures Accepted(s.(table := Moved(s.table, s.receipt.artifacts, a.forward)), again)
  {
    var artifacts := s.receipt.artifacts;
    var t := Moved(s.table, artifacts, a.forward);
    MovedIsThere(s.table, artifacts, a.forward);
    MovedKeys(s.table, artifacts, a.forward);
    forall id | id in s.table
      ensures t[id].kind == s.table[id].kind && t[id].registry == s.table[id].registry
      ensures id !in Ids(artifacts) ==> t[id] == s.table[id]
    {
      MovedRows(s.table, artifacts, a.forward, id);
    }
    if again.forward {
      forall id | id in t
        ensures !Stranded(t, artifacts, a.kinds, id)
      {
        assert !Stranded(s.table, artifacts, a.kinds, id);
      }
    }
  }

  /** An apply can always be rolled back while the files are intact: right away, crashed or not. */
  lemma {:induction false} ApplyCanBeUndone(s: State, a: Attempt, back: Attempt)
    requires Accepted(s, a) && AllAt(s.table, s.receipt.artifacts, false)
    requires !back.forward && back.filesOk && back.kinds == a.kinds && back.crash == NoCrash
    ensures OutcomeOf(After(s, a), back).Switched? && After(After(s, a), back).table == s.table
  {
    var artifacts := s.receipt.artifacts;
    AlreadyThere(s.table, artifacts, false);
    LastMoveWins(s.table, artifacts, a.forward, false);
    if a.crash != BeforeCommit {
      StillAccepted(s, a, back);
    }
  }

  /**
   After a completed apply every row of the converted kinds points to a converted file, as long as the
   staged files themselves lie under the mark.
   */
  lemma {:induction false} NothingStranded(s: State, a: Attempt)
    requires a.forward && OutcomeOf(s, a).Switched?
    requires forall i :: 0 <= i < |s.receipt.artifacts| ==>
      Contains(s.receipt.artifacts[i].newUri.value, CONVERTED_MARK)
    ensures forall id :: id in After(s, a).table && After(s, a).table[id].kind in a.kinds ==>
      Contains(After(s, a).table[id].uri, CONVERTED_MARK)
  {
    var artifacts := s.receipt.artifacts;
    var t := Moved(s.table, artifacts, true);
    MovedKeys(s.table, artifacts, true);
    forall id | id in t && t[id].kind in a.kinds
      ensures Contains(t[id].uri, CONVERTED_MARK)
    {
      MovedRows(s.table, artifacts, true, id);
      if id in Ids(artifacts) {
        var i :| 0 <= i < |artifacts| && artifacts[i].id == id;
      } else {
        assert !Stranded(s.table, artifacts, a.kinds, id);
      }
    }
  }

  // ---- one attempt, row by row ----

  predicate Splits(s: string, before: string, part: string, after: string) {
    s == before + part + after
  }

  lemma {:induction false} ContainsExactly(s: string, part: string)
    ensures Contains(s, part) <==> exists u, v :: Splits(s, u, part, v)
  {
    if i :| 0 <= i <= |s| && ContainsAt(s, part, i) {
      assert Splits(s, s[..i], part, s[i + |part|..]);
    }
    if u, v :| Splits(s, u, part, v) {
      assert ContainsAt(s, part, |u|);
    }
  }

  /** The row of the receipt's entry is in the table as it was exported. */
  predicate AsExported(table: Table, x: Artifact) {
    x.id in table && table[x.id].kind == x.kind && table[x.id].registry == x.registry
  }

  /** No entry of the receipt is about the row. */
  predicate Unlisted(artifacts: seq<Artifact>, id: int) {
    forall i :: 0 <= i < |artifacts| ==> artifacts[i].id != id
  }

  /** Every listed row points to the file of one side. */
  predicate AllOld(table: Table, artifacts: seq<Artifact>) {
    forall i :: 0 <= i < |artifacts| ==> artifacts[i].id in table && table[artifacts[i].id].uri == artifacts[i].oldUri
  }

  predicate AllNew(table: Table, artifacts: seq<Artifact>) {
    forall i :: 0 <= i < |artifacts| ==>
      artifacts[i].id in table && Some(table[artifacts[i].id].uri) == artifacts[i].newUri
  }

  /**
   An attempt is let through exactly when the receipt is at least staged, entry by entry in id order and
   with a converted file each; the files verify; every listed row is as exported; for an apply, no
   unlisted row of the kinds points to a file outside the converted directories; and the listed rows
   all point to their old files or all to their new ones.
   */
  lemma {:induction false} LetThroughExactly(s: State, a: Attempt)
    ensures var artifacts := s.receipt.artifacts;
            OutcomeOf(s, a) != Blocked <==>
            && s.receipt.status in {Staged, Applied, RolledBack} && a.filesOk
            && (forall i, j :: 0 <= i < j < |artifacts| ==> artifacts[i].id < artifacts[j].id)
            && (forall i :: 0 <= i < |artifacts| ==> artifacts[i].newUri.Some? && AsExported(s.table, artifacts[i]))
            && (a.forward ==>
                  forall id :: id in s.table && s.table[id].kind in a.kinds && Unlisted(artifacts, id) ==>
                    exists u, v :: Splits(s.table[id].uri, u, "/discipline06/", v))
            && (AllOld(s.table, artifacts) || AllNew(s.table, artifacts))
  {
    var artifacts := s.receipt.artifacts;
    forall id | id in s.table
      ensures Stranded(s.table, artifacts, a.kinds, id) <==>
              && s.table[id].kind in a.kinds && Unlisted(artifacts, id)
              && !exists u, v :: Splits(s.table[id].uri, u, "/discipline06/", v)
    {
      ContainsExactly(s.table[id].uri, CONVERTED_MARK);
    }
    if FullyStaged(artifacts) {
      assert AllAt(s.table, artifacts, true) <==> AllNew(s.table, artifacts);
      assert AllAt(s.table, artifacts, false) <==> AllOld(s.table, artifacts);
    }
    assert RegistryUnchanged(s.table, artifacts) <==>
           forall i :: 0 <= i < |artifacts| ==> AsExported(s.table, artifacts[i]);
  }

  /** The rows that differ between two tables. */
  function Differing(before: Table, after: Table): set<int> {
    set id | id in before && id in after && before[id] != after[id]
  }

  /**
   A first apply: with the listed rows at their old files, an attempt that is let through and runs to its
   end points every listed row to its converted file and changes nothing else; it records itself as applied,
   with its time and exactly the number of rows that changed, and leaves the receipt's entries.
   */
  lemma {:induction false} FirstApply(s: State, a: Attempt)
    requires a.forward && a.crash == NoCrash && OutcomeOf(s, a) != Blocked && AllOld(s.table, s.receipt.artifacts)
    requires s.receipt.artifacts != []
    requires forall i :: 0 <= i < |s.receipt.artifacts| ==>
      s.receipt.artifacts[i].newUri != Some(s.receipt.artifacts[i].oldUri)
    ensures var artifacts, t := s.receipt.artifacts, After(s, a).table;
            && t.Keys == s.table.Keys
            && (forall i :: 0 <= i < |artifacts| ==>
                  t[artifacts[i].id] == s.table[artifacts[i].id].(uri := artifacts[i].newUri.value))
            && (forall id :: id in t && Unlisted(artifacts, id) ==> t[id] == s.table[id])
            && OutcomeOf(s, a) == Switched(|Differing(s.table, t)|)
            && After(s, a).receipt == Receipt(Applied, artifacts, Some(Record(a.at, |Differing(s.table, t)|)))
  {
    MovedTo(s.table, s.receipt.artifacts, true);
    assert !AllAt(s.table, s.receipt.artifacts, true) by {
      assert s.table[s.receipt.artifacts[0].id].uri == s.receipt.artifacts[0].oldUri;
    }
  }

  /** A rollback of an apply is its mirror image. */
  lemma {:induction false} FirstRollback(s: State, a: Attempt)
    requires !a.forward && a.crash == NoCrash && OutcomeOf(s, a) != Blocked && AllNew(s.table, s.receipt.artifacts)
    requires s.receipt.artifacts != []
    requires forall i :: 0 <= i < |s.receipt.artifacts| ==>
      s.receipt.artifacts[i].newUri != Some(s.receipt.artifacts[i].oldUri)
    ensures var artifacts, t := s.receipt.artifacts, After(s, a).table;
            && t.Keys == s.table.Keys
            && (forall i :: 0 <= i < |artifacts| ==>
                  t[artifacts[i].id] == s.table[artifacts[i].id].(uri := artifacts[i].oldUri))
            && (forall id :: id in t && Unlisted(artifacts, id) ==> t[id] == s.table[id])
            && OutcomeOf(s, a) == Switched(|Differing(s.table, t)|)
            && After(s, a).receipt == Receipt(RolledBack, artifacts, Some(Record(a.at, |Differing(s.table, t)|)))
  {
    MovedTo(s.table, s.receipt.artifacts, false);
    assert !AllAt(s.table, s.receipt.artifacts, false) by {
      assert Some(s.table[s.receipt.artifacts[0].id].uri) == s.receipt.artifacts[0].newUri;
    }
  }

  lemma {:induction false} MovedTo(table: Table, artifacts: seq<Artifact>, forward: bool)
    requires FullyStaged(artifacts) && InIdOrder(artifacts) && AllAt(table, artifacts, !forward)
    requires forall i :: 0 <= i < |artifacts| ==> artifacts[i].newUri != Some(artifacts[i].oldUri)
    ensures var t := Moved(table, artifacts, forward);
            && t.Keys == table.Keys
            && (forall i :: 0 <= i < |artifacts| ==>
                  t[artifacts[i].id] == table[artifacts[i].id].(uri := Destination(artifacts[i], forward)))
            && (forall id :: id in t && Unlisted(artifacts, id) ==> t[id] == table[id])
            && |Differing(table, t)| == |artifacts|
  {
    var t := Moved(table, artifacts, forward);
    MovedKeys(table, artifacts, forward);
    forall i | 0 <= i < |artifacts|
      ensures t[artifacts[i].id] == table[artifacts[i].id].(uri := Destination(artifacts[i], forward))
    {
      MovedRows(table, artifacts, forward, artifacts[i].id);
    }
    forall id | id in t && Unlisted(artifacts, id)
      ensures t[id] == table[id]
    {
      MovedRows(table, artifacts, forward, id);
    }
    forall id
      ensures id in Differing(table, t) <==> id in Ids(artifacts)
    {
      if i :| 0 <= i < |artifacts| && artifacts[i].id == id {
        assert t[id].uri != table[id].uri;
      } else {
        assert Unlisted(artifacts, id);
      }
    }
    assert Differing(table, t) == Ids(artifacts);
    AsManyIds(artifacts);
  }

  lemma {:induction false} AsManyIds(artifacts: seq<Artifact>)
    requires InIdOrder(artifacts)
    ensures |Ids(artifacts)| == |artifacts|
    decreases |artifacts|
  {
    if artifacts != [] {
      var n := |artifacts| - 1;
      AsManyIds(artifacts[..n]);
      assert Ids(artifacts) == Ids(artifacts[..n]) + {artifacts[n].id};
    }
  }
}
