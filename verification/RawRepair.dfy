/**
 The reviewed repair of raw log references: filling a record's missing hash, verifying a record, and
 linking a match to its record (a reused or a created one).

 Object storage is a map from keys to the hash of an acceptable object. Locks, canonicalisation and
 the order of refusals are left out: a refusal is `None`, whatever its reason code.
 */
module RawRepair {
  import opened Wrappers

  datatype Record = Record(tournament: int, filename: Option<string>, contentHash: Option<string>, status: string,
                           source: string, uploader: Option<int>, attached: Option<int>, attempts: int,
                           errorHash: Option<string>, startedAt: Option<string>, finishedAt: Option<string>,
                           updatedAt: Option<string>, createdAt: string)

  datatype Match = Match(encounter: int, logName: Option<string>, logRecord: Option<int>, rest: int)

  datatype Encounter = Encounter(tournament: Option<int>, workspace: int, discipline: string)

  datatype Tournament = Tournament(workspace: int, discipline: string)

  datatype Tables = Tables(records: map<int, Record>, matches: map<int, Match>, encounters: map<int, Encounter>,
                           tournaments: map<int, Tournament>)

  // ---- keys ----

  function Digit(d: nat): (c: char)
    requires d < 10
    ensures forall e: nat :: e < 10 && e != d ==> ['0', '1', '2', '3', '4', '5', '6', '7', '8', '9'][e] != c
    ensures c != '-'
  {
    ['0', '1', '2', '3', '4', '5', '6', '7', '8', '9'][d]
  }

  function Decimal(n: nat): (text: string)
    ensures text != "" && text[0] != '-'
  {
    if n < 10 then [Digit(n)] else Decimal(n / 10) + [Digit(n % 10)]
  }

  function Number(n: int): string {
    if n < 0 then "-" + Decimal(-n) else Decimal(n)
  }

  function Base(tournament: int): string {
    "logs/" + Number(tournament) + "/"
  }

  lemma {:induction false} DecimalIsInjective(m: nat, n: nat)
    requires Decimal(m) == Decimal(n)
    ensures m == n
  {
    var a, b := Decimal(m), Decimal(n);
    assert a[|a| - 1] == Digit(m % 10) && b[|b| - 1] == Digit(n % 10);
    if m >= 10 && n >= 10 {
      assert a[..|a| - 1] == Decimal(m / 10) && b[..|b| - 1] == Decimal(n / 10);
      DecimalIsInjective(m / 10, n / 10);
    }
  }

  lemma {:induction false} NumberIsInjective(a: int, b: int)
    requires Number(a) == Number(b)
    ensures a == b
  {
    if a < 0 && b < 0 {
      assert Number(a)[1..] == Decimal(-a) && Number(b)[1..] == Decimal(-b);
      DecimalIsInjective(-a, -b);
    } else if a >= 0 && b >= 0 {
      DecimalIsInjective(a, b);
    }
  }

  /** Tournaments have bases of their own. */
  lemma {:induction false} BaseIsInjective(a: int, b: int)
    requires Base(a) == Base(b)
    ensures a == b
  {
    var x, y := Number(a), Number(b);
    assert Base(a)[5..] == x + "/" && Base(b)[5..] == y + "/";
    assert (x + "/")[..|x|] == x && (y + "/")[..|y|] == y;
    NumberIsInjective(a, b);
  }

  function RemovePrefix(s: string, prefix: string): string {
    if prefix <= s then s[|prefix|..] else s
  }

  predicate HasDots(s: string) {
    exists i :: 0 <= i < |s| - 1 && s[i] == '.' && s[i + 1] == '.'
  }

  /** Exactly two prefix removals. */
  function Bare(tournament: int, filename: string): string {
    RemovePrefix(RemovePrefix(filename, Base(tournament)), "logs/")
  }

  function RawKey(tournament: int, filename: Option<string>): Option<string> {
    if filename.None? then None
    else
      var bare := Bare(tournament, filename.value);
      var key := Base(tournament) + bare;
      if HasDots(bare) || "/" <= bare || bare == "" || |key| > 512 || |filename.value| > 500 then None else Some(key)
  }

  /** `left(s, n)` and `substr(s, k)` of SQL, where positions count from one. */
  function Left(s: string, n: nat): string { if n <= |s| then s[..n] else s }

  function Substr(s: string, k: nat): string
    requires k >= 1
  {
    if k - 1 <= |s| then s[k - 1..] else ""
  }

  /** The key expression of the candidate query. */
  function SqlKey(tournament: int, filename: string): string {
    var base := Base(tournament);
    var bare := if Left(filename, |base|) == base then Substr(filename, |base| + 1) else filename;
    base + if Left(bare, 5) == "logs/" then Substr(bare, 6) else bare
  }

  lemma {:induction false} LeftIsPrefix(s: string, p: string)
    ensures Left(s, |p|) == p <==> p <= s
  {
  }

  /** The query's key is the inspected key: both name the same object for every accepted reference. */
  lemma {:induction false} KeyTwins(tournament: int, filename: string)
    ensures SqlKey(tournament, filename) == Base(tournament) + Bare(tournament, filename)
    ensures RawKey(tournament, Some(filename)).Some? ==>
      RawKey(tournament, Some(filename)) == Some(SqlKey(tournament, filename))
  {
    var base := Base(tournament);
    LeftIsPrefix(filename, base);
    LeftIsPrefix(RemovePrefix(filename, base), "logs/");
  }

  /** A key's bare name leads back to the key exactly when it does not itself begin with "logs/". */
  lemma {:induction false} BareLeadsBack(tournament: int, bare: string)
    ensures SqlKey(tournament, bare) == Base(tournament) + bare <==> !("logs/" <= bare)
  {
    var base := Base(tournament);
    KeyTwins(tournament, bare);
    assert base[..5] == "logs/";
    if base <= bare {
      assert bare[..5] == base[..5];
    }
    if "logs/" <= bare {
      assert |Bare(tournament, bare)| < |bare|;
      assert |base + Bare(tournament, bare)| < |base + bare|;
    }
  }

  /** A name spells `bare` with at most the tournament's base and one more "logs/" before it. */
  predicate Spells(tournament: int, filename: string, bare: string) {
    || filename == bare || filename == Base(tournament) + bare || filename == Base(tournament) + "logs/" + bare
    || (filename == "logs/" + bare && !(Number(tournament) + "/" <= bare))
  }

  lemma {:induction false} BasePrefixes(tournament: int, s: string)
    ensures Base(tournament) <= s ==> "logs/" <= s
    ensures Base(tournament) <= "logs/" + s ==> Number(tournament) + "/" <= s
  {
    var base := Base(tournament);
    assert base[..5] == "logs/" && base[5..] == Number(tournament) + "/";
    if base <= s {
      assert s[..5] == base[..5];
    }
    if base <= "logs/" + s {
      assert base[5..] == s[..|base| - 5];
    }
  }

  lemma {:induction false} BareOfSpelling(tournament: int, filename: string, bare: string)
    requires Spells(tournament, filename, bare) && !("logs/" <= bare)
    ensures Bare(tournament, filename) == bare
  {
    var base := Base(tournament);
    BasePrefixes(tournament, bare);
    assert (base + "logs/" + bare)[|base|..] == "logs/" + bare;
  }

  /** Every spelling of a name leads to its one key, unless it is empty, absolute, dotted or too long. */
  lemma {:induction false} SpellingsLeadToKey(tournament: int, filename: string, bare: string)
    requires Spells(tournament, filename, bare) && !("logs/" <= bare)
    ensures RawKey(tournament, Some(filename)) ==
            if && bare != "" && bare[0] != '/'
               && (forall i, j :: 0 <= i < j == i + 1 < |bare| ==> bare[i] != '.' || bare[j] != '.')
               && |Base(tournament) + bare| <= 512 && |filename| <= 500
            then Some(Base(tournament) + bare) else None
  {
    BareOfSpelling(tournament, filename, bare);
  }

  // ---- inspection ----

  datatype Snapshot = Snapshot(record: Option<Record>, matchRow: Option<Match>, tournament: int, owner: Tournament,
                               rawRef: string, contentHash: string, candidates: map<int, Record>,
                               links: map<int, Match>)

  function Candidates(t: Tables, tournament: int, key: string): map<int, Record> {
    map r | r in t.records && t.records[r].tournament == tournament && t.records[r].filename.Some?
            && SqlKey(tournament, t.records[r].filename.value) == key :: t.records[r]
  }

  function Links(t: Tables, candidates: map<int, Record>): map<int, Match> {
    map m | m in t.matches && t.matches[m].logRecord.Some? && t.matches[m].logRecord.value in candidates :: t.matches[m]
  }

  predicate InTournament(t: Tables, encounter: int, tournament: int) {
    encounter in t.encounters && t.encounters[encounter].tournament == Some(tournament)
  }

  function TournamentOf(t: Tables, record: Option<int>, matchId: Option<int>): Option<int> {
    if matchId.Some? then
      if matchId.value in t.matches && t.matches[matchId.value].encounter in t.encounters
      then t.encounters[t.matches[matchId.value].encounter].tournament else None
    else if record.Some? && record.value in t.records then Some(t.records[record.value].tournament)
    else None
  }

  predicate OwnerOk(t: Tables, tournament: int, record: Option<int>, matchId: Option<int>) {
    && tournament in t.tournaments
    && t.tournaments[tournament].discipline == "overwatch"
    && (matchId.Some? ==>
          && matchId.value in t.matches && t.matches[matchId.value].encounter in t.encounters
          && t.encounters[t.matches[matchId.value].encounter].workspace == t.tournaments[tournament].workspace
          && t.encounters[t.matches[matchId.value].encounter].discipline == t.tournaments[tournament].discipline)
    && (record.Some? ==> record.value in t.records && t.records[record.value].tournament == tournament)
  }

  predicate CandidateOk(t: Tables, tournament: int, r: Record, hash: string, matchId: Option<int>) {
    && RawKey(tournament, r.filename).Some?
    && (r.contentHash.None? || r.contentHash.value == hash)
    && (r.attached.Some? ==>
          && InTournament(t, r.attached.value, tournament)
          && (matchId.Some? ==> matchId.value in t.matches && r.attached.value == t.matches[matchId.value].encounter))
  }

  predicate LinksOk(t: Tables, tournament: int, links: map<int, Match>, matchId: Option<int>) {
    && |links| <= 1
    && forall m :: m in links ==>
         InTournament(t, links[m].encounter, tournament) && (matchId.Some? ==> m == matchId.value)
  }

  function ReferenceOf(t: Tables, record: Option<int>, matchId: Option<int>): Option<string> {
    if record.Some? then if record.value in t.records then t.records[record.value].filename else None
    else if matchId.Some? && matchId.value in t.matches then t.matches[matchId.value].logName
    else None
  }

  /** Everything the inspection reads, or `None` where it refuses. */
  function Inspect(t: Tables, objects: map<string, string>, record: Option<int>,
                   matchId: Option<int>): Option<Snapshot> {
    var tournament := TournamentOf(t, record, matchId);
    if tournament.None? || !OwnerOk(t, tournament.value, record, matchId) then None
    else
      var tid := tournament.value;
      var key := RawKey(tid, ReferenceOf(t, record, matchId));
      var m := if matchId.Some? then Some(t.matches[matchId.value]) else None;
      if key.None? || key.value !in objects then None
      else if m.Some? && m.value.logName.Some? && RawKey(tid, m.value.logName) != key then None
      else
        var hash := objects[key.value];
        var candidates := Candidates(t, tid, key.value);
        var links := Links(t, candidates);
        if !(forall r :: r in candidates ==> CandidateOk(t, tid, candidates[r], hash, matchId)) then None
        else if !LinksOk(t, tid, links, matchId) then None
        else if m.Some? && m.value.logRecord.Some? && m.value.logRecord.value !in candidates then None
        else
          Some(Snapshot(if record.Some? then Some(t.records[record.value]) else None, m, tid, t.tournaments[tid],
                        key.value, hash, candidates, links))
  }

  // ---- the reviewed item ----

  datatype Decision = Create | Reuse(record: int)

  datatype Action =
    | FillHash(record: int, also: Option<int>)
    | VerifyRecord(record: int, also: Option<int>)
    | LinkMatch(matchId: int, decision: Decision)

  datatype Item = Item(action: Action, tournament: int, rawRef: string, contentHash: string, filename: Option<string>,
                       logName: Option<string>, snapshot: Snapshot)

  function RecordId(item: Item): Option<int> {
    match item.action
    case FillHash(r, _) => Some(r)
    case VerifyRecord(r, _) => Some(r)
    case LinkMatch(_, _) => None
  }

  function MatchId(item: Item): Option<int> {
    match item.action
    case FillHash(_, m) => m
    case VerifyRecord(_, m) => m
    case LinkMatch(m, _) => Some(m)
  }

  predicate IdentityOk(item: Item, current: Snapshot) {
    && item.tournament == current.tournament && item.rawRef == current.rawRef
    && item.contentHash == current.contentHash
    && item.filename == (if item.snapshot.record.Some? then item.snapshot.record.value.filename else None)
    && item.logName == (if item.snapshot.matchRow.Some? then item.snapshot.matchRow.value.logName else None)
  }

  /** A record found for a creation item can only be the one an earlier application created. */
  predicate CreatedOk(item: Item, current: Snapshot, r: Record) {
    && item.snapshot.candidates == map[]
    && r.status == "done" && r.source == "manual" && r.uploader.None? && r.attached.None?
    && r.startedAt.None? && r.finishedAt.None? && r.attempts == 0 && r.errorHash.None? && r.updatedAt.None?
    && r.filename == Some(RemovePrefix(current.rawRef, Base(item.tournament)))
  }

  /** A map of candidates with one hash replaced. */
  function WithHash(candidates: map<int, Record>, rid: int, hash: Option<string>): map<int, Record> {
    map r | r in candidates :: if r == rid then candidates[r].(contentHash := hash) else candidates[r]
  }

  /** The current state with this item's own effect taken back; `None` where that is refused. */
  function Normalised(item: Item, current: Snapshot): Option<Snapshot> {
    match item.action
    case VerifyRecord(_, _) => Some(current)
    case FillHash(rid, _) =>
      if item.snapshot.record.None? || item.snapshot.record.value.contentHash.Some? || current.record.None? then None
      else
        Some(current.(record := Some(current.record.value.(contentHash := None)),
                      candidates := WithHash(current.candidates, rid, None)))
    case LinkMatch(mid, decision) =>
      if item.snapshot.matchRow.None? || item.snapshot.matchRow.value.logRecord.Some? || |current.candidates| > 1
         || current.matchRow.None? then None
      else if current.matchRow.value.logRecord.None? then Some(current)
      else
        var linked := current.matchRow.value.logRecord.value;
        if linked !in current.candidates || current.candidates[linked].contentHash != Some(item.contentHash) then None
        else if !(match decision case Create => CreatedOk(item, current, current.candidates[linked])
                                 case Reuse(record) => linked == record) then None
        else
          Some(current.(candidates := if decision.Create? then map[] else current.candidates,
                        matchRow := Some(current.matchRow.value.(logRecord := None)),
                        links := current.links - {mid}))
  }

  predicate NotDrifted(item: Item, current: Snapshot) {
    var normalised := Normalised(item, current);
    normalised.Some? && (current == item.snapshot || normalised.value == item.snapshot)
  }

  function CreatedRecord(item: Item, current: Snapshot, createdAt: string): Record {
    Record(item.tournament, Some(RemovePrefix(current.rawRef, Base(item.tournament))), Some(current.contentHash),
           "done", "manual", None, None, 0, None, None, None, None, createdAt)
  }

  function Linked(t: Tables, mid: int, r: int): Tables
    requires mid in t.matches
  {
    t.(matches := t.matches[mid := t.matches[mid].(logRecord := Some(r))])
  }

  /** The write of one item; `None` where its last checks refuse. */
  function Written(t: Tables, item: Item, current: Snapshot, created: int, createdAt: string): Option<Tables> {
    match item.action
    case FillHash(rid, _) =>
      if rid !in t.records then None
      else if t.records[rid].contentHash.None? then
        Some(t.(records := t.records[rid := t.records[rid].(contentHash := Some(current.contentHash))]))
      else Some(t)
    case VerifyRecord(_, _) =>
      if current.record.Some? && current.record.value.contentHash == Some(current.contentHash) then Some(t) else None
    case LinkMatch(mid, decision) =>
      if mid !in t.matches then None
      else if t.matches[mid].logRecord.Some? then Some(t)
      else
        match decision
        case Create =>
          if current.candidates != map[] then None
          else Some(Linked(t.(records := t.records[created := CreatedRecord(item, current, createdAt)]), mid, created))
        case Reuse(r) =>
          if current.candidates.Keys != {r} || current.candidates[r].contentHash != Some(current.contentHash) then None
          else Some(Linked(t, mid, r))
  }

  /** One application up to its write. */
  function Reviewed(t: Tables, objects: map<string, string>, item: Item, created: int,
                    createdAt: string): Option<Tables> {
    var current := Inspect(t, objects, RecordId(item), MatchId(item));
    if current.None? || !IdentityOk(item, current.value) || !NotDrifted(item, current.value) then None
    else Written(t, item, current.value, created, createdAt)
  }

  /** One application: the state is inspected again after the write, and a refusal rolls back. */
  function Apply(t: Tables, objects: map<string, string>, item: Item, created: int, createdAt: string): Option<Tables> {
    var t' := Reviewed(t, objects, item, created, createdAt);
    if t'.Some? && Inspect(t'.value, objects, RecordId(item), MatchId(item)).Some? then t' else None
  }

  /** Links point at existing records. */
  ghost predicate Consistent(t: Tables) {
    forall m :: m in t.matches && t.matches[m].logRecord.Some? ==> t.matches[m].logRecord.value in t.records
  }

  // ---- resuming ----

  function Filled(t: Tables, rid: int, hash: string): Tables
    requires rid in t.records
  {
    t.(records := t.records[rid := t.records[rid].(contentHash := Some(hash))])
  }

  lemma {:induction false} FilledNames(t: Tables, rid: int, hash: string, tid: int, key: string)
    requires rid in t.records
    ensures Candidates(Filled(t, rid, hash), tid, key).Keys == Candidates(t, tid, key).Keys
  {
    var t' := Filled(t, rid, hash);
    assert forall r :: r in t.records ==> t'.records[r].tournament == t.records[r].tournament
                                          && t'.records[r].filename == t.records[r].filename;
  }

  /** What filling a hash changes among the candidates: the one hash. */
  lemma {:induction false} FilledCandidates(t: Tables, rid: int, hash: string, tid: int, key: string)
    requires rid in t.records
    ensures Candidates(Filled(t, rid, hash), tid, key) == WithHash(Candidates(t, tid, key), rid, Some(hash))
  {
    FilledNames(t, rid, hash, tid, key);
  }

  lemma {:induction false} LinksByKeys(t: Tables, t': Tables, c: map<int, Record>, c': map<int, Record>)
    requires t.matches == t'.matches && c.Keys == c'.Keys
    ensures Links(t, c) == Links(t', c')
  {
  }

  /** After a fill the inspection sees the same state with that one hash. */
  lemma {:induction false} FilledInspection(t: Tables, objects: map<string, string>, rid: int, also: Option<int>)
    requires Inspect(t, objects, Some(rid), also).Some?
    requires Inspect(Filled(t, rid, Inspect(t, objects, Some(rid), also).value.contentHash), objects, Some(rid),
      also).Some?
    ensures var before := Inspect(t, objects, Some(rid), also).value;
            var hash := Some(before.contentHash);
            Inspect(Filled(t, rid, before.contentHash), objects, Some(rid), also).value ==
            before.(record := Some(t.records[rid].(contentHash := hash)),
                    candidates := WithHash(before.candidates, rid, hash))
  {
    var before := Inspect(t, objects, Some(rid), also).value;
    FilledCandidates(t, rid, before.contentHash, before.tournament, before.rawRef);
    LinksByKeys(t, Filled(t, rid, before.contentHash), before.candidates,
                WithHash(before.candidates, rid, Some(before.contentHash)));
  }

  /** Taking the hash back from the filled snapshot gives the snapshot before it. */
  lemma {:induction false} FillTakenBack(item: Item, before: Snapshot, filled: Snapshot, rid: int)
    requires item.action.FillHash? && item.action.record == rid
    requires item.snapshot.record.Some? && item.snapshot.record.value.contentHash.None?
    requires before.record.Some? && before.record.value.contentHash.None?
    requires rid in before.candidates ==> before.candidates[rid].contentHash.None?
    requires filled == before
             || filled == before.(record := Some(before.record.value.(contentHash := Some(before.contentHash))),
                                  candidates := WithHash(before.candidates, rid, Some(before.contentHash)))
    ensures Normalised(item, filled) == Some(before)
  {
    assert Normalised(item, filled).value.candidates == before.candidates;
  }

  /** What an inspection reports of the record it was asked about. */
  lemma {:induction false} InspectedRecord(t: Tables, objects: map<string, string>, rid: int, also: Option<int>)
    requires Inspect(t, objects, Some(rid), also).Some?
    ensures var s := Inspect(t, objects, Some(rid), also).value;
            rid in t.records && s.record == Some(t.records[rid])
            && (rid in s.candidates ==> s.candidates[rid] == t.records[rid])
  {
  }

  /** A state that passes the checks again and would be written unchanged is kept by another application. */
  lemma {:induction false} KeptByAnother(t: Tables, objects: map<string, string>, item: Item, created: int,
                                         createdAt: string)
    requires Inspect(t, objects, RecordId(item), MatchId(item)).Some?
    requires var current := Inspect(t, objects, RecordId(item), MatchId(item)).value;
             IdentityOk(item, current) && NotDrifted(item, current)
             && Written(t, item, current, created, createdAt) == Some(t)
    ensures Apply(t, objects, item, created, createdAt) == Some(t)
  {
  }

  lemma {:induction false} FillIsResumable(t: Tables, objects: map<string, string>, item: Item, created: int,
                                           createdAt: string, created': int, createdAt': string)
    requires item.action.FillHash? && Apply(t, objects, item, created, createdAt).Some?
    ensures var t' := Apply(t, objects, item, created, createdAt).value;
            Apply(t', objects, item, created', createdAt') == Some(t')
  {
    var rid, also := item.action.record, item.action.also;
    var before := Inspect(t, objects, Some(rid), also).value;
    InspectedRecord(t, objects, rid, also);
    if t.records[rid].contentHash.None? {
      var t' := Filled(t, rid, before.contentHash);
      FilledInspection(t, objects, rid, also);
      var after := Inspect(t', objects, Some(rid), also).value;
      FillTakenBack(item, before, before, rid);
      FillTakenBack(item, before, after, rid);
      KeptByAnother(t', objects, item, created', createdAt');
    } else {
      KeptByAnother(t, objects, item, created', createdAt');
    }
  }

  lemma {:induction false} VerifyIsResumable(t: Tables, objects: map<string, string>, item: Item, created: int,
                                             createdAt: string, created': int, createdAt': string)
    requires item.action.VerifyRecord? && Apply(t, objects, item, created, createdAt).Some?
    ensures Apply(t, objects, item, created, createdAt) == Some(t)
    ensures Apply(t, objects, item, created', createdAt') == Some(t)
  {
  }

  /** An unlinked match has no link among the candidates of its own inspection. */
  lemma {:induction false} UnlinkedHasNoLinks(t: Tables, objects: map<string, string>, mid: int)
    requires Inspect(t, objects, None, Some(mid)).Some? && t.matches[mid].logRecord.None?
    ensures Inspect(t, objects, None, Some(mid)).value.links == map[]
  {
    var links := Inspect(t, objects, None, Some(mid)).value.links;
    assert mid !in links;
    assert forall m :: m in links ==> m == mid;
    assert forall m :: m !in links;
  }

  /** Linking a match to one of its candidates adds that link to what the inspection sees, and nothing else. */
  lemma {:induction false} LinkedInspection(t: Tables, objects: map<string, string>, mid: int, r: int)
    requires Inspect(t, objects, None, Some(mid)).Some? && t.matches[mid].logRecord.None?
    requires r in Inspect(t, objects, None, Some(mid)).value.candidates
    requires Inspect(Linked(t, mid, r), objects, None, Some(mid)).Some?
    ensures var before := Inspect(t, objects, None, Some(mid)).value;
            var row := t.matches[mid].(logRecord := Some(r));
            Inspect(Linked(t, mid, r), objects, None, Some(mid)).value ==
            before.(matchRow := Some(row), links := map[mid := row])
  {
    UnlinkedHasNoLinks(t, objects, mid);
    var before := Inspect(t, objects, None, Some(mid)).value;
    assert Candidates(Linked(t, mid, r), before.tournament, before.rawRef) == before.candidates;
    assert Links(Linked(t, mid, r), before.candidates) == map[mid := t.matches[mid].(logRecord := Some(r))];
  }

  lemma {:induction false} CreatedCandidates(t: Tables, created: int, record: Record, tid: int, key: string)
    requires created !in t.records && Candidates(t, tid, key) == map[]
    ensures var candidates := Candidates(t.(records := t.records[created := record]), tid, key);
            candidates == map[] || candidates == map[created := record]
  {
    var t' := t.(records := t.records[created := record]);
    forall r | r in Candidates(t', tid, key)
      ensures r == created
    {
      assert r !in Candidates(t, tid, key);
    }
  }

  /** So does linking it to a created record, which becomes the one candidate. */
  lemma {:induction false} CreatedInspection(t: Tables, objects: map<string, string>, mid: int, created: int,
                                             record: Record)
    requires Inspect(t, objects, None, Some(mid)).Some? && t.matches[mid].logRecord.None?
    requires created !in t.records && Consistent(t)
    requires Inspect(t, objects, None, Some(mid)).value.candidates == map[]
    requires Inspect(Linked(t.(records := t.records[created := record]), mid, created), objects, None, Some(mid)).Some?
    ensures var before := Inspect(t, objects, None, Some(mid)).value;
            var row := t.matches[mid].(logRecord := Some(created));
            Inspect(Linked(t.(records := t.records[created := record]), mid, created), objects, None,
              Some(mid)).value ==
            before.(matchRow := Some(row), candidates := map[created := record], links := map[mid := row])
  {
    var before := Inspect(t, objects, None, Some(mid)).value;
    var t' := Linked(t.(records := t.records[created := record]), mid, created);
    CreatedCandidates(t, created, record, before.tournament, before.rawRef);
    LinksOfCreated(t, mid, created, record);
  }

  lemma {:induction false} LinksOfCreated(t: Tables, mid: int, created: int, record: Record)
    requires created !in t.records && Consistent(t) && mid in t.matches
    ensures var t' := Linked(t.(records := t.records[created := record]), mid, created);
            Links(t', map[created := record]) == map[mid := t'.matches[mid]]
  {
    var t' := Linked(t.(records := t.records[created := record]), mid, created);
    var links := Links(t', map[created := record]);
    assert mid in links;
    forall m | m in links
      ensures m == mid
    {
      assert t'.matches[m].logRecord == Some(created);
      assert m in t.matches && t.matches[m].logRecord.Some? ==> t.matches[m].logRecord.value in t.records;
    }
  }

  /** Taking the link back from the linked snapshot gives the snapshot before it. */
  lemma {:induction false} LinkTakenBack(item: Item, before: Snapshot, linked: Snapshot, mid: int, r: int,
                                         record: Record)
    requires item.action.LinkMatch? && item.action.matchId == mid
    requires item.snapshot.matchRow.Some? && item.snapshot.matchRow.value.logRecord.None?
    requires before.matchRow.Some? && before.matchRow.value.logRecord.None? && before.links == map[]
    requires record.contentHash == Some(item.contentHash)
    requires match item.action.decision
             case Create => before.candidates == map[] && CreatedOk(item, before, record)
             case Reuse(s) => s == r && before.candidates == map[r := record]
    requires var row := before.matchRow.value.(logRecord := Some(r));
             linked == before.(matchRow := Some(row), candidates := map[r := record], links := map[mid := row])
    ensures Normalised(item, linked) == Some(before)
  {
    assert linked.links - {mid} == map[];
    assert Normalised(item, linked).value.matchRow == before.matchRow;
  }

  lemma {:induction false} ReuseIsResumable(t: Tables, objects: map<string, string>, item: Item, created: int,
                                            createdAt: string, created': int, createdAt': string)
    requires item.action.LinkMatch? && item.action.decision.Reuse? && Apply(t, objects, item, created, createdAt).Some?
    ensures var t' := Apply(t, objects, item, created, createdAt).value;
            Apply(t', objects, item, created', createdAt') == Some(t')
  {
    var mid, r := item.action.matchId, item.action.decision.record;
    var before := Inspect(t, objects, None, Some(mid)).value;
    if t.matches[mid].logRecord.None? {
      UnlinkedHasNoLinks(t, objects, mid);
      LinkedInspection(t, objects, mid, r);
      assert before.candidates == map[r := before.candidates[r]];
      var after := Inspect(Linked(t, mid, r), objects, None, Some(mid)).value;
      LinkTakenBack(item, before, after, mid, r, before.candidates[r]);
      KeptByAnother(Linked(t, mid, r), objects, item, created', createdAt');
    } else {
      KeptByAnother(t, objects, item, created', createdAt');
    }
  }

  lemma {:induction false} CreateIsResumable(t: Tables, objects: map<string, string>, item: Item, created: int,
                                             createdAt: string, created': int, createdAt': string)
    requires item.action.LinkMatch? && item.action.decision.Create? && Apply(t, objects, item, created, createdAt).Some?
    requires Consistent(t) && created !in t.records
    ensures var t' := Apply(t, objects, item, created, createdAt).value;
            Apply(t', objects, item, created', createdAt') == Some(t')
  {
    var mid := item.action.matchId;
    var before := Inspect(t, objects, None, Some(mid)).value;
    if t.matches[mid].logRecord.None? {
      var record := CreatedRecord(item, before, createdAt);
      var t' := Linked(t.(records := t.records[created := record]), mid, created);
      UnlinkedHasNoLinks(t, objects, mid);
      CreatedInspection(t, objects, mid, created, record);
      var after := Inspect(t', objects, None, Some(mid)).value;
      LinkTakenBack(item, before, after, mid, created, record);
      KeptByAnother(t', objects, item, created', createdAt');
    } else {
      KeptByAnother(t, objects, item, created', createdAt');
    }
  }

  lemma {:induction false} ConsistencyKept(t: Tables, objects: map<string, string>, item: Item, created: int,
                                           createdAt: string)
    requires Consistent(t) && Reviewed(t, objects, item, created, createdAt).Some?
    ensures Consistent(Reviewed(t, objects, item, created, createdAt).value)
  {
    var current := Inspect(t, objects, RecordId(item), MatchId(item)).value;
    WriteKeepsConsistency(t, item, current, created, createdAt);
  }

  lemma {:induction false} WriteKeepsConsistency(t: Tables, item: Item, current: Snapshot, created: int,
                                                 createdAt: string)
    requires Consistent(t) && Written(t, item, current, created, createdAt).Some?
    requires current.candidates.Keys <= t.records.Keys
    ensures Consistent(Written(t, item, current, created, createdAt).value)
  {
    var t' := Written(t, item, current, created, createdAt).value;
    forall m | m in t'.matches && t'.matches[m].logRecord.Some?
      ensures t'.matches[m].logRecord.value in t'.records
    {
      if t'.matches[m] == t.matches[m] {
      } else {
        assert item.action.LinkMatch? && m == item.action.matchId;
        assert item.action.decision.Reuse? ==> item.action.decision.record in current.candidates.Keys;
      }
    }
  }

  /** Applying the same reviewed item again goes through and changes nothing. */
  lemma {:induction false} RawRepairIsResumable(t: Tables, objects: map<string, string>, item: Item, created: int,
                                                createdAt: string, created': int, createdAt': string)
    requires Consistent(t) && created !in t.records && Apply(t, objects, item, created, createdAt).Some?
    ensures var t' := Apply(t, objects, item, created, createdAt).value;
            Apply(t', objects, item, created', createdAt') == Some(t') && Consistent(t')
  {
    ConsistencyKept(t, objects, item, created, createdAt);
    match item.action
    case FillHash(_, _) => FillIsResumable(t, objects, item, created, createdAt, created', createdAt');
    case VerifyRecord(_, _) => VerifyIsResumable(t, objects, item, created, createdAt, created', createdAt');
    case LinkMatch(_, decision) =>
      if decision.Create? {
        CreateIsResumable(t, objects, item, created, createdAt, created', createdAt');
      } else {
        ReuseIsResumable(t, objects, item, created, createdAt, created', createdAt');
      }
  }

  // ---- when a record can be created ----

  /**
   Creating a record for a match is carried through exactly when the bare name of its key does not
   begin with "logs/": otherwise the created record is no candidate for the key it was created for,
   the inspection after the write refuses, and the item is rolled back every time.
   */
  lemma {:induction false} CreatableExactly(t: Tables, objects: map<string, string>, item: Item, created: int,
                                            createdAt: string)
    requires item.action.LinkMatch? && item.action.decision.Create?
    requires Consistent(t) && created !in t.records
    requires Reviewed(t, objects, item, created, createdAt).Some?
    requires t.matches[item.action.matchId].logRecord.None?
    ensures Apply(t, objects, item, created, createdAt).Some? <==>
            !("logs/" <= RemovePrefix(item.rawRef, Base(item.tournament)))
  {
    var mid, tid := item.action.matchId, item.tournament;
    var t' := Reviewed(t, objects, item, created, createdAt).value;
    var before := Inspect(t, objects, None, Some(mid)).value;
    var bare := Bare(tid, t.matches[mid].logName.value);
    assert item.rawRef == Base(tid) + bare && RemovePrefix(item.rawRef, Base(tid)) == bare;
    var record := CreatedRecord(item, before, createdAt);
    CreatedIsCandidate(t, created, record, tid, item.rawRef, bare);
    if !("logs/" <= bare) {
      CreatedIsAccepted(t, objects, mid, created, record);
    }
  }

  /** A match of tournament 1 whose log is the object at `key`, with no record yet. */
  function Unrecorded(logName: string): Tables {
    Tables(map[], map[1 := Match(1, Some(logName), None, 0)], map[1 := Encounter(Some(1), 1, "overwatch")],
           map[1 := Tournament(1, "overwatch")])
  }

  function CreationFor(logName: string, key: string, hash: string): Item {
    Item(LinkMatch(1, Create), 1, key, hash, None, Some(logName),
         Snapshot(None, Some(Match(1, Some(logName), None, 0)), 1, Tournament(1, "overwatch"), key, hash, map[], map[]))
  }

  /** Such a match is reviewed for creation whenever its name leads to a key with an object. */
  lemma {:induction false} UnrecordedIsReviewed(logName: string, key: string, hash: string, created: int,
                                                createdAt: string)
    requires RawKey(1, Some(logName)) == Some(key)
    ensures Consistent(Unrecorded(logName))
    ensures Reviewed(Unrecorded(logName), map[key := hash], CreationFor(logName, key, hash), created, createdAt).Some?
  {
    var t, objects, item := Unrecorded(logName), map[key := hash], CreationFor(logName, key, hash);
    assert Candidates(t, 1, key) == map[] && Links(t, map[]) == map[];
    assert OwnerOk(t, 1, None, Some(1)) && TournamentOf(t, None, Some(1)) == Some(1);
    assert Inspect(t, objects, None, Some(1)) == Some(item.snapshot);
  }

  lemma {:induction false} DoubledPrefixKey(logName: string)
    requires logName == "logs/logs/f"
    ensures Base(1) == "logs/1/" && Bare(1, logName) == "logs/f"
    ensures RawKey(1, Some(logName)) == Some(Base(1) + "logs/f")
  {
    assert Decimal(1) == ['1'];
    assert Base(1)[5] == '1' && logName[5] == 'l';
    assert logName[..5] == "logs/" && logName[5..] == "logs/f";
    assert !HasDots("logs/f") && "logs/f"[0] != '/';
  }

  /** The failing side exists: this creation passes every review and is rolled back each time. */
  lemma {:induction false} CreationCanBeStranded(hash: string, created: int, createdAt: string)
    ensures var t, key := Unrecorded("logs/logs/f"), "logs/1/logs/f";
            var item := CreationFor("logs/logs/f", key, hash);
            && Consistent(t) && Reviewed(t, map[key := hash], item, created, createdAt).Some?
            && Apply(t, map[key := hash], item, created, createdAt).None?
  {
    var logName, key := "logs/logs/f", "logs/1/logs/f";
    DoubledPrefixKey(logName);
    assert key == Base(1) + "logs/f";
    UnrecordedIsReviewed(logName, key, hash, created, createdAt);
    assert RemovePrefix(key, Base(1)) == "logs/f" && "logs/" <= "logs/f";
    CreatableExactly(Unrecorded(logName), map[key := hash], CreationFor(logName, key, hash), created, createdAt);
  }

  /** A created record that is the one candidate for its key passes the inspection after the write. */
  lemma {:induction false} CreatedIsAccepted(t: Tables, objects: map<string, string>, mid: int, created: int,
                                             record: Record)
    requires Inspect(t, objects, None, Some(mid)).Some? && t.matches[mid].logRecord.None?
    requires created !in t.records && Consistent(t)
    requires var before := Inspect(t, objects, None, Some(mid)).value;
             && record.contentHash == Some(before.contentHash) && record.attached.None?
             && RawKey(before.tournament, record.filename).Some?
             && Candidates(t.(records := t.records[created := record]), before.tournament, before.rawRef)
               == map[created := record]
    ensures Inspect(Linked(t.(records := t.records[created := record]), mid, created), objects, None, Some(mid)).Some?
  {
    LinksOfCreated(t, mid, created, record);
    var t' := Linked(t.(records := t.records[created := record]), mid, created);
    var before := Inspect(t, objects, None, Some(mid)).value;
    var tid, candidates := before.tournament, map[created := record];
    SameOwner(t, t', mid, created, record);
    assert Candidates(t', tid, before.rawRef) == candidates;
    assert CandidateOk(t', tid, record, before.contentHash, Some(mid));
    assert |map[mid := t'.matches[mid]]| == 1;
    assert LinksOk(t', tid, Links(t', candidates), Some(mid));
  }

  lemma {:induction false} SameOwner(t: Tables, t': Tables, mid: int, created: int, record: Record)
    requires mid in t.matches && t' == Linked(t.(records := t.records[created := record]), mid, created)
    ensures TournamentOf(t', None, Some(mid)) == TournamentOf(t, None, Some(mid))
    ensures ReferenceOf(t', None, Some(mid)) == ReferenceOf(t, None, Some(mid))
    ensures forall tid :: OwnerOk(t', tid, None, Some(mid)) == OwnerOk(t, tid, None, Some(mid))
  {
  }

  /** The created record stands for the key it was created for exactly when its bare name leads back to it. */
  lemma {:induction false} CreatedIsCandidate(t: Tables, created: int, record: Record, tid: int, key: string,
                                              bare: string)
    requires created !in t.records && Candidates(t, tid, key) == map[]
    requires record.tournament == tid && record.filename == Some(bare) && key == Base(tid) + bare
    ensures var candidates := Candidates(t.(records := t.records[created := record]), tid, key);
            if "logs/" <= bare then candidates == map[] else candidates == map[created := record]
  {
    CreatedCandidates(t, created, record, tid, key);
    BareLeadsBack(tid, bare);
  }

  // ---- what an accepted item is about, and what it leaves, row by row ----

  /** Record `r` stands for the object at `key`. */
  predicate Names(t: Tables, r: int, tid: int, key: string) {
    && r in t.records && t.records[r].tournament == tid && t.records[r].filename.Some?
    && SqlKey(tid, t.records[r].filename.value) == key
  }

  predicate LinksTo(t: Tables, m: int, tid: int, key: string) {
    m in t.matches && t.matches[m].logRecord.Some? && Names(t, t.matches[m].logRecord.value, tid, key)
  }

  /** A record that stands for an object is usable, agrees with its hash and hangs in the same tournament. */
  predicate RecordSound(t: Tables, r: int, tid: int, hash: string, matchId: Option<int>)
    requires r in t.records
  {
    var row := t.records[r];
    && RawKey(tid, row.filename).Some?
    && (row.contentHash.None? || row.contentHash == Some(hash))
    && (row.attached.Some? ==>
          && row.attached.value in t.encounters && t.encounters[row.attached.value].tournament == Some(tid)
          && (matchId.Some? ==> matchId.value in t.matches && t.matches[matchId.value].encounter == row.attached.value))
  }

  /** The named match plays in the tournament and, where it names a log, names this one. */
  predicate MatchSound(t: Tables, mid: int, tid: int, key: string)
    requires tid in t.tournaments
  {
    && mid in t.matches && t.matches[mid].encounter in t.encounters
    && t.encounters[t.matches[mid].encounter] ==
       Encounter(Some(tid), t.tournaments[tid].workspace, t.tournaments[tid].discipline)
    && (t.matches[mid].logName.Some? ==> RawKey(tid, t.matches[mid].logName) == Some(key))
    && (t.matches[mid].logRecord.Some? ==> LinksTo(t, mid, tid, key))
  }

  /** At most one match links to the object, in the same tournament, and only the named one if one is named. */
  ghost predicate LinksSound(t: Tables, tid: int, key: string, matchId: Option<int>) {
    && (forall m :: LinksTo(t, m, tid, key) ==>
          && t.matches[m].encounter in t.encounters && t.encounters[t.matches[m].encounter].tournament == Some(tid)
          && (matchId.Some? ==> m == matchId.value))
    && (forall m, n :: LinksTo(t, m, tid, key) && LinksTo(t, n, tid, key) ==> m == n)
  }

  /** The state in which a record, a match or both can be reviewed for the object at `key`. */
  ghost predicate Sound(t: Tables, objects: map<string, string>, record: Option<int>, matchId: Option<int>, tid: int,
                        key: string)
  {
    && key in objects && tid in t.tournaments && t.tournaments[tid].discipline == "overwatch"
    && (record.Some? ==>
          && record.value in t.records && t.records[record.value].tournament == tid
          && RawKey(tid, t.records[record.value].filename) == Some(key))
    && (matchId.Some? ==> MatchSound(t, matchId.value, tid, key))
    && (record.None? ==> matchId.Some? && t.matches[matchId.value].logName.Some?)
    && (forall r :: Names(t, r, tid, key) ==> RecordSound(t, r, tid, objects[key], matchId))
    && LinksSound(t, tid, key, matchId)
  }

  /** What the tables hold about the object at `key`. */
  function Seen(t: Tables, objects: map<string, string>, record: Option<int>, matchId: Option<int>, tid: int,
                key: string): Snapshot
    requires key in objects && tid in t.tournaments
    requires record.Some? ==> record.value in t.records
    requires matchId.Some? ==> matchId.value in t.matches
  {
    Snapshot(if record.Some? then Some(t.records[record.value]) else None,
             if matchId.Some? then Some(t.matches[matchId.value]) else None,
             tid, t.tournaments[tid], key, objects[key],
             map r | r in t.records && Names(t, r, tid, key) :: t.records[r],
             map m | m in t.matches && LinksTo(t, m, tid, key) :: t.matches[m])
  }

  lemma {:induction false} CandidatesAreNamed(t: Tables, tid: int, key: string)
    ensures Candidates(t, tid, key) == map r | r in t.records && Names(t, r, tid, key) :: t.records[r]
    ensures Links(t, Candidates(t, tid, key)) == map m | m in t.matches && LinksTo(t, m, tid, key) :: t.matches[m]
  {
    assert forall r :: r in Candidates(t, tid, key) <==> Names(t, r, tid, key);
  }

  lemma {:induction false} AtMostOne<V>(links: map<int, V>)
    ensures |links| <= 1 <==> forall m, n :: m in links && n in links ==> m == n
  {
    if |links| > 1 {
      var keys := links.Keys;
      var m := Member(keys);
      assert |keys - {m}| == |keys| - 1;
      var n := Member(keys - {m});
      assert m in links && n in links && m != n;
    } else {
      forall m, n | m in links && n in links
        ensures m == n
      {
        if m != n {
          assert {m, n} <= links.Keys;
          SubsetSize({m, n}, links.Keys);
        }
      }
    }
  }

  lemma {:induction false} SubsetSize<T>(a: set<T>, b: set<T>)
    requires a <= b
    ensures |a| <= |b|
  {
    assert b == a + (b - a);
  }

  /** An inspection goes through exactly in a sound state, and reports what the tables hold. */
  lemma {:induction false} InspectsExactly(t: Tables, objects: map<string, string>, record: Option<int>,
                                           matchId: Option<int>, tid: int, key: string)
    ensures (exists s :: Inspect(t, objects, record, matchId) == Some(s) && s.tournament == tid && s.rawRef == key) <==>
            Sound(t, objects, record, matchId, tid, key)
    ensures Sound(t, objects, record, matchId, tid, key) ==>
      Inspect(t, objects, record, matchId) == Some(Seen(t, objects, record, matchId, tid, key))
  {
    CandidatesAreNamed(t, tid, key);
    AtMostOne(Links(t, Candidates(t, tid, key)));
    var s := Inspect(t, objects, record, matchId);
    if s.Some? && s.value.tournament == tid && s.value.rawRef == key {
      InspectedIsSound(t, objects, record, matchId, tid, key);
    }
    if Sound(t, objects, record, matchId, tid, key) {
      SoundIsInspected(t, objects, record, matchId, tid, key);
    }
  }

  lemma {:induction false} LinksOkExactly(t: Tables, tid: int, key: string, matchId: Option<int>)
    ensures LinksOk(t, tid, Links(t, Candidates(t, tid, key)), matchId) <==> LinksSound(t, tid, key, matchId)
  {
    CandidatesAreNamed(t, tid, key);
    var links := Links(t, Candidates(t, tid, key));
    AtMostOne(links);
    assert forall m :: m in links <==> LinksTo(t, m, tid, key);
    assert forall m :: m in links ==> links[m] == t.matches[m];
  }

  lemma {:induction false} CandidatesOkExactly(t: Tables, tid: int, key: string, hash: string, matchId: Option<int>)
    ensures (forall r :: r in Candidates(t, tid, key) ==>
               CandidateOk(t, tid, Candidates(t, tid, key)[r], hash, matchId)) <==>
            (forall r :: Names(t, r, tid, key) ==> RecordSound(t, r, tid, hash, matchId))
  {
    CandidatesAreNamed(t, tid, key);
    var candidates := Candidates(t, tid, key);
    assert forall r :: r in candidates <==> Names(t, r, tid, key);
    assert forall r :: r in candidates ==>
      (CandidateOk(t, tid, candidates[r], hash, matchId) <==> RecordSound(t, r, tid, hash, matchId));
  }

  lemma {:induction false} InspectedIsSound(t: Tables, objects: map<string, string>, record: Option<int>,
                                            matchId: Option<int>, tid: int, key: string)
    requires Inspect(t, objects, record, matchId).Some?
    requires Inspect(t, objects, record, matchId).value.tournament == tid
    requires Inspect(t, objects, record, matchId).value.rawRef == key
    ensures Sound(t, objects, record, matchId, tid, key)
  {
    CandidatesAreNamed(t, tid, key);
    CandidatesOkExactly(t, tid, key, objects[key], matchId);
    LinksOkExactly(t, tid, key, matchId);
  }

  lemma {:induction false} SoundIsInspected(t: Tables, objects: map<string, string>, record: Option<int>,
                                            matchId: Option<int>, tid: int, key: string)
    requires Sound(t, objects, record, matchId, tid, key)
    ensures Inspect(t, objects, record, matchId) == Some(Seen(t, objects, record, matchId, tid, key))
  {
    CandidatesAreNamed(t, tid, key);
    CandidatesOkExactly(t, tid, key, objects[key], matchId);
    LinksOkExactly(t, tid, key, matchId);
    assert TournamentOf(t, record, matchId) == Some(tid);
    assert OwnerOk(t, tid, record, matchId);
    assert RawKey(tid, ReferenceOf(t, record, matchId)) == Some(key);
  }

  /** The item was made from these tables: it names their object, and its snapshot is what they hold. */
  ghost predicate Reviews(item: Item, t: Tables, objects: map<string, string>) {
    var tid, key, record, matchId := item.tournament, item.rawRef, RecordId(item), MatchId(item);
    && Sound(t, objects, record, matchId, tid, key)
    && item.contentHash == objects[key]
    && item.filename == (if record.Some? then t.records[record.value].filename else None)
    && item.logName == (if matchId.Some? then t.matches[matchId.value].logName else None)
    && item.snapshot == Seen(t, objects, record, matchId, tid, key)
  }

  /** Where the current state needs no taking back, the checks before the write ask for exactly that. */
  lemma {:induction false} ReviewedExactly(t: Tables, objects: map<string, string>, item: Item)
    requires Inspect(t, objects, RecordId(item), MatchId(item)).Some? ==>
      Normalised(item, Inspect(t, objects, RecordId(item), MatchId(item)).value) in
        {None, Inspect(t, objects, RecordId(item), MatchId(item))}
    ensures var current := Inspect(t, objects, RecordId(item), MatchId(item));
            (current.Some? && IdentityOk(item, current.value) && NotDrifted(item, current.value)) <==>
            (Reviews(item, t, objects) && current.Some? && Normalised(item, current.value).Some?)
  {
    var record, matchId := RecordId(item), MatchId(item);
    var current := Inspect(t, objects, record, matchId);
    if current.Some? {
      InspectsExactly(t, objects, record, matchId, current.value.tournament, current.value.rawRef);
    }
    InspectsExactly(t, objects, record, matchId, item.tournament, item.rawRef);
  }

  // ---- filling and verifying ----

  /** A first fill goes through exactly on the reviewed tables. */
  lemma {:induction false} FillExactly(t: Tables, objects: map<string, string>, item: Item, created: int,
                                       createdAt: string)
    requires item.action.FillHash?
    requires item.action.record in t.records ==> t.records[item.action.record].contentHash.None?
    ensures Apply(t, objects, item, created, createdAt).Some? <==> Reviews(item, t, objects)
  {
    var rid, also, tid, key := item.action.record, item.action.also, item.tournament, item.rawRef;
    var current := Inspect(t, objects, Some(rid), also);
    if current.Some? {
      InspectedRecord(t, objects, rid, also);
      NothingToEmpty(current.value, rid);
    }
    ReviewedExactly(t, objects, item);
    InspectsExactly(t, objects, Some(rid), also, tid, key);
    if Reviews(item, t, objects) {
      FilledIsSound(t, objects, rid, also, tid, key);
      InspectsExactly(Filled(t, rid, objects[key]), objects, Some(rid), also, tid, key);
    }
  }

  lemma {:induction false} NothingToEmpty(current: Snapshot, rid: int)
    requires current.record.Some? && current.record.value.contentHash.None?
    requires rid in current.candidates ==> current.candidates[rid].contentHash.None?
    ensures current.(record := Some(current.record.value.(contentHash := None)),
                     candidates := WithHash(current.candidates, rid, None)) == current
  {
    assert WithHash(current.candidates, rid, None) == current.candidates;
  }

  lemma {:induction false} FilledIsSound(t: Tables, objects: map<string, string>, rid: int, also: Option<int>, tid: int,
                                         key: string)
    requires Sound(t, objects, Some(rid), also, tid, key)
    ensures Sound(Filled(t, rid, objects[key]), objects, Some(rid), also, tid, key)
  {
    var t' := Filled(t, rid, objects[key]);
    assert forall r :: Names(t', r, tid, key) <==> Names(t, r, tid, key);
    assert forall m :: LinksTo(t', m, tid, key) <==> LinksTo(t, m, tid, key);
    forall r | Names(t', r, tid, key)
      ensures RecordSound(t', r, tid, objects[key], also)
    {
      assert RecordSound(t, r, tid, objects[key], also);
    }
  }

  /**
   After an accepted fill the record has the hash of the object its filename leads to; every other
   column, record and match is as it was.
   */
  lemma {:induction false} FillOutcome(t: Tables, objects: map<string, string>, item: Item, created: int,
                                       createdAt: string, t': Tables)
    requires item.action.FillHash? && Apply(t, objects, item, created, createdAt) == Some(t')
    ensures var rid := item.action.record;
            && rid in t.records
            && var key := RawKey(t.records[rid].tournament, t.records[rid].filename);
               key.Some? && key.value in objects
               && t' == t.(records := t.records[rid := t.records[rid].(contentHash := Some(objects[key.value]))])
  {
    var rid, also := item.action.record, item.action.also;
    var current := Inspect(t, objects, Some(rid), also).value;
    InspectsExactly(t, objects, Some(rid), also, current.tournament, current.rawRef);
    if t.records[rid].contentHash.Some? {
      KeyTwins(current.tournament, t.records[rid].filename.value);
      assert Names(t, rid, current.tournament, current.rawRef);
      assert t.records == t.records[rid := t.records[rid].(contentHash := Some(objects[current.rawRef]))];
    }
  }

  /** A verification goes through exactly on the reviewed tables with the object's hash, and changes nothing. */
  lemma {:induction false} VerifyExactly(t: Tables, objects: map<string, string>, item: Item, created: int,
                                         createdAt: string)
    requires item.action.VerifyRecord?
    ensures Apply(t, objects, item, created, createdAt) in {None, Some(t)}
    ensures Apply(t, objects, item, created, createdAt).Some? <==>
            Reviews(item, t, objects) && t.records[item.action.record].contentHash == Some(objects[item.rawRef])
  {
    ReviewedExactly(t, objects, item);
    InspectsExactly(t, objects, RecordId(item), MatchId(item), item.tournament, item.rawRef);
  }

  // ---- linking ----

  lemma {:induction false} NoneNamed(t: Tables, tid: int, key: string)
    ensures Candidates(t, tid, key) == map[] <==> forall r :: !Names(t, r, tid, key)
  {
    CandidatesAreNamed(t, tid, key);
    var candidates := Candidates(t, tid, key);
    assert forall r :: Names(t, r, tid, key) <==> r in candidates;
    assert (forall r :: r !in candidates) <==> candidates == map[];
  }

  lemma {:induction false} OnlyNamed(t: Tables, tid: int, key: string, id: int)
    ensures Candidates(t, tid, key).Keys == {id} <==> forall r :: Names(t, r, tid, key) <==> r == id
  {
    CandidatesAreNamed(t, tid, key);
    var candidates := Candidates(t, tid, key);
    assert forall r :: Names(t, r, tid, key) <==> r in candidates.Keys;
    assert (forall r :: r in candidates.Keys <==> r == id) <==> candidates.Keys == {id};
  }

  /** A first link to an existing record needs that this record alone stands for the object, with its hash. */
  lemma {:induction false} ReuseExactly(t: Tables, objects: map<string, string>, item: Item, created: int,
                                        createdAt: string)
    requires item.action.LinkMatch? && item.action.decision.Reuse?
    requires item.action.matchId in t.matches ==> t.matches[item.action.matchId].logRecord.None?
    ensures Apply(t, objects, item, created, createdAt).Some? <==>
            && Reviews(item, t, objects)
            && var id := item.action.decision.record;
               && id in t.records && (forall r :: Names(t, r, item.tournament, item.rawRef) <==> r == id)
               && t.records[id].contentHash == Some(objects[item.rawRef])
  {
    var mid, id, tid, key := item.action.matchId, item.action.decision.record, item.tournament, item.rawRef;
    UnlinkedReviewed(t, objects, item);
    if Reviews(item, t, objects) {
      CandidatesAreNamed(t, tid, key);
      var candidates := Candidates(t, tid, key);
      InspectsExactly(t, objects, None, Some(mid), tid, key);
      OnlyNamed(t, tid, key, id);
      if candidates.Keys == {id} && t.records[id].contentHash == Some(objects[key]) {
        assert |candidates| == |candidates.Keys| == 1;
        LinkedIsSound(t, objects, mid, id, tid, key);
        InspectsExactly(Linked(t, mid, id), objects, None, Some(mid), tid, key);
      }
    }
  }

  /** For an unlinked match there is nothing to take back, but two candidates refuse. */
  lemma {:induction false} UnlinkedReviewed(t: Tables, objects: map<string, string>, item: Item)
    requires item.action.LinkMatch?
    requires item.action.matchId in t.matches ==> t.matches[item.action.matchId].logRecord.None?
    ensures var current := Inspect(t, objects, RecordId(item), MatchId(item));
            (current.Some? && IdentityOk(item, current.value) && NotDrifted(item, current.value)) <==>
            (Reviews(item, t, objects) && |Candidates(t, item.tournament, item.rawRef)| <= 1)
  {
    var mid := item.action.matchId;
    ReviewedExactly(t, objects, item);
    InspectsExactly(t, objects, None, Some(mid), item.tournament, item.rawRef);
    CandidatesAreNamed(t, item.tournament, item.rawRef);
  }

  lemma {:induction false} LinkedIsSound(t: Tables, objects: map<string, string>, mid: int, id: int, tid: int,
                                         key: string)
    requires Sound(t, objects, None, Some(mid), tid, key) && t.matches[mid].logRecord.None?
    requires Names(t, id, tid, key)
    ensures Sound(Linked(t, mid, id), objects, None, Some(mid), tid, key)
  {
    var t' := Linked(t, mid, id);
    assert forall r :: Names(t', r, tid, key) <==> Names(t, r, tid, key);
    assert forall m :: LinksTo(t', m, tid, key) ==> m == mid || LinksTo(t, m, tid, key);
    forall r | Names(t', r, tid, key)
      ensures RecordSound(t', r, tid, objects[key], Some(mid))
    {
      assert RecordSound(t, r, tid, objects[key], Some(mid));
    }
  }

  /**
   After an accepted reuse the match points to the named record, whose filename leads to the match's
   object and whose hash is the object's; every record and every other match is as it was.
   */
  lemma {:induction false} ReuseOutcome(t: Tables, objects: map<string, string>, item: Item, created: int,
                                        createdAt: string, t': Tables)
    requires item.action.LinkMatch? && item.action.decision.Reuse?
    requires Apply(t, objects, item, created, createdAt) == Some(t')
    ensures var mid, id := item.action.matchId, item.action.decision.record;
            && mid in t.matches && id in t.records
            && t' == t.(matches := t.matches[mid := t.matches[mid].(logRecord := Some(id))])
            && var key := RawKey(t.records[id].tournament, t.records[id].filename);
               && key.Some? && key == RawKey(t.records[id].tournament, t.matches[mid].logName)
               && key.value in objects && t.records[id].contentHash == Some(objects[key.value])
  {
    var mid, id := item.action.matchId, item.action.decision.record;
    var current := Inspect(t, objects, None, Some(mid)).value;
    InspectsExactly(t, objects, None, Some(mid), current.tournament, current.rawRef);
    CandidatesAreNamed(t, current.tournament, current.rawRef);
    assert id in current.candidates.Keys;
    assert Names(t, id, current.tournament, current.rawRef);
    KeyTwins(current.tournament, t.records[id].filename.value);
    if t.matches[mid].logRecord.Some? {
      assert t.matches == t.matches[mid := t.matches[mid].(logRecord := Some(id))];
    }
  }

  /**
   A first creation needs that no record stands for the object, and that the new record will: its bare
   name must not itself begin with "logs/".
   */
  lemma {:induction false} CreateExactly(t: Tables, objects: map<string, string>, item: Item, created: int,
                                         createdAt: string)
    requires item.action.LinkMatch? && item.action.decision.Create?
    requires Consistent(t) && created !in t.records
    requires item.action.matchId in t.matches ==> t.matches[item.action.matchId].logRecord.None?
    ensures Apply(t, objects, item, created, createdAt).Some? <==>
            && Reviews(item, t, objects)
            && (forall r :: !Names(t, r, item.tournament, item.rawRef))
            && !("logs/" <= RemovePrefix(item.rawRef, Base(item.tournament)))
  {
    var mid, tid, key := item.action.matchId, item.tournament, item.rawRef;
    UnlinkedReviewed(t, objects, item);
    CandidatesAreNamed(t, tid, key);
    var candidates := Candidates(t, tid, key);
    NoneNamed(t, tid, key);
    if Reviews(item, t, objects) {
      InspectsExactly(t, objects, None, Some(mid), tid, key);
      if candidates == map[] {
        assert |candidates| == 0;
        CreatableExactly(t, objects, item, created, createdAt);
      }
    }
  }

  /**
   After a first creation the match points to a new record with the object's hash, whose filename leads
   to the match's object; every record and match there was is as it was.
   */
  lemma {:induction false} CreateOutcome(t: Tables, objects: map<string, string>, item: Item, created: int,
                                         createdAt: string, t': Tables)
    requires item.action.LinkMatch? && item.action.decision.Create? && created !in t.records && Consistent(t)
    requires Apply(t, objects, item, created, createdAt) == Some(t')
    ensures var mid := item.action.matchId;
            && mid in t.matches && mid in t'.matches && t'.matches[mid].logRecord.Some?
            && t'.matches[mid].logRecord.value in t'.records
            && var r := t'.matches[mid].logRecord.value;
               var key := RawKey(t'.records[r].tournament, t'.records[r].filename);
               && key.Some? && key == RawKey(t'.records[r].tournament, t.matches[mid].logName)
               && key.value in objects && t'.records[r].contentHash == Some(objects[key.value])
               && t'.records[r].status == "done" && t'.records[r].source == "manual" && t'.records[r].uploader.None?
               && t'.records[r].attached.None? && t'.records[r].attempts == 0
               && t'.records[r].startedAt.None? && t'.records[r].finishedAt.None? && t'.records[r].updatedAt.None?
               && t'.records[r].errorHash.None?
               && if t.matches[mid].logRecord.Some? then t' == t
                  else
                    && r == created && t'.records[r].createdAt == createdAt
                    && t' == t.(records := t.records[r := t'.records[r]],
                                matches := t.matches[mid := t.matches[mid].(logRecord := Some(r))])
  {
    var mid := item.action.matchId;
    var current := Inspect(t', objects, None, Some(mid)).value;
    InspectsExactly(t', objects, None, Some(mid), current.tournament, current.rawRef);
    var r := t'.matches[mid].logRecord.value;
    assert Names(t', r, current.tournament, current.rawRef);
    KeyTwins(current.tournament, t'.records[r].filename.value);
  }

  /** The tables without the item's own effect. */
  function Undone(item: Item, t: Tables): Tables {
    match item.action
    case VerifyRecord(_, _) => t
    case FillHash(rid, _) =>
      if rid in t.records then t.(records := t.records[rid := t.records[rid].(contentHash := None)]) else t
    case LinkMatch(mid, decision) =>
      if mid !in t.matches || t.matches[mid].logRecord.None? then t
      else
        t.(matches := t.matches[mid := t.matches[mid].(logRecord := None)],
           records := if decision.Create? then t.records - {t.matches[mid].logRecord.value} else t.records)
  }

  /** What is accepted, for the first time or again, was reviewed on the tables without the item's own effect. */
  lemma {:induction false} AcceptedWasReviewed(t: Tables, objects: map<string, string>, item: Item, created: int,
                                               createdAt: string)
    requires Apply(t, objects, item, created, createdAt).Some?
    ensures Sound(t, objects, RecordId(item), MatchId(item), item.tournament, item.rawRef)
    ensures var t0 := Undone(item, t);
            && item.tournament in t0.tournaments && (RecordId(item).Some? ==> RecordId(item).value in t0.records)
            && (MatchId(item).Some? ==> MatchId(item).value in t0.matches)
            && item.snapshot == Seen(t0, objects, RecordId(item), MatchId(item), item.tournament, item.rawRef)
  {
    var record, matchId, tid, key := RecordId(item), MatchId(item), item.tournament, item.rawRef;
    InspectsExactly(t, objects, record, matchId, tid, key);
    match item.action
    case VerifyRecord(_, _) =>
    case FillHash(rid, _) => EmptiedIsSeen(t, objects, rid, matchId, tid, key);
    case LinkMatch(mid, decision) =>
      if t.matches[mid].logRecord.None? {
        UnlinkedReviewed(t, objects, item);
      } else {
        UnlinkedIsSeen(t, objects, item);
      }
  }

  lemma {:induction false} SameNames(t: Tables, t0: Tables, tid: int, key: string)
    requires t0.matches == t.matches && t0.records.Keys == t.records.Keys
    requires forall r :: r in t.records ==>
      t0.records[r].tournament == t.records[r].tournament && t0.records[r].filename == t.records[r].filename
    ensures forall r :: Names(t0, r, tid, key) <==> Names(t, r, tid, key)
    ensures (map m | m in t0.matches && LinksTo(t0, m, tid, key) :: t0.matches[m]) ==
            (map m | m in t.matches && LinksTo(t, m, tid, key) :: t.matches[m])
  {
    assert forall m :: LinksTo(t0, m, tid, key) <==> LinksTo(t, m, tid, key);
  }

  lemma {:induction false} EmptiedCandidates(t: Tables, rid: int, tid: int, key: string)
    requires rid in t.records
    ensures var t0 := t.(records := t.records[rid := t.records[rid].(contentHash := None)]);
            (map r | r in t0.records && Names(t0, r, tid, key) :: t0.records[r]) ==
            WithHash(map r | r in t.records && Names(t, r, tid, key) :: t.records[r], rid, None)
  {
    var t0 := t.(records := t.records[rid := t.records[rid].(contentHash := None)]);
    SameNames(t, t0, tid, key);
  }

  lemma {:induction false} EmptiedIsSeen(t: Tables, objects: map<string, string>, rid: int, also: Option<int>, tid: int,
                                         key: string)
    requires Sound(t, objects, Some(rid), also, tid, key)
    ensures var t0 := t.(records := t.records[rid := t.records[rid].(contentHash := None)]);
            var current := Seen(t, objects, Some(rid), also, tid, key);
            Seen(t0, objects, Some(rid), also, tid, key) ==
            current.(record := Some(t.records[rid].(contentHash := None)),
                     candidates := WithHash(current.candidates, rid, None))
  {
    EmptiedCandidates(t, rid, tid, key);
    SameNames(t, t.(records := t.records[rid := t.records[rid].(contentHash := None)]), tid, key);
  }

  /** Without the link of the one linked match no record of the object is linked. */
  lemma {:induction false} UnlinkedNames(t: Tables, t0: Tables, mid: int, gone: set<int>, tid: int, key: string)
    requires mid in t.matches && LinksSound(t, tid, key, Some(mid))
    requires t0.matches == t.matches[mid := t.matches[mid].(logRecord := None)]
    requires t0.records == t.records - gone
    ensures (map r | r in t0.records && Names(t0, r, tid, key) :: t0.records[r]) ==
            (map r | r in t.records && Names(t, r, tid, key) :: t.records[r]) - gone
    ensures forall m :: !LinksTo(t0, m, tid, key)
    ensures (map m | m in t.matches && LinksTo(t, m, tid, key) :: t.matches[m]) - {mid} == map[]
  {
    assert forall r :: Names(t0, r, tid, key) <==> Names(t, r, tid, key) && r !in gone;
    assert forall m :: LinksTo(t0, m, tid, key) ==> LinksTo(t, m, tid, key) && m != mid;
    assert forall m :: LinksTo(t, m, tid, key) ==> m == mid;
  }

  lemma {:induction false} OneKeyGone<V>(m: map<int, V>, k: int)
    requires |m| <= 1 && k in m
    ensures m - {k} == map[]
  {
    AtMostOne(m);
    forall n | n in m
      ensures n == k
    {
      assert k in m;
    }
    assert forall n :: n !in m - {k};
  }

  /** A linked match that passed review was reviewed without its link, and a created record with no candidate. */
  lemma {:induction false} LinkReviewed(item: Item, current: Snapshot)
    requires item.action.LinkMatch? && NotDrifted(item, current)
    requires current.matchRow.Some? && current.matchRow.value.logRecord.Some?
    ensures var linked := current.matchRow.value.logRecord.value;
            && linked in current.candidates && |current.candidates| <= 1
            && item.snapshot ==
               current.(candidates := if item.action.decision.Create? then map[] else current.candidates,
                        matchRow := Some(current.matchRow.value.(logRecord := None)),
                        links := current.links - {item.action.matchId})
  {}

  /** What is seen without the match's link, and without the records that are gone. */
  lemma {:induction false} UnlinkedView(t: Tables, t0: Tables, objects: map<string, string>, mid: int, gone: set<int>,
                                        tid: int, key: string)
    requires Sound(t, objects, None, Some(mid), tid, key)
    requires t0 == t.(matches := t.matches[mid := t.matches[mid].(logRecord := None)], records := t.records - gone)
    ensures var current := Seen(t, objects, None, Some(mid), tid, key);
            Seen(t0, objects, None, Some(mid), tid, key) ==
            current.(candidates := current.candidates - gone,
                     matchRow := Some(current.matchRow.value.(logRecord := None)),
                     links := current.links - {mid})
  {
    UnlinkedNames(t, t0, mid, gone, tid, key);
    assert Seen(t0, objects, None, Some(mid), tid, key).links == map[];
  }

  lemma {:induction false} UnlinkedIsSeen(t: Tables, objects: map<string, string>, item: Item)
    requires item.action.LinkMatch? && Sound(t, objects, None, MatchId(item), item.tournament, item.rawRef)
    requires t.matches[item.action.matchId].logRecord.Some?
    requires NotDrifted(item, Seen(t, objects, None, MatchId(item), item.tournament, item.rawRef))
    ensures item.snapshot == Seen(Undone(item, t), objects, None, MatchId(item), item.tournament, item.rawRef)
  {
    var mid, tid, key := item.action.matchId, item.tournament, item.rawRef;
    var current, linked := Seen(t, objects, None, Some(mid), tid, key), t.matches[mid].logRecord.value;
    LinkReviewed(item, current);
    OneKeyGone(current.candidates, linked);
    if item.action.decision.Create? {
      UnlinkedView(t, Undone(item, t), objects, mid, {linked}, tid, key);
    } else {
      assert t.records - {} == t.records && current.candidates - {} == current.candidates;
      UnlinkedView(t, Undone(item, t), objects, mid, {}, tid, key);
    }
  }

  // ---- the database that the repair writes ----

  class Database {
    var records: map<int, Record>
    var matches: map<int, Match>
    const encounters: map<int, Encounter>
    const tournaments: map<int, Tournament>

    function Contents(): Tables
      reads this
    {
      Tables(records, matches, encounters, tournaments)
    }

    /** The candidate record a link item ends on; `None` where its checks refuse. */
    method ChooseRecord(item: Item, current: Snapshot, created: int, createdAt: string) returns (r: Option<int>)
      requires item.action.LinkMatch?
      modifies this`records
      ensures r == (match item.action.decision
                    case Create => if current.candidates == map[] then Some(created) else None
                    case Reuse(id) => if current.candidates.Keys == {id}
                                         && current.candidates[id].contentHash == Some(current.contentHash)
                                      then Some(id) else None)
      ensures records == if r.Some? && item.action.decision.Create?
                         then old(records)[created := CreatedRecord(item, current, createdAt)] else old(records)
    {
      match item.action.decision {
        case Create =>
          if current.candidates != map[] {
            return None;
          }
          records := records[created := CreatedRecord(item, current, createdAt)];
          r := Some(created);
        case Reuse(id) =>
          if current.candidates.Keys != {id} || current.candidates[id].contentHash != Some(current.contentHash) {
            return None;
          }
          r := Some(id);
      }
    }

    /** The item's own write; a refusal may leave rows behind, which the caller's transaction discards. */
    method Write(item: Item, current: Snapshot, created: int, createdAt: string) returns (ok: bool)
      modifies this`records, this`matches
      ensures ok <==> Written(old(Contents()), item, current, created, createdAt).Some?
      ensures ok ==> Contents() == Written(old(Contents()), item, current, created, createdAt).value
    {
      match item.action {
        case FillHash(rid, _) =>
          ok := rid in records;
          if ok && records[rid].contentHash.None? {
            records := records[rid := records[rid].(contentHash := Some(current.contentHash))];
          }
        case VerifyRecord(_, _) =>
          ok := current.record.Some? && current.record.value.contentHash == Some(current.contentHash);
        case LinkMatch(mid, _) =>
          ok := mid in matches;
          if ok && matches[mid].logRecord.None? {
            var r := ChooseRecord(item, current, created, createdAt);
            ok := r.Some?;
            if ok {
              matches := matches[mid := matches[mid].(logRecord := r)];
            }
          }
      }
    }

    /** One reviewed item in one transaction: the whole effect, or none of it. */
    method ApplyRaw(objects: map<string, string>, item: Item, created: int, createdAt: string) returns (ok: bool)
      modifies this`records, this`matches
      ensures ok <==> Apply(old(Contents()), objects, item, created, createdAt).Some?
      ensures Contents() == if ok then Apply(old(Contents()), objects, item, created, createdAt).value
        else old(Contents())
    {
      var current := Inspect(Contents(), objects, RecordId(item), MatchId(item));
      if current.None? || !IdentityOk(item, current.value) || !NotDrifted(item, current.value) {
        return false;
      }
      var savedRecords, savedMatches := records, matches;
      ok := Write(item, current.value, created, createdAt);
      if ok {
        ok := Inspect(Contents(), objects, RecordId(item), MatchId(item)).Some?;
      }
      if !ok {
        records, matches := savedRecords, savedMatches;
      }
    }
  }
}
