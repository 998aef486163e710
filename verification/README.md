# Verified models of the statistics, catalog and balancer tooling

The project models the algorithms and protocols of a tournament platform that decide whether
statistics evidence, reviewed repairs and published artifacts can be trusted, and proves what they
promise. `dafny verify dfyconfig.toml` checks all of it.

| file | what it models |
|---|---|
| `Framing.dfy`, `AuditChain.dfy`, `OwnerJoin.dfy`, `CheckReceipt.dfy`, `History.dfy` | the evidence digest, the replay of an owner's audit chain, the streaming receipt reader with its full outer join, the whole receipt check with its exit code, and what it answers on a database that was captured and then changed step by step |
| `Publication.dfy` | concurrent and crashing captures that publish one three-file receipt, with hard links as their only lock |
| `GameRepair.dfy`, `RawRepair.dfy`, `MemberRepair.dfy` | the three reviewed repairs: drift check, write, resumption |
| `TextEscapes.dfy`, `GoLexer.dfy`, `JsReference.dfy`, `JsLevels.dfy`, `JsBlanks.dfy`, `JsScanner.dfy` | string escapes, the Go lexer, and the mutually recursive TypeScript scanner: its reference, the levels its substitutions make, its comments and regular expressions |
| `DivisionGrid.dfy` | the CASE over a division grid and the rank range that stands in for it |
| `ArtifactSwitch.dfy` | apply and rollback over a table and a receipt file that are not updated together |
| `RankSum.dfy`, `RetainedSize.dfy`, `MarkerSplice.dfy` | the rank-sum AUC, the object-graph worklist, the marker splice of the ERD document |
| `Aliases.dfy`, `CatalogSync.dfy`, `StatusCatalog.dfy`, `HostCache.dfy` | the catalog upsert, the merged status map against its SQL predicate, the proxy's host cache |
| `Wrappers.dfy`, `Ordering.dfy` | shared results and the string order |

Code that changes state step by step is modelled by classes and methods, each proved against a
function of its inputs; lemmas then prove what the function promises.

Nothing here runs the original program.

Conventions. A SHA-256 digest is represented by the bytes hashed, so equal digests mean equal inputs.
A fingerprint of a snapshot is the snapshot itself. `Option` stands for SQL NULL and `None`, `Result`
for a raised exception. Tables are maps by id; columns an operation neither reads nor writes are one
opaque value. Ids, times and the answers of other systems are inputs.

## What the proofs show about the code

- A created log record cannot be linked when the bare name of its key begins with `logs/`: the record
  is then no candidate for the key it was created for, and the item is rolled back every time
  (`RawRepair.CreatableExactly`, `RawRepair.CreationCanBeStranded`).
- `division_rank_bounds` documents monotone tier numbers but only checks contiguity. The range keeps the
  same rows as the CASE for all bounds if and only if, in rank order, every tier that has ranks of its own
  has a number between the numbers of any lower and any higher tier; monotone numbers suffice
  (`DivisionGrid.RangeIsCaseExactly`, `DivisionGrid.UnorderedNumbersOverreach`).
- A second catalog sync of the same rows can change the table. For given slugs and names it can exactly
  when a slug has rows under several names, an earlier one unknown and a later one known, and another row
  creates an entity under the unknown name: the second sync then writes the slug's rows to that entity. A
  source with one name per slug is safe (`CatalogSync.StableExactly`, `CatalogSync.SecondRunMatchesExactly`).
- The marker splice is idempotent if and only if no generated body holds the closing marker
  (`MarkerSplice.RenderAgainExactly`, `MarkerSplice.ErdCanBeUnstable`). Reading translates line ends and
  writing does not, so a rewritten document loses its carriage returns, and a body that holds one is stale
  right after its write (`MarkerSplice.RewrittenIsFresh`).
- The merged status map and the SQL exclusion predicate disagree exactly for an unflagged custom status
  that reuses the slug of an excluded builtin one (`StatusCatalog.DisagreeExactly`,
  `StatusCatalog.ShippedSlugReused`).
- The host cache evicts its first key even when the written host is already cached, and of two
  overlapping lookups the one that finishes last decides the entry, with its own start time, so an
  entry's time can go backwards (`HostCache.PutSize`, `HostCache.LastToFinishDecides`).
- The game repair's `occupied_game_position` refusal never fires while live positions are unique, which
  the table's index keeps: the target checks before it leave it nothing to refuse
  (`GameRepair.PositionCheckIsRedundant`).

## Model

| member | source | states |
|---|---|---|
| Framing.SemanticDigest | backend/shared/services/stats_evidence.py:177-199 | the loop feeds the hasher the framed header and every framed row in order, and counts the rows |
| Framing.BigEndianDenotes | backend/shared/services/stats_evidence.py:185-199 | the eight length bytes are the length, most significant first |
| Framing.StreamInjective | backend/scripts/stats01_reconcile.py:82-97 | the eight-byte length prefixes make the hashed bytes injective: different row lists never feed the hasher the same bytes |
| Framing.DigestBindsRows | backend/shared/services/stats_evidence.py:185-199 | equal digests were taken of the same header and the same rows; header bytes never pass for a row |
| AuditChain.AbsorbLink | backend/scripts/stats01_reconcile.py:933-940 | one link adds its audit id to exactly the partitions it changes or may re-map, and its operation if it touches any; fails exactly on a partition not proved before, a touched one without an id list, or a merge of a kind that has none |
| AuditChain.Replay | backend/scripts/stats01_reconcile.py:924-941 | succeeds if and only if every link's before state equals what was last proved; yields the last state, all touching ids and operations |
| AuditChain.Land | backend/scripts/stats01_reconcile.py:942-956 | succeeds if and only if every current partition equals the last proved state; reports each with all its touching ids |
| AuditChain.OwnerChain | backend/scripts/stats01_reconcile.py:913-959 | succeeds if and only if the chain is linked, lands on the current state and, without a receipt state, has creation evidence |
| AuditChain.RowsForSelects | backend/scripts/stats01_reconcile.py:913-923 | a row is replayed if and only if the log holds it beyond the high water with an after state of the owner |
| AuditChain.RowsForRise | backend/scripts/stats01_reconcile.py:920-923 | rows are replayed in id order |
| AuditChain.LinkedExactly | backend/scripts/stats01_reconcile.py:929-941 | a chain is linked if and only if each link begins where what was proved before it ends, partition by partition |
| AuditChain.LastStateIsHeld | backend/scripts/stats01_reconcile.py:929-941 | of several states of a partition the last one counts |
| AuditChain.UnchangedMeansInitial | backend/scripts/stats01_reconcile.py:938-956 | a partition reported unchanged is currently in its initial state |
| AuditChain.ReplacedBlockSameEffect | backend/scripts/stats01_reconcile.py:929-941 | two accepted chains that differ in one block of links: the two blocks lead to the same state |
| AuditChain.RemovedBlockHasNoEffect | backend/scripts/stats01_reconcile.py:929-941 | if a chain is accepted with and without a contiguous block of links, the block changes no partition |
| AuditChain.SwappedLinksAreNoOps | backend/scripts/stats01_reconcile.py:929-941 | if a chain is accepted with two neighbouring links in either order, neither of them changes the state |
| OwnerJoin.SavedOwners | backend/scripts/stats01_reconcile.py:337-368 | finishes if and only if the receipt is sorted, checked and complete per owner; then its groups partition the lines, one contiguous group per owner in order |
| OwnerJoin.AcceptedExactly | backend/scripts/stats01_reconcile.py:337-368 | a receipt is accepted if and only if its lines are in order, each is sound, and every recorded owner has all its partitions |
| OwnerJoin.GroupIsWhole | backend/scripts/stats01_reconcile.py:350-368 | a group holds every row of its owner in the whole file |
| OwnerJoin.CollapseMerged | backend/scripts/stats01_reconcile.py:1126-1134 | merging the two streams and grouping neighbours is the recursive join |
| OwnerJoin.JoinIsOuter | backend/scripts/stats01_reconcile.py:1126-1134 | the join is a full outer join: every owner of either stream exactly once, in order, with its receipt states when present |
| OwnerJoin.AllOwners | backend/scripts/stats01_reconcile.py:1126-1134 | the merge and group loop yields that full outer join |
| CheckReceipt.CaptureNative | backend/shared/services/stats_evidence.py:543-601 | fails exactly on a repeated scope; else the partitions come out in scope order, a permutation of the listed ones, each with the digest of its rows |
| CheckReceipt.CaptureOwners | backend/scripts/stats01_reconcile.py:662-684 | the owner loop writes lines the reader accepts, which record exactly the owners of the database with their evidence and carry their authority and, for the view and members, named values |
| CheckReceipt.ShippedPartitionsAreWellFormed | backend/shared/services/stats_evidence.py:42-70 | the shipped partition table, whose lists are not in order, meets what the check demands of a registry |
| CheckReceipt.CheckOwner | backend/scripts/stats01_reconcile.py:1155-1183 | one owner's rows: its partitions with their statuses, or one blocking row if its replay or legacy check fails |
| CheckReceipt.Tally.Emit | backend/scripts/stats01_reconcile.py:1148-1153 | the counters count every row, the retained details are the first hundred |
| CheckReceipt.OwnerPass | backend/scripts/stats01_reconcile.py:1155-1183 | the rows of all owners outside the materialised view in order, and exactly the disciplines with evidenced match changes |
| CheckReceipt.MvPass | backend/scripts/stats01_reconcile.py:1185-1209 | the view owners' rows up to the first blocking one; a missing key is raised |
| CheckReceipt.MvRowsMean | backend/scripts/stats01_reconcile.py:1185-1209 | the second pass blocks if and only if the view is invalid or differs without evidence for some owner, and else reports a change if and only if some view row differs |
| CheckReceipt.QuietIffUnchanged | backend/scripts/stats01_reconcile.py:1155-1183 | the first pass has only unchanged rows if and only if every owner's chain holds and no link touches any partition |
| CheckReceipt.QuietExactly | backend/scripts/stats01_reconcile.py:1155-1210 | every row of both passes is unchanged if and only if all owners are quiet and every view row is the same |
| CheckReceipt.UnchangedReconciles | backend/scripts/stats01_reconcile.py:1137-1218 | if every owner is quiet, every receipt row is current and every named owner is in the receipt |
| CheckReceipt.CheckReceipt | backend/scripts/stats01_reconcile.py:1137-1218 | exit code 1 if and only if a row blocks, 2 if and only if none blocks and one changed, 0 only if the whole database outside the view is as recorded; raises exactly on a failed precheck, an unreadable stream or a missing view key |
| CheckReceipt.ReconciledMeansSameDatabase | backend/scripts/stats01_reconcile.py:1137-1218 | a receipt that records a database and is current in another means both have the same owners and rows in every partition, whatever else its rows carry |
| CheckReceipt.CaptureThenCheck | backend/scripts/stats01_reconcile.py:1137-1218 | end to end: a capture, then a check of another database: exit code 0 means both are the same outside the view; and a database nothing has touched since exits with 0, given that the legacy and view comparisons accept the rows the capture recorded |
| CheckReceipt.RecordedViewCompares | backend/scripts/stats01_reconcile.py:675-679 | a captured view or member row names the digest of exactly the rows its partition had |
| History.ChainFollows | backend/scripts/stats01_reconcile.py:913-959 | over any course of evidenced changes an owner's rows link the captured database with the current one, change by change |
| History.EntryFollows | backend/scripts/stats01_reconcile.py:913-959 | the replay of a captured owner accepts that chain and names for each partition exactly the steps that changed it or may re-map it |
| History.CaptureThenAudit | backend/scripts/stats01_reconcile.py:1137-1218 | end to end: a database is captured and then changed in steps that audit rows evidence; the check exits with 1 if and only if the view is stale or a comparison refuses some owner, else with 2 if and only if some step changed a partition, or may re-map it in a merge, or the view moved, else with 0 |
| Publication.StepKeeps | backend/scripts/stats01_reconcile.py:630-725 | every step of every capture, crash or exception keeps the publication invariant and everything published |
| Publication.PublishedForever | backend/scripts/stats01_reconcile.py:196-200 | over every run a published file is never overwritten, replaced or removed |
| Publication.OneCapturePublishes | backend/scripts/stats01_reconcile.py:630-725 | in every reachable state all published files come complete from one capture, and the manifest exists only with that capture's owners and handles files, which are what it states |
| Publication.OneSuccess | backend/scripts/stats01_reconcile.py:716-719 | at most one capture ever reports success, and then all three files are its own |
| Publication.AbandonedStaysIncomplete | backend/scripts/stats01_reconcile.py:719-725 | if the winner stops before its manifest, it stays so, and no manifest is ever published in that directory |
| Publication.WinnerCanFinish | backend/scripts/stats01_reconcile.py:630-725 | from every reachable state a capture that has not stopped, and that no other has forestalled, has a continuation in which it reports success with all three files its own |
| Publication.EmptyDirectoryGetsReceipt | backend/scripts/stats01_reconcile.py:630-725 | from an empty directory every capture has a run that publishes its manifest |
| Publication.WinnerIsNotRefused | backend/scripts/stats01_reconcile.py:196-200 | the links of the capture whose owners file is published always go through |
| Publication.NothingLeftBehind | backend/scripts/stats01_reconcile.py:720-725 | over every run a capture that has succeeded or raised has left no temporary file |
| Publication.ChecksRefuse | backend/scripts/stats01_reconcile.py:632-633 | whichever receipt file exists, the checks refuse the capture before it writes |
| Publication.LateComerWritesNothing | backend/scripts/stats01_reconcile.py:632-633 | a capture that starts when some receipt file exists writes nothing, whatever else runs |
| TextEscapes.UnescapeInvertsSpelling | backend/scripts/check_discipline_literals.py:178-200 | whatever mix of plain characters and escapes spells a string, decoding gives the string back, surrogate pairs included |
| TextEscapes.ContinuationVanishes | backend/scripts/check_discipline_literals.py:178-190 | an escaped line end joins the lines; a backslash that ends the text stays |
| TextEscapes.OctalDecodes | backend/scripts/check_discipline_literals.py:178-188 | an octal escape takes one to three digits, as many as there are |
| TextEscapes.TooLargeStays | backend/scripts/check_discipline_literals.py:184-187 | a number beyond the last code point stays as written |
| TextEscapes.JoinsExactly | backend/scripts/check_discipline_literals.py:196-200 | surrogate halves join unless one has no partner; then the text stays as it is |
| GoLexer.Quoted | backend/scripts/check_discipline_literals.py:203-208 | the value and the index after a quoted string, also where it overruns the text |
| GoLexer.StopsAtClosingQuote | backend/scripts/check_discipline_literals.py:203-208 | the scan of a spelled body stops at the true closing quote |
| GoLexer.GoLiterals | backend/scripts/check_discipline_literals.py:274-293 | the index loop finds exactly the literals of the recursive lexer, with positions |
| GoLexer.RoundTrip | backend/scripts/check_discipline_literals.py:274-293 | lexing any concatenation of code, comments, rune literals, raw and interpreted strings finds exactly the strings, with values and positions, in order |
| JsReference.TurnAdds | backend/scripts/check_discipline_literals.py:215-251 | one turn of the code loop lists only tokens and blanks (comments, regular expressions) of the stretch it passes |
| JsReference.CodeAdds | backend/scripts/check_discipline_literals.py:215-251 | a code scan lists tokens and blanks inside its stretch that are disjoint or nested in substitutions; a quoted token ends at its first unescaped quote or line end; each blank is a whole comment, or a regular expression behind a mark or keyword that lets one open |
| JsReference.TurnStaysSound | backend/scripts/check_discipline_literals.py:215-251 | `prev` allows a regular expression only where, but for spaces and comments, the text before ends with one of the marks or whole keywords, or code begins |
| JsReference.TemplateAdds | backend/scripts/check_discipline_literals.py:253-268 | a template has one chunk more than substitutions; each chunk is the text up to the first unescaped closing backtick or `${`, each substitution what a code scan passes; inner tokens lie in the substitutions |
| JsReference.SpelledWeaves | backend/scripts/check_discipline_literals.py:253-268 | the chunks and substitutions of a token, put together, are its source |
| JsReference.FaithfulIsUnique | backend/scripts/check_discipline_literals.py:203-268 | a listed token or blank is determined by where it begins: no other end, chunks or substitutions meet the contract |
| JsReference.NoStringMissed | backend/scripts/check_discipline_literals.py:211-271 | every quote character of scanned code lies in a listed token outside its substitutions, or in a listed comment or regular expression |
| JsLevels.CodeLevels | backend/scripts/check_discipline_literals.py:215-251 | in every substitution a scan lists, braces outside tokens and blanks never close more than they open before its end, which lies behind the first closing one in excess or at the end of the text; and no slash left outside could have opened a comment or a regular expression |
| JsLevels.TemplateLevels | backend/scripts/check_discipline_literals.py:253-268 | the same for what a template lists |
| JsBlanks.LineCommentExactly | backend/scripts/check_discipline_literals.py:223-224 | a line comment reaches to the first newline or the end of the text |
| JsBlanks.BlockCommentExactly | backend/scripts/check_discipline_literals.py:225-227 | a block comment reaches behind the first closing mark that follows its opening one, or to the end of the text |
| JsBlanks.RegexExactly | backend/scripts/check_discipline_literals.py:228-233 | a regular expression reaches behind its first unescaped line end, or slash outside a class |
| JsBlanks.WordTable | backend/scripts/check_discipline_literals.py:175-175 | the characters words are made of |
| JsBlanks.RegexTable | backend/scripts/check_discipline_literals.py:171-174 | the marks and keywords behind which a regular expression may open, and no others |
| JsScanner.Scanner.Turn | backend/scripts/check_discipline_literals.py:215-251 | one turn of the loop body is the reference turn |
| JsScanner.Scanner.Code | backend/scripts/check_discipline_literals.py:215-251 | the code loop ends for every source where the reference scan ends, and records exactly its tokens |
| JsScanner.Scanner.Template | backend/scripts/check_discipline_literals.py:253-268 | the template loop ends for every source, inner tokens recorded before the template |
| JsScanner.JsLiterals | backend/scripts/check_discipline_literals.py:211-271 | the whole scan terminates with the literals of the listed tokens; what is listed is laminar and faithful, braces alone decide where its substitutions end, no quote outside it is left, and no slash outside it could have opened a comment or a regular expression |
| GameRepair.PositionCheckIsRedundant | backend/scripts/stats01_prepare.py:615-616 | with unique live positions and the target checks passed, no other live game can be at the position |
| GameRepair.CreationOnlyReleases | backend/scripts/stats01_prepare.py:617-629 | creating a game never gives another match a new claim |
| GameRepair.ReleasedExactly | backend/scripts/stats01_prepare.py:617-629 | a creation takes another match's claim away if and only if it was the unique map fallback on the created game's map |
| GameRepair.RepairedClaimsTarget | backend/scripts/stats01_prepare.py:574-646 | the repaired match claims its target, and nothing else |
| GameRepair.RepairKeepsClaimsUnique | backend/scripts/stats01_prepare.py:550-656 | after a successful repair each live game is claimed by at most one match, and live positions stay unique |
| GameRepair.NormalisedAfter | backend/scripts/stats01_prepare.py:580-612 | taking the repair's own effect back from the new state gives the reviewed snapshot |
| GameRepair.RepairIsResumable | backend/scripts/stats01_prepare.py:559-647 | applying the same item again passes every check and changes nothing |
| GameRepair.RunsKeepClaimsUnique | backend/scripts/stats01_prepare.py:550-656 | over any run of attempts the at-most-one-claim rule is invariant |
| GameRepair.RunsKeepOfficialRows | backend/scripts/stats01_prepare.py:647-655 | over any run no earlier game, result, encounter or team row changes |
| GameRepair.Store.ApplyGame | backend/scripts/stats01_prepare.py:550-656 | succeeds if and only if every check passes; then the tables are the repaired ones, else untouched |
| GameRepair.ExistingExactly | backend/scripts/stats01_prepare.py:550-647 | a repair towards an existing game goes through if and only if item, match and game fit, no other match is in the way and the snapshot is what the tables show, now or with the reviewed position put back; then the match is at the position and nothing else changes |
| GameRepair.CreateExactly | backend/scripts/stats01_prepare.py:550-656 | the same for a first creation, which adds one planned game on the map with a blank result for each team |
| GameRepair.CreateAgainExactly | backend/scripts/stats01_prepare.py:580-647 | with a game at the position already, a creation goes through if and only if that game is its own earlier effect, and changes nothing |
| GameRepair.Resolve | backend/scripts/stats01_prepare.py:621-623 | the two-stage resolution finds a game if and only if the match claims it |
| GameRepair.AnyConflict | backend/scripts/stats01_prepare.py:617-629 | the loop refuses if and only if some other match claims, or would come to claim, what the item writes |
| GameRepair.Review | backend/scripts/stats01_prepare.py:555-631 | the checks pass if and only if the repair applies |
| RawRepair.KeyTwins | backend/scripts/stats01_prepare.py:82-92 | the SQL key of the candidate query is the inspected key for every accepted reference |
| RawRepair.BareLeadsBack | backend/scripts/stats01_prepare.py:126-129 | a key's bare name leads back to the key if and only if it does not begin with logs/ |
| RawRepair.SpellingsLeadToKey | backend/scripts/stats01_prepare.py:82-92 | every spelling of a name leads to its one key, unless it is empty, absolute, dotted or too long |
| RawRepair.BaseIsInjective | backend/scripts/stats01_prepare.py:85-85 | tournaments have bases of their own |
| RawRepair.InspectsExactly | backend/scripts/stats01_prepare.py:132-187 | an inspection goes through if and only if owners, references, hashes, links and encounters agree, and reports what the tables hold |
| RawRepair.RawRepairIsResumable | backend/scripts/stats01_prepare.py:432-541 | after any applied raw item, fill, verify or link, applying it again goes through and changes nothing |
| RawRepair.FillIsResumable | backend/scripts/stats01_prepare.py:459-505 | the same for filling a hash, from the state it leaves |
| RawRepair.CreateIsResumable | backend/scripts/stats01_prepare.py:465-531 | the same for a created and linked record |
| RawRepair.CreatableExactly | backend/scripts/stats01_prepare.py:513-537 | a reviewed creation is carried through if and only if the bare name does not begin with logs/ |
| RawRepair.CreationCanBeStranded | backend/scripts/stats01_prepare.py:126-129 | a match, key and item at which a reviewed creation is rolled back |
| RawRepair.FillExactly | backend/scripts/stats01_prepare.py:453-509 | a first fill goes through if and only if the item was reviewed on these tables |
| RawRepair.FillOutcome | backend/scripts/stats01_prepare.py:505-509 | an accepted fill leaves the record with the hash of the object its filename leads to, and everything else as it was |
| RawRepair.VerifyExactly | backend/scripts/stats01_prepare.py:453-512 | a verification goes through if and only if it was reviewed on these tables and the hash is the object's; it changes nothing |
| RawRepair.ReuseExactly | backend/scripts/stats01_prepare.py:453-537 | a first link to an existing record goes through if and only if it was reviewed on these tables and that record alone stands for the object, with its hash |
| RawRepair.ReuseOutcome | backend/scripts/stats01_prepare.py:528-536 | after an accepted reuse the match points to the named record, whose filename leads to the match's object and whose hash is the object's; all else stays |
| RawRepair.CreateExactly | backend/scripts/stats01_prepare.py:453-537 | a first creation goes through if and only if it was reviewed on these tables, no record stands for the object and the new one will |
| RawRepair.CreateOutcome | backend/scripts/stats01_prepare.py:513-536 | after a first creation the match points to one new record with the object's hash and a filename that leads to its object; all else stays |
| RawRepair.AcceptedWasReviewed | backend/scripts/stats01_prepare.py:453-502 | whatever is accepted, first or again, was reviewed on the tables without the item's own effect |
| RawRepair.Database.ApplyRaw | backend/scripts/stats01_prepare.py:432-547 | one item in one transaction: its whole effect if it is accepted, else no change |
| MemberRepair.Database.ApplyMember | backend/scripts/stats01_prepare.py:659-707 | a confirmation writes nothing, a creation inserts one member as removed at its creation, a refusal changes nothing |
| MemberRepair.MemberRepairIsResumable | backend/scripts/stats01_prepare.py:670-698 | applying the same item again, at any later moment, goes through and changes nothing |
| MemberRepair.NoAccessGranted | backend/scripts/stats01_prepare.py:689-706 | no application changes the active members or any earlier row |
| MemberRepair.CreateExactly | backend/scripts/stats01_prepare.py:659-706 | a creation goes through if and only if it was reviewed on the tables as they are without its own row; it inserts one row removed at its creation, or finds that row and changes nothing |
| MemberRepair.ConfirmExactly | backend/scripts/stats01_prepare.py:670-688 | a confirmation goes through if and only if the named member is the player's only one and as reviewed |
| DivisionGrid.ResolveTier | backend/shared/domain/division_rank.py:21-36 | the first tier in list order that holds the rank, else the last; none for NULL, an error for an empty grid |
| DivisionGrid.CaseExpr | backend/shared/division_grid.py:233-246 | the built CASE computes the division of every rank and NULL for NULL |
| DivisionGrid.OrderedIsTheStableSort | backend/shared/division_grid.py:274-274 | the rank order is sorted, a permutation, and keeps ties in list order |
| DivisionGrid.RangeAdmitsCase | backend/shared/division_grid.py:249-304 | every rank the CASE selects is in the range, for every grid and bound pair |
| DivisionGrid.RangeIsCaseExactly | backend/shared/division_grid.py:249-304 | range and CASE agree for every bound pair and rank if and only if tier numbers enclose each other in rank order |
| DivisionGrid.RangeExactly | backend/shared/division_grid.py:272-293 | there is a range if and only if a bound is given, the tiers are contiguous up to an unbounded one, the last in the list has the lowest tier's number and some tier is asked for |
| DivisionGrid.BoundsExactly | backend/shared/division_grid.py:295-304 | the range is open where the lowest or an unbounded tier is asked for, and else ends at the lowest and highest rank asked for |
| DivisionGrid.FallingNumbersSuffice | backend/shared/division_grid.py:256-262 | numbers that fall as ranks rise make range and CASE agree |
| DivisionGrid.UnorderedNumbersOverreach | backend/shared/division_grid.py:249-304 | accepted grids whose range lets in a rank the CASE does not select |
| DivisionGrid.FilterPredicates | backend/shared/division_grid.py:307-338 | the predicates keep the rows of the range where there is one, else of the CASE; a NULL rank passes only without bounds; an empty grid raises |
| ArtifactSwitch.Deployment.Switch | backend/analytics-service/scripts/convert_discipline_artifacts.py:793-859 | the outcome and the table and receipt after one attempt, for every crash point |
| ArtifactSwitch.Deployment.MoveAll | backend/analytics-service/scripts/convert_discipline_artifacts.py:834-844 | every guarded update changes exactly one row |
| ArtifactSwitch.LetThroughExactly | backend/analytics-service/scripts/convert_discipline_artifacts.py:793-848 | an attempt is let through if and only if the receipt is staged in full, the files verify, every listed row is as exported, an apply strands no row, and the listed rows are all on one side |
| ArtifactSwitch.FirstApply | backend/analytics-service/scripts/convert_discipline_artifacts.py:831-859 | a first apply points every listed row to its converted file, leaves the others, and records itself with the number of rows that changed |
| ArtifactSwitch.FirstRollback | backend/analytics-service/scripts/convert_discipline_artifacts.py:831-859 | a first rollback is its mirror image |
| ArtifactSwitch.MovedRows | backend/analytics-service/scripts/convert_discipline_artifacts.py:794-794 | only the receipt's rows change, and only their storage uri |
| ArtifactSwitch.RunsMoveAllOrNothing | backend/analytics-service/scripts/convert_discipline_artifacts.py:793-867 | over any run of attempts and crashes the table is the first one with all receipt rows where the last committed attempt put them |
| ArtifactSwitch.MixedStateUntouched | backend/analytics-service/scripts/convert_discipline_artifacts.py:845-848 | a table on neither side is left as it is by every run |
| ArtifactSwitch.RollbackRestores | backend/analytics-service/scripts/convert_discipline_artifacts.py:866-867 | whatever happened since, a completed rollback restores the original table |
| ArtifactSwitch.RerunRepairsReceipt | backend/analytics-service/scripts/convert_discipline_artifacts.py:831-858 | after a crash behind the commit the same command again changes no row and completes the receipt |
| ArtifactSwitch.ApplyCanBeUndone | backend/analytics-service/scripts/convert_discipline_artifacts.py:862-867 | an accepted apply, crashed or not, can be rolled back at once while the files are intact |
| ArtifactSwitch.NothingStranded | backend/analytics-service/scripts/convert_discipline_artifacts.py:824-830 | after a completed apply every row of the converted kinds points to a converted file |
| RankSum.RankIsAveragePosition | backend/stats-service/fit_impact_weights.py:109-109 | in every sorted arrangement the ties of a score take exactly the positions its average rank is made of |
| RankSum.AucIsPairwise | backend/stats-service/fit_impact_weights.py:107-114 | the average-rank formula is the share of pairs the positive wins, ties half; undefined if and only if a class is empty |
| RankSum.AucInUnitInterval | backend/stats-service/fit_impact_weights.py:107-114 | the statistic lies in [0, 1] |
| RankSum.FlippingComplements | backend/stats-service/fit_impact_weights.py:107-114 | exchanging the labels gives one minus the statistic |
| RankSum.PerfectSeparation | backend/stats-service/fit_impact_weights.py:107-114 | the statistic is one if and only if every positive score is above every negative one |
| RetainedSize.Measure | backend/balancer-service/scripts/measure_draft_snapshot.py:179-219 | terminates on every finite graph with the sum of sizes over exactly the reachable objects, each once |
| RetainedSize.Expand | backend/balancer-service/scripts/measure_draft_snapshot.py:195-218 | pushes exactly the counted references, entries under the state key cut |
| RetainedSize.StateKeyIsCut | backend/balancer-service/scripts/measure_draft_snapshot.py:197-204 | a dictionary refers to a key or value if and only if some entry other than the state entry holds it |
| RetainedSize.RefersExactly | backend/balancer-service/scripts/measure_draft_snapshot.py:195-218 | what each kind of object refers to: entries, items, attributes and set slots |
| RetainedSize.PartsAreNotLarger | backend/balancer-service/scripts/measure_draft_snapshot.py:179-219 | what an object retains is retained by everything it is reachable from |
| Aliases.MergeIsTheUnion | backend/shared/catalog_sync.py:81-87 | the merged aliases are sorted, without repetition, and exactly the union without the canonical name |
| Aliases.MergeAgain | backend/shared/catalog_sync.py:81-87 | merging names that are all there changes nothing |
| CatalogSync.Catalog.FindExisting | backend/shared/catalog_sync.py:194-198 | rows are matched by slug, then by the first known name of the slug |
| CatalogSync.TargetExactly | backend/shared/catalog_sync.py:194-198 | a slug's rows write to the entity with that slug, else to the one its first row with a known name names, else to a new one |
| CatalogSync.Catalog.ResolveMany | backend/shared/catalog_sync.py:123-160 | one image per slug: kept on the bucket, else downloaded, none for a missing one; any other failure raises |
| CatalogSync.Catalog.ApplySource | backend/shared/catalog_sync.py:174-226 | succeeds if and only if nothing raises; then the table is the upserted one and the result the number of created rows, else no change |
| CatalogSync.AcceptedExactly | backend/shared/catalog_sync.py:174-226 | a sync goes through if and only if all attributes are valid, no needed image fails, every parent asked for exists and no two created entities share a name |
| CatalogSync.SyncIsConservative | backend/shared/catalog_sync.py:3-7 | slug, name, attributes, an existing parent, a mirrored image and every alias but the canonical name are kept; unmatched rows are untouched; nothing is deleted |
| CatalogSync.EntityCreated | backend/shared/catalog_sync.py:212-217 | a new entity comes whole from the first row of a slug that matches nothing |
| CatalogSync.LastRowDecidesImage | backend/shared/catalog_sync.py:218-218 | of several rows for one entity the last decides its image |
| CatalogSync.ImageAfterSync | backend/shared/catalog_sync.py:118-160 | after a sync an image on the bucket is kept; else the entity has the bucket's address of exactly the key downloaded for its last row, or none if it is missing |
| CatalogSync.AliasesAfterSync | backend/shared/catalog_sync.py:219-219 | after a sync an entity's aliases are exactly its own and those of its rows, without its name, in order |
| CatalogSync.ParentAfterSync | backend/shared/catalog_sync.py:220-221 | after a sync an entity has the parent it had, else that of its first row that names one, else none |
| CatalogSync.SecondRunMatchesExactly | backend/shared/catalog_sync.py:194-198 | a second sync writes every row to the entity of the first if and only if no rows are crossed |
| CatalogSync.OneNamePerSlugSuffices | backend/shared/catalog_sync.py:194-198 | a source with one name per slug has no crossed rows |
| CatalogSync.SecondRunChangesNothing | backend/shared/catalog_sync.py:174-226 | without crossed rows a second sync with the same image source creates nothing and changes no row |
| CatalogSync.CrossedRowsChange | backend/shared/catalog_sync.py:194-198 | for every accepted source with crossed rows, one with the same slugs and names is accepted whose second sync goes through and changes the table |
| CatalogSync.StableExactly | backend/shared/catalog_sync.py:174-226 | for the slugs and names of an accepted source, no source with them is changed by its second sync if and only if no rows are crossed |
| CatalogSync.CrossedAccepted | backend/shared/catalog_sync.py:174-226 | crossed sources are accepted: those of a simple three-row shape |
| CatalogSync.CrossedShapeExists | backend/shared/catalog_sync.py:194-198 | a concrete catalog and source of that shape |
| MarkerSplice.ErdWellFormed | backend/scripts/export_erd.py:76-79 | no marker begins inside a marker, and a newline ends any of them |
| MarkerSplice.BlockRecognised | backend/scripts/export_erd.py:76-79 | an opening marker around a key, a body and the first closing marker are recognised as that block |
| MarkerSplice.PiecesMakeUpDocument | backend/scripts/export_erd.py:76-79 | prose and matched blocks together are the document |
| MarkerSplice.SpliceRefills | backend/scripts/export_erd.py:334-349 | the splice replaces the bodies of the matched blocks and nothing else |
| MarkerSplice.SplicedParses | backend/scripts/export_erd.py:334-349 | with clean bodies the result has the same prose and keys in the same order |
| MarkerSplice.RenderKeepsProse | backend/scripts/export_erd.py:334-349 | every prose character stays and every block holds its generated body |
| MarkerSplice.SpliceAddsMarkers | backend/scripts/export_erd.py:340-349 | a splice adds exactly the closing markers the bodies bring |
| MarkerSplice.RenderAgainExactly | backend/scripts/export_erd.py:334-362 | rendering the rendered document gives the same document if and only if no generated body holds a closing marker |
| MarkerSplice.ErdCanBeUnstable | backend/scripts/export_erd.py:334-362 | a document and a body, in the real markers, whose second render differs or is refused |
| MarkerSplice.Document.Render | backend/scripts/export_erd.py:334-362 | succeeds if and only if the blocks of the document are exactly the generated ones |
| MarkerSplice.RewrittenIsFresh | backend/scripts/export_erd.py:365-403 | a document file just written is up to date if and only if no body holds a closing marker or a carriage return |
| MarkerSplice.Document.WriteThenCheck | backend/scripts/export_erd.py:365-403 | right after a write the check mode passes if and only if no generated body holds a closing marker and neither bodies nor schema hold a carriage return, which reading translates; a failed render writes neither file |
| StatusCatalog.StatusMetasMap | backend/shared/registration_statuses.py:436-449 | the last stored row of a key wins, then builtin defaults fill the gaps |
| StatusCatalog.CustomDecides | backend/shared/registration_statuses.py:350-371 | by the row order a workspace's custom row decides its key: its name and both flags, deletable, no override |
| StatusCatalog.OverrideDecides | backend/shared/registration_statuses.py:309-371 | else the workspace's own row of builtin kind gives the name, as an override; the flags are the builtin ones |
| StatusCatalog.GlobalDecides | backend/shared/registration_statuses.py:309-371 | else a global row of builtin kind gives the name; without one the rows leave the key alone |
| StatusCatalog.BuiltinDecides | backend/shared/registration_statuses.py:309-339 | without a custom row a key has the builtin flags, overrides or not |
| StatusCatalog.MapImpliesPredicate | backend/shared/registration_statuses.py:273-301 | a status the map excludes is excluded by the SQL predicate |
| StatusCatalog.DisagreeExactly | backend/shared/registration_statuses.py:273-301 | map and predicate disagree if and only if an unflagged custom status reuses an excluded builtin slug |
| StatusCatalog.ShippedExclusions | backend/shared/registration_statuses.py:55-255 | exactly two shipped slugs are excluded |
| StatusCatalog.ShippedSlugReused | backend/shared/registration_statuses.py:273-301 | a stored custom status under either of them on which map and predicate disagree |
| StatusCatalog.OwnSlugsAgree | backend/shared/registration_statuses.py:273-301 | custom statuses with slugs of their own make map and predicate agree on every slug |
| StatusCatalog.UnknownIsIncluded | backend/shared/registration_statuses.py:342-347 | an unknown slug is excluded by neither |
| StatusCatalog.MapHolds | backend/shared/registration_statuses.py:436-449 | the map holds every builtin status and beside them only the workspace's own and global builtin ones |
| HostCache.PutGets | frontend/src/proxy.ts:10-17 | a write stores its entry, evicts at most the oldest key and leaves the other hosts |
| HostCache.PutSize | frontend/src/proxy.ts:10-17 | the exact size after a write, never above the bound |
| HostCache.EveryRunIsSafe | frontend/src/proxy.ts:25-47 | under every interleaving the bound holds, entries and answers are the backend's own for that host, an answer without a request is younger than the lifetime, a failed request gives the entry there was, and an error means the host had none |
| HostCache.FailuresAreNotCached | frontend/src/proxy.ts:36-46 | if a host's entry differs between two moments of a run, a request for it was answered in between, or an answer for another host evicted it from a full cache |
| HostCache.LastAnswerDecides | frontend/src/proxy.ts:39-43 | over every run a host's entry is that of the last call to finish with an answer for it, with that call's start time |
| HostCache.EachCallAnswersOnce | frontend/src/proxy.ts:25-47 | in every interleaving each started call is waiting, or has answered exactly once, for its own host and time |
| HostCache.LastToFinishDecides | frontend/src/proxy.ts:39-43 | of two overlapping lookups, behind no entry or an expired one, the last to finish decides the entry, with its own start time |
| HostCache.Proxy.SetCache | frontend/src/proxy.ts:10-17 | the stored map after a write |
| HostCache.Proxy.Begin | frontend/src/proxy.ts:25-30 | what a call does before its await is the model's step: an answer from a young entry, or the call that waits |
| HostCache.Proxy.Complete | frontend/src/proxy.ts:36-46 | what a call does behind its await is the model's step |

## Left out

- The bodies of audit payload validation, merge evidence, audit prechecks, retained legacy digests and the materialised view comparison: inputs of the check (booleans and functions of the owner).
- CheckReceipt.CheckReceipt: every line of the receipt is read before the check; but an audit row that names an unknown owner kind raises only when the owner stream reaches it, when rows of earlier owners may have gone to a sink. The model raises without rows.
- History.CaptureThenAudit: view owners whose values lack a key are excluded; that the check raises there is stated by CheckReceipt.MvPass. The audit rows of a course are honest: each carries the states of the partitions it changed.
- CheckReceipt.CaptureNative: identity maps, and the limit of a thousand rows on partitions whose values are kept, are left out; a capture is of one owner.
- CheckReceipt.CaptureOwners: of the authority fields only the discipline is modelled; the legacy proof of an owner's first row is part of `legacyHolds`.
- The operations table of the evidence registry: a parameter of the check, as are the partitions.
- Machine crashes that lose synced directory entries: a capture may stop at any step, but completed file operations stay.
- Reason codes, the order of refusals that change nothing, advisory and row locks of the repairs: a refusal is one outcome.
- RawRepair.Database.ApplyRaw: size, encoding and emptiness of a stored object are left out; a key leads to the hash of an acceptable object or to none.
- Official result snapshots around the raw and member repairs: their writes do not touch the tables these are read from.
- Canonical JSON and the fingerprint hash of the repairs: a fingerprint is the snapshot.
- The native raw commands and the read-only check of the repair tool.
- The Python and JSON lexers, token rules and exception manifest of the literal scan.
- GoLexer.RoundTrip: code pieces are free of quotes, and of slashes that open a comment.
- JsReference.CodeAdds: where a regular expression may open is the scanner's rule on the text before it, not the language's grammar.
- Canonical tier numbers, native ranks and grid normalisation of the division grid.
- Export and staging of model artifacts; the verification of artifact files is one answer per attempt.
- ArtifactSwitch.RunsMoveAllOrNothing: other writers to the registry table between attempts are not modelled.
- The ridge regression, grid search and report of the impact fit; scores that are not numbers.
- RetainedSize.Measure: attribute objects created by the traversal itself are not modelled; identities stay fixed while it runs.
- Progress reporting, concurrency and uploads of the catalog sync: an image's answer is a function of slug and address.
- CatalogSync.EntityCreated: ids are given by the database as a function of the slug.
- The renderers of the ERD export: the bodies and the schema artifact's text are inputs.
- The status cache, slug normalisation, display names of unknown statuses, icons and descriptions.
- Header handling and host parsing of the proxy.
- Load measurements, services, brokers, migrations and API documentation tooling.
