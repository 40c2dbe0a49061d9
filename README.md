# Status-table maintenance scripts, modelled in Dafny

Two one-off Firestore maintenance scripts of the status-table app walk the
`status_tables` collection in pages of 500 documents, ordered by document id.
Each next page starts after the last document of the page before it. For every
document the script decides what to do, stages merge-sets for the page in one
write batch, and commits that batch when it holds at least one write.

- **Code-mapping backfill** (`tools/backfill_status_table_codes.mjs`). For a
  table with a code and an owner, it makes sure `status_table_codes/{CODE}`
  exists and names the table. `CODE` is the code trimmed and upper-cased. A
  mapping that already names another table is never repointed; that case is
  counted as a conflict. With `--dry-run` the decisions are counted but
  nothing is staged or committed.
- **Owner repair** (`tools/repair_status_tables_ownerid.mjs`). It stops with
  status 1 unless `--uid <UID>` is given with a non-empty value. Otherwise it
  merge-patches every table whose `ownerId` is missing, is not a string, or is
  blank. The patch sets `ownerId` to the uid and stamps `updatedAt`. It also
  sets `trashed: false`, but only where `trashed` is missing or null.

The files:

- `wrappers.dfy`: `Option`.
- `text.dfy`: JavaScript `trim` and `toUpperCase`, on ASCII.
- `fields.dfy`: field values, document contents, and merge (`set` with
  `{ merge: true }`).
- `order.dfy`: the document-id order.
- `firestore.dfy`: documents, the cursor query, write batches, and the
  `Database` class whose `Commit` applies a batch.
- `backfill.dfy`: the backfill. It has the pure decision (`Decide`), the page
  and run specifications (`Stage`, `RunFrom`) and the imperative script
  (`StageOne`, `StagePage`, `ProcessPage`, `Run`).
- `backfill_proofs.dfy`: what the backfill promises, outcome by outcome and
  over whole runs.
- `backfill_rerun.dfy`: a second live run over the same tables, when no two
  tables share a normalised code.
- `backfill_witness.dfy`: runs that exhibit the cases below: a repoint
  through an untrimmed id, a second run that changes a mapping, and dry-run
  counters that differ from live ones.
- `repair.dfy`: the repair script (`StagePage`, `ProcessPage`, `Run`), its
  specification (`RepairDoc`, `RepairAll`, `Broken`) and its properties.

Where the scripts' header comments and their code differ, the model follows
the code:

- A mapping with a blank `tableId` is not a conflict. The code merge-updates it
  and points it at the current table (backfill lines 89-90).
- A mapping is said to "name" a table by its `tableId` trimmed (backfill
  line 89). The conflict test compares that trimmed id with the untrimmed
  `doc.id` (line 90). `StageKeepsTarget` and `NeverRepoints` therefore keep
  the trimmed `tableId`, not the stored one. The stored id can change:
  a mapping created for table `" a"` stores `" a"`. A later run counts
  `" a"` as a conflict and updates the mapping to name table `"a"`
  (`RawRepoint`, `RawRepointExample`).

How the code behaves across pages and across runs:

- Dry-run counters can differ from live ones when tables on different pages
  share a normalised code. `mapRef.get()` reads only committed mappings. So in
  a live run, a mapping created on an earlier page makes a later table with
  the same code a conflict or an update. The dry run never commits, so it
  counts that later table as a create again (`DryRunCanDiffer`,
  `DryRunCountsDiffer`). When no two tables share a code, the counters are
  equal (`DryRunCountsMatch`). Tables with the same code on one page give
  equal counters too, since lookups within a page also see only committed
  mappings.
- A second live run changes no mapping when no two tables share a normalised
  code (`RerunChangesNothing`). This holds because `serverTimestamp()` is a
  tag value in the model; in Firestore each update stamps a new `updatedAt`.
  When two tables share a code, a second run can change the mapping
  (`RerunCanChange`, `RerunCanChangeExample`).
- Within one page, lookups also see only committed mappings. Two tables with
  the same new code are both counted as created, and the later write wins
  (`SamePageLastWins`).

## Model

| member | source | states |
|---|---|---|
| Backfill.HasFlag | tools/backfill_status_table_codes.mjs:30-32 | the flag is set exactly when `--name` is one of the arguments |
| Text.TrimIsEmptyIff | tools/backfill_status_table_codes.mjs:69-70 | `s.trim()` is empty exactly when every character of `s` is white space |
| Text.TrimShape | tools/backfill_status_table_codes.mjs:69 | the trimmed string starts and ends with a non-space character and is no longer than the input |
| Text.TrimIdempotent | tools/backfill_status_table_codes.mjs:69 | trimming twice is the same as trimming once |
| Text.TrimStartShape | tools/backfill_status_table_codes.mjs:69 | stripping leading space leaves the suffix after a run of white space |
| Text.TrimEndShape | tools/backfill_status_table_codes.mjs:69 | stripping trailing space leaves the prefix before a run of white space |
| Text.UpperShape | tools/backfill_status_table_codes.mjs:75 | upper-casing keeps the length, leaves no lower-case letter, keeps every other character, and shifts `a`..`z` by 32 |
| Fields.TrimmedStringIsEmptyIff | tools/backfill_status_table_codes.mjs:76-77 | the trimmed value of a field is empty exactly when the field is not a string with some non-space text |
| Fields.Merge | tools/backfill_status_table_codes.mjs:105 | a merge-set keeps every field of the target, overrides the patched ones, and adds the new ones |
| Order.PrecedesIrreflexive | tools/backfill_status_table_codes.mjs:55 | no id sorts before itself |
| Order.PrecedesAsymmetric | tools/backfill_status_table_codes.mjs:55 | two ids never sort before each other |
| Order.PrecedesTransitive | tools/backfill_status_table_codes.mjs:55 | the id order is transitive |
| Order.PrecedesTotal | tools/backfill_status_table_codes.mjs:55 | any two different ids are ordered one way or the other |
| Firestore.Limit | tools/backfill_status_table_codes.mjs:56 | `limit(n)` returns at most `n` documents, a prefix of the input, and all of it when fewer than `n` come back |
| Firestore.StartAfterFilter | tools/backfill_status_table_codes.mjs:57 | `startAfter` keeps exactly the documents whose id sorts after the cursor |
| Firestore.StartAfterAll | tools/backfill_status_table_codes.mjs:57 | a cursor before every id keeps the whole collection |
| Firestore.StartAfterNth | tools/backfill_status_table_codes.mjs:57 | in an id-ordered collection, starting after the `n`-th document yields exactly the documents behind it |
| Firestore.NextPage | tools/backfill_status_table_codes.mjs:52-60 | the query with cursor `lastDoc` returns the next page after the documents already visited, so no document is skipped or repeated |
| Firestore.UpsertIds | tools/repair_status_tables_ownerid.mjs:73 | a merge-set on a table adds that id and removes none |
| Firestore.UpsertSorted | tools/repair_status_tables_ownerid.mjs:73 | a merge-set keeps the collection in strict id order |
| Firestore.UpsertExisting | tools/repair_status_tables_ownerid.mjs:73 | merging into an existing document changes that document alone, by a merge |
| Firestore.ApplyTablesSorted | tools/repair_status_tables_ownerid.mjs:79-80 | committing any batch keeps `status_tables` in strict id order |
| Firestore.CodeWritesKeepTables | tools/backfill_status_table_codes.mjs:127-128 | a batch of mapping writes leaves `status_tables` unchanged |
| Firestore.TableWritesKeepCodes | tools/repair_status_tables_ownerid.mjs:79-80 | a batch of table writes leaves `status_table_codes` unchanged |
| Firestore.ApplyCodesAppend | tools/backfill_status_table_codes.mjs:105-128 | committing two runs of writes one after the other is committing them together, in order |
| Firestore.ApplyCodesOne | tools/backfill_status_table_codes.mjs:105 | one merge-set on a mapping merges its patch into that mapping, or into an empty document |
| Firestore.ApplyCodesKeys | tools/backfill_status_table_codes.mjs:121-128 | a batch never deletes a mapping, and every mapping it writes exists afterwards |
| Firestore.ApplyCodesUntouched | tools/backfill_status_table_codes.mjs:84-128 | a mapping that no write targets is left exactly as it was |
| Firestore.Database.constructor | tools/backfill_status_table_codes.mjs:40 | the database starts with the given collections and no commits |
| Firestore.Database.Commit | tools/backfill_status_table_codes.mjs:127-128 | a commit applies every staged write in order, keeps the id order, and records the batch size (at most 500) |
| Backfill.StageCounts | tools/backfill_status_table_codes.mjs:65-125 | each table of a page is scanned once and counted under exactly one outcome |
| Backfill.StageWrites | tools/backfill_status_table_codes.mjs:104-107 | a page stages one mapping write per create or update, and none in a dry run |
| Backfill.StageStep | tools/backfill_status_table_codes.mjs:65-125 | the page is processed table by table in query order, each against the same committed mappings |
| Backfill.StageOne | tools/backfill_status_table_codes.mjs:66-124 | one table bumps `scanned` and exactly its outcome's counter, and stages its create or update write unless this is a dry run |
| Backfill.StagePage | tools/backfill_status_table_codes.mjs:62-125 | the `for` loop yields the page's batch and counters as `Stage` defines them, with `batchWrites` equal to the batch length and at most the page size |
| Backfill.PlusBalanced | tools/backfill_status_table_codes.mjs:45-50 | adding two balanced sets of counters gives a balanced set |
| Backfill.PageAdvance | tools/backfill_status_table_codes.mjs:52-134 | after one committed page, what the run still owes is the run from the next page, with this page's counts added |
| Backfill.RunFromCounts | tools/backfill_status_table_codes.mjs:52-135 | a run scans every table exactly once, counts each under exactly one outcome, and a dry run changes no mapping |
| Backfill.ProcessPage | tools/backfill_status_table_codes.mjs:62-132 | one page commits its staged writes, only when there is at least one, and leaves the tables unchanged |
| Backfill.Run | tools/backfill_status_table_codes.mjs:34-135 | the script's final mappings and counters are those of `RunFrom`; `scanned` is the collection size and equals the sum of the five outcomes; a dry run commits nothing; every commit holds 1 to 500 writes |
| BackfillProofs.UpdatePatchShape | tools/backfill_status_table_codes.mjs:97-102 | the update patch has exactly `tableId`, `ownerId`, `trashed` and `updatedAt`, with the given values |
| BackfillProofs.NewMappingShape | tools/backfill_status_table_codes.mjs:112-118 | a new mapping has exactly those four fields and `createdAt` |
| BackfillProofs.CodeKeyShape | tools/backfill_status_table_codes.mjs:69-75 | the mapping key is the trimmed code upper-cased: non-empty, as long as the trimmed code, no space at either end, no lower-case letter |
| BackfillProofs.DecideNoCode | tools/backfill_status_table_codes.mjs:69-73 | a table whose `code` is not a string with text is skipped as no-code, whatever the mappings |
| BackfillProofs.DecideNoOwner | tools/backfill_status_table_codes.mjs:75-80 | a table with a code but no non-blank string `ownerId` is skipped as no-owner |
| BackfillProofs.DecideConflict | tools/backfill_status_table_codes.mjs:87-94 | a committed mapping whose trimmed `tableId` is non-blank and names another table is a conflict |
| BackfillProofs.DecideUpdate | tools/backfill_status_table_codes.mjs:87-109 | a committed mapping whose `tableId` is blank or names this table is updated with this table's id, its trimmed owner, and whether `trashed` is exactly `true` |
| BackfillProofs.DecideCreate | tools/backfill_status_table_codes.mjs:82-124 | a table with a code and an owner whose key has no committed mapping is created with this table's id, trimmed owner and `trashed === true` |
| BackfillProofs.UpdateWrite | tools/backfill_status_table_codes.mjs:96-109 | an update sets `tableId`, `ownerId`, `trashed` and `updatedAt`, keeps `createdAt` and every other field, and touches no other mapping |
| BackfillProofs.CreateWrite | tools/backfill_status_table_codes.mjs:112-124 | a create adds a mapping with exactly `tableId`, `ownerId`, `trashed`, `createdAt` and `updatedAt`, and touches no other mapping |
| BackfillProofs.StepKeepsTarget | tools/backfill_status_table_codes.mjs:87-109 | one table's write never changes a mapping's trimmed `tableId` once it is non-blank |
| BackfillProofs.StageKeepsTarget | tools/backfill_status_table_codes.mjs:87-109 | committing a page never changes a mapping's trimmed `tableId` once it is non-blank; the stored, untrimmed id can change |
| BackfillProofs.NeverRepoints | tools/backfill_status_table_codes.mjs:52-135 | over a whole run, a mapping's trimmed `tableId` never changes once it is non-blank; the stored, untrimmed id can change |
| BackfillProofs.StageHasEffects | tools/backfill_status_table_codes.mjs:104-123 | every write a table's decision stages is in its page's batch |
| BackfillProofs.StageCovers | tools/backfill_status_table_codes.mjs:84-124 | after a live page, every table of it with a code and an owner has a mapping under its key |
| BackfillProofs.RunFromKeepsKeys | tools/backfill_status_table_codes.mjs:52-135 | a run only adds mappings |
| BackfillProofs.RunFromCovers | tools/backfill_status_table_codes.mjs:52-135 | after a live run, every table with a code and an owner has a mapping under its key |
| BackfillProofs.StageCreatesNothing | tools/backfill_status_table_codes.mjs:87-124 | a page whose tables all have mappings creates none |
| BackfillProofs.RunFromCreatesNothing | tools/backfill_status_table_codes.mjs:52-135 | a run over tables whose mappings all exist creates none |
| BackfillProofs.RerunCreatesNothing | tools/backfill_status_table_codes.mjs:52-135 | a second live run over the same tables creates no mapping, whether or not codes are shared |
| BackfillProofs.StageTargets | tools/backfill_status_table_codes.mjs:84-123 | every write of a page targets the mapping of one of the page's own tables |
| BackfillProofs.StageTallyAgrees | tools/backfill_status_table_codes.mjs:84-124 | a page's counters depend only on the committed mappings of its own keys, not on the dry-run flag |
| BackfillProofs.DistinctSplit | tools/backfill_status_table_codes.mjs:52-57 | splitting tables with distinct keys into a page and the rest leaves distinct keys, none shared with the page |
| BackfillProofs.StageKeepsOthers | tools/backfill_status_table_codes.mjs:104-128 | a page's writes leave the mapping of every key outside the page as it was |
| BackfillProofs.RunFromTallyAgrees | tools/backfill_status_table_codes.mjs:52-135 | with distinct keys, a run's counters do not depend on whether earlier pages were committed |
| BackfillProofs.DryRunCountsMatch | tools/backfill_status_table_codes.mjs:34-135 | with distinct keys, a dry run reports exactly the counters of a live run |
| BackfillProofs.MergeNewMapping | tools/backfill_status_table_codes.mjs:112-121 | merging a new mapping over any document leaves the new table id |
| BackfillProofs.StageSingle | tools/backfill_status_table_codes.mjs:65-125 | a page of one table stages that table's effect and counts its decision |
| BackfillProofs.LiveCreate | tools/backfill_status_table_codes.mjs:112-128 | a live page whose table's key is new creates that mapping, naming the table |
| BackfillProofs.DryRunCanDiffer | tools/backfill_status_table_codes.mjs:84-94 | two tables on different pages with one new key: the later one is a conflict in a live run but a create in a dry run |
| BackfillProofs.StagePair | tools/backfill_status_table_codes.mjs:65-125 | two tables of one page are both decided against the same committed mappings |
| BackfillProofs.LastCreateWins | tools/backfill_status_table_codes.mjs:121 | of two merges under one key, the later table id is kept |
| BackfillProofs.CreatePairEffects | tools/backfill_status_table_codes.mjs:120-124 | two creates stage one write each, in order |
| BackfillProofs.SamePageLastWins | tools/backfill_status_table_codes.mjs:84-128 | two tables of one page with the same new key are both counted as created, and the later one's table id is what is committed |
| BackfillRerun.ApplyCodesAgree | tools/backfill_status_table_codes.mjs:104-128 | committing the same writes to two mapping states that agree under a key keeps them agreeing there |
| BackfillRerun.DecideAgrees | tools/backfill_status_table_codes.mjs:84-124 | a table's decision depends only on the committed mapping under its own key |
| BackfillRerun.IdleStage | tools/backfill_status_table_codes.mjs:65-128 | a page where no table creates a mapping, and every update rewrites values already stored, leaves the mappings as they are |
| BackfillRerun.IdleRun | tools/backfill_status_table_codes.mjs:52-135 | a run where every table is idle in that sense leaves the mappings as they are |
| BackfillRerun.WrittenAbsorbsUpdate | tools/backfill_status_table_codes.mjs:96-121 | after a table's create or update is committed, the same update again rewrites only values already there |
| BackfillRerun.SingleSettles | tools/backfill_status_table_codes.mjs:87-124 | once a table's own write is committed, deciding it again is idle |
| BackfillRerun.StageSettles | tools/backfill_status_table_codes.mjs:65-128 | with distinct keys, a page leaves each table's mapping as that table's write alone would |
| BackfillRerun.EffectTarget | tools/backfill_status_table_codes.mjs:84-121 | a table's staged write, if any, targets the mapping under its own key |
| BackfillRerun.DistinctPrefix | tools/backfill_status_table_codes.mjs:52-57 | a prefix of tables with distinct keys has distinct keys |
| BackfillRerun.LastKeyFresh | tools/backfill_status_table_codes.mjs:65-125 | with distinct keys, the last table's key is no earlier table's key |
| BackfillRerun.RunFromUntouched | tools/backfill_status_table_codes.mjs:52-135 | a run over tables none of which has a key leaves that key's mapping as it was |
| BackfillRerun.RunFromSettles | tools/backfill_status_table_codes.mjs:52-135 | with distinct keys, a live run leaves each table's mapping as that table's write alone would |
| BackfillRerun.RerunChangesNothing | tools/backfill_status_table_codes.mjs:52-135 | with distinct keys, a second live run over the same tables leaves every mapping exactly as the first run left it |
| BackfillWitness.OnePage | tools/backfill_status_table_codes.mjs:52-135 | a run over at most one page is that page's staging, committed |
| BackfillWitness.LiveRunCreates | tools/backfill_status_table_codes.mjs:112-128 | a live run over one table with a new key creates its mapping, naming that table |
| BackfillWitness.RawRepoint | tools/backfill_status_table_codes.mjs:87-109 | a mapping created for a table whose id has outer space is repointed by a later run to the table whose id is that id trimmed, with one conflict and one update |
| BackfillWitness.PairOutcome | tools/backfill_status_table_codes.mjs:87-128 | a page of a conflict and an update counts one of each and commits the update's table id |
| BackfillWitness.PairWrites | tools/backfill_status_table_codes.mjs:96-107 | a conflict stages nothing, so the update's write alone decides the mapping |
| BackfillWitness.PairTally | tools/backfill_status_table_codes.mjs:91-108 | a conflict and an update are counted once each |
| BackfillWitness.RawRepointExample | tools/backfill_status_table_codes.mjs:87-109 | table `" a"` gets a mapping, and a later run over `" a"` and `"a"` makes it name `"a"` |
| BackfillWitness.RerunCanChange | tools/backfill_status_table_codes.mjs:52-135 | when two tables share a new key, the second live run changes the mapping the first run left |
| BackfillWitness.RerunCanChangeExample | tools/backfill_status_table_codes.mjs:52-135 | tables `"a"` and `"a "` with one code: the second run's mappings differ from the first's |
| BackfillWitness.StageNoCodes | tools/backfill_status_table_codes.mjs:69-73 | a page of tables without a code stages nothing and creates nothing |
| BackfillWitness.PageEndingWith | tools/backfill_status_table_codes.mjs:65-125 | a page of code-less tables ending with a new key's table stages only that table's create |
| BackfillWitness.SplitRun | tools/backfill_status_table_codes.mjs:52-135 | a full first page, then one more table on a page of its own |
| BackfillWitness.RunOne | tools/backfill_status_table_codes.mjs:52-135 | a run over one table counts that table's decision |
| BackfillWitness.ConflictAlone | tools/backfill_status_table_codes.mjs:90-93 | a run over one conflicting table counts one conflict and no create |
| BackfillWitness.LiveFirstPage | tools/backfill_status_table_codes.mjs:84-128 | after a live first page that creates a key's mapping, a table on the next page with that key and another id is a conflict |
| BackfillWitness.LiveCounts | tools/backfill_status_table_codes.mjs:52-135 | that live run counts one create and one conflict |
| BackfillWitness.DryCounts | tools/backfill_status_table_codes.mjs:52-135 | the same dry run counts two creates and no conflict |
| BackfillWitness.DryRunCountsDiffer | tools/backfill_status_table_codes.mjs:34-135 | a whole run where the second table of a shared new key starts the second page: live counters 1 create and 1 conflict, dry-run counters 2 creates and 0 conflicts |
| Repair.IndexOf | tools/repair_status_tables_ownerid.mjs:25-26 | `indexOf` gives the first position holding the value, or none exactly when it is absent |
| Repair.RepairPatchShape | tools/repair_status_tables_ownerid.mjs:66-72 | the patch has `ownerId = uid` and `updatedAt`, plus `trashed = false` exactly when `trashed` is missing or null |
| Repair.RepairDocShape | tools/repair_status_tables_ownerid.mjs:63-73 | a document with a non-blank string `ownerId` is left alone; any other keeps its id and its other fields, gets the uid as owner and a fresh `updatedAt`, and gets `trashed = false` only where `trashed` was missing or null |
| Repair.RepairDocStable | tools/repair_status_tables_ownerid.mjs:30-31 | a repaired document needs no further repair exactly when the uid has a non-blank character |
| Repair.BrokenAppend | tools/repair_status_tables_ownerid.mjs:75 | the number of documents needing repair adds up over consecutive runs of documents |
| Repair.BrokenBound | tools/repair_status_tables_ownerid.mjs:61-75 | `repaired` never exceeds `scanned` |
| Repair.PageWritesShape | tools/repair_status_tables_ownerid.mjs:73-74 | a page stages one write per document needing repair, each on a table |
| Repair.PageWritesStep | tools/repair_status_tables_ownerid.mjs:60-77 | the page's batch and count grow document by document in query order |
| Repair.RepairAllShape | tools/repair_status_tables_ownerid.mjs:60-77 | the repaired collection has every document in place, with its id, repaired one by one |
| Repair.Patched | tools/repair_status_tables_ownerid.mjs:73 | repairing positions of a collection keeps its length |
| Repair.PatchedShape | tools/repair_status_tables_ownerid.mjs:73 | position by position, the documents in the page range are repaired and the others kept |
| Repair.PatchedSorted | tools/repair_status_tables_ownerid.mjs:73 | repairing keeps the collection in id order |
| Repair.PatchedNext | tools/repair_status_tables_ownerid.mjs:73 | merging the next document's patch into a partly repaired collection repairs that document too |
| Repair.PatchedSkip | tools/repair_status_tables_ownerid.mjs:65 | a document that needs no repair is left as it is |
| Repair.CommitPage | tools/repair_status_tables_ownerid.mjs:79-80 | committing the writes of a range of documents repairs exactly those documents |
| Repair.CommitStep | tools/repair_status_tables_ownerid.mjs:73-80 | committing one more document's write after those before it repairs it as well |
| Repair.StagePage | tools/repair_status_tables_ownerid.mjs:57-77 | the `for` loop stages a merge-set for exactly the page's documents that need repair, with `batchWrites` and `repaired` equal to that number and `scanned` up by the page size |
| Repair.ProcessPage | tools/repair_status_tables_ownerid.mjs:57-82 | a page commits its writes, only when there is at least one, leaves the mappings unchanged, and updates both counters |
| Repair.Run | tools/repair_status_tables_ownerid.mjs:24-85 | status 1 with nothing changed exactly when `--uid` is missing, last or empty; otherwise the collection ends as every document repaired, `scanned` is its size, `repaired` counts the documents that needed repair, and every commit holds 1 to 500 writes |
| Repair.PageAt | tools/repair_status_tables_ownerid.mjs:51-55 | the page read at the current position holds the original documents there, and an empty page means the scan is done |
| Repair.RunAdvance | tools/repair_status_tables_ownerid.mjs:57-84 | after one page the repaired prefix and the `repaired` count both grow by that page |
| Repair.CommitDocs | tools/repair_status_tables_ownerid.mjs:79-80 | committing a page read from the collection repairs that page's positions |
| Repair.PatchedRepairs | tools/repair_status_tables_ownerid.mjs:60-80 | repairing the page's positions extends the repaired prefix to the page's end |
| Repair.AllRepaired | tools/repair_status_tables_ownerid.mjs:50-55 | once every position is repaired, the collection is the fully repaired original |
| Repair.BrokenStep | tools/repair_status_tables_ownerid.mjs:75 | the count up to a page's end is the count before it plus the page's own |
| Repair.RerunRepairsNothing | tools/repair_status_tables_ownerid.mjs:30-31 | a second run with a uid holding a non-blank character repairs nothing |
| Repair.NoneBroken | tools/repair_status_tables_ownerid.mjs:63-65 | no document of a collection repaired with such a uid needs repair |
| Repair.BlankUidRepeats | tools/repair_status_tables_ownerid.mjs:30-31 | a blank, non-empty uid passes the guard, yet every document it repairs still needs repair |

## Left out

- Firebase Admin initialisation, credentials and the `admin.apps` check are external configuration.
- Network calls, `await` and the Firestore query engine are not modelled. The query is a function over an id-ordered sequence. `startAfter` keeps the ids greater than the cursor.
- Commit failures, retries and concurrent writers are not modelled. The scripts do not handle them: an error ends the process.
- `serverTimestamp()` is a tag value. How the server resolves it is not modelled.
- `trim` and `toUpperCase` are modelled on ASCII only. White space is space, tab, line feed, vertical tab, form feed and carriage return. Only `a`..`z` have an upper-case form.
- Console output is not modelled, except the counter values the scripts print.
- The repair script has no dry-run mode, and neither does its model.
- `process.exit(1)` is modelled as the `Exited(1)` outcome of `Repair.Run`.
- Firestore's limit of 500 writes per batch is a precondition of `Firestore.Database.Commit`. Both scripts meet it because a page holds at most 500 documents.
- The backfill's `mapRef.get()` lookups are read from the committed mappings, which is what Firestore returns for them.
- Field values the scripts never look inside (numbers, timestamps, nested maps) all become one `Other` value.
- BackfillProofs.DryRunCountsMatch: proves that the dry-run counters equal the live ones only when no two tables share a normalised code. Without that condition the equality does not hold for the code as written (`BackfillProofs.DryRunCanDiffer`).
- Mapping keys are taken to be valid Firestore document ids. A normalised code containing `/` makes `.doc(code)` throw at backfill line 84. The script then stops, and that page's staged batch is never committed. This abort is not modelled.
- BackfillProofs.RerunCreatesNothing: states only that a second run creates nothing. `BackfillRerun.RerunChangesNothing` proves that no mapping changes at all, but only when no two tables share a normalised code. `BackfillWitness.RerunCanChange` shows that a shared code can break it.
