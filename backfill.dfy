/**
 * The code-mapping backfill: every `status_tables` document with a code and
 * an owner gets a `status_table_codes/{CODE}` document pointing back to it,
 * and a mapping that already names another table is never repointed.
 */
module Backfill {
  import opened Wrappers
  import opened Text
  import opened Fields
  import opened Firestore

  const PAGE_SIZE: nat := 500

  /** `hasFlag(name)`: `--name` is one of the command-line arguments. */
  function HasFlag(argv: seq<string>, name: string): (r: bool)
    ensures r <==> exists i :: 0 <= i < |argv| && argv[i] == "--" + name
  {
    "--" + name in argv
  }

  /** The mapping document id of a table: its code, trimmed and upper-cased, unless that is empty. */
  function CodeKey(doc: Doc): Option<string> {
    var rawCode := TrimmedString(Get(doc.data, "code"));
    if rawCode == "" then None else Some(Upper(rawCode))
  }

  /** The fields refreshed on an existing mapping. */
  function UpdatePatch(tableId: string, ownerId: string, trashed: bool): Fields {
    map["tableId" := Str(tableId), "ownerId" := Str(ownerId), "trashed" := Bool(trashed),
        "updatedAt" := ServerTimestamp]
  }

  /** The fields of a new mapping. */
  function NewMapping(tableId: string, ownerId: string, trashed: bool): Fields {
    UpdatePatch(tableId, ownerId, trashed)["createdAt" := ServerTimestamp]
  }

  /** What the loop body does with one table. */
  datatype Decision =
    | SkipNoCode
    | SkipNoOwner
    | Conflict(key: string, existingTableId: string)
    | Update(key: string, tableId: string, ownerId: string, trashed: bool)
    | Create(key: string, tableId: string, ownerId: string, trashed: bool)

  /**
   * The decision for one table, given the mappings committed so far
   * (`mapRef.get()` reads the database, not the batch being staged).
   */
  function Decide(doc: Doc, codes: map<string, Fields>): Decision {
    match CodeKey(doc)
    case None => SkipNoCode
    case Some(key) =>
      var ownerId := TrimmedString(Get(doc.data, "ownerId"));
      if ownerId == "" then SkipNoOwner
      else
        var trashed := Get(doc.data, "trashed") == Bool(true);
        if key in codes then
          var existingTableId := TrimmedString(Get(codes[key], "tableId"));
          if existingTableId != "" && existingTableId != doc.id then Conflict(key, existingTableId)
          else Update(key, doc.id, ownerId, trashed)
        else
          Create(key, doc.id, ownerId, trashed)
  }

  /** The run's counters. */
  datatype Tally = Tally(scanned: nat, created: nat, updated: nat,
                         skippedNoCode: nat, skippedNoOwner: nat, skippedConflicts: nat)
  {
    /** Every scanned table was counted under exactly one outcome. */
    predicate Balanced() {
      scanned == created + updated + skippedNoCode + skippedNoOwner + skippedConflicts
    }

    function Plus(t: Tally): Tally {
      Tally(scanned + t.scanned, created + t.created, updated + t.updated,
            skippedNoCode + t.skippedNoCode, skippedNoOwner + t.skippedNoOwner,
            skippedConflicts + t.skippedConflicts)
    }
  }

  const Zero := Tally(0, 0, 0, 0, 0, 0)

  /** The counters after one more scanned table: `scanned` and exactly one outcome go up by one. */
  function Count(t: Tally, d: Decision): Tally
  {
    var t := t.(scanned := t.scanned + 1);
    match d
    case SkipNoCode => t.(skippedNoCode := t.skippedNoCode + 1)
    case SkipNoOwner => t.(skippedNoOwner := t.skippedNoOwner + 1)
    case Conflict(_, _) => t.(skippedConflicts := t.skippedConflicts + 1)
    case Update(_, _, _, _) => t.(updated := t.updated + 1)
    case Create(_, _, _, _) => t.(created := t.created + 1)
  }

  /** Counting one more decision commutes with adding earlier counts. */
  lemma PlusCount(a: Tally, b: Tally, d: Decision)
    ensures a.Plus(Count(b, d)) == Count(a.Plus(b), d)
  {
  }

  /** The write a decision stages: none in a dry run, and none for a skip or a conflict. */
  function Effect(d: Decision, dryRun: bool): seq<Write> {
    if dryRun then []
    else
      match d
      case Update(key, tableId, ownerId, trashed) => [SetMerge(Code(key), UpdatePatch(tableId, ownerId, trashed))]
      case Create(key, tableId, ownerId, trashed) => [SetMerge(Code(key), NewMapping(tableId, ownerId, trashed))]
      case _ => []
  }

  datatype Staged = Staged(writes: seq<Write>, tally: Tally)

  /**
   * The batch and the counters of one page, table by table in query order;
   * every decision is made against the same committed mappings.
   */
  function Stage(page: seq<Doc>, codes: map<string, Fields>, dryRun: bool): Staged
    decreases |page|
  {
    if page == [] then Staged([], Zero)
    else
      var prev := Stage(page[..|page| - 1], codes, dryRun);
      var d := Decide(page[|page| - 1], codes);
      Staged(prev.writes + Effect(d, dryRun), Count(prev.tally, d))
  }

  /** Each table of the page is counted once, under exactly one outcome. */
  lemma {:induction false} StageCounts(page: seq<Doc>, codes: map<string, Fields>, dryRun: bool)
    ensures var staged := Stage(page, codes, dryRun);
      staged.tally.scanned == |page| && staged.tally.Balanced()
    decreases |page|
  {
    if page != [] {
      StageCounts(page[..|page| - 1], codes, dryRun);
    }
  }

  /**
   * Only creates and updates stage a write, always to a mapping; a dry run
   * stages none.
   */
  lemma {:induction false} StageWrites(page: seq<Doc>, codes: map<string, Fields>, dryRun: bool)
    ensures var staged := Stage(page, codes, dryRun);
      |staged.writes| == (if dryRun then 0 else staged.tally.created + staged.tally.updated)
    ensures forall w :: w in Stage(page, codes, dryRun).writes ==> w.target.Code?
    decreases |page|
  {
    if page != [] {
      StageWrites(page[..|page| - 1], codes, dryRun);
    }
  }

  datatype RunResult = RunResult(codes: map<string, Fields>, tally: Tally)

  /**
   * The whole run from a position of the scan: pages of `PAGE_SIZE`, each
   * staged against the mappings committed before it, then committed.
   */
  function RunFrom(docs: seq<Doc>, codes: map<string, Fields>, dryRun: bool): RunResult
    decreases |docs|
  {
    if docs == [] then RunResult(codes, Zero)
    else
      var page := Limit(docs, PAGE_SIZE);
      var staged := Stage(page, codes, dryRun);
      var rest := RunFrom(docs[|page|..], ApplyCodes(codes, staged.writes), dryRun);
      RunResult(rest.codes, staged.tally.Plus(rest.tally))
  }

  /** One table more: the in-order step `Stage` takes. */
  lemma StageStep(page: seq<Doc>, i: nat, codes: map<string, Fields>, dryRun: bool)
    requires i < |page|
    ensures var prev := Stage(page[..i], codes, dryRun);
      var d := Decide(page[i], codes);
      Stage(page[..i + 1], codes, dryRun) == Staged(prev.writes + Effect(d, dryRun), Count(prev.tally, d))
  {
    assert page[..i + 1][..i] == page[..i];
  }

  /**
   * The body of the page loop for one table: bump `scanned` and the
   * outcome's counter, and stage the mapping write unless this is a dry run.
   */
  method StageOne(d: Decision, dryRun: bool, batch: seq<Write>, batchWrites: nat, tally: Tally)
    returns (batch': seq<Write>, batchWrites': nat, tally': Tally)
    requires batchWrites == |batch|
    ensures batch' == batch + Effect(d, dryRun)
    ensures batchWrites' == |batch'|
    ensures tally' == Count(tally, d)
  {
    batch', batchWrites' := batch, batchWrites;
    tally' := tally.(scanned := tally.scanned + 1);
    match d {
      case SkipNoCode =>
        tally' := tally'.(skippedNoCode := tally'.skippedNoCode + 1);
      case SkipNoOwner =>
        tally' := tally'.(skippedNoOwner := tally'.skippedNoOwner + 1);
      case Conflict(_, _) =>
        tally' := tally'.(skippedConflicts := tally'.skippedConflicts + 1);
      case Update(key, tableId, ownerId, trashed) =>
        if !dryRun {
          var patch := UpdatePatch(tableId, ownerId, trashed);
          batch' := batch' + [SetMerge(Code(key), patch)];
          batchWrites' := batchWrites' + 1;
        }
        tally' := tally'.(updated := tally'.updated + 1);
      case Create(key, tableId, ownerId, trashed) =>
        if !dryRun {
          var newDoc := NewMapping(tableId, ownerId, trashed);
          batch' := batch' + [SetMerge(Code(key), newDoc)];
          batchWrites' := batchWrites' + 1;
        }
        tally' := tally'.(created := tally'.created + 1);
    }
  }

  /**
   * The body of one page: the `for` loop over the page's documents, staging
   * writes in `batch` and counting the outcomes on top of `counts`.
   */
  method StagePage(docs: seq<Doc>, codes: map<string, Fields>, dryRun: bool, counts: Tally)
    returns (batch: seq<Write>, batchWrites: nat, tally: Tally)
    ensures var staged := Stage(docs, codes, dryRun);
      batch == staged.writes && tally == counts.Plus(staged.tally)
    ensures batchWrites == |batch| <= |docs|
  {
    batch := [];
    batchWrites := 0;
    tally := counts;
    for i := 0 to |docs|
      invariant var staged := Stage(docs[..i], codes, dryRun);
        batch == staged.writes && tally == counts.Plus(staged.tally)
      invariant batchWrites == |batch|
    {
      var d := Decide(docs[i], codes);
      StageStep(docs, i, codes, dryRun);
      PlusCount(counts, Stage(docs[..i], codes, dryRun).tally, d);
      batch, batchWrites, tally := StageOne(d, dryRun, batch, batchWrites, tally);
    }
    assert docs[..|docs|] == docs;
    StageCounts(docs, codes, dryRun);
    StageWrites(docs, codes, dryRun);
  }

  lemma PlusBalanced(a: Tally, b: Tally)
    requires a.Balanced() && b.Balanced()
    ensures a.Plus(b).Balanced() && a.Plus(b).scanned == a.scanned + b.scanned
  {
  }

  lemma ZeroPlus(a: Tally)
    ensures Zero.Plus(a) == a
  {
  }

  lemma PlusZero(a: Tally)
    ensures a.Plus(Zero) == a
  {
  }

  lemma PlusAssoc(a: Tally, b: Tally, c: Tally)
    ensures a.Plus(b).Plus(c) == a.Plus(b.Plus(c))
  {
  }

  /**
   * One page of the run, from `visited` on: once the page is staged against
   * `codes0` and committed, the run still owes exactly what `RunFrom` computes
   * from the next page on, with the page's counts added.
   */
  lemma PageAdvance(tables: seq<Doc>, visited: nat, codes0: map<string, Fields>, codes1: map<string, Fields>,
                    before: Tally, after: Tally, dryRun: bool, total: RunResult)
    requires visited < |tables|
    requires var staged := Stage(Limit(tables[visited..], PAGE_SIZE), codes0, dryRun);
      codes1 == ApplyCodes(codes0, staged.writes) && after == before.Plus(staged.tally)
    requires var rest := RunFrom(tables[visited..], codes0, dryRun);
      total == RunResult(rest.codes, before.Plus(rest.tally))
    ensures var rest := RunFrom(tables[visited + |Limit(tables[visited..], PAGE_SIZE)|..], codes1, dryRun);
      total == RunResult(rest.codes, after.Plus(rest.tally))
  {
    var remaining := tables[visited..];
    var page := Limit(remaining, PAGE_SIZE);
    var staged := Stage(page, codes0, dryRun);
    assert remaining[|page|..] == tables[visited + |page|..];
    var rest := RunFrom(remaining[|page|..], codes1, dryRun);
    assert RunFrom(remaining, codes0, dryRun) == RunResult(rest.codes, staged.tally.Plus(rest.tally));
    PlusAssoc(before, staged.tally, rest.tally);
  }

  /** Every table is scanned once and counted under exactly one outcome; a dry run writes nothing. */
  lemma {:induction false} RunFromCounts(docs: seq<Doc>, codes: map<string, Fields>, dryRun: bool)
    ensures var r := RunFrom(docs, codes, dryRun);
      r.tally.scanned == |docs| && r.tally.Balanced() && (dryRun ==> r.codes == codes)
    decreases |docs|
  {
    if docs != [] {
      var page := Limit(docs, PAGE_SIZE);
      var staged := Stage(page, codes, dryRun);
      var next := ApplyCodes(codes, staged.writes);
      var rest := RunFrom(docs[|page|..], next, dryRun);
      assert RunFrom(docs, codes, dryRun) == RunResult(rest.codes, staged.tally.Plus(rest.tally));
      StageCounts(page, codes, dryRun);
      StageWrites(page, codes, dryRun);
      RunFromCounts(docs[|page|..], next, dryRun);
      PlusBalanced(staged.tally, rest.tally);
      if dryRun {
        assert staged.writes == [];
      }
    }
  }

  /**
   * The rest of the loop body for a non-empty page: stage it, then commit
   * the batch when it holds at least one write.
   */
  method ProcessPage(db: Database, docs: seq<Doc>, dryRun: bool, counts: Tally) returns (tally: Tally)
    requires db.Valid() && |docs| <= PAGE_SIZE
    modifies db
    ensures db.Valid() && db.tables == old(db.tables)
    ensures var staged := Stage(docs, old(db.codes), dryRun);
      db.codes == ApplyCodes(old(db.codes), staged.writes) && tally == counts.Plus(staged.tally)
    ensures dryRun ==> db.codes == old(db.codes) && db.commits == old(db.commits)
    ensures CommitsWithin(old(db.commits), db.commits, PAGE_SIZE)
  {
    var batch, batchWrites;
    batch, batchWrites, tally := StagePage(docs, db.codes, dryRun, counts);
    StageWrites(docs, db.codes, dryRun);
    if batchWrites > 0 {
      CodeWritesKeepTables(db.tables, batch);
      db.Commit(batch);
    }
  }

  /**
   * The script: page through `status_tables` in id order, stage one
   * merge-set per created or updated mapping, and commit each non-empty
   * page batch.
   */
  method Run(db: Database, argv: seq<string>) returns (tally: Tally)
    requires db.Valid()
    modifies db
    ensures db.Valid() && db.tables == old(db.tables)
    ensures RunFrom(old(db.tables), old(db.codes), HasFlag(argv, "dry-run")) == RunResult(db.codes, tally)
    ensures tally.scanned == |db.tables| && tally.Balanced()
    ensures HasFlag(argv, "dry-run") ==> db.codes == old(db.codes) && db.commits == old(db.commits)
    ensures CommitsWithin(old(db.commits), db.commits, PAGE_SIZE)
  {
    var dryRun := HasFlag(argv, "dry-run");
    var lastDoc: Option<Doc> := None;
    tally := Zero;
    ghost var visited := 0;
    assert db.tables[visited..] == db.tables;
    ZeroPlus(RunFrom(db.tables, db.codes, dryRun).tally);
    while true
      invariant db.Valid() && db.tables == old(db.tables)
      invariant visited <= |db.tables|
      invariant lastDoc == if visited == 0 then None else Some(db.tables[visited - 1])
      invariant var rest := RunFrom(db.tables[visited..], db.codes, dryRun);
        RunFrom(old(db.tables), old(db.codes), dryRun) == RunResult(rest.codes, tally.Plus(rest.tally))
      invariant dryRun ==> db.codes == old(db.codes) && db.commits == old(db.commits)
      invariant CommitsWithin(old(db.commits), db.commits, PAGE_SIZE)
      decreases |db.tables| - visited
    {
      NextPage(db.tables, visited, lastDoc, PAGE_SIZE);
      var docs := Query(db.tables, lastDoc, PAGE_SIZE);
      ghost var remaining := db.tables[visited..];
      if |docs| == 0 {
        assert remaining == [];
        PlusZero(tally);
        break;
      }

      ghost var before := tally;
      ghost var codes0 := db.codes;
      tally := ProcessPage(db, docs, dryRun, tally);
      PageAdvance(db.tables, visited, codes0, db.codes, before, tally, dryRun,
                  RunFrom(old(db.tables), old(db.codes), dryRun));
      lastDoc := Some(docs[|docs| - 1]);
      visited := visited + |docs|;
    }
    RunFromCounts(db.tables, old(db.codes), dryRun);
  }

}
