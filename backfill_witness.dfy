/**
 * Whole runs of the backfill, as the code is written, that depart from what
 * its header comment and its dry-run flag suggest: a mapping repointed to a
 * table whose id differs from the mapped one only by surrounding white
 * space, a second run that changes a mapping, and a dry run that counts
 * differently from the live run.
 */
module BackfillWitness {
  import opened Wrappers
  import opened Text
  import opened Fields
  import opened Firestore
  import opened Backfill
  import opened BackfillProofs

  /** A run over at most one page stages that page against the starting mappings and commits it. */
  lemma OnePage(docs: seq<Doc>, codes: map<string, Fields>, dryRun: bool)
    requires 0 < |docs| <= PAGE_SIZE
    ensures var staged := Stage(docs, codes, dryRun);
      RunFrom(docs, codes, dryRun) == RunResult(ApplyCodes(codes, staged.writes), staged.tally.Plus(Zero))
  {
    var staged := Stage(docs, codes, dryRun);
    assert Limit(docs, PAGE_SIZE) == docs;
    assert docs[|docs|..] == [];
    assert RunFrom([], ApplyCodes(codes, staged.writes), dryRun) == RunResult(ApplyCodes(codes, staged.writes), Zero);
  }

  /** A live run over one table with a new key creates that key's mapping, naming the table. */
  lemma LiveRunCreates(a: Doc, codes: map<string, Fields>, key: string)
    requires CodeKey(a) == Some(key) && key !in codes && HasText(Get(a.data, "ownerId"))
    ensures var first := RunFrom([a], codes, false).codes;
      key in first && Get(first[key], "tableId") == Str(a.id)
  {
    OnePage([a], codes, false);
    LiveCreate(a, codes, key);
  }

  /**
   * A repoint the header comment rules out: the mapping created for table
   * `a` names `a`, yet a later run over `a` and a table `b` whose id is
   * `a`'s id trimmed counts `a` as a conflict and updates the mapping to
   * name `b`, because the stored `tableId` is trimmed before it is compared
   * with the untrimmed table id.
   */
  lemma RawRepoint(a: Doc, b: Doc, codes: map<string, Fields>, key: string)
    requires CodeKey(a) == Some(key) && CodeKey(b) == Some(key) && key !in codes
    requires HasText(Get(a.data, "ownerId")) && HasText(Get(b.data, "ownerId"))
    requires b.id != "" && Trim(a.id) == b.id && a.id != b.id
    ensures var first := RunFrom([a], codes, false).codes;
      var second := RunFrom([a, b], first, false);
      key in first && Get(first[key], "tableId") == Str(a.id) &&
      Decide(a, first).Conflict? && Decide(b, first).Update? &&
      second.tally.skippedConflicts == 1 && second.tally.updated == 1 &&
      key in second.codes && Get(second.codes[key], "tableId") == Str(b.id)
  {
    var first := RunFrom([a], codes, false).codes;
    LiveRunCreates(a, codes, key);
    TrimIsEmptyIff(a.id);
    DecideConflict(a, first, key);
    DecideUpdate(b, first, key);
    PairOutcome(a, b, first, Decide(b, first));
  }

  /**
   * A page of two tables, one a conflict and the other the update `u`: one
   * conflict, one update, and the mapping under `u`'s key names `u`'s table.
   */
  lemma PairOutcome(a: Doc, b: Doc, codes: map<string, Fields>, u: Decision)
    requires u.Update? && u.key in codes
    requires (Decide(a, codes).Conflict? && Decide(b, codes) == u) || (Decide(a, codes) == u && Decide(b, codes).Conflict?)
    ensures var r := RunFrom([a, b], codes, false);
      r.tally.skippedConflicts == 1 && r.tally.updated == 1 &&
      u.key in r.codes && Get(r.codes[u.key], "tableId") == Str(u.tableId)
  {
    var da, db := Decide(a, codes), Decide(b, codes);
    var staged := Stage([a, b], codes, false);
    StagePair(a, b, codes, false);
    OnePage([a, b], codes, false);
    PairWrites(da, db, u, codes);
    PairTally(da, db, u);
  }

  /** The writes of a conflict and an update are the update's alone, and they name its table. */
  lemma PairWrites(da: Decision, db: Decision, u: Decision, codes: map<string, Fields>)
    requires u.Update? && u.key in codes
    requires (da.Conflict? && db == u) || (da == u && db.Conflict?)
    ensures var after := ApplyCodes(codes, Effect(da, false) + Effect(db, false));
      u.key in after && Get(after[u.key], "tableId") == Str(u.tableId)
  {
    assert Effect(da, false) + Effect(db, false) == Effect(u, false);
    UpdateWrite(codes, u.key, u.tableId, u.ownerId, u.trashed);
  }

  /** A conflict and an update, counted from zero: one of each. */
  lemma PairTally(da: Decision, db: Decision, u: Decision)
    requires u.Update?
    requires (da.Conflict? && db == u) || (da == u && db.Conflict?)
    ensures var t := Count(Count(Zero, da), db).Plus(Zero);
      t.skippedConflicts == 1 && t.updated == 1
  {
  }

  /** One instance: table `" a"` has a mapping, and a later run repoints it to table `"a"`. */
  lemma RawRepointExample()
    ensures var data := map["code" := Str("k"), "ownerId" := Str("u")];
      var a, b := Doc(" a", data), Doc("a", data);
      var first := RunFrom([a], map[], false).codes;
      "K" in first && Get(first["K"], "tableId") == Str(" a") &&
      "K" in RunFrom([a, b], first, false).codes &&
      Get(RunFrom([a, b], first, false).codes["K"], "tableId") == Str("a")
  {
    var data := map["code" := Str("k"), "ownerId" := Str("u")];
    var a, b := Doc(" a", data), Doc("a", data);
    assert Trim("k") == "k" && Upper("k") == "K";
    assert Trim(" a") == "a";
    assert Trim("u") == "u";
    RawRepoint(a, b, map[], "K");
  }

  /**
   * A second live run can change a mapping when two tables share a key: the
   * first run leaves the later table's id, and in the second run the earlier
   * table, whose id is that id trimmed, updates it back.
   */
  lemma RerunCanChange(a: Doc, b: Doc, codes: map<string, Fields>, key: string)
    requires CodeKey(a) == Some(key) && CodeKey(b) == Some(key) && key !in codes
    requires HasText(Get(a.data, "ownerId")) && HasText(Get(b.data, "ownerId"))
    requires a.id != "" && Trim(b.id) == a.id && a.id != b.id
    ensures var first := RunFrom([a, b], codes, false).codes;
      var second := RunFrom([a, b], first, false).codes;
      key in first && Get(first[key], "tableId") == Str(b.id) &&
      key in second && Get(second[key], "tableId") == Str(a.id) &&
      second != first
  {
    OnePage([a, b], codes, false);
    SamePageLastWins(a, b, codes, key);
    var first := RunFrom([a, b], codes, false).codes;
    TrimIsEmptyIff(b.id);
    DecideUpdate(a, first, key);
    DecideConflict(b, first, key);
    PairOutcome(a, b, first, Decide(a, first));
  }

  /** One instance: tables `"a"` and `"a "` with the same code. */
  lemma RerunCanChangeExample()
    ensures var data := map["code" := Str("k"), "ownerId" := Str("u")];
      var docs := [Doc("a", data), Doc("a ", data)];
      var first := RunFrom(docs, map[], false).codes;
      RunFrom(docs, first, false).codes != first
  {
    var data := map["code" := Str("k"), "ownerId" := Str("u")];
    assert Trim("k") == "k" && Upper("k") == "K";
    assert Trim("a ") == "a";
    assert Trim("u") == "u";
    RerunCanChange(Doc("a", data), Doc("a ", data), map[], "K");
  }

  /** Tables without a code stage nothing and count no create and no conflict. */
  lemma {:induction false} StageNoCodes(page: seq<Doc>, codes: map<string, Fields>, dryRun: bool)
    requires forall doc :: doc in page ==> CodeKey(doc).None?
    ensures var staged := Stage(page, codes, dryRun);
      staged.writes == [] && staged.tally.created == 0 && staged.tally.skippedConflicts == 0
    decreases |page|
  {
    if page != [] {
      var init := page[..|page| - 1];
      assert forall doc :: doc in init ==> doc in page;
      StageNoCodes(init, codes, dryRun);
    }
  }

  /**
   * The page that ends with `a` after tables without a code: it stages and
   * counts `a`'s create alone.
   */
  lemma PageEndingWith(filler: seq<Doc>, a: Doc, codes: map<string, Fields>, dryRun: bool, key: string)
    requires forall doc :: doc in filler ==> CodeKey(doc).None?
    requires CodeKey(a) == Some(key) && key !in codes && HasText(Get(a.data, "ownerId"))
    ensures var staged := Stage(filler + [a], codes, dryRun);
      staged.writes == Effect(Decide(a, codes), dryRun) && Decide(a, codes).Create? &&
      staged.tally.created == 1 && staged.tally.skippedConflicts == 0
  {
    var page := filler + [a];
    assert page[..|page| - 1] == filler;
    StageNoCodes(filler, codes, dryRun);
    DecideCreate(a, codes, key);
  }

  /** `filler + [a, b]` with `|filler| == PAGE_SIZE - 1`: a first page ending with `a`, then `b` alone. */
  lemma SplitRun(filler: seq<Doc>, a: Doc, b: Doc, codes: map<string, Fields>, dryRun: bool)
    requires |filler| == PAGE_SIZE - 1
    ensures var staged := Stage(filler + [a], codes, dryRun);
      var rest := RunFrom([b], ApplyCodes(codes, staged.writes), dryRun);
      RunFrom(filler + [a, b], codes, dryRun) == RunResult(rest.codes, staged.tally.Plus(rest.tally))
  {
    var docs := filler + [a, b];
    var page := filler + [a];
    assert Limit(docs, PAGE_SIZE) == page;
    assert docs[|page|..] == [b];
  }

  /** A run over `b` alone counts `b`'s decision. */
  lemma RunOne(b: Doc, codes: map<string, Fields>, dryRun: bool)
    ensures RunFrom([b], codes, dryRun).tally == Count(Zero, Decide(b, codes)).Plus(Zero)
  {
    OnePage([b], codes, dryRun);
    StageSingle(b, codes, dryRun);
  }

  /** A run over a conflicting `b` alone counts one conflict and no create. */
  lemma ConflictAlone(b: Doc, codes: map<string, Fields>, dryRun: bool)
    requires Decide(b, codes).Conflict?
    ensures var t := RunFrom([b], codes, dryRun).tally;
      t.created == 0 && t.skippedConflicts == 1
  {
    RunOne(b, codes, dryRun);
    CountOne(Decide(b, codes));
  }

  /** Creates and conflicts of two added tallies add up. */
  lemma TallySum(total: Tally, first: Tally, rest: Tally)
    requires total == first.Plus(rest)
    ensures total.created == first.created + rest.created
    ensures total.skippedConflicts == first.skippedConflicts + rest.skippedConflicts
  {
  }

  /** One decision counted from zero: one create if it is a create, one conflict if it is a conflict. */
  lemma CountOne(d: Decision)
    ensures var t := Count(Zero, d).Plus(Zero);
      t.created == (if d.Create? then 1 else 0) && t.skippedConflicts == (if d.Conflict? then 1 else 0)
  {
  }

  /** After the live first page, `b`'s key names `a`, so `b` is a conflict. */
  lemma LiveFirstPage(filler: seq<Doc>, a: Doc, b: Doc, codes: map<string, Fields>, key: string)
    requires forall doc :: doc in filler ==> CodeKey(doc).None?
    requires CodeKey(a) == Some(key) && CodeKey(b) == Some(key) && key !in codes
    requires HasText(Get(a.data, "ownerId")) && HasText(Get(b.data, "ownerId"))
    requires Trim(a.id) != "" && Trim(a.id) != b.id
    ensures var staged := Stage(filler + [a], codes, false);
      staged.tally.created == 1 && staged.tally.skippedConflicts == 0 &&
      Decide(b, ApplyCodes(codes, staged.writes)).Conflict?
  {
    PageEndingWith(filler, a, codes, false, key);
    DryRunCanDiffer(a, b, codes, key);
    StageSingle(a, codes, false);
  }

  /** A first page with one create and no conflict, then a conflicting `b`: one create, one conflict. */
  lemma LiveCounts(filler: seq<Doc>, a: Doc, b: Doc, codes: map<string, Fields>)
    requires |filler| == PAGE_SIZE - 1
    requires var staged := Stage(filler + [a], codes, false);
      staged.tally.created == 1 && staged.tally.skippedConflicts == 0 &&
      Decide(b, ApplyCodes(codes, staged.writes)).Conflict?
    ensures var live := RunFrom(filler + [a, b], codes, false).tally;
      live.created == 1 && live.skippedConflicts == 1
  {
    var staged := Stage(filler + [a], codes, false);
    var next := ApplyCodes(codes, staged.writes);
    SplitRun(filler, a, b, codes, false);
    ConflictAlone(b, next, false);
    TallySum(RunFrom(filler + [a, b], codes, false).tally, staged.tally, RunFrom([b], next, false).tally);
  }

  /** The dry run counts both `a` and `b` as creates and no conflict. */
  lemma DryCounts(filler: seq<Doc>, a: Doc, b: Doc, codes: map<string, Fields>, key: string)
    requires |filler| == PAGE_SIZE - 1 && forall doc :: doc in filler ==> CodeKey(doc).None?
    requires CodeKey(a) == Some(key) && CodeKey(b) == Some(key) && key !in codes
    requires HasText(Get(a.data, "ownerId")) && HasText(Get(b.data, "ownerId"))
    ensures var dry := RunFrom(filler + [a, b], codes, true).tally;
      dry.created == 2 && dry.skippedConflicts == 0
  {
    SplitRun(filler, a, b, codes, true);
    PageEndingWith(filler, a, codes, true, key);
    DecideCreate(b, codes, key);
    RunOne(b, codes, true);
    CountOne(Decide(b, codes));
  }

  /**
   * The dry run's counters are not the live run's: after `PAGE_SIZE - 1`
   * tables without a code, `a` ends the first page and `b`, with the same
   * new key, starts the second. The live run has committed `a`'s mapping
   * and counts `b` as a conflict; the dry run has not and counts a second
   * create.
   */
  lemma DryRunCountsDiffer(filler: seq<Doc>, a: Doc, b: Doc, codes: map<string, Fields>, key: string)
    requires |filler| == PAGE_SIZE - 1 && forall doc :: doc in filler ==> CodeKey(doc).None?
    requires CodeKey(a) == Some(key) && CodeKey(b) == Some(key) && key !in codes
    requires HasText(Get(a.data, "ownerId")) && HasText(Get(b.data, "ownerId"))
    requires Trim(a.id) != "" && Trim(a.id) != b.id
    ensures var docs := filler + [a, b];
      var live, dry := RunFrom(docs, codes, false).tally, RunFrom(docs, codes, true).tally;
      live.created == 1 && live.skippedConflicts == 1 &&
      dry.created == 2 && dry.skippedConflicts == 0
  {
    LiveFirstPage(filler, a, b, codes, key);
    LiveCounts(filler, a, b, codes);
    DryCounts(filler, a, b, codes, key);
  }
}
