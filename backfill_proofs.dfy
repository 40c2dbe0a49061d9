/**
 * What the code-mapping backfill guarantees: how each table is classified,
 * what a staged write does to its mapping, that a mapping naming another
 * table is never repointed, and what a dry run and a second run report.
 */
module BackfillProofs {
  import opened Wrappers
  import opened Text
  import opened Fields
  import opened Firestore
  import opened Backfill

  /** The four fields an update writes. */
  const UPDATE_FIELDS: set<string> := {"tableId", "ownerId", "trashed", "updatedAt"}

  /** The five field names the mappings use are distinct. */
  lemma FieldNamesDistinct()
    ensures "tableId" != "ownerId" && "tableId" != "trashed" && "tableId" != "updatedAt"
    ensures "ownerId" != "trashed" && "ownerId" != "updatedAt" && "trashed" != "updatedAt"
    ensures "createdAt" !in UPDATE_FIELDS
  {
    assert "tableId"[0] == 't' && "ownerId"[0] == 'o' && "updatedAt"[0] == 'u' && "createdAt"[0] == 'c';
    assert "trashed"[1] == 'r' && "tableId"[1] == 'a';
  }

  lemma UpdatePatchShape(tableId: string, ownerId: string, trashed: bool)
    ensures var patch := UpdatePatch(tableId, ownerId, trashed);
      patch.Keys == UPDATE_FIELDS &&
      patch["tableId"] == Str(tableId) && patch["ownerId"] == Str(ownerId) &&
      patch["trashed"] == Bool(trashed) && patch["updatedAt"] == ServerTimestamp
  {
    FieldNamesDistinct();
  }

  lemma NewMappingShape(tableId: string, ownerId: string, trashed: bool)
    ensures var doc := NewMapping(tableId, ownerId, trashed);
      doc.Keys == UPDATE_FIELDS + {"createdAt"} &&
      doc["tableId"] == Str(tableId) && doc["ownerId"] == Str(ownerId) &&
      doc["trashed"] == Bool(trashed) && doc["updatedAt"] == ServerTimestamp &&
      doc["createdAt"] == ServerTimestamp
  {
    FieldNamesDistinct();
    UpdatePatchShape(tableId, ownerId, trashed);
  }

  // ----- The mapping key -----

  /**
   * A table has a mapping key exactly when its `code` is a string with text;
   * the key is that string trimmed and upper-cased: as long as the trimmed
   * code, with no white space at either end and no lower-case letter left.
   */
  lemma CodeKeyShape(doc: Doc)
    ensures CodeKey(doc).Some? <==> HasText(Get(doc.data, "code"))
    ensures CodeKey(doc).Some? ==>
      var trimmed := Trim(Get(doc.data, "code").s);
      var key := CodeKey(doc).value;
      key == Upper(trimmed) && |key| == |trimmed| > 0 &&
      !IsSpace(key[0]) && !IsSpace(key[|key| - 1]) &&
      forall i :: 0 <= i < |key| ==> !IsLower(key[i])
  {
    var code := Get(doc.data, "code");
    TrimmedStringIsEmptyIff(code);
    if code.Str? {
      var trimmed := Trim(code.s);
      TrimShape(code.s);
      UpperShape(trimmed);
      if trimmed != "" {
        var key := Upper(trimmed);
        assert key[0] == UpperChar(trimmed[0]);
        assert key[|key| - 1] == UpperChar(trimmed[|trimmed| - 1]);
      }
    }
  }

  // ----- The decision, outcome by outcome -----

  /** No code: a table whose `code` is not a string with text is skipped, whatever the mappings. */
  lemma DecideNoCode(doc: Doc, codes: map<string, Fields>)
    ensures Decide(doc, codes) == SkipNoCode <==> !HasText(Get(doc.data, "code"))
  {
    TrimmedStringIsEmptyIff(Get(doc.data, "code"));
  }

  /** No owner: a table with a code whose `ownerId` is not a string with text is skipped. */
  lemma DecideNoOwner(doc: Doc, codes: map<string, Fields>)
    ensures Decide(doc, codes) == SkipNoOwner <==>
      HasText(Get(doc.data, "code")) && !HasText(Get(doc.data, "ownerId"))
  {
    TrimmedStringIsEmptyIff(Get(doc.data, "code"));
    TrimmedStringIsEmptyIff(Get(doc.data, "ownerId"));
  }

  /**
   * Conflict: the committed mapping for the table's key names, after trim, a
   * non-blank table id other than this table's.
   */
  lemma DecideConflict(doc: Doc, codes: map<string, Fields>, key: string)
    requires CodeKey(doc) == Some(key)
    ensures Decide(doc, codes).Conflict? <==>
      HasText(Get(doc.data, "ownerId")) && key in codes &&
      HasText(Get(codes[key], "tableId")) && TrimmedString(Get(codes[key], "tableId")) != doc.id
    ensures Decide(doc, codes).Conflict? ==>
      Decide(doc, codes) == Conflict(key, TrimmedString(Get(codes[key], "tableId")))
  {
    TrimmedStringIsEmptyIff(Get(doc.data, "ownerId"));
    if key in codes {
      TrimmedStringIsEmptyIff(Get(codes[key], "tableId"));
    }
  }

  /**
   * Update: the committed mapping for the key names this table or no table;
   * the update carries this table's id, its trimmed owner, and whether
   * `trashed` is exactly `true`.
   */
  lemma DecideUpdate(doc: Doc, codes: map<string, Fields>, key: string)
    requires CodeKey(doc) == Some(key)
    ensures Decide(doc, codes).Update? <==>
      HasText(Get(doc.data, "ownerId")) && key in codes &&
      (!HasText(Get(codes[key], "tableId")) || TrimmedString(Get(codes[key], "tableId")) == doc.id)
    ensures Decide(doc, codes).Update? ==>
      Decide(doc, codes) == Update(key, doc.id, Trim(Get(doc.data, "ownerId").s),
                                   Get(doc.data, "trashed") == Bool(true))
  {
    TrimmedStringIsEmptyIff(Get(doc.data, "ownerId"));
    if key in codes {
      TrimmedStringIsEmptyIff(Get(codes[key], "tableId"));
    }
  }

  /** Create: no mapping for the key has been committed. */
  lemma DecideCreate(doc: Doc, codes: map<string, Fields>, key: string)
    requires CodeKey(doc) == Some(key)
    ensures Decide(doc, codes).Create? <==> HasText(Get(doc.data, "ownerId")) && key !in codes
    ensures Decide(doc, codes).Create? ==>
      Decide(doc, codes) == Create(key, doc.id, Trim(Get(doc.data, "ownerId").s),
                                   Get(doc.data, "trashed") == Bool(true))
  {
    TrimmedStringIsEmptyIff(Get(doc.data, "ownerId"));
  }

  // ----- What one staged write does -----

  /**
   * An update merges into the existing mapping: it sets exactly `tableId`,
   * `ownerId`, `trashed` and `updatedAt`, keeps `createdAt` and every other
   * field, and touches no other mapping. A dry run stages nothing.
   */
  lemma UpdateWrite(codes: map<string, Fields>, key: string, tableId: string, ownerId: string, trashed: bool)
    requires key in codes
    ensures Effect(Update(key, tableId, ownerId, trashed), true) == []
    ensures var after := ApplyCodes(codes, Effect(Update(key, tableId, ownerId, trashed), false));
      after.Keys == codes.Keys &&
      after[key].Keys == codes[key].Keys + UPDATE_FIELDS &&
      after[key]["tableId"] == Str(tableId) && after[key]["ownerId"] == Str(ownerId) &&
      after[key]["trashed"] == Bool(trashed) && after[key]["updatedAt"] == ServerTimestamp &&
      Get(after[key], "createdAt") == Get(codes[key], "createdAt") &&
      (forall f :: f in codes[key] && f !in UPDATE_FIELDS ==> after[key][f] == codes[key][f]) &&
      (forall k :: k in codes && k != key ==> after[k] == codes[k])
  {
    FieldNamesDistinct();
    var patch := UpdatePatch(tableId, ownerId, trashed);
    UpdatePatchShape(tableId, ownerId, trashed);
    ApplyCodesOne(codes, key, patch);
    var after := ApplyCodes(codes, Effect(Update(key, tableId, ownerId, trashed), false));
    assert after == codes[key := Merge(codes[key], patch)];
  }

  /**
   * A create adds a mapping with exactly `tableId`, `ownerId`, `trashed`,
   * `createdAt` and `updatedAt`, and touches no other mapping.
   */
  lemma CreateWrite(codes: map<string, Fields>, key: string, tableId: string, ownerId: string, trashed: bool)
    requires key !in codes
    ensures Effect(Create(key, tableId, ownerId, trashed), true) == []
    ensures var after := ApplyCodes(codes, Effect(Create(key, tableId, ownerId, trashed), false));
      after.Keys == codes.Keys + {key} &&
      after[key].Keys == UPDATE_FIELDS + {"createdAt"} &&
      after[key]["tableId"] == Str(tableId) && after[key]["ownerId"] == Str(ownerId) &&
      after[key]["trashed"] == Bool(trashed) &&
      after[key]["createdAt"] == ServerTimestamp && after[key]["updatedAt"] == ServerTimestamp &&
      (forall k :: k in codes ==> after[k] == codes[k])
  {
    var patch := NewMapping(tableId, ownerId, trashed);
    NewMappingShape(tableId, ownerId, trashed);
    ApplyCodesOne(codes, key, patch);
    assert Merge(map[], patch) == patch;
    var after := ApplyCodes(codes, Effect(Create(key, tableId, ownerId, trashed), false));
    assert after == codes[key := patch];
  }

  // ----- A mapping that names a table is never repointed -----

  /** The table a mapping names: its `tableId` trimmed, or "" when it names none. */
  function Target(mapping: Fields): string {
    TrimmedString(Get(mapping, "tableId"))
  }

  /**
   * Committing one page leaves a mapping that names a table naming the same
   * table: the only write that can reach it is an update from that very table.
   */
  lemma {:induction false} StageKeepsTarget(page: seq<Doc>, codes: map<string, Fields>, dryRun: bool, key: string)
    requires key in codes && Target(codes[key]) != ""
    ensures var after := ApplyCodes(codes, Stage(page, codes, dryRun).writes);
      key in after && Target(after[key]) == Target(codes[key])
    decreases |page|
  {
    if page != [] {
      var init := page[..|page| - 1];
      var doc := page[|page| - 1];
      var prev := Stage(init, codes, dryRun);
      var d := Decide(doc, codes);
      StageKeepsTarget(init, codes, dryRun, key);
      ApplyCodesAppend(codes, prev.writes, Effect(d, dryRun));
      StepKeepsTarget(doc, codes, dryRun, key, ApplyCodes(codes, prev.writes));
    }
  }

  /** One table's write keeps a mapping naming the same table as it named before the page. */
  lemma StepKeepsTarget(doc: Doc, codes: map<string, Fields>, dryRun: bool, key: string, mid: map<string, Fields>)
    requires key in codes && Target(codes[key]) != ""
    requires key in mid && Target(mid[key]) == Target(codes[key])
    ensures var after := ApplyCodes(mid, Effect(Decide(doc, codes), dryRun));
      key in after && Target(after[key]) == Target(codes[key])
  {
    var d := Decide(doc, codes);
    if !dryRun && (d.Update? || d.Create?) {
      var patch := if d.Update? then UpdatePatch(d.tableId, d.ownerId, d.trashed)
                   else NewMapping(d.tableId, d.ownerId, d.trashed);
      assert Effect(d, dryRun) == [SetMerge(Code(d.key), patch)];
      ApplyCodesOne(mid, d.key, patch);
      if d.key == key {
        assert d.Update? && d.tableId == doc.id == Target(codes[key]);
        UpdatePatchShape(d.tableId, d.ownerId, d.trashed);
        TrimIdempotent(Get(codes[key], "tableId").s);
      }
    }
  }

  /**
   * The backfill never repoints: once a mapping names a table, every later
   * page, and so the whole run, leaves it naming that table.
   */
  lemma {:induction false} NeverRepoints(docs: seq<Doc>, codes: map<string, Fields>, dryRun: bool, key: string)
    requires key in codes && Target(codes[key]) != ""
    ensures var final := RunFrom(docs, codes, dryRun).codes;
      key in final && Target(final[key]) == Target(codes[key])
    decreases |docs|
  {
    if docs != [] {
      var page := Limit(docs, PAGE_SIZE);
      var next := ApplyCodes(codes, Stage(page, codes, dryRun).writes);
      StageKeepsTarget(page, codes, dryRun, key);
      NeverRepoints(docs[|page|..], next, dryRun, key);
    }
  }

  // ----- A second run creates nothing -----

  /** A table that gets a mapping: it has a code and an owner. */
  predicate Mappable(doc: Doc) {
    CodeKey(doc).Some? && TrimmedString(Get(doc.data, "ownerId")) != ""
  }

  /** Every write a table's decision stages is in its page's batch. */
  lemma {:induction false} StageHasEffects(page: seq<Doc>, codes: map<string, Fields>, dryRun: bool, i: nat)
    requires i < |page|
    ensures forall w :: w in Effect(Decide(page[i], codes), dryRun) ==> w in Stage(page, codes, dryRun).writes
    decreases |page|
  {
    if i < |page| - 1 {
      var init := page[..|page| - 1];
      assert init[i] == page[i];
      StageHasEffects(init, codes, dryRun, i);
    }
  }

  /** After a live page, every table of the page that has a code and an owner has a mapping. */
  lemma StageCovers(page: seq<Doc>, codes: map<string, Fields>)
    ensures forall doc :: doc in page && Mappable(doc) ==>
      CodeKey(doc).value in ApplyCodes(codes, Stage(page, codes, false).writes)
  {
    var writes := Stage(page, codes, false).writes;
    ApplyCodesKeys(codes, writes);
    forall doc | doc in page && Mappable(doc)
      ensures CodeKey(doc).value in ApplyCodes(codes, writes)
    {
      var key := CodeKey(doc).value;
      if key !in codes {
        var i :| 0 <= i < |page| && page[i] == doc;
        StageStep(page, i, codes, false);
        StageHasEffects(page, codes, false, i);
        var d := Decide(doc, codes);
        assert d.Create?;
        assert SetMerge(Code(key), NewMapping(d.tableId, d.ownerId, d.trashed)) in writes;
      }
    }
  }

  /** A run only adds mappings. */
  lemma {:induction false} RunFromKeepsKeys(docs: seq<Doc>, codes: map<string, Fields>, dryRun: bool)
    ensures codes.Keys <= RunFrom(docs, codes, dryRun).codes.Keys
    decreases |docs|
  {
    if docs != [] {
      var page := Limit(docs, PAGE_SIZE);
      var next := ApplyCodes(codes, Stage(page, codes, dryRun).writes);
      ApplyCodesKeys(codes, Stage(page, codes, dryRun).writes);
      RunFromKeepsKeys(docs[|page|..], next, dryRun);
    }
  }

  /** After a live run, every table that has a code and an owner has a mapping. */
  lemma {:induction false} RunFromCovers(docs: seq<Doc>, codes: map<string, Fields>)
    ensures forall doc :: doc in docs && Mappable(doc) ==>
      CodeKey(doc).value in RunFrom(docs, codes, false).codes
    decreases |docs|
  {
    if docs != [] {
      var page := Limit(docs, PAGE_SIZE);
      var rest := docs[|page|..];
      var next := ApplyCodes(codes, Stage(page, codes, false).writes);
      StageCovers(page, codes);
      RunFromKeepsKeys(rest, next, false);
      RunFromCovers(rest, next);
      assert docs == page + rest;
    }
  }

  /** A page whose mappable tables all have mappings already creates none. */
  lemma {:induction false} StageCreatesNothing(page: seq<Doc>, codes: map<string, Fields>, dryRun: bool)
    requires forall doc :: doc in page && Mappable(doc) ==> CodeKey(doc).value in codes
    ensures Stage(page, codes, dryRun).tally.created == 0
    decreases |page|
  {
    if page != [] {
      var init := page[..|page| - 1];
      assert forall doc :: doc in init ==> doc in page;
      StageCreatesNothing(init, codes, dryRun);
      var doc := page[|page| - 1];
      var d := Decide(doc, codes);
      if d.Create? {
        assert Mappable(doc);
        assert false;
      }
    }
  }

  /** A run over tables whose mappings all exist creates none. */
  lemma {:induction false} RunFromCreatesNothing(docs: seq<Doc>, codes: map<string, Fields>, dryRun: bool)
    requires forall doc :: doc in docs && Mappable(doc) ==> CodeKey(doc).value in codes
    ensures RunFrom(docs, codes, dryRun).tally.created == 0
    decreases |docs|
  {
    if docs != [] {
      var page := Limit(docs, PAGE_SIZE);
      var rest := docs[|page|..];
      var next := ApplyCodes(codes, Stage(page, codes, dryRun).writes);
      assert docs == page + rest;
      StageCreatesNothing(page, codes, dryRun);
      ApplyCodesKeys(codes, Stage(page, codes, dryRun).writes);
      RunFromCreatesNothing(rest, next, dryRun);
    }
  }

  /** Running the backfill again over the same tables creates no mapping. */
  lemma RerunCreatesNothing(docs: seq<Doc>, codes: map<string, Fields>, dryRun: bool)
    ensures RunFrom(docs, RunFrom(docs, codes, false).codes, dryRun).tally.created == 0
  {
    RunFromCovers(docs, codes);
    RunFromCreatesNothing(docs, RunFrom(docs, codes, false).codes, dryRun);
  }

  // ----- Dry run against live run -----

  /** The mapping keys of a page's tables. */
  function PageKeys(page: seq<Doc>): set<string> {
    set doc | doc in page && CodeKey(doc).Some? :: CodeKey(doc).value
  }

  /** No two tables share a mapping key. */
  predicate DistinctCodes(docs: seq<Doc>) {
    forall i, j :: 0 <= i < j < |docs| && CodeKey(docs[i]).Some? ==> CodeKey(docs[i]) != CodeKey(docs[j])
  }

  /** Two states of the mappings that hold the same mapping, or none, under `key`. */
  predicate AgreeOn(c1: map<string, Fields>, c2: map<string, Fields>, key: string) {
    (key in c1 <==> key in c2) && (key in c1 ==> c1[key] == c2[key])
  }

  /** Every write of a page targets the mapping of one of its own tables. */
  lemma {:induction false} StageTargets(page: seq<Doc>, codes: map<string, Fields>, dryRun: bool)
    ensures forall w :: w in Stage(page, codes, dryRun).writes ==> w.target.Code? && w.target.code in PageKeys(page)
    decreases |page|
  {
    if page != [] {
      var init := page[..|page| - 1];
      StageTargets(init, codes, dryRun);
      assert PageKeys(init) <= PageKeys(page) by {
        forall k | k in PageKeys(init) ensures k in PageKeys(page) {
          var doc :| doc in init && CodeKey(doc).Some? && CodeKey(doc).value == k;
          assert doc in page;
        }
      }
      var doc := page[|page| - 1];
      if CodeKey(doc).Some? {
        assert CodeKey(doc).value in PageKeys(page);
      }
    }
  }

  /** A page's decisions, and so its counters, depend only on the mappings of its own keys. */
  lemma {:induction false} StageTallyAgrees(page: seq<Doc>, c1: map<string, Fields>, c2: map<string, Fields>,
                                            dryRun1: bool, dryRun2: bool)
    requires forall doc :: doc in page && CodeKey(doc).Some? ==> AgreeOn(c1, c2, CodeKey(doc).value)
    ensures Stage(page, c1, dryRun1).tally == Stage(page, c2, dryRun2).tally
    decreases |page|
  {
    if page != [] {
      var init := page[..|page| - 1];
      assert forall doc :: doc in init ==> doc in page;
      StageTallyAgrees(init, c1, c2, dryRun1, dryRun2);
      var doc := page[|page| - 1];
      assert Decide(doc, c1) == Decide(doc, c2);
    }
  }

  /**
   * Splitting tables with distinct keys into a page and the rest: the rest
   * still has distinct keys, and none of them is a key of the page.
   */
  lemma DistinctSplit(docs: seq<Doc>, n: nat)
    requires DistinctCodes(docs) && n <= |docs|
    ensures DistinctCodes(docs[n..])
    ensures forall doc :: doc in docs[n..] && CodeKey(doc).Some? ==> CodeKey(doc).value !in PageKeys(docs[..n])
  {
    var page, rest := docs[..n], docs[n..];
    forall i, j | 0 <= i < j < |rest| && CodeKey(rest[i]).Some?
      ensures CodeKey(rest[i]) != CodeKey(rest[j])
    {
      assert rest[i] == docs[n + i] && rest[j] == docs[n + j];
    }
    forall doc | doc in rest && CodeKey(doc).Some?
      ensures CodeKey(doc).value !in PageKeys(page)
    {
      forall other | other in page && CodeKey(other).Some?
        ensures CodeKey(other) != CodeKey(doc)
      {
        var i :| 0 <= i < n && page[i] == other;
        var j :| 0 <= j < |rest| && rest[j] == doc;
        assert docs[i] == other && docs[n + j] == doc;
      }
    }
  }

  /** A page's writes leave the mappings of every key outside the page as they were. */
  lemma StageKeepsOthers(page: seq<Doc>, c1: map<string, Fields>, c2: map<string, Fields>,
                         dryRun1: bool, dryRun2: bool, key: string)
    requires AgreeOn(c1, c2, key) && key !in PageKeys(page)
    ensures AgreeOn(ApplyCodes(c1, Stage(page, c1, dryRun1).writes), ApplyCodes(c2, Stage(page, c2, dryRun2).writes), key)
  {
    StageTargets(page, c1, dryRun1);
    StageTargets(page, c2, dryRun2);
    ApplyCodesUntouched(c1, Stage(page, c1, dryRun1).writes, key);
    ApplyCodesUntouched(c2, Stage(page, c2, dryRun2).writes, key);
  }

  /**
   * When no two tables share a key, the counters of a run depend only on the
   * mappings the run starts from under the tables' keys, whether pages are
   * committed or not: each page writes only its own keys, which no later
   * page reads.
   */
  lemma {:induction false} RunFromTallyAgrees(docs: seq<Doc>, c1: map<string, Fields>, c2: map<string, Fields>,
                                              dryRun1: bool, dryRun2: bool)
    requires DistinctCodes(docs)
    requires forall doc :: doc in docs && CodeKey(doc).Some? ==> AgreeOn(c1, c2, CodeKey(doc).value)
    ensures RunFrom(docs, c1, dryRun1).tally == RunFrom(docs, c2, dryRun2).tally
    decreases |docs|
  {
    if docs != [] {
      var page := Limit(docs, PAGE_SIZE);
      var n := |page|;
      var rest := docs[n..];
      var next1 := ApplyCodes(c1, Stage(page, c1, dryRun1).writes);
      var next2 := ApplyCodes(c2, Stage(page, c2, dryRun2).writes);
      assert forall doc :: doc in page ==> doc in docs;
      StageTallyAgrees(page, c1, c2, dryRun1, dryRun2);
      DistinctSplit(docs, n);
      forall doc | doc in rest && CodeKey(doc).Some?
        ensures AgreeOn(next1, next2, CodeKey(doc).value)
      {
        assert doc in docs;
        StageKeepsOthers(page, c1, c2, dryRun1, dryRun2, CodeKey(doc).value);
      }
      RunFromTallyAgrees(rest, next1, next2, dryRun1, dryRun2);
    }
  }

  /** With no two tables sharing a key, a dry run reports exactly the counters a live run would. */
  lemma DryRunCountsMatch(docs: seq<Doc>, codes: map<string, Fields>)
    requires DistinctCodes(docs)
    ensures RunFrom(docs, codes, true).tally == RunFrom(docs, codes, false).tally
  {
    RunFromTallyAgrees(docs, codes, codes, true, false);
  }

  /** Merging a new mapping over anything leaves the new mapping's table id. */
  lemma MergeNewMapping(target: Fields, tableId: string, ownerId: string, trashed: bool)
    ensures Get(Merge(target, NewMapping(tableId, ownerId, trashed)), "tableId") == Str(tableId)
  {
    NewMappingShape(tableId, ownerId, trashed);
  }

  /** A page of one table stages that table's effect and counts its decision. */
  lemma StageSingle(doc: Doc, codes: map<string, Fields>, dryRun: bool)
    ensures var d := Decide(doc, codes);
      Stage([doc], codes, dryRun) == Staged(Effect(d, dryRun), Count(Zero, d))
  {
    StageStep([doc], 0, codes, dryRun);
    assert [doc][..1] == [doc];
  }

  /** A table of a live page whose key is new creates that key's mapping, naming the table. */
  lemma LiveCreate(a: Doc, codes: map<string, Fields>, key: string)
    requires CodeKey(a) == Some(key) && key !in codes && HasText(Get(a.data, "ownerId"))
    ensures var after := ApplyCodes(codes, Stage([a], codes, false).writes);
      key in after && Get(after[key], "tableId") == Str(a.id)
  {
    DecideCreate(a, codes, key);
    var d := Decide(a, codes);
    StageSingle(a, codes, false);
    CreateWrite(codes, key, d.tableId, d.ownerId, d.trashed);
  }

  /**
   * Without that condition a dry run can count differently: a table on a
   * later page whose key an earlier live page has just created is a
   * conflict in the live run but a create in the dry run, which never
   * commits the earlier page.
   */
  lemma DryRunCanDiffer(a: Doc, b: Doc, codes: map<string, Fields>, key: string)
    requires CodeKey(a) == Some(key) && CodeKey(b) == Some(key) && key !in codes
    requires HasText(Get(a.data, "ownerId")) && HasText(Get(b.data, "ownerId"))
    requires Trim(a.id) != "" && Trim(a.id) != b.id
    ensures var live := ApplyCodes(codes, Stage([a], codes, false).writes);
      Decide(b, live).Conflict?
    ensures ApplyCodes(codes, Stage([a], codes, true).writes) == codes && Decide(b, codes).Create?
  {
    var live := ApplyCodes(codes, Stage([a], codes, false).writes);
    LiveCreate(a, codes, key);
    TrimmedStringIsEmptyIff(Str(a.id));
    DecideConflict(b, live, key);
    StageSingle(a, codes, true);
    DecideCreate(b, codes, key);
  }

  /** A page of two tables: both are decided against the same committed mappings. */
  lemma StagePair(a: Doc, b: Doc, codes: map<string, Fields>, dryRun: bool)
    ensures var da, db := Decide(a, codes), Decide(b, codes);
      Stage([a, b], codes, dryRun) == Staged(Effect(da, dryRun) + Effect(db, dryRun), Count(Count(Zero, da), db))
  {
    StageSingle(a, codes, dryRun);
    StageStep([a, b], 1, codes, dryRun);
    assert [a, b][..1] == [a] && [a, b][..2] == [a, b];
  }

  /** Two merges under one key: the later patch's table id is the one kept. */
  lemma LastCreateWins(codes: map<string, Fields>, key: string, p: Fields, tableId: string, ownerId: string, trashed: bool)
    ensures var after := ApplyCodes(codes, [SetMerge(Code(key), p), SetMerge(Code(key), NewMapping(tableId, ownerId, trashed))]);
      key in after && Get(after[key], "tableId") == Str(tableId)
  {
    var w1, w2 := SetMerge(Code(key), p), SetMerge(Code(key), NewMapping(tableId, ownerId, trashed));
    assert [w1, w2] == [w1] + [w2];
    ApplyCodesAppend(codes, [w1], [w2]);
    var mid := ApplyCodes(codes, [w1]);
    ApplyCodesOne(mid, key, NewMapping(tableId, ownerId, trashed));
    MergeNewMapping(if key in mid then mid[key] else map[], tableId, ownerId, trashed);
  }

  /** Two creates are both counted and stage one write each. */
  lemma CreatePairEffects(da: Decision, db: Decision)
    requires da.Create? && db.Create?
    ensures Effect(da, false) + Effect(db, false) ==
      [SetMerge(Code(da.key), NewMapping(da.tableId, da.ownerId, da.trashed)),
       SetMerge(Code(db.key), NewMapping(db.tableId, db.ownerId, db.trashed))]
    ensures Count(Count(Zero, da), db).created == 2
  {
  }

  /**
   * Lookups see only committed mappings: two tables of one page with the
   * same new key are both counted as created, and the later one's write wins.
   */
  lemma SamePageLastWins(a: Doc, b: Doc, codes: map<string, Fields>, key: string)
    requires CodeKey(a) == Some(key) && CodeKey(b) == Some(key) && key !in codes
    requires HasText(Get(a.data, "ownerId")) && HasText(Get(b.data, "ownerId"))
    ensures var staged := Stage([a, b], codes, false);
      var after := ApplyCodes(codes, staged.writes);
      staged.tally.created == 2 && |staged.writes| == 2 &&
      key in after && Get(after[key], "tableId") == Str(b.id)
  {
    DecideCreate(a, codes, key);
    DecideCreate(b, codes, key);
    var da, db := Decide(a, codes), Decide(b, codes);
    assert da.Create? && da.key == key && db.Create? && db.key == key && db.tableId == b.id;
    StagePair(a, b, codes, false);
    CreatePairEffects(da, db);
    LastCreateWins(codes, key, NewMapping(da.tableId, da.ownerId, da.trashed), db.tableId, db.ownerId, db.trashed);
  }
}
