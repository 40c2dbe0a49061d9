/**
 * Running the backfill a second time: with no two tables sharing a code the
 * second live run leaves every mapping as the first one left it, and the
 * cases where it does not, because lookups compare a trimmed `tableId` with
 * an untrimmed table id or because two tables share a code.
 */
module BackfillRerun {
  import opened Wrappers
  import opened Text
  import opened Fields
  import opened Firestore
  import opened Backfill
  import opened BackfillProofs

  /** The mappings after committing one table's decision on its own. */
  function Single(doc: Doc, codes: map<string, Fields>): map<string, Fields> {
    ApplyCodes(codes, Effect(Decide(doc, codes), false))
  }

  /** A decision whose write, if it stages one, leaves the mappings as they are. */
  predicate Idle(d: Decision, codes: map<string, Fields>) {
    match d
    case Create(_, _, _, _) => false
    case Update(key, tableId, ownerId, trashed) =>
      key in codes && Merge(codes[key], UpdatePatch(tableId, ownerId, trashed)) == codes[key]
    case _ => true
  }

  /** Applying the same writes to two states that agree under `key` keeps them agreeing there. */
  lemma {:induction false} ApplyCodesAgree(c1: map<string, Fields>, c2: map<string, Fields>, batch: seq<Write>, key: string)
    requires AgreeOn(c1, c2, key)
    ensures AgreeOn(ApplyCodes(c1, batch), ApplyCodes(c2, batch), key)
    decreases |batch|
  {
    if batch != [] {
      ApplyCodesAgree(c1, c2, batch[..|batch| - 1], key);
    }
  }

  /** A table's decision, and whether it is idle, depend only on the mapping under its own key. */
  lemma DecideAgrees(doc: Doc, c1: map<string, Fields>, c2: map<string, Fields>)
    requires CodeKey(doc).Some? && AgreeOn(c1, c2, CodeKey(doc).value)
    ensures Decide(doc, c1) == Decide(doc, c2)
    ensures Idle(Decide(doc, c1), c1) <==> Idle(Decide(doc, c2), c2)
  {
  }

  /** A page of idle decisions commits nothing that changes a mapping. */
  lemma {:induction false} IdleStage(page: seq<Doc>, codes: map<string, Fields>, dryRun: bool)
    requires forall doc :: doc in page ==> Idle(Decide(doc, codes), codes)
    ensures ApplyCodes(codes, Stage(page, codes, dryRun).writes) == codes
    decreases |page|
  {
    if page != [] {
      var init, last := page[..|page| - 1], page[|page| - 1];
      assert forall doc :: doc in init ==> doc in page;
      IdleStage(init, codes, dryRun);
      var prev := Stage(init, codes, dryRun).writes;
      var d := Decide(last, codes);
      ApplyCodesAppend(codes, prev, Effect(d, dryRun));
      if !dryRun && d.Update? {
        ApplyCodesOne(codes, d.key, UpdatePatch(d.tableId, d.ownerId, d.trashed));
      }
    }
  }

  /** A run over tables whose decisions are all idle leaves the mappings as they are. */
  lemma {:induction false} IdleRun(docs: seq<Doc>, codes: map<string, Fields>, dryRun: bool)
    requires forall doc :: doc in docs ==> Idle(Decide(doc, codes), codes)
    ensures RunFrom(docs, codes, dryRun).codes == codes
    decreases |docs|
  {
    if docs != [] {
      var page := Limit(docs, PAGE_SIZE);
      var rest := docs[|page|..];
      assert forall doc :: doc in page ==> doc in docs;
      assert forall doc :: doc in rest ==> doc in docs;
      IdleStage(page, codes, dryRun);
      IdleRun(rest, codes, dryRun);
    }
  }

  /** A mapping holding every value of an update's patch is left as it is by that update. */
  lemma Absorbs(stored: Fields, patch: Fields)
    requires forall f :: f in patch ==> f in stored && stored[f] == patch[f]
    ensures Merge(stored, patch) == stored
  {
  }

  /** The mapping a create or an update writes already holds every value of that update's patch. */
  lemma WrittenAbsorbsUpdate(codes: map<string, Fields>, d: Decision)
    requires d.Update? || d.Create?
    ensures var s := ApplyCodes(codes, Effect(d, false));
      d.key in s && Merge(s[d.key], UpdatePatch(d.tableId, d.ownerId, d.trashed)) == s[d.key]
  {
    var update := UpdatePatch(d.tableId, d.ownerId, d.trashed);
    var patch := if d.Update? then update else NewMapping(d.tableId, d.ownerId, d.trashed);
    ApplyCodesOne(codes, d.key, patch);
    var stored := Merge(if d.key in codes then codes[d.key] else map[], patch);
    assert forall f :: f in update ==> f in patch && patch[f] == update[f];
    Absorbs(stored, update);
  }

  /**
   * Once a table's own create or update is committed, deciding it again is
   * idle: either the stored, untrimmed id differs from its trimmed form and
   * the table is now a conflict, or the update rewrites the values already
   * there.
   */
  lemma SingleSettles(doc: Doc, codes: map<string, Fields>)
    ensures Idle(Decide(doc, Single(doc, codes)), Single(doc, codes))
  {
    var d := Decide(doc, codes);
    if d.Update? || d.Create? {
      WrittenAbsorbsUpdate(codes, d);
    }
  }

  /** With distinct keys, a page leaves each table's key as that table's write alone would. */
  lemma {:induction false} StageSettles(page: seq<Doc>, codes: map<string, Fields>, i: nat)
    requires DistinctCodes(page) && i < |page| && CodeKey(page[i]).Some?
    ensures AgreeOn(ApplyCodes(codes, Stage(page, codes, false).writes), Single(page[i], codes), CodeKey(page[i]).value)
    decreases |page|
  {
    var key := CodeKey(page[i]).value;
    var init, last := page[..|page| - 1], page[|page| - 1];
    var prev := Stage(init, codes, false).writes;
    var e := Effect(Decide(last, codes), false);
    ApplyCodesAppend(codes, prev, e);
    DistinctPrefix(page, |page| - 1);
    if i == |page| - 1 {
      LastKeyFresh(page);
      StageTargets(init, codes, false);
      ApplyCodesUntouched(codes, prev, key);
      ApplyCodesAgree(ApplyCodes(codes, prev), codes, e, key);
    } else {
      assert init[i] == page[i];
      StageSettles(init, codes, i);
      assert CodeKey(page[i]) != CodeKey(last);
      EffectTarget(last, codes);
      ApplyCodesUntouched(ApplyCodes(codes, prev), e, key);
    }
  }

  /** The write a table's decision stages, if any, is to the mapping under that table's key. */
  lemma EffectTarget(doc: Doc, codes: map<string, Fields>)
    ensures forall w :: w in Effect(Decide(doc, codes), false) ==> CodeKey(doc).Some? && w.target == Code(CodeKey(doc).value)
  {
  }

  /** A prefix of tables with distinct keys has distinct keys. */
  lemma DistinctPrefix(docs: seq<Doc>, n: nat)
    requires DistinctCodes(docs) && n <= |docs|
    ensures DistinctCodes(docs[..n])
  {
    var init := docs[..n];
    forall a, b | 0 <= a < b < |init| && CodeKey(init[a]).Some? ensures CodeKey(init[a]) != CodeKey(init[b]) {
      assert init[a] == docs[a] && init[b] == docs[b];
    }
  }

  /** With distinct keys, the last table's key is no key of the tables before it. */
  lemma LastKeyFresh(page: seq<Doc>)
    requires DistinctCodes(page) && page != [] && CodeKey(page[|page| - 1]).Some?
    ensures CodeKey(page[|page| - 1]).value !in PageKeys(page[..|page| - 1])
  {
    var init, key := page[..|page| - 1], CodeKey(page[|page| - 1]).value;
    forall doc | doc in init && CodeKey(doc).Some? ensures CodeKey(doc).value != key {
      var j :| 0 <= j < |init| && init[j] == doc;
      assert page[j] == doc;
    }
  }

  /** A run over tables none of which has `key` leaves the mapping under `key` as it was. */
  lemma {:induction false} RunFromUntouched(docs: seq<Doc>, codes: map<string, Fields>, dryRun: bool, key: string)
    requires forall doc :: doc in docs ==> CodeKey(doc) != Some(key)
    ensures AgreeOn(RunFrom(docs, codes, dryRun).codes, codes, key)
    decreases |docs|
  {
    if docs != [] {
      var page := Limit(docs, PAGE_SIZE);
      var rest := docs[|page|..];
      var writes := Stage(page, codes, dryRun).writes;
      assert forall doc :: doc in page ==> doc in docs;
      assert forall doc :: doc in rest ==> doc in docs;
      StageTargets(page, codes, dryRun);
      ApplyCodesUntouched(codes, writes, key);
      RunFromUntouched(rest, ApplyCodes(codes, writes), dryRun, key);
    }
  }

  /**
   * With distinct keys, a live run leaves each table's key as that table's
   * write alone, against the starting mappings, would.
   */
  lemma {:induction false} RunFromSettles(docs: seq<Doc>, codes: map<string, Fields>, i: nat)
    requires DistinctCodes(docs) && i < |docs| && CodeKey(docs[i]).Some?
    ensures AgreeOn(RunFrom(docs, codes, false).codes, Single(docs[i], codes), CodeKey(docs[i]).value)
    decreases |docs|
  {
    var doc, key := docs[i], CodeKey(docs[i]).value;
    var page := Limit(docs, PAGE_SIZE);
    var n := |page|;
    var rest := docs[n..];
    var next := ApplyCodes(codes, Stage(page, codes, false).writes);
    DistinctSplit(docs, n);
    if i < n {
      assert page[i] == doc;
      DistinctPrefix(docs, n);
      StageSettles(page, codes, i);
      assert key in PageKeys(page);
      RunFromUntouched(rest, next, false, key);
    } else {
      assert rest[i - n] == doc;
      StageTargets(page, codes, false);
      ApplyCodesUntouched(codes, Stage(page, codes, false).writes, key);
      RunFromSettles(rest, next, i - n);
      ApplyCodesAgree(next, codes, Effect(Decide(doc, next), false), key);
      DecideAgrees(doc, next, codes);
    }
  }

  /**
   * With no two tables sharing a key, a second live run over the same tables
   * leaves every mapping exactly as the first run left it.
   */
  lemma RerunChangesNothing(docs: seq<Doc>, codes: map<string, Fields>)
    requires DistinctCodes(docs)
    ensures var first := RunFrom(docs, codes, false).codes;
      RunFrom(docs, first, false).codes == first
  {
    var first := RunFrom(docs, codes, false).codes;
    forall doc | doc in docs ensures Idle(Decide(doc, first), first) {
      if CodeKey(doc).Some? {
        var i :| 0 <= i < |docs| && docs[i] == doc;
        RunFromSettles(docs, codes, i);
        SingleSettles(doc, codes);
        DecideAgrees(doc, first, Single(doc, codes));
      }
    }
    IdleRun(docs, first, false);
  }
}
