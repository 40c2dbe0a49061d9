/**
 * The owner repair: every `status_tables` document whose `ownerId` is
 * missing, not a string or blank is given the owner named by `--uid`, and
 * `trashed: false` when it has no `trashed` value at all.
 */
module Repair {
  import opened Wrappers
  import opened Text
  import opened Fields
  import opened Firestore

  const PAGE_SIZE: nat := 500

  /** `argv.indexOf(x)`: the first position holding `x`, if any. */
  function IndexOf(argv: seq<string>, x: string): (r: Option<nat>)
    ensures r.None? <==> x !in argv
    ensures r.Some? ==> r.value < |argv| && argv[r.value] == x
    ensures r.Some? ==> forall j :: 0 <= j < r.value ==> argv[j] != x
    decreases |argv|
  {
    if argv == [] then None
    else if argv[0] == x then Some(0)
    else
      match IndexOf(argv[1..], x)
      case None => None
      case Some(i) => Some(i + 1)
  }

  /**
   * `getArg(name)`: the argument right after the first `--name`, whatever
   * it is; nothing when `--name` is absent or is the last argument.
   */
  function GetArg(argv: seq<string>, name: string): Option<string> {
    match IndexOf(argv, "--" + name)
    case None => None
    case Some(idx) => if idx + 1 < |argv| then Some(argv[idx + 1]) else None
  }

  /** `!uid`: the script stops when there is no uid or it is the empty string. */
  predicate MissingUid(uid: Option<string>) {
    uid.None? || uid.value == ""
  }

  /** `typeof data.ownerId === 'string' ? data.ownerId.trim() : ''` is falsy. */
  predicate NeedsRepair(data: Fields) {
    TrimmedString(Get(data, "ownerId")) == ""
  }

  /** `trashed` is `undefined` or `null`. */
  predicate NoTrashed(data: Fields) {
    Get(data, "trashed") == Absent || Get(data, "trashed") == Null
  }

  /** The merge patch for a document that needs repair. */
  function RepairPatch(data: Fields, uid: string): Fields {
    var patch := map["ownerId" := Str(uid), "updatedAt" := ServerTimestamp];
    if NoTrashed(data) then patch["trashed" := Bool(false)] else patch
  }

  /** A document as the script leaves it. */
  function RepairDoc(doc: Doc, uid: string): Doc {
    if NeedsRepair(doc.data) then Doc(doc.id, Merge(doc.data, RepairPatch(doc.data, uid))) else doc
  }

  /** The documents as the script leaves them, in their order. */
  function RepairAll(docs: seq<Doc>, uid: string): seq<Doc>
    decreases |docs|
  {
    if docs == [] then []
    else RepairAll(docs[..|docs| - 1], uid) + [RepairDoc(docs[|docs| - 1], uid)]
  }

  /** The collection with the documents at positions `lo` up to `hi` repaired. */
  function Patched(docs: seq<Doc>, lo: nat, hi: nat, uid: string): (p: seq<Doc>)
    requires lo <= hi <= |docs|
    ensures |p| == |docs|
    decreases hi - lo
  {
    if hi == lo then docs else Patched(docs, lo, hi - 1, uid)[hi - 1 := RepairDoc(docs[hi - 1], uid)]
  }

  /** How many of the documents need repair. */
  function Broken(docs: seq<Doc>): nat
    decreases |docs|
  {
    if docs == [] then 0
    else Broken(docs[..|docs| - 1]) + (if NeedsRepair(docs[|docs| - 1].data) then 1 else 0)
  }

  /** The write staged for one document: a merge-set when it needs repair. */
  function Effect(doc: Doc, uid: string): seq<Write> {
    if NeedsRepair(doc.data) then [SetMerge(Table(doc.id), RepairPatch(doc.data, uid))] else []
  }

  /** The batch staged for one page, in query order. */
  function PageWrites(page: seq<Doc>, uid: string): seq<Write>
    decreases |page|
  {
    if page == [] then []
    else PageWrites(page[..|page| - 1], uid) + Effect(page[|page| - 1], uid)
  }

  // ----- The repair of one document -----

  lemma FieldNamesDistinct()
    ensures "ownerId" != "updatedAt" && "ownerId" != "trashed" && "updatedAt" != "trashed"
  {
    assert "ownerId"[0] == 'o' && "updatedAt"[0] == 'u' && "trashed"[0] == 't';
  }

  lemma RepairPatchShape(data: Fields, uid: string)
    ensures var patch := RepairPatch(data, uid);
      patch.Keys == {"ownerId", "updatedAt"} + (if NoTrashed(data) then {"trashed"} else {}) &&
      patch["ownerId"] == Str(uid) && patch["updatedAt"] == ServerTimestamp &&
      (NoTrashed(data) ==> patch["trashed"] == Bool(false))
  {
    FieldNamesDistinct();
  }

  /**
   * A document with a non-blank string `ownerId` is left alone. Any other
   * keeps its id and every field, gets `ownerId = uid` and a fresh
   * `updatedAt`, and gets `trashed = false` exactly when `trashed` was
   * missing or null; any other `trashed` value, `true` included, is kept.
   */
  lemma RepairDocShape(doc: Doc, uid: string)
    ensures !NeedsRepair(doc.data) <==> HasText(Get(doc.data, "ownerId"))
    ensures !NeedsRepair(doc.data) ==> RepairDoc(doc, uid) == doc
    ensures NeedsRepair(doc.data) ==>
      var r := RepairDoc(doc, uid).data;
      RepairDoc(doc, uid).id == doc.id &&
      r.Keys == doc.data.Keys + {"ownerId", "updatedAt"} + (if NoTrashed(doc.data) then {"trashed"} else {}) &&
      r["ownerId"] == Str(uid) && r["updatedAt"] == ServerTimestamp &&
      Get(r, "trashed") == (if NoTrashed(doc.data) then Bool(false) else Get(doc.data, "trashed")) &&
      (forall f :: f in doc.data && f != "ownerId" && f != "updatedAt" && f != "trashed" ==> r[f] == doc.data[f])
  {
    TrimmedStringIsEmptyIff(Get(doc.data, "ownerId"));
    RepairPatchShape(doc.data, uid);
    FieldNamesDistinct();
  }

  /**
   * A repaired document needs no further repair exactly when the uid has a
   * non-blank character: a blank but non-empty uid passes the `!uid` guard
   * and is then read back as no owner.
   */
  lemma RepairDocStable(doc: Doc, uid: string)
    ensures !NeedsRepair(RepairDoc(doc, uid).data) <==> !NeedsRepair(doc.data) || !AllSpace(uid)
  {
    if NeedsRepair(doc.data) {
      RepairPatchShape(doc.data, uid);
      TrimIsEmptyIff(uid);
    }
  }

  // ----- The batch of one page -----

  lemma {:induction false} BrokenAppend(a: seq<Doc>, b: seq<Doc>)
    ensures Broken(a + b) == Broken(a) + Broken(b)
    decreases |b|
  {
    if b == [] {
      assert a + b == a;
    } else {
      assert (a + b)[..|a + b| - 1] == a + b[..|b| - 1];
      BrokenAppend(a, b[..|b| - 1]);
    }
  }

  lemma {:induction false} BrokenBound(docs: seq<Doc>)
    ensures Broken(docs) <= |docs|
    decreases |docs|
  {
    if docs != [] {
      BrokenBound(docs[..|docs| - 1]);
    }
  }

  /** One write per document that needs repair, each a merge-set on that document. */
  lemma {:induction false} PageWritesShape(page: seq<Doc>, uid: string)
    ensures |PageWrites(page, uid)| == Broken(page)
    ensures forall w :: w in PageWrites(page, uid) ==> w.target.Table?
    decreases |page|
  {
    if page != [] {
      PageWritesShape(page[..|page| - 1], uid);
    }
  }

  lemma PageWritesStep(page: seq<Doc>, i: nat, uid: string)
    requires i < |page|
    ensures PageWrites(page[..i + 1], uid) == PageWrites(page[..i], uid) + Effect(page[i], uid)
    ensures Broken(page[..i + 1]) == Broken(page[..i]) + (if NeedsRepair(page[i].data) then 1 else 0)
  {
    assert page[..i + 1][..i] == page[..i];
  }

  /** Repairing keeps each document in its place, with its id. */
  lemma {:induction false} RepairAllShape(docs: seq<Doc>, uid: string)
    ensures |RepairAll(docs, uid)| == |docs|
    ensures forall i :: 0 <= i < |docs| ==> RepairAll(docs, uid)[i] == RepairDoc(docs[i], uid)
    ensures forall i :: 0 <= i < |docs| ==> RepairAll(docs, uid)[i].id == docs[i].id
    decreases |docs|
  {
    if docs != [] {
      RepairAllShape(docs[..|docs| - 1], uid);
    }
  }

  /** Position by position: the documents from `lo` up to `hi` are repaired, the others kept. */
  lemma {:induction false} PatchedShape(docs: seq<Doc>, lo: nat, hi: nat, uid: string)
    requires lo <= hi <= |docs|
    ensures |Patched(docs, lo, hi, uid)| == |docs|
    ensures forall i :: 0 <= i < |docs| ==>
      Patched(docs, lo, hi, uid)[i] == if lo <= i < hi then RepairDoc(docs[i], uid) else docs[i]
    decreases hi - lo
  {
    if hi > lo {
      PatchedShape(docs, lo, hi - 1, uid);
    }
  }

  /** Repairing keeps every id, so the collection stays in id order. */
  lemma PatchedSorted(docs: seq<Doc>, lo: nat, hi: nat, uid: string)
    requires Sorted(docs) && lo <= hi <= |docs|
    ensures Sorted(Patched(docs, lo, hi, uid))
  {
    PatchedShape(docs, lo, hi, uid);
    var p := Patched(docs, lo, hi, uid);
    assert forall i :: 0 <= i < |p| ==> p[i].id == docs[i].id;
  }

  /** Committing one more table write merges it into the collection as it stands. */
  lemma ApplyTablesSnoc(docs: seq<Doc>, batch: seq<Write>, id: string, patch: Fields)
    ensures ApplyTables(docs, batch + [SetMerge(Table(id), patch)]) == Upsert(ApplyTables(docs, batch), id, patch)
  {
    var w := SetMerge(Table(id), patch);
    assert (batch + [w])[..|batch + [w]| - 1] == batch;
  }

  /** Merging the repair patch of the next document into a partly repaired collection repairs that document too. */
  lemma PatchedNext(docs: seq<Doc>, lo: nat, hi: nat, uid: string)
    requires Sorted(docs) && lo <= hi < |docs| && NeedsRepair(docs[hi].data)
    ensures Upsert(Patched(docs, lo, hi, uid), docs[hi].id, RepairPatch(docs[hi].data, uid)) == Patched(docs, lo, hi + 1, uid)
  {
    var u := Patched(docs, lo, hi, uid);
    PatchedSorted(docs, lo, hi, uid);
    PatchedShape(docs, lo, hi, uid);
    UpsertExisting(u, hi, RepairPatch(docs[hi].data, uid));
  }

  /** A document that needs no repair is left as it is. */
  lemma PatchedSkip(docs: seq<Doc>, lo: nat, hi: nat, uid: string)
    requires lo <= hi < |docs| && !NeedsRepair(docs[hi].data)
    ensures Patched(docs, lo, hi, uid) == Patched(docs, lo, hi + 1, uid)
  {
    PatchedShape(docs, lo, hi, uid);
    var u := Patched(docs, lo, hi, uid);
    assert u[hi := docs[hi]] == u;
  }

  /**
   * The writes of the documents at positions `lo` up to `hi`, committed in
   * order, repair exactly those documents.
   */
  lemma {:induction false} CommitPage(docs: seq<Doc>, lo: nat, hi: nat, uid: string)
    requires Sorted(docs) && lo <= hi <= |docs|
    ensures ApplyTables(docs, PageWrites(docs[lo..hi], uid)) == Patched(docs, lo, hi, uid)
    decreases hi - lo
  {
    if hi == lo {
      PatchedNone(docs, lo, uid);
    } else {
      var mid := hi - 1;
      var w := PageWrites(docs[lo..mid], uid);
      PageLast(docs, lo, hi, uid);
      CommitPage(docs, lo, mid, uid);
      CommitStep(docs, lo, mid, w, uid);
    }
  }

  /** Repairing no position changes nothing. */
  lemma PatchedNone(docs: seq<Doc>, lo: nat, uid: string)
    requires lo <= |docs|
    ensures PageWrites(docs[lo..lo], uid) == [] && Patched(docs, lo, lo, uid) == docs
  {
    assert docs[lo..lo] == [];
  }

  /** Committing the next document's write after those before it repairs it as well. */
  lemma CommitStep(docs: seq<Doc>, lo: nat, hi: nat, w: seq<Write>, uid: string)
    requires Sorted(docs) && lo <= hi < |docs|
    requires ApplyTables(docs, w) == Patched(docs, lo, hi, uid)
    ensures ApplyTables(docs, w + Effect(docs[hi], uid)) == Patched(docs, lo, hi + 1, uid)
  {
    var doc := docs[hi];
    if NeedsRepair(doc.data) {
      ApplyTablesSnoc(docs, w, doc.id, RepairPatch(doc.data, uid));
      PatchedNext(docs, lo, hi, uid);
    } else {
      assert w + Effect(doc, uid) == w;
      PatchedSkip(docs, lo, hi, uid);
    }
  }

  /** The batch of the documents from `lo` up to `hi` is the batch of all but the last one, then its write. */
  lemma PageLast(docs: seq<Doc>, lo: nat, hi: nat, uid: string)
    requires lo < hi <= |docs|
    ensures PageWrites(docs[lo..hi], uid) == PageWrites(docs[lo..hi - 1], uid) + Effect(docs[hi - 1], uid)
  {
    var page := docs[lo..hi];
    assert page[..|page| - 1] == docs[lo..hi - 1];
  }

  // ----- The script -----

  /** How the script ends. */
  datatype Outcome =
    | Exited(status: int)
    | Finished(scanned: nat, repaired: nat)

  /**
   * The `for` loop over one page: count every document, and stage and count
   * a merge-set for each one that needs repair.
   */
  method StagePage(docs: seq<Doc>, uid: string, scanned: nat, repaired: nat)
    returns (batch: seq<Write>, batchWrites: nat, scanned': nat, repaired': nat)
    ensures batch == PageWrites(docs, uid)
    ensures batchWrites == |batch| == Broken(docs)
    ensures scanned' == scanned + |docs| && repaired' == repaired + Broken(docs)
  {
    batch := [];
    batchWrites := 0;
    scanned', repaired' := scanned, repaired;
    for i := 0 to |docs|
      invariant batch == PageWrites(docs[..i], uid)
      invariant batchWrites == Broken(docs[..i])
      invariant scanned' == scanned + i && repaired' == repaired + Broken(docs[..i])
    {
      PageWritesStep(docs, i, uid);
      var doc := docs[i];
      scanned' := scanned' + 1;
      var data := doc.data;
      if NeedsRepair(data) {
        var patch := map["ownerId" := Str(uid), "updatedAt" := ServerTimestamp];
        if NoTrashed(data) {
          patch := patch["trashed" := Bool(false)];
        }
        batch := batch + [SetMerge(Table(doc.id), patch)];
        batchWrites := batchWrites + 1;
        repaired' := repaired' + 1;
      }
    }
    assert docs[..|docs|] == docs;
    PageWritesShape(docs, uid);
  }

  /**
   * The rest of the loop body for one page: stage it, then commit the batch
   * when it holds a write.
   */
  method ProcessPage(db: Database, docs: seq<Doc>, uid: string, scanned: nat, repaired: nat)
    returns (scanned': nat, repaired': nat)
    requires db.Valid() && |docs| <= PAGE_SIZE
    modifies db
    ensures db.Valid() && db.tables == ApplyTables(old(db.tables), PageWrites(docs, uid))
    ensures db.codes == old(db.codes)
    ensures scanned' == scanned + |docs| && repaired' == repaired + Broken(docs)
    ensures CommitsWithin(old(db.commits), db.commits, PAGE_SIZE)
  {
    var batch, batchWrites;
    batch, batchWrites, scanned', repaired' := StagePage(docs, uid, scanned, repaired);
    BrokenBound(docs);
    PageWritesShape(docs, uid);
    if batchWrites > 0 {
      TableWritesKeepCodes(db.codes, batch);
      db.Commit(batch);
    } else {
      assert batch == [];
    }
  }

  /**
   * The script: stop with status 1 unless `--uid` names a non-empty uid;
   * otherwise page through `status_tables` in id order, repair each page's
   * documents that have no owner with one batch, and report the counts.
   */
  method Run(db: Database, argv: seq<string>) returns (outcome: Outcome)
    requires db.Valid()
    modifies db
    ensures db.Valid() && db.codes == old(db.codes)
    ensures outcome.Exited? <==> MissingUid(GetArg(argv, "uid"))
    ensures outcome.Exited? ==> outcome.status == 1 && db.tables == old(db.tables) && db.commits == old(db.commits)
    ensures outcome.Finished? ==>
      db.tables == RepairAll(old(db.tables), GetArg(argv, "uid").value) &&
      outcome.scanned == |old(db.tables)| && outcome.repaired == Broken(old(db.tables))
    ensures CommitsWithin(old(db.commits), db.commits, PAGE_SIZE)
  {
    var arg := GetArg(argv, "uid");
    if arg.None? || arg.value == "" {
      return Exited(1);
    }
    var uid := arg.value;
    var lastDoc: Option<Doc> := None;
    var repaired: nat := 0;
    var scanned: nat := 0;
    ghost var orig := db.tables;
    ghost var visited := 0;
    assert orig[..0] == [];
    while true
      invariant db.Valid() && db.codes == old(db.codes)
      invariant RepairedBelow(db.tables, orig, visited, uid)
      invariant lastDoc == if visited == 0 then None else Some(orig[visited - 1])
      invariant scanned == visited && repaired == Broken(orig[..visited])
      invariant CommitsWithin(old(db.commits), db.commits, PAGE_SIZE)
      decreases |orig| - visited
    {
      PageAt(orig, visited, db.tables, uid);
      NextPage(db.tables, visited, lastDoc, PAGE_SIZE);
      var docs := Query(db.tables, lastDoc, PAGE_SIZE);
      if |docs| == 0 {
        break;
      }
      ghost var before, repairedBefore, next := db.tables, repaired, visited + |docs|;
      assert docs == before[visited..next] == orig[visited..next];
      scanned, repaired := ProcessPage(db, docs, uid, scanned, repaired);
      RunAdvance(orig, visited, next, before, db.tables, docs, uid, repairedBefore, repaired);
      PageLastDoc(orig, visited, next, docs);
      lastDoc := Some(docs[|docs| - 1]);
      visited := next;
    }
    AllRepaired(db.tables, orig, uid);
    assert orig[..visited] == orig;
    outcome := Finished(scanned, repaired);
  }

  /**
   * The collection while the run is at position `visited`: the documents
   * before it are repaired, the others are as they were.
   */
  ghost predicate RepairedBelow(tables: seq<Doc>, orig: seq<Doc>, visited: nat, uid: string) {
    && visited <= |orig| == |tables|
    && (forall i {:trigger tables[i]} :: 0 <= i < visited ==> tables[i] == RepairDoc(orig[i], uid))
    && (forall i {:trigger tables[i]} :: visited <= i < |orig| ==> tables[i] == orig[i])
  }

  /**
   * The page read at position `visited` holds the original documents there;
   * an empty page means the scan has reached the end.
   */
  lemma PageAt(orig: seq<Doc>, visited: nat, cur: seq<Doc>, uid: string)
    requires RepairedBelow(cur, orig, visited, uid)
    ensures visited > 0 ==> cur[visited - 1].id == orig[visited - 1].id
    ensures var docs := Limit(cur[visited..], PAGE_SIZE);
      && visited + |docs| <= |orig|
      && (docs == [] ==> visited == |orig|)
      && docs == cur[visited..visited + |docs|] == orig[visited..visited + |docs|]
  {
    var docs := Limit(cur[visited..], PAGE_SIZE);
    var n := |docs|;
    assert docs == cur[visited..visited + n] by {
      assert cur[visited..][..n] == cur[visited..visited + n];
    }
  }

  /**
   * The loop invariant after one page: the repaired prefix and its count
   * grow by the page.
   */
  lemma RunAdvance(orig: seq<Doc>, visited: nat, next: nat, before: seq<Doc>, after: seq<Doc>, docs: seq<Doc>,
                   uid: string, repairedBefore: nat, repairedAfter: nat)
    requires RepairedBelow(before, orig, visited, uid) && Sorted(before)
    requires next == visited + |docs| <= |orig| && docs == before[visited..next] == orig[visited..next]
    requires after == ApplyTables(before, PageWrites(docs, uid))
    requires repairedBefore == Broken(orig[..visited]) && repairedAfter == repairedBefore + Broken(docs)
    ensures RepairedBelow(after, orig, next, uid)
    ensures repairedAfter == Broken(orig[..next])
  {
    CommitDocs(before, visited, next, docs, after, uid);
    PatchedRepairs(orig, visited, next, before, after, uid);
    BrokenStep(orig, visited, docs);
  }

  /** The last document of a non-empty page is the original document just before `next`. */
  lemma PageLastDoc(orig: seq<Doc>, visited: nat, next: nat, docs: seq<Doc>)
    requires docs != [] && next == visited + |docs| <= |orig| && docs == orig[visited..next]
    ensures docs[|docs| - 1] == orig[next - 1]
  {
  }

  /** The batch of a page read from the collection, committed, repairs that page's positions. */
  lemma CommitDocs(before: seq<Doc>, lo: nat, hi: nat, docs: seq<Doc>, after: seq<Doc>, uid: string)
    requires Sorted(before) && lo <= hi <= |before| && docs == before[lo..hi]
    requires after == ApplyTables(before, PageWrites(docs, uid))
    ensures after == Patched(before, lo, hi, uid)
  {
    CommitPage(before, lo, hi, uid);
  }

  /** Repairing the positions from `visited` up to `hi` moves the repaired prefix up to `hi`. */
  lemma PatchedRepairs(orig: seq<Doc>, visited: nat, hi: nat, before: seq<Doc>, after: seq<Doc>, uid: string)
    requires RepairedBelow(before, orig, visited, uid) && visited <= hi <= |orig|
    requires after == Patched(before, visited, hi, uid)
    ensures RepairedBelow(after, orig, hi, uid)
  {
    PatchedShape(before, visited, hi, uid);
  }

  /** Once every position is repaired, the collection is the repaired original. */
  lemma AllRepaired(tables: seq<Doc>, orig: seq<Doc>, uid: string)
    requires RepairedBelow(tables, orig, |orig|, uid)
    ensures tables == RepairAll(orig, uid)
  {
    RepairAllShape(orig, uid);
  }

  /** Counting the documents that need repair up to the end of a page: those before it, then the page's. */
  lemma BrokenStep(orig: seq<Doc>, visited: nat, docs: seq<Doc>)
    requires visited + |docs| <= |orig| && docs == orig[visited..visited + |docs|]
    ensures Broken(orig[..visited + |docs|]) == Broken(orig[..visited]) + Broken(docs)
  {
    PrefixSplit(orig, visited, visited + |docs|);
    assert orig[..visited] + docs == orig[..visited + |docs|];
    BrokenAppend(orig[..visited], docs);
  }

  lemma PrefixSplit(s: seq<Doc>, lo: nat, hi: nat)
    requires lo <= hi <= |s|
    ensures s[..hi] == s[..lo] + s[lo..hi]
  {
  }

  // ----- Running the script again -----

  /** After a run with a uid that has a non-blank character, no document needs repair. */
  lemma RerunRepairsNothing(docs: seq<Doc>, uid: string)
    requires !AllSpace(uid)
    ensures Broken(RepairAll(docs, uid)) == 0
  {
    NoneBroken(RepairAll(docs, uid), docs, uid);
  }

  lemma {:induction false} NoneBroken(repairedDocs: seq<Doc>, docs: seq<Doc>, uid: string)
    requires !AllSpace(uid) && repairedDocs == RepairAll(docs, uid)
    ensures Broken(repairedDocs) == 0
    decreases |docs|
  {
    if docs != [] {
      var init := docs[..|docs| - 1];
      assert repairedDocs[..|repairedDocs| - 1] == RepairAll(init, uid);
      NoneBroken(RepairAll(init, uid), init, uid);
      RepairDocStable(docs[|docs| - 1], uid);
    }
  }

  /** With a blank but non-empty uid, which passes the guard, a repaired document still needs repair. */
  lemma BlankUidRepeats(doc: Doc, uid: string)
    requires !MissingUid(Some(uid)) && AllSpace(uid) && NeedsRepair(doc.data)
    ensures NeedsRepair(RepairDoc(doc, uid).data)
  {
    RepairDocStable(doc, uid);
  }
}
