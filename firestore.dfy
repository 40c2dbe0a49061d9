/**
 * The part of Firestore the two scripts use, as values: the `status_tables`
 * collection as a sequence of documents in id order, the
 * `status_table_codes` collection as a map from document id to fields, the
 * ordered cursor query, and write batches of merge-sets.
 */
module Firestore {
  import opened Wrappers
  import opened Fields
  import opened Order

  /** The most operations Firestore accepts in one write batch. */
  const MAX_BATCH_WRITES: nat := 500

  /** A document snapshot: its id and `doc.data()`. */
  datatype Doc = Doc(id: string, data: Fields)

  /** The ids strictly increase: the order `orderBy(FieldPath.documentId())` returns. */
  ghost predicate Sorted(docs: seq<Doc>) {
    forall i, j :: 0 <= i < j < |docs| ==> Precedes(docs[i].id, docs[j].id)
  }

  function Ids(docs: seq<Doc>): set<string> {
    set d | d in docs :: d.id
  }

  /** The documents whose id sorts strictly after `cursor`, in their order. */
  function StartAfter(docs: seq<Doc>, cursor: string): seq<Doc>
    decreases |docs|
  {
    if docs == [] then []
    else
      var rest := StartAfter(docs[1..], cursor);
      if Precedes(cursor, docs[0].id) then [docs[0]] + rest else rest
  }

  /** `limit(n)` */
  function Limit(docs: seq<Doc>, n: nat): (r: seq<Doc>)
    ensures |r| <= n && |r| <= |docs| && r == docs[..|r|]
    ensures |r| < n ==> r == docs
  {
    if |docs| <= n then docs else docs[..n]
  }

  /**
   * `collection.orderBy(documentId()).limit(n)`, followed by
   * `.startAfter(lastDoc)` when there is a last document.
   */
  function Query(docs: seq<Doc>, lastDoc: Option<Doc>, n: nat): seq<Doc> {
    match lastDoc
    case None => Limit(docs, n)
    case Some(d) => Limit(StartAfter(docs, d.id), n)
  }

  /** `startAfter` keeps exactly the documents whose id sorts after the cursor. */
  lemma {:induction false} StartAfterFilter(docs: seq<Doc>, cursor: string)
    ensures forall d :: d in StartAfter(docs, cursor) <==> d in docs && Precedes(cursor, d.id)
    decreases |docs|
  {
    if docs != [] {
      StartAfterFilter(docs[1..], cursor);
      assert docs == [docs[0]] + docs[1..];
    }
  }

  lemma {:induction false} StartAfterAll(docs: seq<Doc>, cursor: string)
    requires forall i :: 0 <= i < |docs| ==> Precedes(cursor, docs[i].id)
    ensures StartAfter(docs, cursor) == docs
    decreases |docs|
  {
    if docs != [] {
      StartAfterAll(docs[1..], cursor);
      assert docs == [docs[0]] + docs[1..];
    }
  }

  /** Starting after the `n`-th document of an ordered collection yields exactly the documents behind it. */
  lemma {:induction false} StartAfterNth(docs: seq<Doc>, n: nat)
    requires Sorted(docs) && 0 < n <= |docs|
    ensures StartAfter(docs, docs[n - 1].id) == docs[n..]
    decreases n
  {
    var cursor := docs[n - 1].id;
    if n == 1 {
      PrecedesIrreflexive(cursor);
      StartAfterAll(docs[1..], cursor);
    } else {
      PrecedesAsymmetric(docs[0].id, cursor);
      var tail := docs[1..];
      assert Sorted(tail);
      assert tail[n - 2] == docs[n - 1];
      StartAfterNth(tail, n - 1);
      assert tail[n - 1..] == docs[n..];
    }
  }

  /**
   * The cursor loop of both scripts: when `lastDoc` has the id of the last
   * of the first `visited` documents, the next page is the next (at most) `n`
   * documents, so no document is skipped or repeated.
   */
  lemma NextPage(docs: seq<Doc>, visited: nat, lastDoc: Option<Doc>, n: nat)
    requires Sorted(docs) && visited <= |docs|
    requires lastDoc.None? <==> visited == 0
    requires lastDoc.Some? ==> lastDoc.value.id == docs[visited - 1].id
    ensures Query(docs, lastDoc, n) == Limit(docs[visited..], n)
  {
    if visited > 0 {
      StartAfterNth(docs, visited);
    }
  }

  /** Which document a write targets. */
  datatype DocRef = Table(id: string) | Code(code: string)

  /** `batch.set(ref, patch, { merge: true })`, staged. */
  datatype Write = SetMerge(target: DocRef, patch: Fields)

  /**
   * A merge-set applied to one document of `status_tables`: the document
   * with that id is merged into, or a new document is created in id order.
   */
  function Upsert(docs: seq<Doc>, id: string, patch: Fields): seq<Doc>
    decreases |docs|
  {
    if docs == [] then [Doc(id, patch)]
    else if docs[0].id == id then [Doc(id, Merge(docs[0].data, patch))] + docs[1..]
    else if Precedes(id, docs[0].id) then [Doc(id, patch)] + docs
    else [docs[0]] + Upsert(docs[1..], id, patch)
  }

  lemma IdsCons(d: Doc, rest: seq<Doc>)
    ensures Ids([d] + rest) == {d.id} + Ids(rest)
  {
    var s := [d] + rest;
    forall x | x in Ids(s) ensures x in {d.id} + Ids(rest) {
      var e :| e in s && e.id == x;
      if e != d {
        assert e in rest;
      }
    }
    forall x | x in {d.id} + Ids(rest) ensures x in Ids(s) {
      if x == d.id {
        assert d in s;
      } else {
        var e :| e in rest && e.id == x;
        assert e in s;
      }
    }
  }

  /** A merge-set adds its id to the collection and removes none. */
  lemma {:induction false} UpsertIds(docs: seq<Doc>, id: string, patch: Fields)
    ensures Ids(Upsert(docs, id, patch)) == Ids(docs) + {id}
    decreases |docs|
  {
    if docs == [] {
      IdsCons(Doc(id, patch), []);
    } else {
      assert docs == [docs[0]] + docs[1..];
      IdsCons(docs[0], docs[1..]);
      if docs[0].id == id {
        IdsCons(Doc(id, Merge(docs[0].data, patch)), docs[1..]);
      } else if Precedes(id, docs[0].id) {
        IdsCons(Doc(id, patch), docs);
      } else {
        UpsertIds(docs[1..], id, patch);
        IdsCons(docs[0], Upsert(docs[1..], id, patch));
      }
    }
  }

  lemma {:induction false} UpsertSorted(docs: seq<Doc>, id: string, patch: Fields)
    requires Sorted(docs)
    ensures Sorted(Upsert(docs, id, patch))
    decreases |docs|
  {
    if docs != [] && docs[0].id != id {
      if Precedes(id, docs[0].id) {
        forall j | 1 <= j < |docs| ensures Precedes(id, docs[j].id) {
          PrecedesTransitive(id, docs[0].id, docs[j].id);
        }
      } else {
        PrecedesTotal(id, docs[0].id);
        var tail := docs[1..];
        UpsertSorted(tail, id, patch);
        UpsertIds(tail, id, patch);
        var r := Upsert(tail, id, patch);
        forall j | 0 <= j < |r| ensures Precedes(docs[0].id, r[j].id) {
          assert r[j].id in Ids(r);
          if r[j].id != id {
            var e :| e in tail && e.id == r[j].id;
            var k :| 0 <= k < |tail| && tail[k] == e;
            assert docs[k + 1] == e;
          }
        }
      }
    }
  }

  /** Merging into an existing document of an ordered collection changes that document alone. */
  lemma {:induction false} UpsertExisting(docs: seq<Doc>, i: nat, patch: Fields)
    requires Sorted(docs) && i < |docs|
    ensures Upsert(docs, docs[i].id, patch) == docs[i := Doc(docs[i].id, Merge(docs[i].data, patch))]
    decreases i
  {
    var id := docs[i].id;
    if i > 0 {
      PrecedesAsymmetric(docs[0].id, id);
      PrecedesIrreflexive(id);
      var tail := docs[1..];
      assert Sorted(tail) && tail[i - 1] == docs[i];
      UpsertExisting(tail, i - 1, patch);
    }
  }

  /** The `status_tables` collection after the batch's writes, applied in order. */
  function ApplyTables(docs: seq<Doc>, batch: seq<Write>): seq<Doc>
    decreases |batch|
  {
    if batch == [] then docs
    else
      var prev := ApplyTables(docs, batch[..|batch| - 1]);
      var w := batch[|batch| - 1];
      match w.target
      case Table(id) => Upsert(prev, id, w.patch)
      case Code(_) => prev
  }

  /** The `status_table_codes` collection after the batch's writes, applied in order. */
  function ApplyCodes(codes: map<string, Fields>, batch: seq<Write>): map<string, Fields>
    decreases |batch|
  {
    if batch == [] then codes
    else
      var prev := ApplyCodes(codes, batch[..|batch| - 1]);
      var w := batch[|batch| - 1];
      match w.target
      case Code(key) => prev[key := Merge(if key in prev then prev[key] else map[], w.patch)]
      case Table(_) => prev
  }

  lemma {:induction false} ApplyTablesSorted(docs: seq<Doc>, batch: seq<Write>)
    requires Sorted(docs)
    ensures Sorted(ApplyTables(docs, batch))
    decreases |batch|
  {
    if batch != [] {
      var prev := ApplyTables(docs, batch[..|batch| - 1]);
      ApplyTablesSorted(docs, batch[..|batch| - 1]);
      var w := batch[|batch| - 1];
      if w.target.Table? {
        UpsertSorted(prev, w.target.id, w.patch);
      }
    }
  }

  /** A batch that writes only mappings leaves `status_tables` as it is. */
  lemma {:induction false} CodeWritesKeepTables(docs: seq<Doc>, batch: seq<Write>)
    requires forall w :: w in batch ==> w.target.Code?
    ensures ApplyTables(docs, batch) == docs
    decreases |batch|
  {
    if batch != [] {
      CodeWritesKeepTables(docs, batch[..|batch| - 1]);
    }
  }

  /** Committing `a` and then `b` is committing `a + b`: writes apply in order. */
  lemma {:induction false} ApplyCodesAppend(codes: map<string, Fields>, a: seq<Write>, b: seq<Write>)
    ensures ApplyCodes(codes, a + b) == ApplyCodes(ApplyCodes(codes, a), b)
    decreases |b|
  {
    if b == [] {
      assert a + b == a;
    } else {
      assert (a + b)[..|a + b| - 1] == a + b[..|b| - 1];
      ApplyCodesAppend(codes, a, b[..|b| - 1]);
    }
  }

  /** One merge-set on a mapping document. */
  lemma ApplyCodesOne(codes: map<string, Fields>, key: string, patch: Fields)
    ensures ApplyCodes(codes, [SetMerge(Code(key), patch)])
         == codes[key := Merge(if key in codes then codes[key] else map[], patch)]
  {
    assert [SetMerge(Code(key), patch)][..0] == [];
  }

  /** A batch never deletes a mapping, and every mapping it writes exists afterwards. */
  lemma {:induction false} ApplyCodesKeys(codes: map<string, Fields>, batch: seq<Write>)
    ensures codes.Keys <= ApplyCodes(codes, batch).Keys
    ensures forall w :: w in batch && w.target.Code? ==> w.target.code in ApplyCodes(codes, batch)
    decreases |batch|
  {
    if batch != [] {
      var init := batch[..|batch| - 1];
      ApplyCodesKeys(codes, init);
      forall w | w in batch && w.target.Code? ensures w.target.code in ApplyCodes(codes, batch) {
        if w != batch[|batch| - 1] {
          assert w in init;
        }
      }
    }
  }

  /** A mapping that no write of the batch targets is left exactly as it was. */
  lemma {:induction false} ApplyCodesUntouched(codes: map<string, Fields>, batch: seq<Write>, key: string)
    requires forall w :: w in batch ==> w.target != Code(key)
    ensures key in ApplyCodes(codes, batch) <==> key in codes
    ensures key in codes ==> ApplyCodes(codes, batch)[key] == codes[key]
    decreases |batch|
  {
    if batch != [] {
      ApplyCodesUntouched(codes, batch[..|batch| - 1], key);
    }
  }

  /** A batch that writes only tables leaves `status_table_codes` as it is. */
  lemma {:induction false} TableWritesKeepCodes(codes: map<string, Fields>, batch: seq<Write>)
    requires forall w :: w in batch ==> w.target.Table?
    ensures ApplyCodes(codes, batch) == codes
    decreases |batch|
  {
    if batch != [] {
      TableWritesKeepCodes(codes, batch[..|batch| - 1]);
    }
  }

  /** The commits a run adds: each holds between one write and `limit` writes. */
  ghost predicate CommitsWithin(before: seq<nat>, after: seq<nat>, limit: nat) {
    before <= after && forall j :: |before| <= j < |after| ==> 0 < after[j] <= limit
  }

  /** The database the scripts talk to, changed only by committing a batch. */
  class Database {
    var tables: seq<Doc>
    var codes: map<string, Fields>
    /** The number of writes of each committed batch, oldest first. */
    ghost var commits: seq<nat>

    ghost predicate Valid()
      reads this
    {
      Sorted(tables)
    }

    constructor (tables: seq<Doc>, codes: map<string, Fields>)
      requires Sorted(tables)
      ensures Valid()
      ensures this.tables == tables && this.codes == codes && commits == []
    {
      this.tables := tables;
      this.codes := codes;
      commits := [];
    }

    /** `batch.commit()`: every staged write takes effect together. */
    method Commit(batch: seq<Write>)
      requires Valid()
      requires |batch| <= MAX_BATCH_WRITES
      modifies this
      ensures Valid()
      ensures tables == ApplyTables(old(tables), batch)
      ensures codes == ApplyCodes(old(codes), batch)
      ensures commits == old(commits) + [|batch|]
    {
      ApplyTablesSorted(tables, batch);
      tables := ApplyTables(tables, batch);
      codes := ApplyCodes(codes, batch);
      commits := commits + [|batch|];
    }
  }

}
