/**
 * A Firestore document's contents as a value: a map from field name to a
 * field value. Only the distinctions the scripts make are kept apart.
 */
module Fields {
  import opened Text

  /**
   * A field value. `Absent` is what JavaScript reads as `undefined`;
   * `ServerTimestamp` is the sentinel `FieldValue.serverTimestamp()`, kept
   * as a tag; `Other` is every value the scripts never look inside.
   */
  datatype Value = Absent | Null | Bool(b: bool) | Str(s: string) | ServerTimestamp | Other

  type Fields = map<string, Value>

  /** `data.<name>`: a missing field reads as `undefined`. */
  function Get(data: Fields, name: string): Value {
    if name in data then data[name] else Absent
  }

  /** `typeof v === 'string' ? v.trim() : ''` */
  function TrimmedString(v: Value): string {
    if v.Str? then Trim(v.s) else ""
  }

  /** A string holding at least one character that is not white space. */
  predicate HasText(v: Value) {
    v.Str? && !AllSpace(v.s)
  }

  /** The source's truthiness test of a trimmed field is exactly `HasText`. */
  lemma TrimmedStringIsEmptyIff(v: Value)
    ensures TrimmedString(v) == "" <==> !HasText(v)
  {
    if v.Str? {
      TrimIsEmptyIff(v.s);
    }
  }

  /**
   * `set(ref, patch, { merge: true })` on one document: the fields of
   * `patch` override, every other field of `target` is kept.
   */
  function Merge(target: Fields, patch: Fields): (r: Fields)
    ensures r.Keys == target.Keys + patch.Keys
    ensures forall k :: k in patch ==> r[k] == patch[k]
    ensures forall k :: k in target && k !in patch ==> r[k] == target[k]
  {
    target + patch
  }

}
