/**
 * Merging one parsed fragment file into the accumulated template
 * (`ZabbixTemplateFile._merge`). The shape of the two values found under a
 * key decides the rule: an absent or `{}` slot takes the fragment's value,
 * mapping onto mapping is a one-level `dict.update`, list onto list is
 * `list.extend`, a scalar overwrites, and any other pairing makes Python
 * raise because the existing object has no `update` / `extend`.
 */
module TemplateMerge {
  import opened Wrappers
  import opened Yaml

  /** Why a fragment could not be merged. */
  datatype MergeError =
    | NotAMapping             // the document is not a dict (an empty file parses to None)
    | ShapeMismatch(key: string)  // the existing value lacks `update`/`extend`

  /** The accumulator's slot counts as unset: missing, or equal to `{}`. */
  predicate Unset(existing: Option<Value>) {
    existing.None? || existing.value == EmptyMap
  }

  /**
   * The pairings Python rejects: the slot is set and the incoming mapping
   * meets a non-mapping, or the incoming list meets a non-list.
   */
  predicate Clash(existing: Option<Value>, incoming: Value) {
    && !Unset(existing)
    && ((incoming.Map? && !existing.value.Map?) || (incoming.List? && !existing.value.List?))
  }

  /** The value one key ends up with; `None` when Python raises. */
  function MergeEntry(existing: Option<Value>, incoming: Value): (r: Option<Value>)
    ensures r.None? <==> Clash(existing, incoming)
    ensures Unset(existing) ==> r == Some(incoming)
    ensures incoming.Scalar? ==> r == Some(incoming)
  {
    if Unset(existing) then Some(incoming)
    else match incoming
      case Map(m) => if existing.value.Map? then Some(Map(existing.value.entries + m)) else None
      case List(xs) => if existing.value.List? then Some(List(existing.value.items + xs)) else None
      case Scalar(_) => Some(incoming)
  }

  /** Every key of the fragment can be merged onto the accumulator. */
  predicate Compatible(acc: Tree, frag: Tree) {
    forall k :: k in frag ==> !Clash(Lookup(acc, k), frag[k])
  }

  /** The merged template, defined key by key. */
  function Merged(acc: Tree, frag: Tree): (r: Tree)
    requires Compatible(acc, frag)
    ensures r.Keys == acc.Keys + frag.Keys
    // keys the fragment does not mention are left alone
    ensures forall k :: k in acc && k !in frag ==> r[k] == acc[k]
    // a missing or `{}` slot takes the fragment's value as it is
    ensures forall k :: k in frag && Unset(Lookup(acc, k)) ==> r[k] == frag[k]
    // a scalar in the fragment overwrites whatever was there
    ensures forall k :: k in frag && frag[k].Scalar? ==> r[k] == frag[k]
    // list onto list: old items first, then the fragment's, lengths add up
    ensures forall k :: k in frag && k in acc && acc[k].List? && frag[k].List? ==>
      && r[k].List?
      && r[k].items == acc[k].items + frag[k].items
      && |r[k].items| == |acc[k].items| + |frag[k].items|
    // mapping onto mapping: union of keys, the fragment wins one level deep only
    ensures forall k :: k in frag && k in acc && acc[k].Map? && frag[k].Map? ==>
      && r[k].Map?
      && r[k].entries.Keys == acc[k].entries.Keys + frag[k].entries.Keys
      && (forall j :: j in frag[k].entries ==> r[k].entries[j] == frag[k].entries[j])
      && (forall j :: j in acc[k].entries && j !in frag[k].entries ==> r[k].entries[j] == acc[k].entries[j])
  {
    map k | k in acc.Keys + frag.Keys ::
      if k in frag then MergeEntry(Lookup(acc, k), frag[k]).value else acc[k]
  }

  /**
   * `_merge(template1, template2)`: walks the fragment's keys in whatever
   * order the dictionary yields them and stops at the first clash.
   */
  method Merge(acc: Tree, fragment: Value) returns (r: Result<Tree, MergeError>)
    ensures !fragment.Map? ==> r == Err(NotAMapping)
    ensures fragment.Map? ==> (r.Ok? <==> Compatible(acc, fragment.entries))
    ensures r.Ok? ==> fragment.Map? && r.value == Merged(acc, fragment.entries)
    ensures fragment.Map? && r.Err? ==>
      && r.error.ShapeMismatch?
      && r.error.key in fragment.entries
      && Clash(Lookup(acc, r.error.key), fragment.entries[r.error.key])
  {
    if !fragment.Map? {
      return Err(NotAMapping);
    }
    var frag := fragment.entries;
    var result := acc;
    var todo := frag.Keys;
    while todo != {}
      invariant todo <= frag.Keys
      invariant result.Keys == acc.Keys + (frag.Keys - todo)
      invariant forall k :: k in result && (k !in frag || k in todo) ==> result[k] == acc[k]
      invariant forall k :: k in frag && k !in todo ==>
        !Clash(Lookup(acc, k), frag[k]) && result[k] == MergeEntry(Lookup(acc, k), frag[k]).value
      decreases todo
    {
      var k :| k in todo;
      assert Lookup(result, k) == Lookup(acc, k);
      var merged := MergeEntry(Lookup(result, k), frag[k]);
      if merged.None? {
        return Err(ShapeMismatch(k));
      }
      result := result[k := merged.value];
      todo := todo - {k};
    }
    var expected := Merged(acc, frag);
    assert result.Keys == expected.Keys;
    assert forall k :: k in result ==> result[k] == expected[k];
    return Ok(result);
  }
}
