/**
 * Loading a template (`ZabbixTemplateFile._load`): the parsed fragment
 * files, in discovery order, are merged one after the other into an
 * accumulator that starts as `{}`. Also `__bool__` on the loaded tree.
 */
module TemplateLoad {
  import opened Wrappers
  import opened Yaml
  import opened TemplateMerge

  /** Which fragment could not be merged, and why. */
  datatype LoadError = LoadError(index: nat, cause: MergeError)

  /** The top-level keys a document contributes (none unless it is a mapping). */
  function KeysOf(doc: Value): set<string> {
    if doc.Map? then doc.entries.Keys else {}
  }

  /** The merge fold as a function: `None` when some fragment fails to merge. */
  function Fold(fragments: seq<Value>): (r: Option<Tree>)
    ensures r.Some? ==> forall i :: 0 <= i < |fragments| ==> fragments[i].Map?
    decreases |fragments|
  {
    if fragments == [] then Some(map[])
    else
      var prev := Fold(fragments[..|fragments| - 1]);
      var last := fragments[|fragments| - 1];
      if prev.Some? && last.Map? && Compatible(prev.value, last.entries)
      then Some(Merged(prev.value, last.entries))
      else None
  }

  /** Every key some fragment mentions. */
  function AllKeys(fragments: seq<Value>): set<string>
    decreases |fragments|
  {
    if fragments == [] then {}
    else AllKeys(fragments[..|fragments| - 1]) + KeysOf(fragments[|fragments| - 1])
  }

  lemma {:induction false} AllKeysMember(fragments: seq<Value>, k: string)
    ensures k in AllKeys(fragments) <==> exists i :: 0 <= i < |fragments| && k in KeysOf(fragments[i])
    decreases |fragments|
  {
    if fragments != [] {
      var n := |fragments| - 1;
      var prefix := fragments[..n];
      AllKeysMember(prefix, k);
      if k in AllKeys(prefix) {
        var i :| 0 <= i < |prefix| && k in KeysOf(prefix[i]);
        assert fragments[i] == prefix[i];
      }
      if exists i :: 0 <= i < |fragments| && k in KeysOf(fragments[i]) {
        var i :| 0 <= i < |fragments| && k in KeysOf(fragments[i]);
        if i < n {
          assert prefix[i] == fragments[i];
        }
      }
    }
  }

  /** Once a prefix fails to merge, the whole load fails. */
  lemma {:induction false} FoldFailurePersists(fragments: seq<Value>, n: nat)
    requires n <= |fragments|
    requires Fold(fragments[..n]).None?
    ensures Fold(fragments).None?
    decreases |fragments| - n
  {
    if n < |fragments| {
      assert fragments[..n + 1][..n] == fragments[..n];
      FoldFailurePersists(fragments, n + 1);
    } else {
      assert fragments[..n] == fragments;
    }
  }

  /**
   * `_load`: merges the fragments in order and stops at the first one that
   * raises; the error names that fragment.
   */
  method Load(fragments: seq<Value>) returns (r: Result<Tree, LoadError>)
    ensures r.Ok? <==> Fold(fragments).Some?
    ensures r.Ok? ==> r.value == Fold(fragments).value
    ensures r.Err? ==>
      && r.error.index < |fragments|
      && Fold(fragments[..r.error.index]).Some?
      && Fold(fragments[..r.error.index + 1]).None?
      && (r.error.cause == NotAMapping <==> !fragments[r.error.index].Map?)
  {
    var acc: Tree := map[];
    var i := 0;
    while i < |fragments|
      invariant 0 <= i <= |fragments|
      invariant Fold(fragments[..i]) == Some(acc)
    {
      var step := Merge(acc, fragments[i]);
      assert fragments[..i + 1][..i] == fragments[..i];
      if step.Err? {
        FoldFailurePersists(fragments, i + 1);
        return Err(LoadError(i, step.error));
      }
      acc := step.value;
      i := i + 1;
    }
    assert fragments[..i] == fragments;
    return Ok(acc);
  }

  /** The loaded template has exactly the keys the fragments mention. */
  lemma {:induction false} FoldKeys(fragments: seq<Value>)
    requires Fold(fragments).Some?
    ensures Fold(fragments).value.Keys == AllKeys(fragments)
    decreases |fragments|
  {
    if fragments != [] {
      FoldKeys(fragments[..|fragments| - 1]);
    }
  }

  /** `__bool__`: the truth value of the underlying dict, which is its length. */
  function IsTruthy(t: Tree): (r: bool)
    ensures r <==> |t| > 0
  {
    TruthyIffNonEmpty(Map(t));
    Truthy(Map(t))
  }

  /** A loaded template is truthy exactly when some fragment file was non-empty. */
  lemma LoadedTruthy(fragments: seq<Value>)
    requires Fold(fragments).Some?
    ensures IsTruthy(Fold(fragments).value) <==> exists i :: 0 <= i < |fragments| && Truthy(fragments[i])
  {
    var t := Fold(fragments).value;
    FoldKeys(fragments);
    if t != map[] {
      var k :| k in t;
      AllKeysMember(fragments, k);
      var i :| 0 <= i < |fragments| && k in KeysOf(fragments[i]);
      assert Truthy(fragments[i]);
    }
    if exists i :: 0 <= i < |fragments| && Truthy(fragments[i]) {
      var i :| 0 <= i < |fragments| && Truthy(fragments[i]);
      var k :| k in fragments[i].entries;
      AllKeysMember(fragments, k);
      assert k in t;
    }
  }

  /** No two fragments share a top-level key. */
  predicate PairwiseDisjoint(fragments: seq<Value>) {
    forall i, j :: 0 <= i < j < |fragments| ==> KeysOf(fragments[i]) !! KeysOf(fragments[j])
  }

  /**
   * Fragments with disjoint keys always load, and the result is their union
   * with every value exactly as its fragment wrote it.
   */
  lemma {:induction false} FoldDisjoint(fragments: seq<Value>)
    requires forall i :: 0 <= i < |fragments| ==> fragments[i].Map?
    requires PairwiseDisjoint(fragments)
    ensures Fold(fragments).Some?
    ensures Fold(fragments).value.Keys == AllKeys(fragments)
    ensures forall i, k :: 0 <= i < |fragments| && k in fragments[i].entries ==>
      k in Fold(fragments).value && Fold(fragments).value[k] == fragments[i].entries[k]
    decreases |fragments|
  {
    if fragments != [] {
      var n := |fragments| - 1;
      var prefix := fragments[..n];
      var last := fragments[n];
      assert forall i :: 0 <= i < n ==> prefix[i] == fragments[i];
      FoldDisjoint(prefix);
      var acc := Fold(prefix).value;
      forall k | k in last.entries
        ensures k !in acc
      {
        AllKeysMember(prefix, k);
        forall i | 0 <= i < |prefix|
          ensures k !in KeysOf(prefix[i])
        {
          assert prefix[i] == fragments[i];
        }
      }
      assert Compatible(acc, last.entries);
    }
  }

  /** Two fragments with disjoint keys load to the same template in either order. */
  lemma FoldDisjointOrderFree(a: Value, b: Value)
    requires a.Map? && b.Map?
    requires a.entries.Keys !! b.entries.Keys
    ensures Fold([a, b]).Some?
    ensures Fold([a, b]) == Fold([b, a])
  {
    var ab := TwoFragments(a, b);
    var ba := TwoFragments(b, a);
    assert ab.Keys == ba.Keys;
    assert forall k :: k in ab ==> ab[k] == ba[k];
    assert ab == ba;
  }

  /** Loading two disjoint fragments yields their union. */
  lemma TwoFragments(a: Value, b: Value) returns (t: Tree)
    requires a.Map? && b.Map?
    requires a.entries.Keys !! b.entries.Keys
    ensures Fold([a, b]) == Some(t)
    ensures t.Keys == a.entries.Keys + b.entries.Keys
    ensures forall k :: k in a.entries ==> t[k] == a.entries[k]
    ensures forall k :: k in b.entries ==> t[k] == b.entries[k]
  {
    assert [a, b][..1] == [a];
    assert [a][..0] == [];
    var first := Merged(map[], a.entries);
    assert first == a.entries;
    assert Fold([a]) == Some(first);
    t := Merged(first, b.entries);
  }

  /** The items every fragment holds under `k` as a list, concatenated in load order. */
  function ListsAt(fragments: seq<Value>, k: string): seq<Value>
    decreases |fragments|
  {
    if fragments == [] then []
    else
      var last := fragments[|fragments| - 1];
      ListsAt(fragments[..|fragments| - 1], k)
        + (if last.Map? && k in last.entries && last.entries[k].List? then last.entries[k].items else [])
  }

  /**
   * When every fragment that mentions `k` holds a list there, the loaded
   * template holds all those lists concatenated in load order (an empty list
   * is extended, not replaced: only `{}` counts as unset).
   */
  lemma {:induction false} FoldConcatenatesLists(fragments: seq<Value>, k: string)
    requires Fold(fragments).Some?
    requires forall i :: 0 <= i < |fragments| && k in KeysOf(fragments[i]) ==> fragments[i].entries[k].List?
    ensures k in Fold(fragments).value ==> Fold(fragments).value[k] == List(ListsAt(fragments, k))
    ensures k !in Fold(fragments).value ==> ListsAt(fragments, k) == []
    decreases |fragments|
  {
    if fragments != [] {
      var n := |fragments| - 1;
      var prefix := fragments[..n];
      assert forall i :: 0 <= i < n ==> prefix[i] == fragments[i];
      FoldConcatenatesLists(prefix, k);
    }
  }

  /** The entries every fragment holds under `k` as a mapping, later fragments winning. */
  function MapsAt(fragments: seq<Value>, k: string): map<string, Value>
    decreases |fragments|
  {
    if fragments == [] then map[]
    else
      var last := fragments[|fragments| - 1];
      MapsAt(fragments[..|fragments| - 1], k)
        + (if last.Map? && k in last.entries && last.entries[k].Map? then last.entries[k].entries else map[])
  }

  /** One merge step on a slot that holds the union `prior` of the mappings seen so far. */
  lemma MergedMappingSlot(acc: Tree, frag: Tree, k: string, prior: map<string, Value>)
    requires Compatible(acc, frag)
    requires k in frag ==> frag[k].Map?
    requires k in acc ==> acc[k] == Map(prior)
    requires k !in acc ==> prior == map[]
    ensures var add := if k in frag then frag[k].entries else map[];
      && (k in Merged(acc, frag) ==> Merged(acc, frag)[k] == Map(prior + add))
      && (k !in Merged(acc, frag) ==> prior + add == map[])
  {
    var r := Merged(acc, frag);
    if k !in frag {
      assert prior + map[] == prior;
    } else if k in acc && acc[k] != EmptyMap {
      assert r[k] == Map(acc[k].entries + frag[k].entries);
    } else {
      assert prior == map[];
      assert map[] + frag[k].entries == frag[k].entries;
    }
  }

  /**
   * When every fragment that mentions `k` holds a mapping there, the loaded
   * template holds the one-level union of those mappings, later files winning
   * on shared sub-keys.
   */
  lemma {:induction false} FoldUnitesMappings(fragments: seq<Value>, k: string)
    requires Fold(fragments).Some?
    requires forall i :: 0 <= i < |fragments| && k in KeysOf(fragments[i]) ==> fragments[i].entries[k].Map?
    ensures k in Fold(fragments).value ==> Fold(fragments).value[k] == Map(MapsAt(fragments, k))
    ensures k !in Fold(fragments).value ==> MapsAt(fragments, k) == map[]
    decreases |fragments|
  {
    if fragments != [] {
      var n := |fragments| - 1;
      var prefix := fragments[..n];
      assert forall i :: 0 <= i < n ==> prefix[i] == fragments[i];
      FoldUnitesMappings(prefix, k);
      var last := fragments[n];
      assert k in KeysOf(last) ==> last.entries[k].Map?;
      MergedMappingSlot(Fold(prefix).value, last.entries, k, MapsAt(prefix, k));
    }
  }
}
