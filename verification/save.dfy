/**
 * The pure part of `ZabbixTemplateFile.save`: which documents are written
 * to which paths, and the manifest of paths it returns. Mapping-valued
 * top-level keys get a manifest entry (files only for `application` and
 * `triggers`); every other top-level entry goes into the `init` document.
 * Each document is written beside its target, under the path plus `_`.
 * The template directory and file extension only shape the paths, so the
 * written files are keyed by `Target` and `Render` spells out each path.
 */
module TemplateSave {
  import opened Wrappers
  import opened Yaml
  import opened TemplateMerge
  import opened TemplateLoad

  /**
   * A file `save` writes, inside the template directory: an application's
   * items file (named after the lower-cased application), the triggers file,
   * or the init file. `Render` spells out the path.
   */
  datatype Target = ItemsFile(lowered: string) | TriggersFile | InitFile

  /** A manifest entry: a list of files for a section, a single file for `init`. */
  datatype Listing = Files(targets: seq<Target>) | Single(target: Target)

  /**
   * What `save` returns (`manifest`) and what it writes (`written`); each
   * document goes to its target's path followed by `_` (see `TempPath`).
   */
  datatype Saved = Saved(manifest: map<string, Listing>, written: map<Target, Value>)

  /** ASCII lower-casing of one character. */
  function LowerChar(c: char): char {
    if 'A' <= c <= 'Z' then (c as int + 32) as char else c
  }

  /** `str.lower()` over ASCII. */
  function Lower(s: string): string {
    if s == [] then [] else [LowerChar(s[0])] + Lower(s[1..])
  }

  /**
   * The path of a target under the template directory `dir` (the
   * constructor's `{basedir}/{name}`) with file extension `ext`.
   */
  function Render(dir: string, ext: string, target: Target): string {
    match target
    case ItemsFile(app) => dir + "/items/" + app + ext
    case TriggersFile => dir + "/triggers" + ext
    case InitFile => dir + "/init" + ext
  }

  /** Where the document for a target is actually written. */
  function TempPath(dir: string, ext: string, target: Target): string {
    Render(dir, ext, target) + "_"
  }

  /**
   * Distinct targets give distinct path strings, so keying the written files
   * by target loses nothing as long as application names hold no `/` or `..`.
   */
  lemma RenderInjective(dir: string, ext: string, a: Target, b: Target)
    requires a != b
    ensures TempPath(dir, ext, a) != TempPath(dir, ext, b)
  {
    var pa := Render(dir, ext, a);
    var pb := Render(dir, ext, b);
    var n := |dir|;
    if a.ItemsFile? && b.ItemsFile? {
      if |pa| == |pb| {
        assert |a.lowered| == |b.lowered|;
        var i :| 0 <= i < |a.lowered| && a.lowered[i] != b.lowered[i];
        assert pa[n + 7 + i] == a.lowered[i];
        assert pb[n + 7 + i] == b.lowered[i];
      }
    } else if a.ItemsFile? || b.ItemsFile? {
      assert pa[n + 2] != pb[n + 2] by {
        assert pa[n + 2] == if a.ItemsFile? then 't' else if a.TriggersFile? then 'r' else 'n';
        assert pb[n + 2] == if b.ItemsFile? then 't' else if b.TriggersFile? then 'r' else 'n';
      }
    } else {
      assert pa[n + 1] != pb[n + 1];
    }
    assert pa != pb;
    assert TempPath(dir, ext, a)[..|pa|] == pa;
    assert TempPath(dir, ext, b)[..|pb|] == pb;
  }

  /** The `init` document: every top-level entry that is not a mapping. */
  function InitDocument(t: Tree): (d: Tree)
    ensures forall k :: k in d <==> k in t && !t[k].Map?
    ensures forall k :: k in d ==> d[k] == t[k]
  {
    map k | k in t && !t[k].Map? :: t[k]
  }

  /** The order in which a dict yields its keys: every key exactly once, in some order. */
  method DictOrder(keys: set<string>) returns (order: seq<string>)
    ensures |order| == |keys|
    ensures forall k :: k in keys <==> k in order
  {
    order := [];
    var rest := keys;
    while rest != {}
      invariant rest <= keys
      invariant forall k :: k in keys <==> k in order || k in rest
      invariant forall k :: k in order ==> k !in rest
      invariant |order| + |rest| == |keys|
      decreases rest
    {
      var k :| k in rest;
      order := order + [k];
      rest := rest - {k};
    }
  }

  /**
   * Writing the items of the applications `order` names, one after the
   * other: a later application overwrites an earlier one whose name
   * lower-cases alike.
   */
  function WriteItems(order: seq<string>, apps: map<string, Value>): map<Target, Value>
    requires forall i :: 0 <= i < |order| ==> order[i] in apps
    decreases |order|
  {
    if order == [] then map[]
    else
      var n := |order| - 1;
      WriteItems(order[..n], apps)[ItemsFile(Lower(order[n])) := apps[order[n]]]
  }

  /** `order[i]` is the last application in `order` whose name lower-cases to its own. */
  predicate LastLowered(order: seq<string>, i: int) {
    0 <= i < |order| && forall j :: i < j < |order| ==> Lower(order[j]) != Lower(order[i])
  }

  /** Appending an application with another lower-cased name keeps an earlier one last. */
  lemma LastLoweredExtends(order: seq<string>, i: int)
    requires |order| > 0 && LastLowered(order[..|order| - 1], i)
    requires Lower(order[|order| - 1]) != Lower(order[i])
    ensures LastLowered(order, i)
  {
    var n := |order| - 1;
    forall j | i < j < |order|
      ensures Lower(order[j]) != Lower(order[i])
    {
      if j < n {
        assert order[j] == order[..n][j];
      }
    }
  }

  /**
   * A written items file holds the items of the last application in `order`
   * whose name lower-cases to the file's name; that application's index is `i`.
   */
  lemma {:induction false} WriteItemsLast(order: seq<string>, apps: map<string, Value>, f: Target) returns (i: int)
    requires forall i :: 0 <= i < |order| ==> order[i] in apps
    requires f in WriteItems(order, apps)
    ensures LastLowered(order, i) && f == ItemsFile(Lower(order[i])) && WriteItems(order, apps)[f] == apps[order[i]]
    decreases |order|
  {
    var n := |order| - 1;
    var prefix := order[..n];
    if f == ItemsFile(Lower(order[n])) {
      i := n;
    } else {
      assert forall j :: 0 <= j < n ==> prefix[j] == order[j];
      i := WriteItemsLast(prefix, apps, f);
      LastLoweredExtends(order, i);
    }
  }

  /**
   * After writing, every named application has its file, and every file holds
   * the items of the last named application with that lower-cased name.
   */
  lemma {:induction false} WriteItemsFiles(order: seq<string>, apps: map<string, Value>)
    requires forall i :: 0 <= i < |order| ==> order[i] in apps
    ensures forall i :: 0 <= i < |order| ==> ItemsFile(Lower(order[i])) in WriteItems(order, apps)
    ensures forall f :: f in WriteItems(order, apps) ==>
      exists i :: LastLowered(order, i) && f == ItemsFile(Lower(order[i])) && WriteItems(order, apps)[f] == apps[order[i]]
    decreases |order|
  {
    if order != [] {
      var n := |order| - 1;
      var prefix := order[..n];
      assert forall i :: 0 <= i < n ==> prefix[i] == order[i];
      WriteItemsFiles(prefix, apps);
      var before := WriteItems(prefix, apps);
      assert WriteItems(order, apps) == before[ItemsFile(Lower(order[n])) := apps[order[n]]];
      forall i | 0 <= i < |order|
        ensures ItemsFile(Lower(order[i])) in WriteItems(order, apps)
      {
        if i < n {
          assert ItemsFile(Lower(prefix[i])) in before;
        }
      }
    }
    forall f | f in WriteItems(order, apps)
      ensures exists i :: LastLowered(order, i) && f == ItemsFile(Lower(order[i])) && WriteItems(order, apps)[f] == apps[order[i]]
    {
      var i := WriteItemsLast(order, apps, f);
    }
  }

  /** `order` is an iteration order of the dict `apps`: every key exactly once. */
  predicate DictOrderOf(apps: map<string, Value>, order: seq<string>) {
    && |order| == |apps|
    && (forall app :: app in apps ==> app in order)
    && (forall i :: 0 <= i < |order| ==> order[i] in apps)
  }

  /** The items path of each application in `order`, one per application. */
  function ItemsFiles(order: seq<string>): seq<Target> {
    seq(|order|, i requires 0 <= i < |order| => ItemsFile(Lower(order[i])))
  }

  /**
   * `targets` is what `save` lists for the applications: the items path of
   * each application, taken in some dict order, so two applications whose
   * names lower-case alike contribute the same path twice.
   */
  ghost predicate ListsApplications(apps: map<string, Value>, targets: seq<Target>) {
    exists order :: DictOrderOf(apps, order) && targets == ItemsFiles(order)
  }

  /**
   * The listing has one entry per application, holds every application's
   * path, and holds nothing else.
   */
  lemma ListsApplicationsCovers(apps: map<string, Value>, targets: seq<Target>)
    requires ListsApplications(apps, targets)
    ensures |targets| == |apps|
    ensures forall app :: app in apps ==> ItemsFile(Lower(app)) in targets
    ensures forall i :: 0 <= i < |targets| ==> exists app :: app in apps && targets[i] == ItemsFile(Lower(app))
  {
    var order :| DictOrderOf(apps, order) && targets == ItemsFiles(order);
    forall app | app in apps
      ensures ItemsFile(Lower(app)) in targets
    {
      var i :| 0 <= i < |order| && order[i] == app;
      assert targets[i] == ItemsFile(Lower(app));
    }
    forall i | 0 <= i < |targets|
      ensures exists app :: app in apps && targets[i] == ItemsFile(Lower(app))
    {
      assert order[i] in apps;
    }
  }

  /** Applications `A` and `a` are listed as the same path, twice. */
  lemma ListsApplicationsCollision(x: Value, y: Value, targets: seq<Target>)
    requires ListsApplications(map["A" := x, "a" := y], targets)
    ensures targets == [ItemsFile("a"), ItemsFile("a")]
  {
    var apps := map["A" := x, "a" := y];
    var order :| DictOrderOf(apps, order) && targets == ItemsFiles(order);
    assert apps.Keys == {"A", "a"};
    assert |order| == 2;
    assert Lower("A") == "a" && Lower("a") == "a";
    assert order[0] in apps && order[1] in apps;
  }

  /**
   * The application part of `save`: one file per application, in dict
   * order; two applications whose names lower-case alike share a file and
   * the later one's items win.
   */
  method SaveApplications(apps: map<string, Value>)
    returns (files: seq<Target>, written: map<Target, Value>)
    ensures ListsApplications(apps, files)
    ensures exists order :: DictOrderOf(apps, order) && files == ItemsFiles(order) && written == WriteItems(order, apps)
    ensures forall app :: app in apps ==> ItemsFile(Lower(app)) in written
    ensures forall f :: f in written ==>
      exists app :: app in apps && f == ItemsFile(Lower(app)) && written[f] == apps[app]
  {
    var order := DictOrder(apps.Keys);
    assert |apps| == |apps.Keys|;
    files := ItemsFiles(order);
    written := WriteItems(order, apps);
    WriteItemsFiles(order, apps);
    assert DictOrderOf(apps, order);
    forall f | f in written
      ensures exists app :: app in apps && f == ItemsFile(Lower(app)) && written[f] == apps[app]
    {
      var i :| LastLowered(order, i) && f == ItemsFile(Lower(order[i])) && written[f] == apps[order[i]];
      assert order[i] in apps;
    }
  }

  /** `save`: the manifest it returns and the documents it writes. */
  method Save(t: Tree) returns (s: Saved)
    // the init document: every non-mapping entry, written to the init file
    ensures "init" in s.manifest && s.manifest["init"] == Single(InitFile)
    ensures InitFile in s.written && s.written[InitFile] == Map(InitDocument(t))
    // every mapping-valued key, and only those, gets a manifest entry besides init
    ensures forall k :: k != "init" ==> (k in s.manifest <==> k in t && t[k].Map?)
    // every top-level entry lands in exactly one of the two
    ensures forall k :: k in t && k != "init" ==> (k in InitDocument(t) <==> k !in s.manifest)
    // sections other than application and triggers are listed with no files
    ensures forall k :: k in s.manifest && k != "init" && k != "application" && k != "triggers" ==>
      s.manifest[k] == Files([])
    // triggers: one file holding the triggers mapping
    ensures "triggers" in t && t["triggers"].Map? ==>
      && s.manifest["triggers"] == Files([TriggersFile])
      && TriggersFile in s.written
      && s.written[TriggersFile] == t["triggers"]
    // application: one file per application, each holding some application's items
    ensures "application" in t && t["application"].Map? ==>
      var apps := t["application"].entries;
      && s.manifest["application"].Files?
      && ListsApplications(apps, s.manifest["application"].targets)
      && (forall app :: app in apps ==> ItemsFile(Lower(app)) in s.written)
    // nothing else is written
    ensures forall f :: f in s.written ==>
      || f == InitFile
      || (f == TriggersFile && "triggers" in t && t["triggers"].Map?)
      || ("application" in t && t["application"].Map? &&
          exists app :: app in t["application"].entries && f == ItemsFile(Lower(app))
            && s.written[f] == t["application"].entries[app])
  {
    var manifest: map<string, Listing> := map k | k in t && t[k].Map? :: Files([]);
    var written: map<Target, Value> := map[];
    var hasApps := "application" in t && t["application"].Map?;
    var hasTriggers := "triggers" in t && t["triggers"].Map?;
    ghost var appFiles: seq<Target> := [];
    if hasApps {
      var files;
      files, written := SaveApplications(t["application"].entries);
      manifest := manifest["application" := Files(files)];
      appFiles := files;
    }
    assert forall f :: f in written ==> f.ItemsFile?;
    if hasTriggers {
      manifest := manifest["triggers" := Files([TriggersFile])];
      written := written[TriggersFile := t["triggers"]];
    }
    manifest := manifest["init" := Single(InitFile)];
    written := written[InitFile := Map(InitDocument(t))];
    assert hasApps ==> manifest["application"] == Files(appFiles);
    return Saved(manifest, written);
  }

  /** Reloading the init file alone gives back exactly the non-mapping entries. */
  lemma InitReloads(t: Tree)
    ensures Fold([Map(InitDocument(t))]) == Some(InitDocument(t))
  {
    var d := InitDocument(t);
    assert [Map(d)][..0] == [];
    var r := Merged(map[], d);
    assert r.Keys == d.Keys;
    assert r == d;
  }

  /**
   * Reloading the init and triggers files does not bring the `triggers`
   * key back: the triggers file holds the section's entries at top level.
   */
  lemma ReloadDropsTriggersKey(t: Tree)
    requires "triggers" in t && t["triggers"].Map?
    requires "triggers" !in t["triggers"].entries
    requires Fold([Map(InitDocument(t)), t["triggers"]]).Some?
    ensures "triggers" !in Fold([Map(InitDocument(t)), t["triggers"]]).value
  {
    var docs := [Map(InitDocument(t)), t["triggers"]];
    FoldKeys(docs);
    assert docs[..1] == [Map(InitDocument(t))];
    assert docs[..1][..0] == [];
    assert AllKeys(docs[..1]) == AllKeys([]) + KeysOf(docs[0]);
    assert AllKeys(docs) == AllKeys(docs[..1]) + KeysOf(docs[1]);
    assert AllKeys(docs) == InitDocument(t).Keys + t["triggers"].entries.Keys;
  }
}
