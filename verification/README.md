# zabbixcli templates in Dafny

A model of the template core of zabbixcli (`zabbixlib/template.py`). The
tool keeps Zabbix monitoring templates as trees of YAML fragment files. It
merges the fragments into one template, estimates how many work items the
template holds (for progress reporting), can split a template back into
files, and pushes it to the Zabbix server as a create or an update.

YAML documents are the datatype `Yaml.Value`: a scalar (`None`, a boolean,
an integer or a string), a list, or a mapping with string keys. A
template is a `Tree`, a `map<string, Value>`. Values are immutable. Every
Python exception the code can raise on a malformed tree (`AttributeError`,
`TypeError`, `KeyError`) is an `Err` result, not a precondition.

Modules, one per concern of the source file:

- `Yaml`: the value datatype and the Python built-ins the code relies on:
  truthiness, `len`, and `dict.get` with a default.
- `TemplateMerge`: `_merge`, one fragment onto the accumulator. `Merged` is
  the reference definition, key by key. `Merge` walks the fragment's keys
  in any order, as the Python loop does, and is proved equal to it.
- `TemplateLoad`: `_load` as a fold over the fragment list (`Fold`, and the
  loop `Load`), `__bool__`, and lemmas about whole loads: the keys, the
  union of disjoint fragments, concatenated lists, united mappings.
- `TemplateLength`: `__len__`. `Size` is the closed form. `Length` computes
  it section by section, looping over `applications` and `discovery` in
  any key order.
- `TemplateSave`: the pure part of `save`. It gives the manifest it returns
  and the document written to each file.
- `TemplatePush`: `_create_request` and `push` up to the API call. The
  group resolution and the `get_id` lookup are function parameters.

Behaviour of `template.py` worth knowing:

- Only `{}` counts as an unset slot when merging. An existing `None`, `""`,
  `0` or `[]` is set: a list fragment extends an existing `[]`, and a
  mapping or list fragment raises when it meets an existing scalar.
- The rule a key merges by depends on both sides. A mapping onto a
  non-mapping, or a list onto a non-list, raises.
- Saving and reloading is not a round trip. The triggers file holds the
  entries of the `triggers` mapping, and each items file holds one
  application's items. Neither is wrapped under its section key, so
  reloading the written files does not restore `triggers` or `application`
  (`TemplateSave.ReloadDropsTriggersKey`).
- Every mapping-valued section except `init` is listed in the returned
  manifest. Sections other than `application` and `triggers` get an empty
  file list, and their contents are not written anywhere. A mapping-valued
  `init` section is replaced by the init file's path, and its contents are
  lost: they are not in the init document either.
- Two applications whose names lower-case alike share one items file. The
  one iterated later overwrites the other, and the manifest lists that
  path once per application.

## Model

| member | source | states |
|---|---|---|
| TemplateMerge.MergeEntry | zabbixlib/template.py:115-123 | A key's merge fails exactly when the slot is set (present and not `{}`) and a mapping meets a non-mapping or a list meets a non-list. An unset slot takes the fragment's value. A scalar always overwrites. |
| TemplateMerge.Merged | zabbixlib/template.py:114-123 | After a merge the keys are the union of both key sets. Keys the fragment lacks are unchanged. Missing or `{}` slots hold the fragment's value. List onto list gives the old items followed by the new ones, so the lengths add. Mapping onto mapping gives the union of sub-keys, with the fragment winning one level deep only. |
| TemplateMerge.Merge | zabbixlib/template.py:105-125 | The key loop fails with NotAMapping on a non-dict document (such as an empty file's `None`). Otherwise it succeeds exactly when no key clashes, and then equals `Merged` whatever order the keys come in. On failure it names a key that clashes. |
| TemplateLoad.Fold | zabbixlib/template.py:132-145 | A successful load means every fragment was a mapping. |
| TemplateLoad.Load | zabbixlib/template.py:127-152 | Merging fragments in order from `{}` succeeds exactly when the fold does, with the same tree. On failure it names the first fragment whose merge raises, and says whether that fragment was not a mapping. |
| TemplateLoad.FoldKeys | zabbixlib/template.py:132-145 | The loaded template has exactly the top-level keys that some fragment mentions. |
| TemplateLoad.IsTruthy | zabbixlib/template.py:245-248 | A template is truthy exactly when it holds at least one top-level key. |
| TemplateLoad.LoadedTruthy | zabbixlib/template.py:245-248 | A loaded template is truthy exactly when some fragment was a non-empty mapping. |
| TemplateLoad.FoldDisjoint | zabbixlib/template.py:114-116 | Fragments with pairwise disjoint keys always load. Each key then holds exactly the value its fragment gave it. |
| TemplateLoad.FoldDisjointOrderFree | zabbixlib/template.py:132-145 | Two fragments with disjoint keys load to the same template in either order. |
| TemplateLoad.TwoFragments | zabbixlib/template.py:132-145 | Loading two disjoint fragments gives their union, with every value unchanged. |
| TemplateLoad.FoldConcatenatesLists | zabbixlib/template.py:120-121 | If every fragment that mentions a key holds a list there, the template holds those lists concatenated in load order. An empty first list is extended, not replaced. |
| TemplateLoad.FoldUnitesMappings | zabbixlib/template.py:118-119 | If every fragment that mentions a key holds a mapping there, the template holds the one-level union of those mappings, with later files winning on shared sub-keys. |
| TemplateLength.Length | zabbixlib/template.py:195-227 | The count is at least 1. It equals the closed form: 1 + triggers + graphs + (1 for a truthy alert) + the autoreg share + macros + (len+1 or 1 per application) + (2 + items + graphs + triggers per discovery rule). It fails, naming the section, exactly where Python raises. |
| TemplateLength.CountApplications | zabbixlib/template.py:214-218 | Summed in any key order, the applications add len+1 for each list-valued entry and 1 for every other entry, matching the closed form's applications part. |
| TemplateLength.CountDiscovery | zabbixlib/template.py:220-225 | The count is defined exactly when every rule is a dict whose items, graphs and triggers have a length. It then equals the sum of 2 + items + graphs + triggers over the rules, in any key order. |
| TemplateLength.AddApplication | zabbixlib/template.py:214-218 | Adding one application raises the count by its item count plus one, or by one when it holds no list. |
| TemplateLength.AddDiscoveryRule | zabbixlib/template.py:220-225 | Adding one discovery rule keeps the count defined exactly when the rule's items, graphs and triggers have lengths. It then raises the count by 2 plus those lengths. |
| TemplateLength.AutoregShare | zabbixlib/template.py:206-211 | Compared with the same template without autoreg, the count differs by 0 when autoreg is missing or empty. It differs by exactly 1 when add_to_group is empty and metadata is truthy, and otherwise by len(add_to_group). |
| TemplateLength.TriggersAndGraphsExample | zabbixlib/template.py:201-203 | Two triggers and one graph give a count of 4. |
| TemplateLength.AutoregExamples | zabbixlib/template.py:206-211 | Autoreg with no groups and some metadata counts 2. With two groups it counts 3. |
| TemplateSave.InitDocument | zabbixlib/template.py:187-189 | The init document holds exactly the non-mapping top-level entries, with their values unchanged. |
| TemplateSave.Save | zabbixlib/template.py:162-193 | `init` maps to the init file, which holds the init document. Besides `init`, exactly the mapping-valued keys are listed, so each entry lands either in the init document or in the manifest. Sections other than application and triggers get no files. triggers gets the one triggers file, which holds the triggers mapping. application lists the items path of each application in some dict order, one entry per application. Nothing else is written. |
| TemplateSave.SaveApplications | zabbixlib/template.py:166-175 | The listing is the lower-cased items path of each application, taken in one dict order, so names that lower-case alike repeat a path. The written files are those of writing the applications in that same order, so the later of two such applications wins. Every written file holds the items of an application whose lower-cased name it carries. |
| TemplateSave.ListsApplicationsCovers | zabbixlib/template.py:167-172 | Such a listing has exactly one entry per application, holds every application's path, and holds no other path. |
| TemplateSave.ListsApplicationsCollision | zabbixlib/template.py:167-172 | Applications `A` and `a` are listed as the same path `items/a`, twice. |
| TemplateSave.WriteItemsFiles | zabbixlib/template.py:167-175 | After the applications are written in order, each one's file exists. Each file holds the items of the last application in that order with that lower-cased name. |
| TemplateSave.WriteItemsLast | zabbixlib/template.py:167-175 | A written items file holds the items of the last application in the writing order whose name lower-cases to the file's name. |
| TemplateSave.DictOrder | zabbixlib/template.py:167 | Iterating a dict yields each key exactly once. |
| TemplateSave.RenderInjective | zabbixlib/template.py:168-191 | `Render` spells the three path formats (`{dir}/items/{app}{ext}`, `{dir}/triggers{ext}`, `{dir}/init{ext}`) and `TempPath` appends the `_` each file is written under. Distinct targets (items files for distinct lower-cased names, the triggers file, the init file) give distinct written path strings. |
| TemplateSave.InitReloads | zabbixlib/template.py:185-192 | Loading the init document alone gives back exactly the non-mapping entries. |
| TemplateSave.ReloadDropsTriggersKey | zabbixlib/template.py:176-184 | Loading the init and triggers documents never produces a `triggers` key, unless the triggers mapping itself has one. The section is flattened, not restored. |
| TemplatePush.Push | zabbixlib/template.py:26-57 | A missing `groups` fails first, then a missing `name`. The body always carries the resolved groups. It carries `templates` exactly when the tree's templates entry is truthy. The call is an update with `templateid` and no `host` exactly when the name lookup is truthy. Otherwise it is a create with `host` = name and no `templateid`. No other keys appear. |
| TemplatePush.TemplateId | zabbixlib/template.py:59-60 | The pushed id is the first element of the response's `templateids`. It fails when that entry is missing, empty or not indexable by 0. |
| TemplatePush.RepushUpdates | zabbixlib/template.py:49-57 | After a create, take any later lookup that finds the new id for the name and resolves the linked templates as before. Pushing the same tree again with it gives an update carrying that id, with the same groups and linked templates as the create. |

## Left out

- Finding the fragment files (`_walk`, lines 92-103) is a directory walk. The fragments are a given sequence whose order is the merge order.
- YAML parsing and dumping, and all file reads and writes, are foreign library calls and I/O. A written file is a `Target` mapped to the document dumped to it. `TempPath` spells out the path with its trailing `_`.
- The remote calls are left out: `ZabbixGroups.push`, `zapi.get_id`, `template.create` and `template.update`. The first two are parameters of `Push`. `Push` returns the call it would make. `TemplateId` reads the response.
- Logging and `__repr__` (pprint) have no behaviour to verify.
- `__getitem__`, `get`, `__setitem__` and `iteritems` are plain dictionary access to the template. Reads are `Yaml.Get`. A write is a map update.
- YAML floats, dates, binary values and non-string mapping keys are left out. Floats and dates behave like integers here (no `len`, no `update`/`extend`), apart from truthiness.
- Python object sharing is left out. Values from a fragment are stored by reference in Python and later mutated by `update`/`extend`, and YAML anchors can share one object under two keys. Values here are immutable.
- TemplateSave.Save: an application name with a non-ASCII character is not rejected. The code runs under Python 2, where YAML gives such a name as a `unicode` string. Formatting it into the byte-string path (line 168) raises `UnicodeEncodeError`, after the files of the applications before it have been written. The model lists and writes that application like any other, so its `Save` succeeds where the code raises.
- TemplateSave.SaveApplications: the same non-ASCII error is not represented. `Lower` maps only ASCII letters, which is all a name that reaches the path can hold.
- TemplateMerge.Merge: on a clash it names some clashing key, not necessarily the first in Python's dict order, which is not modelled. The half-updated accumulator Python leaves behind is not modelled either, because `_load` lets the exception escape.
- TemplateSave.SaveApplications: the dict order of the applications is left open, because Python's dict iteration order is not modelled. Only its being one order of the keys is stated.
- TemplatePush.RepushUpdates: assumes the later lookup resolves the `templates` entry to the same ids as before. When that entry is the name itself, or a list containing it, the lookup may now also find the new id, and the lemma says nothing about that case.
- TemplatePush.Push: the tree is a plain dict, so a missing `groups` or `name` raises a KeyError. A `ZabbixTemplateFile` passed instead returns `None` for a missing key (lines 229-230), and its callers are not part of this model. `resolveGroups` and `getId` are total functions, so failures of `ZabbixGroups.push` or `get_id` are not represented.
- TemplateSave.RenderInjective: distinct targets give distinct path strings, not necessarily distinct files. An application name holding `/` or `..` (such as `../triggers`) can name another target's file. Application names are assumed to hold neither.
- TemplatePush.TemplateId: a string `templateids` is indexed to its first character. A dict-valued one always fails, because model keys are strings and cannot be the integer 0.
