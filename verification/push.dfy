/**
 * `ZabbixTemplate.push` and `_create_request`: build the request body and
 * decide between `template.create` and `template.update`. The remote calls
 * are parameters: `resolveGroups` stands for `ZabbixGroups(zapi, groups).push()`
 * and `getId` for `zapi.get_id('template', names)`, whose falsy result
 * means "no such template".
 */
module TemplatePush {
  import opened Wrappers
  import opened Yaml

  /** The API call `push` issues, with its request body. */
  datatype Call = Create(request: Tree) | Update(request: Tree)

  /** A `KeyError` on the template tree, or a response without a first id. */
  datatype PushError = MissingKey(key: string) | NoTemplateId

  /** `_create_request`: the body starts with the resolved groups; `Push` states what it builds. */
  function CreateRequest(obj: Tree, resolveGroups: Value -> Value): Result<Tree, PushError> {
    if "groups" in obj then Ok(map["groups" := resolveGroups(obj["groups"])])
    else Err(MissingKey("groups"))
  }

  /** `push` up to the API call: which call it makes and with what body. */
  function Push(obj: Tree, resolveGroups: Value -> Value, getId: Value -> Value): (r: Result<Call, PushError>)
    // `groups` is read first, `name` after the linked templates are resolved
    ensures "groups" !in obj ==> r == Err(MissingKey("groups"))
    ensures "groups" in obj && "name" !in obj ==> r == Err(MissingKey("name"))
    ensures r.Ok? <==> "groups" in obj && "name" in obj
    // the request always carries the resolved groups
    ensures r.Ok? ==> "groups" in r.value.request && r.value.request["groups"] == resolveGroups(obj["groups"])
    // linked templates only when the tree lists some
    ensures r.Ok? ==> ("templates" in r.value.request <==> Truthy(Get(obj, "templates", None_)))
    ensures r.Ok? && "templates" in r.value.request ==> r.value.request["templates"] == getId(obj["templates"])
    // update exactly when the name lookup finds the template
    ensures r.Ok? ==> (r.value.Update? <==> Truthy(getId(obj["name"])))
    ensures r.Ok? && r.value.Update? ==>
      && "templateid" in r.value.request && r.value.request["templateid"] == getId(obj["name"])
      && "host" !in r.value.request
    ensures r.Ok? && r.value.Create? ==>
      && "host" in r.value.request && r.value.request["host"] == obj["name"]
      && "templateid" !in r.value.request
    // nothing else goes into the body
    ensures r.Ok? ==> r.value.request.Keys <= {"groups", "templates", "templateid", "host"}
  {
    match CreateRequest(obj, resolveGroups)
    case Err(e) => Err(e)
    case Ok(base) =>
      var req := if Truthy(Get(obj, "templates", None_)) then base["templates" := getId(obj["templates"])] else base;
      if "name" !in obj then Err(MissingKey("name"))
      else
        var id := getId(obj["name"]);
        if Truthy(id) then Ok(Update(req["templateid" := id]))
        else Ok(Create(req["host" := obj["name"]]))
  }

  /** `result['templateids'][0]`: the first id of the API response. */
  function TemplateId(response: Value): (r: Result<Value, PushError>)
    ensures r.Ok? <==>
      && response.Map? && "templateids" in response.entries
      && Len(response.entries["templateids"]).Some? && Len(response.entries["templateids"]).value > 0
      && !response.entries["templateids"].Map?
    ensures r.Ok? && response.entries["templateids"].List? ==> r.value == response.entries["templateids"].items[0]
  {
    if !response.Map? || "templateids" !in response.entries then Err(NoTemplateId)
    else match response.entries["templateids"]
      case List(ids) => if ids == [] then Err(NoTemplateId) else Ok(ids[0])
      case Scalar(a) => if a.Str? && a.s != "" then Ok(Scalar(Str([a.s[0]]))) else Err(NoTemplateId)
      case Map(_) => Err(NoTemplateId)
  }

  /**
   * Once a create has registered the name (a later lookup, `getIdAfter`,
   * yields the new id for it), pushing the same tree again updates that
   * template with the same groups and linked templates instead of creating a
   * second one, provided the linked templates still resolve as before.
   */
  lemma RepushUpdates(obj: Tree, resolveGroups: Value -> Value, getId: Value -> Value,
                      getIdAfter: Value -> Value, newId: Value)
    requires Push(obj, resolveGroups, getId).Ok?
    requires Push(obj, resolveGroups, getId).value.Create?
    requires Truthy(newId) && getIdAfter(obj["name"]) == newId
    requires "templates" in obj ==> getIdAfter(obj["templates"]) == getId(obj["templates"])
    ensures var first := Push(obj, resolveGroups, getId).value.request;
      var second := Push(obj, resolveGroups, getIdAfter);
      && second.Ok? && second.value.Update?
      && second.value.request["templateid"] == newId
      && second.value.request - {"templateid"} == first - {"host"}
  {
    var first := Push(obj, resolveGroups, getId).value.request;
    var second := Push(obj, resolveGroups, getIdAfter).value.request;
    assert (second - {"templateid"}).Keys == (first - {"host"}).Keys;
    assert forall k :: k in second - {"templateid"} ==> (second - {"templateid"})[k] == (first - {"host"})[k];
  }
}
