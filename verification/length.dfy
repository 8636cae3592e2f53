/**
 * The work-item estimate `ZabbixTemplateFile.__len__`, used by callers for
 * progress reporting. `Size` is the closed form; `Length` walks the tree the
 * way the method does. Both report a failing section by name: Python raises
 * a TypeError or AttributeError there.
 */
module TemplateLength {
  import opened Wrappers
  import opened Yaml

  /** Some element of a non-empty key set; which one does not matter to the sums (`SumOverRemove`). */
  ghost function Pick(keys: set<string>): (k: string)
    requires keys != {}
    ensures k in keys
  {
    var k :| k in keys; k
  }

  /** Sum of `cost` over the values stored under `keys`. */
  ghost function SumOver(keys: set<string>, m: map<string, Value>, cost: Value -> nat): nat
    requires keys <= m.Keys
    decreases keys
  {
    if keys == {} then 0
    else
      var k := Pick(keys);
      cost(m[k]) + SumOver(keys - {k}, m, cost)
  }

  /** The sum does not depend on which key is taken first. */
  lemma {:induction false} SumOverRemove(keys: set<string>, m: map<string, Value>, cost: Value -> nat, k: string)
    requires keys <= m.Keys
    requires k in keys
    ensures SumOver(keys, m, cost) == cost(m[k]) + SumOver(keys - {k}, m, cost)
    decreases keys
  {
    var j := Pick(keys);
    if j != k {
      SumOverRemove(keys - {j}, m, cost, k);
      SumOverRemove(keys - {k}, m, cost, j);
      assert keys - {j} - {k} == keys - {k} - {j};
    }
  }

  /** Contribution of one `applications` entry: its items plus the application itself. */
  function AppCost(items: Value): (n: nat)
    ensures n >= 1
  {
    if items.List? then |items.items| + 1 else 1
  }

  /** A `discovery` entry can be counted: a dict whose items/graphs/triggers are sized. */
  predicate CountableRule(rule: Value) {
    && rule.Map?
    && Len(Get(rule.entries, "items", EmptyList)).Some?
    && Len(Get(rule.entries, "graphs", EmptyList)).Some?
    && Len(Get(rule.entries, "triggers", EmptyList)).Some?
  }

  /**
   * Contribution of one discovery rule: the rule's key, the rule itself, and
   * its items, graphs and triggers.
   */
  function RuleCost(rule: Value): (n: nat)
    ensures n >= 2
  {
    if CountableRule(rule) then
      2 + Len(Get(rule.entries, "items", EmptyList)).value
        + Len(Get(rule.entries, "graphs", EmptyList)).value
        + Len(Get(rule.entries, "triggers", EmptyList)).value
    else 2
  }

  /**
   * Contribution of the `autoreg` section: nothing when it is missing or
   * empty, one when it lists no groups but carries metadata, otherwise one
   * per group in `add_to_group`. `None` when Python raises.
   */
  function AutoregCost(autoreg: Value): Option<nat> {
    if !Truthy(autoreg) then Some(0)
    else if !autoreg.Map? then None
    else
      var groups := Len(Get(autoreg.entries, "add_to_group", EmptyList));
      if groups.None? then None
      else if groups.value == 0 && Truthy(Get(autoreg.entries, "metadata", None_)) then Some(1)
      else Some(groups.value)
  }

  /**
   * The straight-line part of `__len__`: one for the template, its triggers,
   * graphs and macros, one for a non-empty alert, and the autoreg share.
   */
  function HeadSize(t: Tree): Result<nat, string> {
    var triggers := Len(Get(t, "triggers", EmptyList));
    var graphs := Len(Get(t, "graphs", EmptyList));
    var alert: nat := if Truthy(Get(t, "alert", EmptyList)) then 1 else 0;
    var autoreg := AutoregCost(Get(t, "autoreg", EmptyList));
    var macros := Len(Get(t, "macros", EmptyList));
    if triggers.None? then Err("triggers")
    else if graphs.None? then Err("graphs")
    else if autoreg.None? then Err("autoreg")
    else if macros.None? then Err("macros")
    else Ok(1 + triggers.value + graphs.value + alert + autoreg.value + macros.value)
  }

  /** Every rule of a `discovery` section can be counted. */
  predicate CountableRules(rules: Value) {
    rules.Map? && forall r :: r in rules.entries ==> CountableRule(rules.entries[r])
  }

  /** The applications part of `__len__`; Python needs a dict to iterate. */
  ghost function AppsSize(apps: Value): Result<nat, string> {
    if apps.Map? then Ok(SumOver(apps.entries.Keys, apps.entries, AppCost)) else Err("applications")
  }

  /** The discovery part of `__len__`; every rule must be countable. */
  ghost function RulesSize(rules: Value): Result<nat, string> {
    if CountableRules(rules) then Ok(SumOver(rules.entries.Keys, rules.entries, RuleCost)) else Err("discovery")
  }

  /** The closed form of `__len__`; `Err(section)` names the section Python fails on first. */
  ghost function Size(t: Tree): Result<nat, string> {
    match HeadSize(t)
    case Err(e) => Err(e)
    case Ok(head) =>
      match AppsSize(Get(t, "applications", EmptyMap))
      case Err(e) => Err(e)
      case Ok(apps) =>
        match RulesSize(Get(t, "discovery", EmptyMap))
        case Err(e) => Err(e)
        case Ok(rules) => Ok(head + apps + rules)
  }

  /** Sum of `AppCost` over an `applications` mapping, in dict order. */
  method CountApplications(apps: map<string, Value>) returns (n: nat)
    ensures AppsSize(Map(apps)) == Ok(n)
  {
    n := 0;
    var rest := apps.Keys;
    while rest != {}
      invariant rest <= apps.Keys
      invariant n + SumOver(rest, apps, AppCost) == SumOver(apps.Keys, apps, AppCost)
      decreases rest
    {
      var app :| app in rest;
      SumOverRemove(rest, apps, AppCost, app);
      if apps[app].List? {
        n := n + |apps[app].items| + 1;
      } else {
        n := n + 1;
      }
      rest := rest - {app};
    }
  }

  /**
   * The discovery part of `__len__`: one per rule key, then per rule its
   * items, graphs, triggers and one more; `None` when some rule is not countable.
   */
  method CountDiscovery(rules: map<string, Value>) returns (n: Option<nat>)
    ensures n.Some? <==> RulesSize(Map(rules)).Ok?
    ensures n.Some? ==> RulesSize(Map(rules)) == Ok(n.value)
  {
    var count: int := |rules|;
    var rest := rules.Keys;
    assert |rules| == |rules.Keys|;
    while rest != {}
      invariant rest <= rules.Keys
      invariant forall r :: r in rules && r !in rest ==> CountableRule(rules[r])
      invariant count - |rest| + SumOver(rest, rules, RuleCost) == SumOver(rules.Keys, rules, RuleCost)
      decreases rest
    {
      var key :| key in rest;
      SumOverRemove(rest, rules, RuleCost, key);
      var rule := rules[key];
      if !rule.Map? {
        return None;
      }
      var items := Len(Get(rule.entries, "items", EmptyList));
      var graphs := Len(Get(rule.entries, "graphs", EmptyList));
      var triggers := Len(Get(rule.entries, "triggers", EmptyList));
      if items.None? || graphs.None? || triggers.None? {
        return None;
      }
      count := count + items.value + graphs.value + triggers.value + 1;
      rest := rest - {key};
    }
    return Some(count);
  }

  /** `__len__`, section by section in the order the method reads them. */
  method Length(t: Tree) returns (r: Result<nat, string>)
    ensures r == Size(t)
    ensures r.Ok? ==> r.value >= 1
  {
    var head := HeadSize(t);
    if head.Err? { return head; }
    var apps := Get(t, "applications", EmptyMap);
    if !apps.Map? { return Err("applications"); }
    var appCount := CountApplications(apps.entries);
    var rules := Get(t, "discovery", EmptyMap);
    if !rules.Map? { return Err("discovery"); }
    var ruleCount := CountDiscovery(rules.entries);
    if ruleCount.None? { return Err("discovery"); }
    return Ok(head.value + appCount + ruleCount.value);
  }

  /** The sum only reads the values under `keys`. */
  lemma {:induction false} SumOverAgree(keys: set<string>, m1: map<string, Value>, m2: map<string, Value>, cost: Value -> nat)
    requires keys <= m1.Keys && keys <= m2.Keys
    requires forall k :: k in keys ==> m1[k] == m2[k]
    ensures SumOver(keys, m1, cost) == SumOver(keys, m2, cost)
    decreases keys
  {
    if keys != {} {
      SumOverAgree(keys - {Pick(keys)}, m1, m2, cost);
    }
  }

  /** Adding a new key `k` to a mapping adds exactly `cost` of its value to the sum. */
  lemma AddToSum(m: map<string, Value>, k: string, v: Value, cost: Value -> nat)
    requires k !in m
    ensures SumOver(m[k := v].Keys, m[k := v], cost) == SumOver(m.Keys, m, cost) + cost(v)
  {
    var m' := m[k := v];
    SumOverRemove(m'.Keys, m', cost, k);
    assert m'.Keys - {k} == m.Keys;
    SumOverAgree(m.Keys, m', m, cost);
  }

  /** Each application adds its item count plus one, or one when it holds no list. */
  lemma AddApplication(t: Tree, apps: map<string, Value>, name: string, items: Value)
    requires "applications" in t && t["applications"] == Map(apps)
    requires name !in apps
    requires Size(t).Ok?
    ensures Size(t["applications" := Map(apps[name := items])])
      == Ok(Size(t).value + (if items.List? then |items.items| + 1 else 1))
  {
    var t' := t["applications" := Map(apps[name := items])];
    assert HeadSize(t') == HeadSize(t);
    assert Get(t', "discovery", EmptyMap) == Get(t, "discovery", EmptyMap);
    assert Get(t', "applications", EmptyMap) == Map(apps[name := items]);
    AddToSum(apps, name, items, AppCost);
    assert AppsSize(Map(apps[name := items])) == Ok(AppsSize(Map(apps)).value + AppCost(items));
  }

  /** Adding a rule keeps the discovery part defined exactly when the rule is countable. */
  lemma AddToRules(rules: map<string, Value>, name: string, rule: Value)
    requires name !in rules
    requires RulesSize(Map(rules)).Ok?
    ensures RulesSize(Map(rules[name := rule])).Ok? <==> CountableRule(rule)
    ensures CountableRule(rule) ==>
      RulesSize(Map(rules[name := rule])) == Ok(RulesSize(Map(rules)).value + RuleCost(rule))
  {
    var rules' := rules[name := rule];
    assert rules'[name] == rule;
    if CountableRule(rule) {
      assert CountableRules(Map(rules'));
      AddToSum(rules, name, rule, RuleCost);
    }
  }

  /**
   * Each discovery rule adds two (its key and itself) plus the lengths of its
   * items, graphs and triggers.
   */
  lemma AddDiscoveryRule(t: Tree, rules: map<string, Value>, name: string, rule: Value)
    requires "discovery" in t && t["discovery"] == Map(rules)
    requires name !in rules
    requires Size(t).Ok?
    requires rule.Map?
    ensures var counted := [Get(rule.entries, "items", EmptyList), Get(rule.entries, "graphs", EmptyList),
                            Get(rule.entries, "triggers", EmptyList)];
      && (Size(t["discovery" := Map(rules[name := rule])]).Ok?
          <==> Len(counted[0]).Some? && Len(counted[1]).Some? && Len(counted[2]).Some?)
      && (Size(t["discovery" := Map(rules[name := rule])]).Ok? ==>
          Size(t["discovery" := Map(rules[name := rule])]).value
            == Size(t).value + 2 + Len(counted[0]).value + Len(counted[1]).value + Len(counted[2]).value)
  {
    var t' := t["discovery" := Map(rules[name := rule])];
    assert HeadSize(t') == HeadSize(t);
    assert Get(t', "applications", EmptyMap) == Get(t, "applications", EmptyMap);
    assert Get(t', "discovery", EmptyMap) == Map(rules[name := rule]);
    AddToRules(rules, name, rule);
  }

  /**
   * The autoreg share of `__len__`: none when the section is missing or
   * empty, exactly one when `add_to_group` is empty and `metadata` is set,
   * otherwise the length of `add_to_group`.
   */
  lemma AutoregShare(t: Tree)
    requires Size(t).Ok?
    ensures Size(t - {"autoreg"}).Ok?
    ensures var base := Size(t - {"autoreg"}).value;
      var autoreg := Get(t, "autoreg", EmptyList);
      var groups := if autoreg.Map? then Get(autoreg.entries, "add_to_group", EmptyList) else EmptyList;
      var metadata := if autoreg.Map? then Get(autoreg.entries, "metadata", None_) else None_;
      && (!Truthy(autoreg) ==> Size(t).value == base)
      && (Truthy(autoreg) && Len(groups) == Some(0) && Truthy(metadata) ==> Size(t).value == base + 1)
      && (Truthy(autoreg) && !(Len(groups) == Some(0) && Truthy(metadata)) ==>
            Len(groups).Some? && Size(t).value == base + Len(groups).value)
  {
    var t' := t - {"autoreg"};
    assert Get(t', "applications", EmptyMap) == Get(t, "applications", EmptyMap);
    assert Get(t', "discovery", EmptyMap) == Get(t, "discovery", EmptyMap);
    assert Get(t', "autoreg", EmptyList) == EmptyList;
    assert forall k :: k != "autoreg" ==> Get(t', k, EmptyList) == Get(t, k, EmptyList);
    var share := AutoregCost(Get(t, "autoreg", EmptyList));
    assert share.Some?;
    assert HeadSize(t) == Ok(HeadSize(t').value + share.value);
  }

  /** A template with two triggers and one graph counts four work items. */
  lemma TriggersAndGraphsExample()
    ensures Size(map["triggers" := List([Scalar(Str("a")), Scalar(Str("b"))]),
                     "graphs" := List([Scalar(Str("c"))])]) == Ok(4)
  {
    var t := map["triggers" := List([Scalar(Str("a")), Scalar(Str("b"))]), "graphs" := List([Scalar(Str("c"))])];
    assert "applications" !in t && "discovery" !in t && "autoreg" !in t && "alert" !in t && "macros" !in t;
    assert HeadSize(t) == Ok(4);
  }

  /** Autoreg with no groups but metadata counts two; with two groups it counts three. */
  lemma AutoregExamples()
    ensures Size(map["autoreg" := Map(map["add_to_group" := EmptyList, "metadata" := Scalar(Str("x"))])]) == Ok(2)
    ensures Size(map["autoreg" := Map(map["add_to_group" := List([Scalar(Str("g1")), Scalar(Str("g2"))])])]) == Ok(3)
  {
    var t1 := map["autoreg" := Map(map["add_to_group" := EmptyList, "metadata" := Scalar(Str("x"))])];
    assert "applications" !in t1 && "discovery" !in t1 && "triggers" !in t1 && "graphs" !in t1;
    assert "alert" !in t1 && "macros" !in t1;
    var a1 := map["add_to_group" := EmptyList, "metadata" := Scalar(Str("x"))];
    assert "add_to_group" in a1 && a1 != map[];
    assert Get(a1, "add_to_group", EmptyList) == EmptyList;
    assert Truthy(Get(a1, "metadata", None_));
    assert AutoregCost(t1["autoreg"]) == Some(1);
    assert HeadSize(t1) == Ok(2);
    var t2 := map["autoreg" := Map(map["add_to_group" := List([Scalar(Str("g1")), Scalar(Str("g2"))])])];
    assert "applications" !in t2 && "discovery" !in t2 && "triggers" !in t2 && "graphs" !in t2;
    assert "alert" !in t2 && "macros" !in t2;
    var a2 := map["add_to_group" := List([Scalar(Str("g1")), Scalar(Str("g2"))])];
    assert "add_to_group" in a2 && a2 != map[];
    assert Len(Get(a2, "add_to_group", EmptyList)) == Some(2);
    assert AutoregCost(t2["autoreg"]) == Some(2);
    assert HeadSize(t2) == Ok(3);
  }
}
