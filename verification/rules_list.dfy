/** The rules list page: the search filter over its own table data, and the
    small state machine behind "Create Rule" (pick a type, fill the form,
    create). The table reads a fixed list, not the rule store; only creation
    goes through the store. */
module RulesList {
  import opened Base
  import opened Text
  import RuleStore

  /** A row of the list's table. */
  datatype ListRule = ListRule(
    key: string,
    id: string,
    name: string,
    description: string,
    version: string,
    author: string,
    stage: RuleStore.RuleStage,
    mappingCount: int,
    ruleType: RuleStore.RuleType)

  const ShortDescription := "This rule replaces \"\\\" with \"<br>\" ac..."

  /** The table data; note that several rows share an id. */
  const MockRules: seq<ListRule> := [
    ListRule("1", "70668", "Line Break Rule", ShortDescription, "1.3", "Madison Green", RuleStore.WIP, 0, RuleStore.Static),
    ListRule("2", "22739", "Season Order Date", ShortDescription, "2.8", "Michael Hall", RuleStore.Test, 0, RuleStore.Static),
    ListRule("3", "22739", "Color Concatenation", ShortDescription, "2.6", "Joseph Nelson", RuleStore.Pending, 0, RuleStore.Static),
    ListRule("4", "43756", "MSRP Decimal Rule", ShortDescription, "2.0", "Mia Collins", RuleStore.Production, 0, RuleStore.Static),
    ListRule("5", "39635", "Character Count Shrink Rule", ShortDescription, "7.5", "Ethan Miller", RuleStore.WIP, 0, RuleStore.Static),
    ListRule("6", "70668", "Exclusivity Rule", ShortDescription, "2.9", "Harper Adams", RuleStore.Test, 0, RuleStore.Static),
    ListRule("7", "43178", "PO Approval Date Conversion", ShortDescription, "2.7", "Charlotte Adams", RuleStore.Pending, 0, RuleStore.Static),
    ListRule("8", "43178", "Decimal to Binary Rule", ShortDescription, "4.0", "Amelia Martin", RuleStore.Production, 20, RuleStore.Dynamic),
    ListRule("9", "22739", "Create EAN 13 Barcode Rule", ShortDescription, "8.1", "Joseph White", RuleStore.Pending, 0, RuleStore.Static),
    ListRule("10", "97174", "GPM Text Style Conversion", ShortDescription, "1.0", "Matthew Turner", RuleStore.Production, 10, RuleStore.Static)
  ]

  /** The table data does not have unique ids. */
  lemma MockRulesShareIds()
    ensures MockRules[1].id == MockRules[2].id && MockRules[1] != MockRules[2]
  {
  }

  // ---------------------------------------------------------------------------
  // Search

  /** Name and description match case-insensitively, the id case-sensitively. */
  predicate Matches(rule: ListRule, query: string) {
    || Contains(Lower(rule.name), Lower(query))
    || Contains(rule.id, query)
    || Contains(Lower(rule.description), Lower(query))
  }

  /** `mockRules.filter(...)` over any list of rows. */
  function FilteredRules(rules: seq<ListRule>, query: string): (r: seq<ListRule>)
    ensures IsSubsequence(r, rules)
    ensures forall i :: 0 <= i < |r| ==> r[i] in rules && Matches(r[i], query)
    ensures forall i :: 0 <= i < |rules| && Matches(rules[i], query) ==> rules[i] in r
    ensures query == "" ==> r == rules
    ensures forall x: ListRule :: multiset(r)[x] == if Matches(x, query) then multiset(rules)[x] else 0
  {
    var keep := (x: ListRule) => Matches(x, query);
    FilterIsSubsequence(rules, keep);
    FilterCounts(rules, keep);
    Filter(rules, keep)
  }

  /** A row is kept exactly when the query occurs in its lower-cased name, its
      id, or its lower-cased description. */
  lemma FilteredRulesKeepIff(rules: seq<ListRule>, query: string, i: int)
    requires 0 <= i < |rules|
    ensures rules[i] in FilteredRules(rules, query) <==>
      || (exists k: nat :: OccursAt(Lower(rules[i].name), Lower(query), k))
      || (exists k: nat :: OccursAt(rules[i].id, query, k))
      || (exists k: nat :: OccursAt(Lower(rules[i].description), Lower(query), k))
  {
    ContainsSpec(Lower(rules[i].name), Lower(query));
    ContainsSpec(rules[i].id, query);
    ContainsSpec(Lower(rules[i].description), Lower(query));
  }

  /** Searching twice with the same query changes nothing the second time. */
  lemma FilteredRulesIdempotent(rules: seq<ListRule>, query: string)
    ensures FilteredRules(FilteredRules(rules, query), query) == FilteredRules(rules, query)
  {
  }

  // ---------------------------------------------------------------------------
  // The create flow

  datatype ListState = ListState(modalOpen: bool, selectedType: Option<RuleStore.RuleType>)

  const InitialListState := ListState(false, None)

  /** `handleMenuClick`: remember the chosen type and open the form. */
  function HandleMenuClick(s: ListState, key: RuleStore.RuleType): (r: ListState)
    ensures r.modalOpen && r.selectedType == Some(key)
  {
    ListState(true, Some(key))
  }

  /** `handleModalClose`: close the form and forget the type. */
  function HandleModalClose(s: ListState): (r: ListState)
    ensures !r.modalOpen && r.selectedType.None?
  {
    ListState(false, None)
  }

  /** Opening the form and closing it again returns to the initial state, whatever came before. */
  lemma MenuThenCloseResets(s: ListState, key: RuleStore.RuleType)
    ensures HandleModalClose(HandleMenuClick(s, key)) == InitialListState
  {
  }

  datatype CreateOutcome = CreateOutcome(state: ListState, store: seq<RuleStore.Rule>, navigateTo: Option<string>)

  /** `handleRuleCreate`: without a chosen type nothing happens; otherwise add
      the rule to the store as the current user's, close and reset the form, and
      navigate to the new rule's configuration page. */
  function HandleRuleCreate(s: ListState, store: seq<RuleStore.Rule>, name: string, description: string,
                            random: real, createdNow: string, updatedNow: string): (r: CreateOutcome)
    requires 0.0 <= random < 1.0
    ensures s.selectedType.None? ==> r == CreateOutcome(s, store, None)
    ensures s.selectedType.Some? ==>
      && |r.store| == |store| + 1
      && r.store[1..] == store
      && r.store[0].name == name && r.store[0].description == description
      && r.store[0].ruleType == s.selectedType.value
      && r.store[0].author == "Current User"
      && r.store[0].stage == RuleStore.WIP && r.store[0].version == "0.1"
      && r.state == InitialListState
      && r.navigateTo == Some("/rules/create/" + r.store[0].id)
  {
    match s.selectedType
    case None => CreateOutcome(s, store, None)
    case Some(t) =>
      var added := RuleStore.AddRule(store, RuleStore.NewRule(name, description, t, Some("Current User")), random, createdNow, updatedNow);
      assert added.store[1..] == store;
      CreateOutcome(ListState(false, None), added.store, Some("/rules/create/" + added.rule.id))
  }

  /** Choosing a type in the menu and submitting the form creates a rule of that type. */
  lemma MenuThenCreate(s: ListState, key: RuleStore.RuleType, store: seq<RuleStore.Rule>,
                       name: string, description: string, random: real, createdNow: string, updatedNow: string)
    requires 0.0 <= random < 1.0
    ensures var r := HandleRuleCreate(HandleMenuClick(s, key), store, name, description, random, createdNow, updatedNow);
      && r.store[0].ruleType == key
      && RuleStore.GetRuleById(r.store, r.store[0].id) == Some(r.store[0])
  {
    var r := HandleRuleCreate(HandleMenuClick(s, key), store, name, description, random, createdNow, updatedNow);
    assert RuleStore.IsFirstMatch(r.store, r.store[0].id, 0);
  }
}
