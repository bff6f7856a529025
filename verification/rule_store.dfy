/** The in-memory rule store: a list of rules, newest first, with lookup by
    identifier, prepend-on-create, merge-update of the first match,
    delete-all-matches and reset to the seed data. The module-level variable of
    the source becomes an explicit `seq<Rule>` threaded through every
    operation; clocks and the random source become parameters. */
module RuleStore {
  import opened Base
  import opened Text

  datatype RuleStage = WIP | Test | Pending | Production
  datatype RuleType = Static | Dynamic

  datatype ConditionKind = ContainsText | StartsWith | EndsWith | EqualsText | Regex | CharacterPosition | Length
  datatype ActionKind = Replace | Insert | Remove | Transform | Concatenate

  datatype RuleCondition = RuleCondition(kind: ConditionKind, value: string)
  datatype RuleAction = RuleAction(kind: ActionKind, value: string)
  datatype SubRule = SubRule(id: string, name: string, condition: RuleCondition, action: RuleAction, order: int)

  datatype Rule = Rule(
    id: string,
    name: string,
    description: string,
    version: string,
    author: string,
    stage: RuleStage,
    mappingCount: int,
    ruleType: RuleType,
    createdAt: string,
    updatedAt: string,
    subRules: Option<seq<SubRule>>)

  /** `Partial<Rule>`: every field may be present (`Some`) or absent (`None`). */
  datatype RulePatch = RulePatch(
    id: Option<string>,
    name: Option<string>,
    description: Option<string>,
    version: Option<string>,
    author: Option<string>,
    stage: Option<RuleStage>,
    mappingCount: Option<int>,
    ruleType: Option<RuleType>,
    createdAt: Option<string>,
    updatedAt: Option<string>,
    subRules: Option<Option<seq<SubRule>>>)

  const EmptyPatch := RulePatch(None, None, None, None, None, None, None, None, None, None, None)

  /** What `addRule` is given. */
  datatype NewRule = NewRule(name: string, description: string, ruleType: RuleType, author: Option<string>)

  datatype AddResult = AddResult(rule: Rule, store: seq<Rule>)
  datatype UpdateResult = UpdateResult(updated: Option<Rule>, store: seq<Rule>)
  datatype DeleteResult = DeleteResult(removed: bool, store: seq<Rule>)

  const DefaultAuthor := "Current User"

  // ---------------------------------------------------------------------------
  // Seed data

  const InitialRules: seq<Rule> := [
    Rule("70668", "Line Break Rule", "This rule replaces \"\\\" with \"<br>\" across all text fields",
         "1.3", "Madison Green", WIP, 0, Static, "2025-12-01T10:00:00Z", "2025-12-15T14:30:00Z", None),
    Rule("22739", "Season Order Date", "This rule extracts and formats season order dates",
         "2.8", "Michael Hall", Test, 0, Static, "2025-11-15T09:00:00Z", "2025-12-20T11:00:00Z", None),
    Rule("22740", "Color Concatenation", "This rule concatenates color codes with product identifiers",
         "2.6", "Joseph Nelson", Pending, 0, Static, "2025-11-10T08:00:00Z", "2025-12-18T16:00:00Z", None),
    Rule("43756", "MSRP Decimal Rule", "This rule formats MSRP values with proper decimal placement",
         "2.0", "Mia Collins", Production, 0, Static, "2025-10-01T12:00:00Z", "2025-11-30T10:00:00Z", None),
    Rule("39635", "Character Count Shrink Rule", "This rule shrinks text based on character count limits",
         "7.5", "Ethan Miller", WIP, 0, Static, "2025-09-15T14:00:00Z", "2025-12-22T09:00:00Z", None),
    Rule("70669", "Exclusivity Rule", "This rule handles exclusivity markers for products",
         "2.9", "Harper Adams", Test, 0, Static, "2025-08-20T11:00:00Z", "2025-12-10T15:00:00Z", None),
    Rule("43178", "PO Approval Date Conversion", "This rule converts PO approval dates to target format",
         "2.7", "Charlotte Adams", Pending, 0, Static, "2025-07-10T10:00:00Z", "2025-12-05T14:00:00Z", None),
    Rule("43179", "Decimal to Binary Rule", "This rule converts decimal values to binary representation",
         "4.0", "Amelia Martin", Production, 20, Dynamic, "2025-06-01T09:00:00Z", "2025-11-25T12:00:00Z", None),
    Rule("22741", "Create EAN 13 Barcode Rule", "This rule generates EAN 13 barcodes with check digits",
         "8.1", "Joseph White", Pending, 0, Static, "2025-05-15T08:00:00Z", "2025-12-01T11:00:00Z", None),
    Rule("97174", "GPM Text Style Conversion", "This rule applies GPM text style transformations",
         "1.0", "Matthew Turner", Production, 10, Static, "2025-04-01T10:00:00Z", "2025-10-15T14:00:00Z", None)
  ]

  predicate DistinctIds(store: seq<Rule>) {
    forall i, j :: 0 <= i < j < |store| ==> store[i].id != store[j].id
  }

  /** `i` is the position of the first rule whose id is `id`. */
  predicate IsFirstMatch(store: seq<Rule>, id: string, i: int) {
    0 <= i < |store| && store[i].id == id && forall j :: 0 <= j < i ==> store[j].id != id
  }

  predicate HasId(store: seq<Rule>, id: string) {
    exists i :: 0 <= i < |store| && store[i].id == id
  }

  // ---------------------------------------------------------------------------
  // Identifiers

  /** The shape of every generated identifier: five decimal digits, no leading
      zero, so a value in [10000, 99999]. */
  predicate IsGeneratedId(s: string) {
    |s| == 5 && AllDigits(s) && s[0] != '0' && 10000 <= DecimalValue(s) <= 99999
  }

  /** `Math.floor(10000 + Math.random() * 90000).toString()`, with the random
      draw passed in. Nothing compares the result with existing identifiers. */
  function GenerateId(random: real): (r: string)
    requires 0.0 <= random < 1.0
    ensures IsGeneratedId(r)
  {
    var n := (10000.0 + random * 90000.0).Floor;
    assert 10000 <= n <= 99999;
    DecimalRoundTrip(n);
    ToDecimalNoLeadingZero(n);
    ToDecimalFiveDigits(n);
    ToDecimal(n)
  }

  /** Every number in the range is produced by some draw. */
  lemma GenerateIdCoversRange(n: nat)
    requires 10000 <= n <= 99999
    ensures GenerateId((n - 10000) as real / 90000.0) == ToDecimal(n)
  {
    var random := (n - 10000) as real / 90000.0;
    assert random * 90000.0 == (n - 10000) as real;
    assert (10000.0 + random * 90000.0).Floor == n;
  }

  /** A draw can reproduce an identifier already in the seed data: the store
      does not guarantee unique identifiers. */
  lemma GeneratedIdMayCollide()
    ensures exists random: real :: 0.0 <= random < 1.0 && HasId(InitialRules, GenerateId(random))
  {
    var random := (70668 - 10000) as real / 90000.0;
    GenerateIdCoversRange(70668);
    assert ToDecimal(70668) == "70668";
    assert InitialRules[0].id == "70668";
  }

  // ---------------------------------------------------------------------------
  // Queries

  /** `getRules()`: a copy of the store; with value semantics the copy is the store itself. */
  function GetRules(store: seq<Rule>): (r: seq<Rule>)
    ensures |r| == |store| && forall i :: 0 <= i < |r| ==> r[i] == store[i]
  {
    store
  }

  /** `findIndex(rule => rule.id === id)`, with `None` for -1. */
  function FindIndex(store: seq<Rule>, id: string): (r: Option<nat>)
    ensures r.None? <==> !HasId(store, id)
    ensures r.Some? ==> IsFirstMatch(store, id, r.value)
  {
    if store == [] then None
    else if store[0].id == id then Some(0)
    else match FindIndex(store[1..], id)
      case None => None
      case Some(i) => Some(i + 1)
  }

  /** `getRuleById(id)`: the first rule with that id, or `undefined`. */
  function GetRuleById(store: seq<Rule>, id: string): (r: Option<Rule>)
    ensures r.None? <==> !HasId(store, id)
    ensures r.Some? ==> exists i :: IsFirstMatch(store, id, i) && r.value == store[i]
  {
    match FindIndex(store, id)
    case None => None
    case Some(i) => Some(store[i])
  }

  /** With distinct identifiers, looking up any stored rule's id finds that rule. */
  lemma DistinctIdsLookup(store: seq<Rule>, k: int)
    requires DistinctIds(store)
    requires 0 <= k < |store|
    ensures GetRuleById(store, store[k].id) == Some(store[k])
  {
    var r := GetRuleById(store, store[k].id);
    var i :| IsFirstMatch(store, store[k].id, i) && r.value == store[i];
    assert !(i < k) && !(k < i);
  }

  // ---------------------------------------------------------------------------
  // Create

  /** `ruleData.author || 'Current User'`: absent and empty both fall back. */
  function AuthorOrDefault(author: Option<string>): string {
    match author
    case Some(a) => if a != "" then a else DefaultAuthor
    case None => DefaultAuthor
  }

  /** `addRule`: build the new rule with its defaults and prepend it. The two
      timestamps are two separate reads of the clock, so they may differ. */
  function AddRule(store: seq<Rule>, data: NewRule, random: real, createdNow: string, updatedNow: string): (r: AddResult)
    requires 0.0 <= random < 1.0
    ensures |r.store| == |store| + 1
    ensures r.store[0] == r.rule
    ensures forall i :: 0 <= i < |store| ==> r.store[i + 1] == store[i]
    ensures IsGeneratedId(r.rule.id)
    ensures r.rule.name == data.name && r.rule.description == data.description
    ensures r.rule.ruleType == data.ruleType
    ensures r.rule.version == "0.1" && r.rule.stage == WIP
    ensures r.rule.mappingCount == 0 && r.rule.subRules == Some([])
    ensures r.rule.createdAt == createdNow && r.rule.updatedAt == updatedNow
    ensures (data.author.None? || data.author == Some("")) ==> r.rule.author == "Current User"
    ensures data.author.Some? && data.author.value != "" ==> r.rule.author == data.author.value
  {
    var rule := Rule(GenerateId(random), data.name, data.description, "0.1", AuthorOrDefault(data.author),
                     WIP, 0, data.ruleType, createdNow, updatedNow, Some([]));
    AddResult(rule, [rule] + store)
  }

  /** The new rule is found under its id, and it shadows no lookup of any other id. */
  lemma AddThenGet(store: seq<Rule>, data: NewRule, random: real, createdNow: string, updatedNow: string, other: string)
    requires 0.0 <= random < 1.0
    ensures var r := AddRule(store, data, random, createdNow, updatedNow);
      && GetRuleById(r.store, r.rule.id) == Some(r.rule)
      && (other != r.rule.id ==> GetRuleById(r.store, other) == GetRuleById(store, other))
  {
    var r := AddRule(store, data, random, createdNow, updatedNow);
    assert r.store[1..] == store;
  }

  // ---------------------------------------------------------------------------
  // Update

  /** `{ ...old, ...updates, updatedAt: now }` */
  function Merge(prev: Rule, patch: RulePatch, now: string): (r: Rule)
    ensures r.updatedAt == now
    ensures r.id == patch.id.GetOr(prev.id) && r.name == patch.name.GetOr(prev.name)
    ensures r.description == patch.description.GetOr(prev.description)
    ensures r.version == patch.version.GetOr(prev.version) && r.author == patch.author.GetOr(prev.author)
    ensures r.stage == patch.stage.GetOr(prev.stage) && r.mappingCount == patch.mappingCount.GetOr(prev.mappingCount)
    ensures r.ruleType == patch.ruleType.GetOr(prev.ruleType) && r.createdAt == patch.createdAt.GetOr(prev.createdAt)
    ensures r.subRules == patch.subRules.GetOr(prev.subRules)
  {
    var spread := Rule(
      patch.id.GetOr(prev.id), patch.name.GetOr(prev.name), patch.description.GetOr(prev.description),
      patch.version.GetOr(prev.version), patch.author.GetOr(prev.author), patch.stage.GetOr(prev.stage),
      patch.mappingCount.GetOr(prev.mappingCount), patch.ruleType.GetOr(prev.ruleType),
      patch.createdAt.GetOr(prev.createdAt), patch.updatedAt.GetOr(prev.updatedAt),
      patch.subRules.GetOr(prev.subRules));
    spread.(updatedAt := now)
  }

  /** Merging is idempotent, and an empty patch only refreshes the timestamp. */
  lemma MergeProperties(prev: Rule, patch: RulePatch, now: string)
    ensures Merge(Merge(prev, patch, now), patch, now) == Merge(prev, patch, now)
    ensures Merge(prev, EmptyPatch, now) == prev.(updatedAt := now)
  {
  }

  /** `updateRule(id, updates)`: merge into the first match, or `undefined` when there is none. */
  function UpdateRule(store: seq<Rule>, id: string, updates: RulePatch, now: string): (r: UpdateResult)
    ensures r.updated.None? <==> !HasId(store, id)
    ensures r.updated.None? ==> r.store == store
    ensures |r.store| == |store|
    ensures forall i :: IsFirstMatch(store, id, i) ==>
      && r.store[i] == Merge(store[i], updates, now)
      && r.updated == Some(r.store[i])
      && forall j :: 0 <= j < |store| && j != i ==> r.store[j] == store[j]
  {
    match FindIndex(store, id)
    case None => UpdateResult(None, store)
    case Some(i) =>
      var merged := Merge(store[i], updates, now);
      UpdateResult(Some(merged), store[i := merged])
  }

  /** When the patch keeps the identifier, a lookup afterwards sees the updated rule. */
  lemma UpdateThenGet(store: seq<Rule>, id: string, updates: RulePatch, now: string)
    requires updates.id.None? || updates.id == Some(id)
    ensures var r := UpdateRule(store, id, updates, now);
      GetRuleById(r.store, id) == r.updated
  {
    var r := UpdateRule(store, id, updates, now);
    if HasId(store, id) {
      var i := FindIndex(store, id).value;
      assert IsFirstMatch(r.store, id, i);
      var k := FindIndex(r.store, id).value;
      assert k == i by {
        assert !(k < i) && !(i < k);
      }
    }
  }

  // ---------------------------------------------------------------------------
  // Delete and reset

  /** `deleteRule(id)`: drop every rule with that id; true iff the store shrank. */
  function DeleteRule(store: seq<Rule>, id: string): (r: DeleteResult)
    ensures forall i :: 0 <= i < |r.store| ==> r.store[i] in store && r.store[i].id != id
    ensures forall i :: 0 <= i < |store| && store[i].id != id ==> store[i] in r.store
    ensures IsSubsequence(r.store, store)
    ensures r.removed <==> HasId(store, id)
    ensures !r.removed ==> r.store == store
    ensures forall x: Rule :: multiset(r.store)[x] == if x.id != id then multiset(store)[x] else 0
  {
    var keep := OtherRuleId(id);
    var kept := Filter(store, keep);
    FilterIsSubsequence(store, keep);
    FilterCounts(store, keep);
    DeleteResult(|kept| < |store|, kept)
  }

  /** The test `deleteRule` filters with: keep the rules whose id differs. */
  function OtherRuleId(id: string): Rule -> bool {
    (x: Rule) => x.id != id
  }

  /** Deleting one id leaves every lookup of another id as it was, and the deleted id is gone. */
  lemma DeleteThenGet(store: seq<Rule>, id: string, other: string)
    ensures GetRuleById(DeleteRule(store, id).store, id) == None
    ensures other != id ==> GetRuleById(DeleteRule(store, id).store, other) == GetRuleById(store, other)
  {
    FilterThenGet(store, id, other);
  }

  /** A lookup checks the first rule, then searches the rest. */
  lemma GetRuleByIdCons(store: seq<Rule>, id: string)
    requires store != []
    ensures GetRuleById(store, id) == if store[0].id == id then Some(store[0]) else GetRuleById(store[1..], id)
  {
    if store[0].id != id {
      match FindIndex(store[1..], id)
      case None =>
      case Some(i) => assert store[1..][i] == store[i + 1];
    }
  }

  lemma {:induction false} FilterThenGet(store: seq<Rule>, id: string, other: string)
    ensures GetRuleById(Filter(store, OtherRuleId(id)), id) == None
    ensures other != id ==> GetRuleById(Filter(store, OtherRuleId(id)), other) == GetRuleById(store, other)
    decreases |store|
  {
    if store != [] {
      var keep := OtherRuleId(id);
      var rest := Filter(store[1..], keep);
      FilterThenGet(store[1..], id, other);
      GetRuleByIdCons(store, id);
      GetRuleByIdCons(store, other);
      if store[0].id != id {
        assert Filter(store, keep) == [store[0]] + rest;
        assert ([store[0]] + rest)[1..] == rest;
        GetRuleByIdCons([store[0]] + rest, id);
        GetRuleByIdCons([store[0]] + rest, other);
      } else {
        assert Filter(store, keep) == rest;
      }
    }
  }


  /** `resetRules()`: the seed data again, whose identifiers are pairwise distinct. */
  function ResetRules(): (r: seq<Rule>)
    ensures |r| == 10 && DistinctIds(r)
    ensures forall i :: 0 <= i < |r| ==> GetRuleById(r, r[i].id) == Some(r[i])
  {
    InitialIdsDistinct();
    forall i | 0 <= i < |InitialRules| ensures GetRuleById(InitialRules, InitialRules[i].id) == Some(InitialRules[i]) {
      DistinctIdsLookup(InitialRules, i);
    }
    InitialRules
  }

  lemma InitialIdsDistinct()
    ensures DistinctIds(InitialRules)
  {
    var ids := ["70668", "22739", "22740", "43756", "39635", "70669", "43178", "43179", "22741", "97174"];
    assert forall i, j :: 0 <= i < j < |ids| ==> ids[i] != ids[j];
    assert forall i :: 0 <= i < |InitialRules| ==> InitialRules[i].id == ids[i];
  }
}
