# Rule builder core, modelled in Dafny

This project models the logic behind a browser-based rule builder. The UI lists
"rules" (data-transformation definitions). It lets a user configure a rule as a
list of input parameters followed by an ordered pipeline of function steps.
Four pieces of the front-end carry real logic, and each is modelled as pure
functions over immutable records:

- **Rule store** (`rule_store.dfy`, module `RuleStore`). An in-memory list of
  rules, newest first. It supports lookup of the first match by id,
  prepend-on-create with a random five-digit id, merge-update of the first
  match, delete-all-matches, and reset to the seed data.
- **Configuration editor** (`rule_editor.dfy`, module `RuleEditor`). The
  configuration page's state `{params, errors, locked, steps, insertPosition,
  started, modalOpen}` and one function per event handler:
  - ordinal renaming of parameters;
  - required-field validation before the one-way lock;
  - step insertion after a pending position, with JavaScript's `splice` clamping.
- **Page session** (`editor_session.dfy`, module `EditorSession`). The page as
  a state machine over the events its enabled controls can raise. It carries
  the invariants that hold in every reachable state, such as "the parameters
  never change once locked" and "every insertion is an append".
- **Output card** (`output_card.dfy`, module `OutputCard`). It classifies a
  selected value as static, input parameter or step output variable. It also
  computes the output variables a step may refer to. These are exactly those
  of strictly earlier subfunction steps, in order.
- **Rules list** (`rules_list.dfy`, module `RulesList`). The case-insensitive
  search filter over the table rows, and the create-rule flow, which calls the
  store.

Shared pieces:

- `base.dfy` (module `Base`): `Option`, an order-preserving `Filter`, and
  `IsSubsequence`.
- `text.dfy` (module `Text`): JavaScript's `includes`, ASCII `toLowerCase`,
  `trim`, and the decimal rendering of integers.
- `rule_configuration.dfy`: the parameter and step records.

Modelling choices:

- Clocks (`Date.now()`, `new Date().toISOString()`) become string parameters.
- `Math.random()` becomes a `real` parameter in [0, 1).
- Confirmation dialogs become a `confirmed: bool` argument.
- Each React handler is one atomic state transition.

## Model

| member | source | states |
|---|---|---|
| `RuleStore.GenerateId` | src/data/rules.ts:167-169 | every generated id is five decimal digits with no leading zero, i.e. a number in [10000, 99999] |
| `RuleStore.GenerateIdCoversRange` | src/data/rules.ts:167-169 | every number in [10000, 99999] is produced by some random draw |
| `RuleStore.GeneratedIdMayCollide` | src/data/rules.ts:167-169 | some draw reproduces an id already in the seed data, so ids are not guaranteed unique |
| `RuleStore.GetRules` | src/data/rules.ts:172-174 | the returned copy has the store's length and the store's rule at every position |
| `RuleStore.FindIndex` | src/data/rules.ts:208 | not-found exactly when no rule has the id; otherwise the index of the first rule with that id |
| `RuleStore.GetRuleById` | src/data/rules.ts:177-179 | undefined exactly when no rule has the id; otherwise the rule at the first matching position |
| `RuleStore.DistinctIdsLookup` | src/data/rules.ts:177-179 | in a store with distinct ids, looking up any stored rule's id returns that rule |
| `RuleStore.AddRule` | src/data/rules.ts:182-204 | the new rule is prepended and every old rule follows in order; it has the given name, description and type, version "0.1", stage WIP, mapping count 0, empty sub-rules and a generated id; createdAt and updatedAt come from two separate clock reads; its author is "Current User" when the given author is absent or empty |
| `RuleStore.AddThenGet` | src/data/rules.ts:182-204 | after adding, the new id finds the new rule, and lookups of every other id are unchanged |
| `RuleStore.Merge` | src/data/rules.ts:211-215 | each field present in the patch overrides the old value, absent fields are kept, and updatedAt is always the new timestamp |
| `RuleStore.MergeProperties` | src/data/rules.ts:211-215 | merging the same patch twice equals merging once; an empty patch only refreshes updatedAt |
| `RuleStore.UpdateRule` | src/data/rules.ts:207-218 | returns undefined and leaves the store unchanged exactly when the id is absent; otherwise only the first match is replaced by the merge, the length is kept, and the merged rule is returned |
| `RuleStore.UpdateThenGet` | src/data/rules.ts:207-218 | when the patch keeps the id, a lookup afterwards returns what the update returned |
| `RuleStore.DeleteRule` | src/data/rules.ts:221-225 | the result is an order-preserving subsequence that keeps every copy of each rule with another id and no rule with this id; the result is true exactly when some rule had the id; nothing changes otherwise |
| `RuleStore.DeleteThenGet` | src/data/rules.ts:221-225 | after deleting, the id is not found, and lookups of every other id are unchanged |
| `RuleStore.FilterThenGet` | src/data/rules.ts:223 | filtering out one id hides that id from lookups and leaves the lookup of every other id unchanged |
| `RuleStore.GetRuleByIdCons` | src/data/rules.ts:177-179 | a lookup checks the first rule and otherwise searches the rest |
| `RuleStore.ResetRules` | src/data/rules.ts:228-230 | the store is the ten seed rules, with pairwise distinct ids, each found by its own id |
| `RuleStore.InitialIdsDistinct` | src/data/rules.ts:40-161 | the seed rules' ids are pairwise distinct |
| `Text.ContainsSpec` | src/components/rules/RulesList.tsx:98-100 | `includes` is true exactly when the needle occurs at some position of the haystack |
| `Text.Lower` | src/components/rules/RulesList.tsx:98 | lower-casing keeps the length and folds each ASCII capital to its small letter |
| `Text.LowerIdempotent` | src/components/rules/RulesList.tsx:98 | a lower-cased string has no ASCII capital, and lower-casing it again changes nothing |
| `Text.TrimEmptyIffBlank` | src/pages/rules/create.tsx:147 | a trimmed string is empty exactly when every character is JavaScript whitespace |
| `Text.DecimalRoundTrip` | src/data/rules.ts:168 | reading back the decimal rendering of a number gives the number |
| `Text.ToDecimalInjective` | src/pages/rules/create.tsx:82 | two numbers render the same exactly when they are equal |
| `Text.ToDecimalNoLeadingZero` | src/data/rules.ts:168 | a positive number renders without a leading zero |
| `Text.ToDecimalFiveDigits` | src/data/rules.ts:168 | numbers in [10000, 99999] render with exactly five characters |
| `Base.Filter` | src/components/rules/RulesList.tsx:97-101 | the result keeps exactly the elements that pass, never grows, and equals the input when every element passes |
| `Base.FilterCounts` | src/data/rules.ts:223 | filtering keeps every copy of each element that passes and none of those that fail: each value's count is its input count or zero |
| `Base.FilterIsSubsequence` | src/components/rules/RulesList.tsx:97-101 | filtering keeps the original order: the result is a subsequence of the input |
| `Base.FilterConcat` | src/components/rules/OutputCard.tsx:43-46 | filtering a concatenation is the concatenation of the filtered parts |
| `Base.FilterDropsAt` | src/pages/rules/create.tsx:127 | when only the element at one position fails the test, filtering removes exactly that element and keeps the rest in order |
| `RuleEditor.OrdinalNameInjective` | src/pages/rules/create.tsx:82 | different positions get different ordinal names, and no ordinal name is "static" |
| `RuleEditor.Renumber` | src/pages/rules/create.tsx:79-84 | keeps length, order, ids and every non-name field; the name at index i becomes "Input Parameter i+1" |
| `RuleEditor.RenumberFixpoint` | src/pages/rules/create.tsx:79-84 | renumbering changes nothing exactly when the list is already numbered, and it is idempotent |
| `RuleEditor.NumberedNamesDistinct` | src/pages/rules/create.tsx:79-84 | in a numbered list no two parameters share a name |
| `RuleEditor.AddInputParameter` | src/pages/rules/create.tsx:86-96 | the list grows by one; earlier parameters keep their ids and fields in order; the new last one has size "", type "String" and data type "String"; all names are ordinal; the rest of the editor is unchanged |
| `RuleEditor.AddKeepsNumberedPrefix` | src/pages/rules/create.tsx:86-96 | on a numbered list, adding leaves every existing parameter exactly as it was |
| `RuleEditor.WithField` | src/pages/rules/create.tsx:100 | `{ ...param, [field]: value }` sets the chosen field to the value and keeps the id, the name and the other two fields |
| `RuleEditor.ClearFlag` | src/pages/rules/create.tsx:104-111 | lowering one field's error flag leaves the other two flags as they were |
| `RuleEditor.UpdateInputParameter` | src/pages/rules/create.tsx:98-113 | only the named field of the parameters with that id changes; that field's error flag becomes false if it was set, and every other flag is untouched |
| `RuleEditor.RemoveInputParameter` | src/pages/rules/create.tsx:115-136 | no change with at most one parameter or without confirmation; otherwise the result is the filtered list, position by position, each survivor renamed after its new position; no parameter with that id remains and nothing else in the editor changes |
| `RuleEditor.RemoveKeepsOthers` | src/pages/rules/create.tsx:126-130 | for any ids, the survivors keep their order and every copy of each parameter with another id, and the new list is the renumbered survivors |
| `RuleEditor.RemoveAbsentIdKeepsList` | src/pages/rules/create.tsx:126-130 | removing an id no parameter carries leaves a numbered list unchanged |
| `RuleEditor.RemoveAtPosition` | src/pages/rules/create.tsx:126-130 | with distinct ids, removing the parameter at k shortens the list by one, keeps those before k as they were, and shifts the later ones down under new ordinal names |
| `RuleEditor.OnlyOneWithId` | src/pages/rules/create.tsx:127 | with distinct ids, no parameter other than the one at k carries its id |
| `RuleEditor.RenumberDropOne` | src/pages/rules/create.tsx:128-129 | renumbering a numbered list with one entry removed keeps the earlier names and gives each later entry the ordinal of its new position |
| `RuleEditor.WithoutIdAt` | src/pages/rules/create.tsx:127 | with distinct ids, filtering out the id at position k removes exactly that position |
| `RuleEditor.InvalidIff` | src/pages/rules/create.tsx:146-148 | a parameter is invalid exactly when its type is empty, its size is blank, or its data type is empty |
| `RuleEditor.ValidationErrors` | src/pages/rules/create.tsx:140-154 | an id is in the error map exactly when some parameter with that id is invalid; its entry, with at least one flag raised, is the flags of the last invalid parameter with that id, as the `forEach` assignment overwrites |
| `RuleEditor.ValidationStep` | src/pages/rules/create.tsx:143-151 | recording the last parameter on top of a map that describes the others gives a map that describes the whole list, later ids overwriting earlier ones |
| `RuleEditor.ValidationStepKeys` | src/pages/rules/create.tsx:143-151 | after one more `forEach` iteration, the map's keys are exactly the ids of the invalid parameters seen so far |
| `RuleEditor.ValidationStepEntries` | src/pages/rules/create.tsx:143-151 | after one more `forEach` iteration, each entry is the flags of the last invalid parameter seen so far with that id |
| `RuleEditor.LastInvalidExtends` | src/pages/rules/create.tsx:150 | the last invalid position for an id stays last when the next parameter does not overwrite that id |
| `RuleEditor.ValidationRecordsEachInvalid` | src/pages/rules/create.tsx:143-154 | with distinct ids, every invalid parameter's own flags are recorded under its id |
| `RuleEditor.StartConfiguration` | src/pages/rules/create.tsx:138-178 | any invalid parameter publishes exactly the validation map and changes nothing else; otherwise a confirmation locks and opens the picker, and a cancellation changes nothing; the lock is set iff it was set already or validation passed and the user confirmed |
| `RuleEditor.InsertAt` | src/pages/rules/create.tsx:194-196 | the element lands at index k, with the elements before and after k kept in order |
| `RuleEditor.HandleFunctionSelect` | src/pages/rules/create.tsx:186-206 | the step list grows by one and the old steps keep their order; the new step lands at min(p+1, len) when 0 <= p <= len and at the end otherwise; the position resets to -1, configuration is started and the picker closes |
| `RuleEditor.HandleAddStep` | src/pages/rules/create.tsx:208-211 | records the pending position and opens the picker, changing nothing else |
| `RuleEditor.HandleCloseConfigModal` | src/pages/rules/create.tsx:180-182 | closes the picker and keeps the pending position |
| `RuleEditor.AddAfterLastAppends` | src/pages/rules/create.tsx:194-200 | adding after the last step and picking a function appends the new step |
| `RuleEditor.AddAfterStep` | src/pages/rules/create.tsx:194-196 | adding after step p and picking a function puts the new step right after step p |
| `RuleEditor.CancelKeepsPendingPosition` | src/pages/rules/create.tsx:180-182 | closing the picker does not consume the pending position; a later pick still inserts there |
| `EditorSession.Enabled` | src/pages/rules/create.tsx:265-446 | the page's guards: parameter add and edit inputs are disabled once locked (lines 265, 285, 314, 330); remove is shown only with more than one parameter and no lock (344); Start is disabled once started or a step exists (371); only the last step's Add is enabled (401); the picker's choices and close exist only while it is open (446) |
| `EditorSession.InitialInv` | src/pages/rules/create.tsx:22-31 | the page's initial state satisfies the session invariant |
| `EditorSession.InvPreserved` | src/pages/rules/create.tsx:260-405 | every event whose control is enabled preserves four things: ordinal names, a pending position that is -1 or the last step, "started iff steps exist", and "picker open or started implies locked" |
| `EditorSession.RunInv` | src/pages/rules/create.tsx:260-405 | every run of enabled events from a state satisfying the invariant ends in such a state |
| `EditorSession.ReachableInv` | src/pages/rules/create.tsx:260-405 | every state reachable from the initial page state satisfies the invariant |
| `EditorSession.LockIsPermanent` | src/pages/rules/create.tsx:170-172 | no event clears the lock |
| `EditorSession.LockOnlyAfterValidConfirmedStart` | src/pages/rules/create.tsx:156-172 | only a confirmed start with all parameters valid sets the lock |
| `EditorSession.LockedFreezesParameters` | src/pages/rules/create.tsx:260-351 | once locked, no run of enabled events changes the parameters |
| `EditorSession.EnabledSelectAppends` | src/pages/rules/create.tsx:395-405 | in a reachable state, picking a function always appends the new step |
| `EditorSession.HandlersIgnoreLock` | src/pages/rules/create.tsx:86-96 | the add handler itself does not check the lock; only the disabled control guards it |
| `OutputCard.EffectiveConfig` | src/components/rules/OutputCard.tsx:14 | a step without config reads as type, dataType and value all empty; otherwise its own config |
| `OutputCard.SomeNamedSpec` | src/components/rules/OutputCard.tsx:22 | `some(p => p.name === v)` is true exactly when some parameter is named v |
| `OutputCard.Classify` | src/components/rules/OutputCard.tsx:17-26 | "static" classifies as static; otherwise a parameter's name classifies as an input parameter; anything else, including "", as a step output variable |
| `OutputCard.HandleValueChange` | src/components/rules/OutputCard.tsx:16-33 | emits the step's id and its config with the value and its classification replaced; data type and output variable are kept |
| `OutputCard.HandleDataTypeChange` | src/components/rules/OutputCard.tsx:35-40 | emits the step's id and its config with only the data type replaced |
| `OutputCard.ValueAndDataTypeCommute` | src/components/rules/OutputCard.tsx:28-40 | the two controls edit disjoint fields, so applying them in either order gives the same step |
| `OutputCard.PreviousOutputVariables` | src/components/rules/OutputCard.tsx:43-46 | every offered output is non-empty, and for a non-negative index a value is offered exactly when some subfunction step strictly before the index has it as its output variable |
| `OutputCard.PreviousOutputsInOrder` | src/components/rules/OutputCard.tsx:43-46 | the offered outputs are exactly those of the earlier producing steps, in step order |
| `OutputCard.OutputsOfPrefix` | src/components/rules/OutputCard.tsx:43-46 | filtering the first n steps and mapping to outputs agrees with the step-by-step reference walk |
| `OutputCard.OutputsBeforeMembers` | src/components/rules/OutputCard.tsx:43-46 | the reference list holds exactly the non-empty output variables of the producing steps before the cut |
| `OutputCard.OutputsConcat` | src/components/rules/OutputCard.tsx:46 | mapping steps to their output variables distributes over concatenation |
| `OutputCard.PreviousOutputsIgnoreLaterSteps` | src/components/rules/OutputCard.tsx:43-46 | the offered outputs depend only on the steps before the current one; the current and later steps never matter |
| `OutputCard.OfferedValues` | src/components/rules/OutputCard.tsx:75-82 | options appear in this order: the empty placeholder, each parameter name, each earlier output variable, then "static" |
| `OutputCard.OfferedValuesClassify` | src/components/rules/OutputCard.tsx:17-26 | with ordinal names, each parameter-name option classifies as an input parameter, "static" as static, and the placeholder as a step output variable; so does any earlier output that is neither a parameter name nor "static" |
| `RulesList.MockRulesShareIds` | src/components/rules/RulesList.tsx:26-27 | two different table rows carry the same id |
| `RulesList.FilteredRules` | src/components/rules/RulesList.tsx:97-101 | the result is an order-preserving subsequence that keeps every copy of each matching row and no other row; an empty query keeps every row |
| `RulesList.FilteredRulesKeepIff` | src/components/rules/RulesList.tsx:98-100 | a row is kept exactly when the lower-cased query occurs in its lower-cased name or description, or the raw query occurs in its id |
| `RulesList.FilteredRulesIdempotent` | src/components/rules/RulesList.tsx:97-101 | filtering twice with the same query equals filtering once |
| `RulesList.HandleMenuClick` | src/components/rules/RulesList.tsx:67-70 | opens the form with the chosen type selected |
| `RulesList.HandleModalClose` | src/components/rules/RulesList.tsx:72-75 | closes the form and clears the selected type |
| `RulesList.MenuThenCloseResets` | src/components/rules/RulesList.tsx:67-75 | opening and then closing the form returns to the initial state |
| `RulesList.HandleRuleCreate` | src/components/rules/RulesList.tsx:77-94 | with no type selected nothing changes and there is no navigation; otherwise a rule of the selected type by "Current User" is prepended to the store, the form closes and resets, and the page navigates to the new rule's path |
| `RulesList.MenuThenCreate` | src/components/rules/RulesList.tsx:67-89 | choosing a type and submitting creates a rule of that type that its id then finds |

## Where the code does less than its own text says

- **Unique ids.** `generateId` is headed "Generate unique ID"
  (src/data/rules.ts:166), but it draws a random number and never compares it
  with the store. `GeneratedIdMayCollide` shows a draw that reproduces a seed
  id.
- **The lock.** The start dialog tells the user that "input parameters will be
  locked and cannot be modified" (src/pages/rules/create.tsx:165). The add,
  update and remove handlers do not check the lock; only the page's disabled or
  hidden controls enforce it. The model keeps the handlers unguarded
  (`HandlersIgnoreLock`). It proves the dialog's promise for every run of
  events the page's enabled controls allow (`LockedFreezesParameters`).
- **The pending insert position.** `handleCloseConfigModal` only closes the
  picker, so a cancelled request leaves its position in place
  (`CancelKeepsPendingPosition`). Only the last step's Add button is enabled,
  so that position always points at the last step, and a later pick still
  appends (`EnabledSelectAppends`).
- **The parameter's name field.** The parameter's second field is `size`, as
  the configuration page uses it. The shared type declares `fieldName` instead.

## Left out

- Rendering is left out: JSX, antd components, styling, tooltips, pagination,
  the sidebar, the layout and routing. So is the accordion-key effect of the
  configuration page. The subfunction catalogue, the configuration-card
  component and the create-rule form are not part of this model.
- The list page navigates to `/rules/create/<id>` while the router declares
  `/rule/create/:id`. The model records the path the handler builds and does
  not model routing.
- The redirect to `/rules` for an unknown rule id on the configuration page is
  left out. It is routing, and it rests on `GetRuleById` returning not-found,
  which is modelled.
- React state scheduling is left out. Each handler is one atomic transition
  that reads the current state; stale closures are not modelled.
- Timestamps are opaque strings supplied by the caller. Step and parameter ids
  from `Date.now()` are caller-supplied strings that need not be distinct.
- Text.Lower: folds ASCII capitals only. JavaScript's `toLowerCase` also
  folds every other Unicode letter, so non-ASCII names and descriptions are
  compared case-sensitively by this model.
- RuleStore.Merge: a patch field that is present but explicitly `undefined`
  would overwrite the old value with `undefined` in JavaScript. The model has
  no such value, and a field is either present with a value or absent.
- RuleEditor.ValidationErrors: a data type that is absent (`undefined`) is
  modelled as the empty string; both fail the `!param.dataType` test the same
  way.
- Error flags are booleans where the source uses optional booleans. Only their
  truthiness is ever read.
- The output variable of a step's configuration is a string, where the source
  allows any value. The empty string stands for absent, and only its
  truthiness and its value are read.
- `mappingCount` is an unbounded integer; the source's `number` could also
  hold fractions, which nothing in this code produces.
