/** The rule-configuration page's editor state and its event handlers, each an
    atomic state-to-state function. Confirmation dialogs become a `confirmed`
    argument; `Date.now()` identifiers become parameters. */
module RuleEditor {
  import opened Base
  import opened Text
  import opened RuleConfiguration

  /** The three user-editable fields of an input parameter. */
  datatype Field = Size | Type | DataType

  /** Per-parameter "required" flags; an absent flag reads as false. */
  datatype FieldErrors = FieldErrors(typeMissing: bool, sizeMissing: bool, dataTypeMissing: bool)

  datatype Editor = Editor(
    params: seq<InputParameter>,
    errors: map<string, FieldErrors>,
    locked: bool,
    steps: seq<ConfigurationStep>,
    insertPosition: int,
    started: bool,
    modalOpen: bool)

  const InitialEditor := Editor(
    [InputParameter("1", "Input Parameter 1", "", "String", "String")],
    map[], false, [], -1, false, false)

  // ---------------------------------------------------------------------------
  // Ordinal names

  /** `` `Input Parameter ${n}` `` */
  function OrdinalName(n: nat): string {
    "Input Parameter " + ToDecimal(n)
  }

  /** Every parameter is named after its 1-based position. */
  predicate Numbered(ps: seq<InputParameter>) {
    forall i :: 0 <= i < |ps| ==> ps[i].name == OrdinalName(i + 1)
  }

  /** Distinct positions get distinct names, and no name is the literal "static". */
  lemma OrdinalNameInjective(a: nat, b: nat)
    ensures OrdinalName(a) == OrdinalName(b) <==> a == b
    ensures OrdinalName(a) != "static"
  {
    var prefix := "Input Parameter ";
    if OrdinalName(a) == OrdinalName(b) {
      assert ToDecimal(a) == OrdinalName(a)[|prefix|..];
      assert ToDecimal(b) == OrdinalName(b)[|prefix|..];
      ToDecimalInjective(a, b);
    }
    assert OrdinalName(a)[0] == 'I';
  }

  /** `renumberParameters`: rename every parameter after its position, touching nothing else. */
  function Renumber(ps: seq<InputParameter>): (r: seq<InputParameter>)
    ensures |r| == |ps| && Numbered(r)
    ensures forall i :: 0 <= i < |ps| ==> r[i] == ps[i].(name := r[i].name)
  {
    seq(|ps|, i requires 0 <= i < |ps| => ps[i].(name := OrdinalName(i + 1)))
  }

  /** Renumbering changes nothing exactly when the list is already numbered. */
  lemma RenumberFixpoint(ps: seq<InputParameter>)
    ensures Renumber(ps) == ps <==> Numbered(ps)
    ensures Renumber(Renumber(ps)) == Renumber(ps)
  {
    if Numbered(ps) {
      assert forall i :: 0 <= i < |ps| ==> Renumber(ps)[i] == ps[i];
    }
  }

  /** In a numbered list the names are pairwise distinct. */
  lemma NumberedNamesDistinct(ps: seq<InputParameter>, i: int, j: int)
    requires Numbered(ps)
    requires 0 <= i < |ps| && 0 <= j < |ps| && i != j
    ensures ps[i].name != ps[j].name
  {
    OrdinalNameInjective(i + 1, j + 1);
  }

  // ---------------------------------------------------------------------------
  // Parameter handlers

  /** The record `addInputParameter` appends. */
  function NewParameter(id: string, position: nat): InputParameter {
    InputParameter(id, OrdinalName(position), "", "String", "String")
  }

  /** `addInputParameter`: append a blank String parameter and renumber. The
      handler itself does not look at the lock. */
  function AddInputParameter(e: Editor, newId: string): (r: Editor)
    ensures |r.params| == |e.params| + 1 && Numbered(r.params)
    ensures forall i :: 0 <= i < |e.params| ==> r.params[i] == e.params[i].(name := OrdinalName(i + 1))
    ensures r.params[|e.params|] == InputParameter(newId, OrdinalName(|e.params| + 1), "", "String", "String")
    ensures r == e.(params := r.params)
  {
    e.(params := Renumber(e.params + [NewParameter(newId, |e.params| + 1)]))
  }

  /** On a numbered list, adding keeps every earlier parameter exactly as it was. */
  lemma AddKeepsNumberedPrefix(e: Editor, newId: string)
    requires Numbered(e.params)
    ensures AddInputParameter(e, newId).params[..|e.params|] == e.params
  {
  }

  function FieldOf(p: InputParameter, f: Field): string {
    match f
    case Size => p.size
    case Type => p.paramType
    case DataType => p.dataType
  }

  /** Set one field; everything else about the parameter stays. */
  function WithField(p: InputParameter, f: Field, value: string): (r: InputParameter)
    ensures FieldOf(r, f) == value
    ensures r.id == p.id && r.name == p.name
    ensures forall g: Field :: g != f ==> FieldOf(r, g) == FieldOf(p, g)
  {
    match f
    case Size => p.(size := value)
    case Type => p.(paramType := value)
    case DataType => p.(dataType := value)
  }

  function Flag(fe: FieldErrors, f: Field): bool {
    match f
    case Size => fe.sizeMissing
    case Type => fe.typeMissing
    case DataType => fe.dataTypeMissing
  }

  /** Lower one flag; the other two stay. */
  function ClearFlag(fe: FieldErrors, f: Field): (r: FieldErrors)
    ensures !Flag(r, f)
    ensures forall g: Field :: g != f ==> Flag(r, g) == Flag(fe, g)
  {
    match f
    case Size => fe.(sizeMissing := false)
    case Type => fe.(typeMissing := false)
    case DataType => fe.(dataTypeMissing := false)
  }

  /** `updateInputParameter(id, field, value)`: set one field of every parameter
      with that id, and clear that field's error flag if it was raised. */
  function UpdateInputParameter(e: Editor, id: string, field: Field, value: string): (r: Editor)
    ensures |r.params| == |e.params|
    ensures forall i :: 0 <= i < |e.params| && e.params[i].id != id ==> r.params[i] == e.params[i]
    ensures forall i :: 0 <= i < |e.params| && e.params[i].id == id ==>
      && FieldOf(r.params[i], field) == value
      && r.params[i].id == id && r.params[i].name == e.params[i].name
      && forall g: Field :: g != field ==> FieldOf(r.params[i], g) == FieldOf(e.params[i], g)
    ensures r.errors.Keys == e.errors.Keys
    ensures forall k, g: Field :: k in e.errors ==>
      Flag(r.errors[k], g) == (Flag(e.errors[k], g) && !(k == id && g == field))
    ensures r == e.(params := r.params, errors := r.errors)
  {
    var params := seq(|e.params|, i requires 0 <= i < |e.params| =>
      if e.params[i].id == id then WithField(e.params[i], field, value) else e.params[i]);
    var errors := if id in e.errors && Flag(e.errors[id], field)
      then e.errors[id := ClearFlag(e.errors[id], field)]
      else e.errors;
    e.(params := params, errors := errors)
  }

  /** `params.filter(param => param.id !== id)` */
  function WithoutId(ps: seq<InputParameter>, id: string): seq<InputParameter> {
    Filter(ps, OtherId(id))
  }

  function OtherId(id: string): InputParameter -> bool {
    (p: InputParameter) => p.id != id
  }

  /** `removeInputParameter(id)`: refused when only one parameter is left or the
      user cancels; otherwise drops every parameter with that id and renumbers. */
  function RemoveInputParameter(e: Editor, id: string, confirmed: bool): (r: Editor)
    ensures !(|e.params| > 1 && confirmed) ==> r == e
    ensures |e.params| > 1 && confirmed ==>
      && Numbered(r.params)
      && |r.params| <= |e.params|
      && (forall i :: 0 <= i < |r.params| ==> r.params[i].id != id)
      && |r.params| == |WithoutId(e.params, id)|
      && (forall i :: 0 <= i < |r.params| ==> r.params[i] == WithoutId(e.params, id)[i].(name := OrdinalName(i + 1)))
      && r == e.(params := r.params)
  {
    if |e.params| > 1 && confirmed then
      var kept := WithoutId(e.params, id);
      assert forall i :: 0 <= i < |kept| ==> kept[i].id != id;
      e.(params := Renumber(kept))
    else e
  }

  /** Removing an id no parameter carries leaves a numbered list exactly as it was. */
  lemma RemoveAbsentIdKeepsList(e: Editor, id: string, confirmed: bool)
    requires Numbered(e.params)
    requires forall i :: 0 <= i < |e.params| ==> e.params[i].id != id
    ensures RemoveInputParameter(e, id, confirmed) == e
  {
    RenumberFixpoint(e.params);
  }

  /** Whatever the ids, removal keeps every parameter with another id, every
      copy of it, in the original order, and renames the survivors by position. */
  lemma RemoveKeepsOthers(e: Editor, id: string)
    requires |e.params| > 1
    ensures var kept := WithoutId(e.params, id);
      && IsSubsequence(kept, e.params)
      && (forall x: InputParameter :: multiset(kept)[x] == if x.id != id then multiset(e.params)[x] else 0)
      && RemoveInputParameter(e, id, true).params == Renumber(kept)
  {
    FilterIsSubsequence(e.params, OtherId(id));
    FilterCounts(e.params, OtherId(id));
  }

  predicate DistinctParamIds(ps: seq<InputParameter>) {
    forall i, j :: 0 <= i < j < |ps| ==> ps[i].id != ps[j].id
  }

  /** With distinct ids, removing the parameter at position `k` shifts the later
      ones down by one and renames them; the earlier ones keep their names. */
  lemma RemoveAtPosition(e: Editor, k: int)
    requires DistinctParamIds(e.params) && Numbered(e.params)
    requires 0 <= k < |e.params| && |e.params| > 1
    ensures var r := RemoveInputParameter(e, e.params[k].id, true);
      && |r.params| == |e.params| - 1
      && r.params[..k] == e.params[..k]
      && forall i :: k <= i < |r.params| ==> r.params[i] == e.params[i + 1].(name := OrdinalName(i + 1))
  {
    OnlyOneWithId(e.params, k);
    WithoutIdAt(e.params, k);
    RenumberDropOne(e.params, k);
  }

  lemma OnlyOneWithId(ps: seq<InputParameter>, k: int)
    requires DistinctParamIds(ps) && 0 <= k < |ps|
    ensures forall i :: 0 <= i < |ps| && i != k ==> ps[i].id != ps[k].id
  {
    forall i | 0 <= i < |ps| && i != k ensures ps[i].id != ps[k].id {
      if i < k { assert ps[i].id != ps[k].id; } else { assert ps[k].id != ps[i].id; }
    }
  }

  /** Renumbering a numbered list with one entry taken out. */
  lemma RenumberDropOne(ps: seq<InputParameter>, k: int)
    requires Numbered(ps) && 0 <= k < |ps|
    ensures var r := Renumber(ps[..k] + ps[k + 1..]);
      && |r| == |ps| - 1
      && r[..k] == ps[..k]
      && forall i :: k <= i < |r| ==> r[i] == ps[i + 1].(name := OrdinalName(i + 1))
  {
    var rest := ps[..k] + ps[k + 1..];
    var r := Renumber(rest);
    forall i | 0 <= i < |r|
      ensures i < k ==> r[i] == ps[i]
      ensures k <= i ==> r[i] == ps[i + 1].(name := OrdinalName(i + 1))
    {
      if i < k { assert rest[i] == ps[i]; } else { assert rest[i] == ps[i + 1]; }
    }
  }

  lemma WithoutIdAt(ps: seq<InputParameter>, k: int)
    requires 0 <= k < |ps|
    requires forall i :: 0 <= i < |ps| && i != k ==> ps[i].id != ps[k].id
    ensures WithoutId(ps, ps[k].id) == ps[..k] + ps[k + 1..]
  {
    var keep := OtherId(ps[k].id);
    forall i | 0 <= i < |ps| && i != k ensures keep(ps[i]) {
    }
    FilterDropsAt(ps, k, keep);
  }


  // ---------------------------------------------------------------------------
  // Validation and the lock

  /** The flags `handleStartConfiguration` computes for one parameter. */
  function ParamErrors(p: InputParameter): FieldErrors {
    FieldErrors(p.paramType == "", Trim(p.size) == "", p.dataType == "")
  }

  predicate HasError(fe: FieldErrors) {
    fe.typeMissing || fe.sizeMissing || fe.dataTypeMissing
  }

  predicate Invalid(p: InputParameter) {
    HasError(ParamErrors(p))
  }

  /** A parameter is invalid exactly when its type or data type is empty or its
      size is empty or whitespace only. */
  lemma InvalidIff(p: InputParameter)
    ensures Invalid(p) <==> p.paramType == "" || Blank(p.size) || p.dataType == ""
  {
    TrimEmptyIffBlank(p.size);
  }

  /** The error map built by the validation loop: parameters are visited in
      order, so a later parameter with the same id overwrites an earlier one. */
  /** `i` is the last position below `n` that holds an invalid parameter with id `k`. */
  predicate LastInvalidBefore(ps: seq<InputParameter>, n: int, k: string, i: int) {
    && 0 <= i < n <= |ps|
    && ps[i].id == k && Invalid(ps[i])
    && forall j :: i < j < n ==> ps[j].id != k || !Invalid(ps[j])
  }

  function ValidationErrors(ps: seq<InputParameter>): (r: map<string, FieldErrors>)
    ensures forall k :: k in r <==> exists i :: 0 <= i < |ps| && ps[i].id == k && Invalid(ps[i])
    ensures forall k :: k in r ==>
      HasError(r[k]) && exists i :: LastInvalidBefore(ps, |ps|, k, i) && r[k] == ParamErrors(ps[i])
  {
    if ps == [] then map[]
    else
      var m := ValidationErrors(ps[..|ps| - 1]);
      var p := ps[|ps| - 1];
      ValidationStep(ps, m);
      if Invalid(p) then m[p.id := ParamErrors(p)] else m
  }

  /** One step of `ValidationErrors`: recording the last parameter on top of a
      map that describes all the others gives a map that describes the whole
      list, the last parameter overwriting any earlier entry for its id. */
  lemma ValidationStep(ps: seq<InputParameter>, m: map<string, FieldErrors>)
    requires ps != []
    requires var init := ps[..|ps| - 1];
      && (forall k :: k in m <==> exists i :: 0 <= i < |init| && init[i].id == k && Invalid(init[i]))
      && (forall k :: k in m ==>
            HasError(m[k]) && exists i :: LastInvalidBefore(init, |init|, k, i) && m[k] == ParamErrors(init[i]))
    ensures var p := ps[|ps| - 1];
      var r := if Invalid(p) then m[p.id := ParamErrors(p)] else m;
      && (forall k :: k in r <==> exists i :: 0 <= i < |ps| && ps[i].id == k && Invalid(ps[i]))
      && (forall k :: k in r ==>
            HasError(r[k]) && exists i :: LastInvalidBefore(ps, |ps|, k, i) && r[k] == ParamErrors(ps[i]))
  {
    ValidationStepKeys(ps, m);
    ValidationStepEntries(ps, m);
  }

  lemma ValidationStepKeys(ps: seq<InputParameter>, m: map<string, FieldErrors>)
    requires ps != []
    requires var init := ps[..|ps| - 1];
      forall k :: k in m <==> exists i :: 0 <= i < |init| && init[i].id == k && Invalid(init[i])
    ensures var p := ps[|ps| - 1];
      var r := if Invalid(p) then m[p.id := ParamErrors(p)] else m;
      forall k :: k in r <==> exists i :: 0 <= i < |ps| && ps[i].id == k && Invalid(ps[i])
  {
    var n := |ps| - 1;
    var p := ps[n];
    var r := if Invalid(p) then m[p.id := ParamErrors(p)] else m;
    forall k | exists i :: 0 <= i < |ps| && ps[i].id == k && Invalid(ps[i])
      ensures k in r
    {
      var i :| 0 <= i < |ps| && ps[i].id == k && Invalid(ps[i]);
      if i < n { assert ps[..n][i] == ps[i]; }
    }
    forall k | k in r
      ensures exists i :: 0 <= i < |ps| && ps[i].id == k && Invalid(ps[i])
    {
      if !(Invalid(p) && k == p.id) {
        var i :| 0 <= i < n && ps[..n][i].id == k && Invalid(ps[..n][i]);
        assert ps[..n][i] == ps[i];
      }
    }
  }

  lemma ValidationStepEntries(ps: seq<InputParameter>, m: map<string, FieldErrors>)
    requires ps != []
    requires var init := ps[..|ps| - 1];
      forall k :: k in m ==>
        HasError(m[k]) && exists i :: LastInvalidBefore(init, |init|, k, i) && m[k] == ParamErrors(init[i])
    ensures var p := ps[|ps| - 1];
      var r := if Invalid(p) then m[p.id := ParamErrors(p)] else m;
      forall k :: k in r ==>
        HasError(r[k]) && exists i :: LastInvalidBefore(ps, |ps|, k, i) && r[k] == ParamErrors(ps[i])
  {
    var n := |ps| - 1;
    var p := ps[n];
    var r := if Invalid(p) then m[p.id := ParamErrors(p)] else m;
    forall k | k in r
      ensures HasError(r[k]) && exists i :: LastInvalidBefore(ps, |ps|, k, i) && r[k] == ParamErrors(ps[i])
    {
      if Invalid(p) && k == p.id {
        assert LastInvalidBefore(ps, |ps|, k, n) && r[k] == ParamErrors(ps[n]);
      } else {
        var i :| LastInvalidBefore(ps[..n], n, k, i) && m[k] == ParamErrors(ps[..n][i]);
        assert ps[..n][i] == ps[i];
        LastInvalidExtends(ps, n, k, i);
        assert LastInvalidBefore(ps, |ps|, k, i) && r[k] == ParamErrors(ps[i]);
      }
    }
  }

  /** A last invalid position of the prefix stays last when the next parameter
      does not carry the same id with a problem. */
  lemma LastInvalidExtends(ps: seq<InputParameter>, n: int, k: string, i: int)
    requires 0 <= n < |ps| && LastInvalidBefore(ps[..n], n, k, i)
    requires ps[n].id != k || !Invalid(ps[n])
    ensures LastInvalidBefore(ps, n + 1, k, i)
  {
    forall j | i < j < n + 1 ensures ps[j].id != k || !Invalid(ps[j]) {
      if j < n { assert ps[..n][j] == ps[j]; }
    }
    assert ps[..n][i] == ps[i];
  }

  /** With distinct ids, each invalid parameter's own flags are recorded. */
  lemma ValidationRecordsEachInvalid(ps: seq<InputParameter>, i: int)
    requires DistinctParamIds(ps)
    requires 0 <= i < |ps| && Invalid(ps[i])
    ensures ps[i].id in ValidationErrors(ps)
    ensures ValidationErrors(ps)[ps[i].id] == ParamErrors(ps[i])
  {
    var m := ValidationErrors(ps);
    var j :| 0 <= j < |ps| && ps[j].id == ps[i].id && m[ps[i].id] == ParamErrors(ps[j]);
    assert !(i < j) && !(j < i);
  }

  predicate AnyInvalid(ps: seq<InputParameter>) {
    exists i :: 0 <= i < |ps| && Invalid(ps[i])
  }

  /** `handleStartConfiguration`: on any invalid parameter, publish the error
      map and stop; otherwise, once confirmed, lock the parameters and open the
      function picker. Earlier flags are left as they were on success. */
  function StartConfiguration(e: Editor, confirmed: bool): (r: Editor)
    ensures AnyInvalid(e.params) ==>
      && r == e.(errors := r.errors)
      && r.errors == ValidationErrors(e.params)
      && (forall k :: k in r.errors <==> exists i :: 0 <= i < |e.params| && e.params[i].id == k && Invalid(e.params[i]))
    ensures !AnyInvalid(e.params) && confirmed ==> r == e.(locked := true, modalOpen := true)
    ensures !AnyInvalid(e.params) && !confirmed ==> r == e
    ensures r.locked <==> e.locked || (!AnyInvalid(e.params) && confirmed)
  {
    if AnyInvalid(e.params) then e.(errors := ValidationErrors(e.params))
    else if confirmed then e.(locked := true, modalOpen := true)
    else e
  }

  // ---------------------------------------------------------------------------
  // Steps

  function InsertAt<T>(s: seq<T>, k: nat, x: T): (r: seq<T>)
    requires k <= |s|
    ensures |r| == |s| + 1 && r[k] == x
    ensures r[..k] == s[..k] && r[k + 1..] == s[k..]
  {
    s[..k] + [x] + s[k..]
  }

  /** The index at which `handleFunctionSelect` places the new step. */
  function InsertIndex(insertPosition: int, len: nat): (k: nat)
    ensures k <= len
  {
    if 0 <= insertPosition <= len then RelativeIndex(insertPosition + 1, len) else len
  }

  /** `handleFunctionSelect`: insert a new step after the pending position (or
      append), consume the position, mark configuration started and close the picker. */
  function HandleFunctionSelect(e: Editor, ft: FunctionType, subfunctionId: Option<int>, stepId: string): (r: Editor)
    ensures |r.steps| == |e.steps| + 1
    ensures var k := if 0 <= e.insertPosition <= |e.steps| then
                       (if e.insertPosition + 1 <= |e.steps| then e.insertPosition + 1 else |e.steps|)
                     else |e.steps|;
      && r.steps[k] == ConfigurationStep(stepId, ft, subfunctionId, None)
      && r.steps[..k] + r.steps[k + 1..] == e.steps
    ensures r.insertPosition == -1 && r.started && !r.modalOpen
    ensures r == e.(steps := r.steps, insertPosition := -1, started := true, modalOpen := false)
  {
    var newStep := ConfigurationStep(stepId, ft, subfunctionId, None);
    var k := InsertIndex(e.insertPosition, |e.steps|);
    var steps := InsertAt(e.steps, k, newStep);
    assert steps[..k] + steps[k + 1..] == e.steps by {
      assert e.steps == e.steps[..k] + e.steps[k..];
    }
    e.(steps := steps, insertPosition := -1, started := true, modalOpen := false)
  }

  /** `handleAddStep(position)`: remember where to insert and open the picker. */
  function HandleAddStep(e: Editor, position: int): (r: Editor)
    ensures r.insertPosition == position && r.modalOpen
    ensures r == e.(insertPosition := position, modalOpen := true)
  {
    e.(insertPosition := position, modalOpen := true)
  }

  /** `handleCloseConfigModal`: close the picker; the pending position is kept. */
  function HandleCloseConfigModal(e: Editor): (r: Editor)
    ensures !r.modalOpen && r.insertPosition == e.insertPosition
    ensures r == e.(modalOpen := false)
  {
    e.(modalOpen := false)
  }

  /** Adding after the last step and then picking a function appends the new step. */
  lemma AddAfterLastAppends(e: Editor, ft: FunctionType, subfunctionId: Option<int>, stepId: string)
    requires |e.steps| > 0
    ensures HandleFunctionSelect(HandleAddStep(e, |e.steps| - 1), ft, subfunctionId, stepId).steps
         == e.steps + [ConfigurationStep(stepId, ft, subfunctionId, None)]
  {
  }

  /** Adding after step `p` and then picking a function puts the new step right after step `p`. */
  lemma AddAfterStep(e: Editor, p: int, ft: FunctionType, subfunctionId: Option<int>, stepId: string)
    requires 0 <= p < |e.steps|
    ensures var r := HandleFunctionSelect(HandleAddStep(e, p), ft, subfunctionId, stepId);
      && r.steps[p + 1] == ConfigurationStep(stepId, ft, subfunctionId, None)
      && r.steps[..p + 1] == e.steps[..p + 1]
      && r.steps[p + 2..] == e.steps[p + 1..]
  {
  }

  /** Closing the picker does not consume the pending position: a later pick
      still inserts where the cancelled request pointed. */
  lemma CancelKeepsPendingPosition(e: Editor, p: int, ft: FunctionType, subfunctionId: Option<int>, stepId: string)
    ensures HandleFunctionSelect(HandleCloseConfigModal(HandleAddStep(e, p)), ft, subfunctionId, stepId).steps
         == HandleFunctionSelect(HandleAddStep(e, p), ft, subfunctionId, stepId).steps
    ensures HandleCloseConfigModal(HandleAddStep(e, p)).insertPosition == p
  {
  }
}
