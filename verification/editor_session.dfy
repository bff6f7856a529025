/** The configuration page as a state machine over the events its controls can
    raise. The handlers in `RuleEditor` do not consult the lock or the step
    positions themselves; the page guards them by disabling or hiding controls,
    and `Enabled` records exactly those guards. */
module EditorSession {
  import opened Base
  import opened Text
  import opened RuleConfiguration
  import opened RuleEditor

  datatype Event =
    | AddParameter(newId: string)
    | UpdateParameter(id: string, field: Field, value: string)
    | RemoveParameter(id: string, confirmed: bool)
    | Start(confirmed: bool)
    | AddStep(position: int)
    | SelectFunction(ft: FunctionType, subfunctionId: Option<int>, stepId: string)
    | CloseConfigModal

  /** Whether the page offers the control that raises `ev`. */
  predicate Enabled(e: Editor, ev: Event) {
    match ev
    // "Add Parameter" and the three field inputs are disabled once locked
    case AddParameter(_) => !e.locked
    case UpdateParameter(id, _, _) => !e.locked && exists i :: 0 <= i < |e.params| && e.params[i].id == id
    // the remove button is rendered only with more than one parameter and no lock
    case RemoveParameter(id, _) => |e.params| > 1 && !e.locked && exists i :: 0 <= i < |e.params| && e.params[i].id == id
    // "Start" is disabled once configuration started or a step exists
    case Start(_) => !e.started && |e.steps| == 0
    // only the last step's "Add" button is enabled
    case AddStep(p) => |e.steps| > 0 && p == |e.steps| - 1
    // the function picker and its close button exist only while it is open
    case SelectFunction(_, _, _) => e.modalOpen
    case CloseConfigModal => e.modalOpen
  }

  function Apply(e: Editor, ev: Event): Editor {
    match ev
    case AddParameter(newId) => AddInputParameter(e, newId)
    case UpdateParameter(id, field, value) => UpdateInputParameter(e, id, field, value)
    case RemoveParameter(id, confirmed) => RemoveInputParameter(e, id, confirmed)
    case Start(confirmed) => StartConfiguration(e, confirmed)
    case AddStep(p) => HandleAddStep(e, p)
    case SelectFunction(ft, sub, stepId) => HandleFunctionSelect(e, ft, sub, stepId)
    case CloseConfigModal => HandleCloseConfigModal(e)
  }

  /** The events form a run the page allows from `e`. */
  predicate ValidRun(e: Editor, evs: seq<Event>)
    decreases |evs|
  {
    evs == [] || (Enabled(e, evs[0]) && ValidRun(Apply(e, evs[0]), evs[1..]))
  }

  function Run(e: Editor, evs: seq<Event>): Editor
    decreases |evs|
  {
    if evs == [] then e else Run(Apply(e, evs[0]), evs[1..])
  }

  /** What holds in every state the page can reach:
      parameters are numbered; the pending position is either consumed or
      points at the last step; steps exist exactly when configuration started;
      the picker is open or steps exist only after the parameters are locked. */
  predicate Inv(e: Editor) {
    && Numbered(e.params)
    && (e.insertPosition == -1 || e.insertPosition == |e.steps| - 1)
    && (e.started <==> |e.steps| > 0)
    && (e.modalOpen || e.started ==> e.locked)
  }

  lemma InitialInv()
    ensures Inv(InitialEditor)
  {
    assert ToDecimal(1) == "1";
  }

  /** Every enabled event keeps the invariant. */
  lemma InvPreserved(e: Editor, ev: Event)
    requires Inv(e) && Enabled(e, ev)
    ensures Inv(Apply(e, ev))
  {
    match ev
    case UpdateParameter(id, field, value) =>
      var r := UpdateInputParameter(e, id, field, value);
      assert forall i :: 0 <= i < |r.params| ==> r.params[i].name == e.params[i].name;
    case _ =>
  }

  /** Every state reached by a run the page allows satisfies the invariant. */
  lemma {:induction false} RunInv(e: Editor, evs: seq<Event>)
    requires Inv(e) && ValidRun(e, evs)
    ensures Inv(Run(e, evs))
    decreases |evs|
  {
    if evs != [] {
      InvPreserved(e, evs[0]);
      RunInv(Apply(e, evs[0]), evs[1..]);
    }
  }

  /** Every state the page can reach from its initial state satisfies the invariant. */
  lemma ReachableInv(evs: seq<Event>)
    requires ValidRun(InitialEditor, evs)
    ensures Inv(Run(InitialEditor, evs))
  {
    InitialInv();
    RunInv(InitialEditor, evs);
  }

  /** No event ever clears the lock, enabled or not. */
  lemma LockIsPermanent(e: Editor, ev: Event)
    requires e.locked
    ensures Apply(e, ev).locked
  {
  }

  /** The lock is only ever set by a confirmed start with every parameter valid. */
  lemma LockOnlyAfterValidConfirmedStart(e: Editor, ev: Event)
    requires !e.locked && Apply(e, ev).locked
    ensures ev.Start? && ev.confirmed && !AnyInvalid(e.params)
  {
  }

  /** Once locked, no event the page allows changes the parameters. */
  lemma {:induction false} LockedFreezesParameters(e: Editor, evs: seq<Event>)
    requires e.locked && ValidRun(e, evs)
    ensures Run(e, evs).params == e.params
    decreases |evs|
  {
    if evs != [] {
      LockIsPermanent(e, evs[0]);
      LockedFreezesParameters(Apply(e, evs[0]), evs[1..]);
    }
  }

  /** In a reachable state, picking a function always appends: the page only
      ever inserts after the last step. */
  lemma EnabledSelectAppends(e: Editor, ft: FunctionType, subfunctionId: Option<int>, stepId: string)
    requires Inv(e) && Enabled(e, SelectFunction(ft, subfunctionId, stepId))
    ensures Apply(e, SelectFunction(ft, subfunctionId, stepId)).steps
         == e.steps + [ConfigurationStep(stepId, ft, subfunctionId, None)]
  {
    var n := |e.steps|;
    assert e.insertPosition == -1 || e.insertPosition == n - 1;
    var r := HandleFunctionSelect(e, ft, subfunctionId, stepId);
    assert r.steps[..n] + r.steps[n + 1..] == e.steps;
    assert r.steps[n + 1..] == [];
    assert r.steps == r.steps[..n] + [r.steps[n]];
  }

  /** The handlers themselves ignore the lock: called directly on a locked
      editor, adding a parameter still grows the list. */
  lemma HandlersIgnoreLock()
    ensures var locked := InitialEditor.(locked := true);
      |AddInputParameter(locked, "2").params| == 2
  {
  }
}
