/** The output card of a configuration step: which values it offers, how a
    selected value is classified, and the config update each control emits.
    A step may only refer to input parameters, a static literal, or the output
    variables of strictly earlier steps. */
module OutputCard {
  import opened Base
  import opened RuleConfiguration
  import opened RuleEditor

  /** `{ type: '', dataType: '', value: '' }` */
  const DefaultConfig := StepConfig("", "", "", "")

  /** `step.config || DefaultConfig` */
  function EffectiveConfig(step: ConfigurationStep): (r: StepConfig)
    ensures step.config.None? ==> r.kind == "" && r.dataType == "" && r.value == "" && r.outputVariable == ""
    ensures step.config.Some? ==> r == step.config.value
  {
    step.config.GetOr(DefaultConfig)
  }

  // ---------------------------------------------------------------------------
  // Classifying a selected value

  datatype ValueKind = StaticValue | InputParamValue | StepOutputValue

  /** The string the source stores in `config.type`. */
  function KindLabel(k: ValueKind): string {
    match k
    case StaticValue => "static"
    case InputParamValue => "inputParam"
    case StepOutputValue => "stepOutputVariable"
  }

  /** `inputParameters.some(p => p.name === value)` */
  function SomeNamed(params: seq<InputParameter>, value: string): bool {
    params != [] && (params[0].name == value || SomeNamed(params[1..], value))
  }

  lemma {:induction false} SomeNamedSpec(params: seq<InputParameter>, value: string)
    ensures SomeNamed(params, value) <==> exists i :: 0 <= i < |params| && params[i].name == value
  {
    if params != [] {
      SomeNamedSpec(params[1..], value);
      if exists i :: 0 <= i < |params| && params[i].name == value {
        var i :| 0 <= i < |params| && params[i].name == value;
        if i > 0 { assert params[1..][i - 1].name == value; }
      }
    }
  }

  /** The classification `handleValueChange` performs: the literal "static",
      else the name of some input parameter, else anything else (the empty
      placeholder included) counts as a step output variable. */
  function Classify(selected: string, params: seq<InputParameter>): (r: ValueKind)
    ensures r == StaticValue <==> selected == "static"
    ensures r == InputParamValue <==> selected != "static" && exists i :: 0 <= i < |params| && params[i].name == selected
    ensures r == StepOutputValue <==> selected != "static" && forall i :: 0 <= i < |params| ==> params[i].name != selected
  {
    SomeNamedSpec(params, selected);
    if selected == "static" then StaticValue
    else if SomeNamed(params, selected) then InputParamValue
    else StepOutputValue
  }

  // ---------------------------------------------------------------------------
  // Config updates

  /** What a card hands to `onConfigUpdate`. */
  datatype ConfigUpdate = ConfigUpdate(stepId: string, config: StepConfig)

  /** `handleValueChange`: record the selection and its kind; keep the data type. */
  function HandleValueChange(step: ConfigurationStep, params: seq<InputParameter>, selected: string): (r: ConfigUpdate)
    ensures r.stepId == step.id
    ensures r.config.value == selected
    ensures r.config.kind == KindLabel(Classify(selected, params))
    ensures r.config.dataType == EffectiveConfig(step).dataType
    ensures r.config.outputVariable == EffectiveConfig(step).outputVariable
  {
    var config := EffectiveConfig(step);
    ConfigUpdate(step.id, config.(kind := KindLabel(Classify(selected, params)), value := selected))
  }

  /** `handleDataTypeChange`: replace the data type; keep the kind and the value. */
  function HandleDataTypeChange(step: ConfigurationStep, dataType: string): (r: ConfigUpdate)
    ensures r.stepId == step.id
    ensures r.config.dataType == dataType
    ensures r.config.kind == EffectiveConfig(step).kind && r.config.value == EffectiveConfig(step).value
    ensures r.config.outputVariable == EffectiveConfig(step).outputVariable
  {
    ConfigUpdate(step.id, EffectiveConfig(step).(dataType := dataType))
  }

  /** The parent stores the emitted config on the step. */
  function Store(step: ConfigurationStep, u: ConfigUpdate): ConfigurationStep {
    step.(config := Some(u.config))
  }

  /** The two controls edit disjoint fields: applying them in either order gives the same step. */
  lemma ValueAndDataTypeCommute(step: ConfigurationStep, params: seq<InputParameter>, selected: string, dataType: string)
    ensures
      var a := Store(step, HandleValueChange(step, params, selected));
      var b := Store(step, HandleDataTypeChange(step, dataType));
      Store(a, HandleDataTypeChange(a, dataType)) == Store(b, HandleValueChange(b, params, selected))
  {
  }

  // ---------------------------------------------------------------------------
  // Output variables of earlier steps

  /** `s.type === 'subfunction' && s.config?.outputVariable` */
  predicate ProducesOutput(s: ConfigurationStep) {
    s.stepType == Subfunction && s.config.Some? && s.config.value.outputVariable != ""
  }

  function OutputOf(s: ConfigurationStep): string {
    match s.config
    case Some(c) => c.outputVariable
    case None => ""
  }

  function Outputs(producers: seq<ConfigurationStep>): (r: seq<string>)
    ensures |r| == |producers|
    ensures forall i :: 0 <= i < |producers| ==> r[i] == OutputOf(producers[i])
  {
    seq(|producers|, i requires 0 <= i < |producers| => OutputOf(producers[i]))
  }

  /** `previousOutputVariables`: the output variables of the subfunction steps
      before `stepIndex` that have one, in step order. */
  function PreviousOutputVariables(steps: seq<ConfigurationStep>, stepIndex: int): (r: seq<string>)
    ensures forall i :: 0 <= i < |r| ==> r[i] != ""
    ensures 0 <= stepIndex ==> forall v: string :: v in r <==>
      exists j :: 0 <= j < stepIndex && j < |steps| && ProducesOutput(steps[j]) && OutputOf(steps[j]) == v
  {
    var n := RelativeIndex(stepIndex, |steps|);
    ProducerOutputs(steps, n);
    Outputs(Filter(steps[..n], ProducesOutput))
  }

  lemma ProducerOutputs(steps: seq<ConfigurationStep>, n: nat)
    requires n <= |steps|
    ensures forall i :: 0 <= i < |Outputs(Filter(steps[..n], ProducesOutput))| ==>
      Outputs(Filter(steps[..n], ProducesOutput))[i] != ""
    ensures forall v: string :: v in Outputs(Filter(steps[..n], ProducesOutput)) <==>
      exists j :: 0 <= j < n && ProducesOutput(steps[j]) && OutputOf(steps[j]) == v
  {
    OutputsOfPrefix(steps, n);
    OutputsBeforeMembers(steps, n);
  }

  /** Reference definition: walk the first `n` steps in order, collecting each
      producer's output variable. */
  function OutputsBefore(steps: seq<ConfigurationStep>, n: nat): seq<string>
    requires n <= |steps|
  {
    if n == 0 then []
    else OutputsBefore(steps, n - 1) + (if ProducesOutput(steps[n - 1]) then [OutputOf(steps[n - 1])] else [])
  }

  /** The reference list holds exactly the non-empty output variables of the producers among the first `n` steps. */
  lemma {:induction false} OutputsBeforeMembers(steps: seq<ConfigurationStep>, n: nat)
    requires n <= |steps|
    ensures forall i :: 0 <= i < |OutputsBefore(steps, n)| ==> OutputsBefore(steps, n)[i] != ""
    ensures forall v: string :: v in OutputsBefore(steps, n) <==>
      exists j :: 0 <= j < n && ProducesOutput(steps[j]) && OutputOf(steps[j]) == v
  {
    if n > 0 {
      OutputsBeforeMembers(steps, n - 1);
      var prev := OutputsBefore(steps, n - 1);
      var last := steps[n - 1];
      var tail := if ProducesOutput(last) then [OutputOf(last)] else [];
      assert OutputsBefore(steps, n) == prev + tail;
      forall v: string
        ensures v in prev + tail <==> exists j :: 0 <= j < n && ProducesOutput(steps[j]) && OutputOf(steps[j]) == v
      {
        if v in tail {
          assert ProducesOutput(steps[n - 1]) && OutputOf(steps[n - 1]) == v;
        }
      }
    }
  }

  lemma {:induction false} OutputsOfPrefix(steps: seq<ConfigurationStep>, n: nat)
    requires n <= |steps|
    ensures Outputs(Filter(steps[..n], ProducesOutput)) == OutputsBefore(steps, n)
  {
    if n > 0 {
      var last := steps[n - 1];
      var a := Filter(steps[..n - 1], ProducesOutput);
      var b := Filter([last], ProducesOutput);
      calc {
        Outputs(Filter(steps[..n], ProducesOutput));
        { PrefixSnoc(steps, n); }
        Outputs(Filter(steps[..n - 1] + [last], ProducesOutput));
        { FilterConcat(steps[..n - 1], [last], ProducesOutput); }
        Outputs(a + b);
        { OutputsConcat(a, b); }
        Outputs(a) + Outputs(b);
        { OutputsOfPrefix(steps, n - 1);
          assert b == if ProducesOutput(last) then [last] else []; }
        OutputsBefore(steps, n - 1) + (if ProducesOutput(last) then [OutputOf(last)] else []);
      }
    }
  }

  lemma OutputsConcat(a: seq<ConfigurationStep>, b: seq<ConfigurationStep>)
    ensures Outputs(a + b) == Outputs(a) + Outputs(b)
  {
    assert forall i :: 0 <= i < |b| ==> (a + b)[|a| + i] == b[i];
  }

  /** The options list carries the outputs of the earlier steps exactly and in order. */
  lemma PreviousOutputsInOrder(steps: seq<ConfigurationStep>, stepIndex: nat)
    ensures stepIndex <= |steps| ==> PreviousOutputVariables(steps, stepIndex) == OutputsBefore(steps, stepIndex)
    ensures stepIndex > |steps| ==> PreviousOutputVariables(steps, stepIndex) == OutputsBefore(steps, |steps|)
  {
    OutputsOfPrefix(steps, RelativeIndex(stepIndex, |steps|));
  }

  /** What a step is offered depends only on the steps before it: changing the
      current step or any later one leaves the offered outputs unchanged. */
  lemma PreviousOutputsIgnoreLaterSteps(steps: seq<ConfigurationStep>, other: seq<ConfigurationStep>, stepIndex: nat)
    requires stepIndex <= |steps| && stepIndex <= |other|
    requires steps[..stepIndex] == other[..stepIndex]
    ensures PreviousOutputVariables(steps, stepIndex) == PreviousOutputVariables(other, stepIndex)
  {
    PreviousOutputsInOrder(steps, stepIndex);
    PreviousOutputsInOrder(other, stepIndex);
    OutputsBeforePrefix(steps, other, stepIndex);
  }

  lemma {:induction false} OutputsBeforePrefix(steps: seq<ConfigurationStep>, other: seq<ConfigurationStep>, n: nat)
    requires n <= |steps| && n <= |other|
    requires steps[..n] == other[..n]
    ensures OutputsBefore(steps, n) == OutputsBefore(other, n)
  {
    if n > 0 {
      assert steps[..n - 1] == steps[..n][..n - 1];
      assert other[..n - 1] == other[..n][..n - 1];
      assert steps[n - 1] == steps[..n][n - 1];
      assert other[n - 1] == other[..n][n - 1];
      OutputsBeforePrefix(steps, other, n - 1);
    }
  }

  // ---------------------------------------------------------------------------
  // The options of the value selector

  function ParamNames(params: seq<InputParameter>): (r: seq<string>)
    ensures |r| == |params| && forall i :: 0 <= i < |params| ==> r[i] == params[i].name
  {
    seq(|params|, i requires 0 <= i < |params| => params[i].name)
  }

  /** The option values of the selector, in display order: the empty
      placeholder, each input parameter's name, each earlier output variable,
      and "static". */
  function OfferedValues(params: seq<InputParameter>, steps: seq<ConfigurationStep>, stepIndex: int): (r: seq<string>)
    ensures |r| == |params| + |PreviousOutputVariables(steps, stepIndex)| + 2
    ensures r[0] == "" && r[|r| - 1] == "static"
    ensures forall i :: 0 <= i < |params| ==> r[i + 1] == params[i].name
    ensures r[|params| + 1..|r| - 1] == PreviousOutputVariables(steps, stepIndex)
  {
    var prev := PreviousOutputVariables(steps, stepIndex);
    var r := [""] + ParamNames(params) + prev + ["static"];
    assert r[|params| + 1..|r| - 1] == prev;
    r
  }

  /** With numbered parameters, each offered option classifies as what it is:
      parameter names as input parameters, "static" as static, the placeholder
      and any earlier output that is neither as a step output variable. */
  lemma OfferedValuesClassify(params: seq<InputParameter>, steps: seq<ConfigurationStep>, stepIndex: int)
    requires Numbered(params)
    ensures forall i :: 0 <= i < |params| ==> Classify(params[i].name, params) == InputParamValue
    ensures Classify("static", params) == StaticValue
    ensures Classify("", params) == StepOutputValue
    ensures forall v :: v in PreviousOutputVariables(steps, stepIndex) && v != "static" && v !in ParamNames(params) ==>
      Classify(v, params) == StepOutputValue
  {
    forall i | 0 <= i < |params| ensures params[i].name != "static" && params[i].name != "" {
      OrdinalNameInjective(i + 1, i + 1);
    }
  }
}
