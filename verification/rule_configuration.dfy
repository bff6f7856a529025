/** Records shared by the configuration page and its cards: input parameters,
    function types and configuration steps. */
module RuleConfiguration {
  import opened Base

  /** `FunctionType`, where `NoFunction` stands for `null`. */
  datatype FunctionType =
    | FindReplace
    | Concatenate
    | DateFormat
    | Conditional
    | Subfunction
    | OutputStep
    | NoFunction

  /** The fields of a step's free-form configuration object that the cards read
      and write. An absent `outputVariable` is the empty string: only its
      truthiness and its value are ever consulted. */
  datatype StepConfig = StepConfig(kind: string, dataType: string, value: string, outputVariable: string)

  datatype ConfigurationStep = ConfigurationStep(
    id: string,
    stepType: FunctionType,
    subfunctionId: Option<int>,
    config: Option<StepConfig>)

  /** An input parameter as the configuration page builds it; `size` holds the
      field or parameter name the user types in. */
  datatype InputParameter = InputParameter(
    id: string,
    name: string,
    size: string,
    paramType: string,
    dataType: string)
}
