/**
 * The node descriptor an operator is built from (OperatorDef) and the
 * optional-argument lookup the core uses on it.
 */
module OperatorDefs {
  import opened MaceTypes

  /**
   * One graph node: its name, operator type, input and output tensor names
   * in order, the optional per-output data types and configured shapes, and
   * the integer-valued named arguments.
   */
  datatype OperatorDef = OperatorDef(
    name: string,
    opType: string,
    inputs: seq<string>,
    outputs: seq<string>,
    outputTypes: seq<DataType>,
    outputShapes: seq<seq<int>>,
    args: map<string, int>)

  /** ProtoArgHelper::GetOptionalArg: the named argument, or `default` when it is absent. */
  function GetOptionalArg(def: OperatorDef, argName: string, default: int): int {
    if argName in def.args then def.args[argName] else default
  }

  /** The node's data type: argument "T", DT_FLOAT when absent. */
  function DataTypeArg(def: OperatorDef): DataType {
    GetOptionalArg(def, "T", DT_FLOAT)
  }

  /** The node's execution mode: argument "mode", NORMAL when absent. */
  function ModeArg(def: OperatorDef): NetMode {
    GetOptionalArg(def, "mode", NORMAL)
  }
}
