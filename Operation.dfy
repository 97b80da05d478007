/**
 * An operator instance (Operation): a private copy of its node, and Init,
 * which binds the node's inputs and outputs to tensors of the workspace.
 *
 * A tensor is referred to by its workspace name: the workspace holds one
 * tensor per name and Init never rebinds a name, so the name identifies the
 * tensor object the C++ code holds a pointer to.
 */
module Operations {
  import opened Outcomes
  import opened MaceTypes
  import opened OperatorDefs

  /** What Init reads and writes of a tensor: its data type and its configured shape ([] until set). */
  datatype TensorRec = TensorRec(dtype: DataType, shapeConfigured: seq<int>)

  type TensorMap = map<string, TensorRec>

  /** The workspace, the name-keyed tensor store. */
  class Workspace {
    var tensors: TensorMap

    constructor (tensors: TensorMap)
      ensures this.tensors == tensors
    {
      this.tensors := tensors;
    }
  }

  /** The output-type list is absent or has one entry per output. */
  predicate TypeListConsistent(def: OperatorDef) {
    |def.outputTypes| == 0 || |def.outputTypes| == |def.outputs|
  }

  /** The data type of a new tensor for output `i`: its declared type if there is one, else the node's "T". */
  function OutputType(def: OperatorDef, i: nat): DataType {
    if i < |def.outputTypes| then def.outputTypes[i] else DataTypeArg(def)
  }

  /** The tensor Init creates for output `i`, with its configured shape when one is declared. */
  function NewOutputTensor(def: OperatorDef, i: nat): TensorRec {
    TensorRec(OutputType(def, i), if i < |def.outputShapes| then def.outputShapes[i] else [])
  }

  /** Every input of the node names a tensor of the workspace. */
  predicate InputsPresent(def: OperatorDef, tensors: TensorMap) {
    forall j :: 0 <= j < |def.inputs| ==> def.inputs[j] in tensors
  }

  /**
   * The workspace after handling outputs i, i+1, ... in order: an output
   * whose name is present is bound as is; otherwise the type-list check
   * runs and a new tensor is created.
   */
  function BindOutputsFrom(def: OperatorDef, tensors: TensorMap, i: nat): Outcome<TensorMap>
    requires i <= |def.outputs|
    decreases |def.outputs| - i
  {
    if i == |def.outputs| then Ok(tensors)
    else
      var name := def.outputs[i];
      if name in tensors then BindOutputsFrom(def, tensors, i + 1)
      else if !TypeListConsistent(def) then Fatal("operator output size != operator output type size")
      else BindOutputsFrom(def, tensors[name := NewOutputTensor(def, i)], i + 1)
  }

  /** The workspace after Operation::Init: inputs resolved first, then the outputs. */
  function InitSpec(def: OperatorDef, tensors: TensorMap): Outcome<TensorMap> {
    if !InputsPresent(def, tensors) then Fatal("Encountered a non-existing input tensor")
    else BindOutputsFrom(def, tensors, 0)
  }

  /** Output `i` is the first occurrence of its name among outputs k, ..., i. */
  predicate FirstFrom(outputs: seq<string>, k: nat, i: nat)
    requires k <= i < |outputs|
  {
    forall j :: k <= j < i ==> outputs[j] != outputs[i]
  }

  lemma {:induction false} BindFailsIff(def: OperatorDef, tensors: TensorMap, k: nat)
    requires k <= |def.outputs|
    ensures BindOutputsFrom(def, tensors, k).Fatal? <==>
              !TypeListConsistent(def) && exists i :: k <= i < |def.outputs| && def.outputs[i] !in tensors
    decreases |def.outputs| - k
  {
    if k < |def.outputs| {
      var name := def.outputs[k];
      if name in tensors {
        BindFailsIff(def, tensors, k + 1);
      } else if TypeListConsistent(def) {
        BindFailsIff(def, tensors[name := NewOutputTensor(def, k)], k + 1);
      }
    }
  }

  lemma {:induction false} BindKeepsExisting(def: OperatorDef, tensors: TensorMap, k: nat)
    requires k <= |def.outputs|
    ensures var r := BindOutputsFrom(def, tensors, k);
            r.Ok? ==> forall n :: n in tensors ==> n in r.value && r.value[n] == tensors[n]
    decreases |def.outputs| - k
  {
    if k < |def.outputs| {
      var name := def.outputs[k];
      if name in tensors {
        BindKeepsExisting(def, tensors, k + 1);
      } else if TypeListConsistent(def) {
        BindKeepsExisting(def, tensors[name := NewOutputTensor(def, k)], k + 1);
      }
    }
  }

  lemma {:induction false} BindKeys(def: OperatorDef, tensors: TensorMap, k: nat)
    requires k <= |def.outputs|
    ensures var r := BindOutputsFrom(def, tensors, k);
            r.Ok? ==> forall n :: n in r.value <==> n in tensors || exists i :: k <= i < |def.outputs| && def.outputs[i] == n
    decreases |def.outputs| - k
  {
    if k < |def.outputs| {
      var name := def.outputs[k];
      if name in tensors {
        BindKeys(def, tensors, k + 1);
      } else if TypeListConsistent(def) {
        BindKeys(def, tensors[name := NewOutputTensor(def, k)], k + 1);
      }
    }
  }

  lemma {:induction false} BindCreates(def: OperatorDef, tensors: TensorMap, k: nat)
    requires k <= |def.outputs|
    ensures var r := BindOutputsFrom(def, tensors, k);
            r.Ok? ==>
              forall i :: k <= i < |def.outputs| && def.outputs[i] !in tensors && FirstFrom(def.outputs, k, i) ==>
                def.outputs[i] in r.value && r.value[def.outputs[i]] == NewOutputTensor(def, i)
    decreases |def.outputs| - k
  {
    if k < |def.outputs| {
      var name := def.outputs[k];
      if name in tensors {
        BindCreates(def, tensors, k + 1);
      } else if TypeListConsistent(def) {
        var next := tensors[name := NewOutputTensor(def, k)];
        BindCreates(def, next, k + 1);
        BindKeepsExisting(def, next, k + 1);
      }
    }
  }

  /**
   * Init fails exactly when an input is missing, or when the output-type
   * list is inconsistent and some output has to be created. The check's
   * condition does not depend on the output index, so it fires at the first
   * output that needs a tensor, before anything has been created.
   */
  lemma InitFailsIff(def: OperatorDef, tensors: TensorMap)
    ensures InitSpec(def, tensors).Fatal? <==>
              || !InputsPresent(def, tensors)
              || (!TypeListConsistent(def) && exists i :: 0 <= i < |def.outputs| && def.outputs[i] !in tensors)
  {
    BindFailsIff(def, tensors, 0);
  }

  /**
   * A successful Init adds exactly the output names that were missing,
   * leaves every tensor already in the workspace as it was (an output bound
   * to one is neither recreated nor type-checked), and gives the tensor
   * created for the first occurrence of a missing name the type and the
   * configured shape declared for that output.
   */
  lemma InitBindsOutputs(def: OperatorDef, tensors: TensorMap)
    ensures var r := InitSpec(def, tensors);
            r.Ok? ==>
              && (forall n :: n in r.value <==> n in tensors || n in def.outputs)
              && (forall n :: n in tensors ==> r.value[n] == tensors[n])
              && (forall i :: 0 <= i < |def.outputs| && def.outputs[i] !in tensors && FirstFrom(def.outputs, 0, i) ==>
                    && r.value[def.outputs[i]].dtype == OutputType(def, i)
                    && r.value[def.outputs[i]].shapeConfigured == (if i < |def.outputShapes| then def.outputShapes[i] else []))
  {
    BindKeepsExisting(def, tensors, 0);
    BindKeys(def, tensors, 0);
    BindCreates(def, tensors, 0);
  }

  /**
   * A node with three outputs and a one-entry output-type list: Init is
   * fatal on an empty workspace, but succeeds, creating nothing, when all
   * three outputs already exist, since the check runs only on creation.
   */
  lemma TypeListMismatchExample(t: TensorRec)
    ensures var def := OperatorDef("n", "Op", [], ["a", "b", "c"], [DT_FLOAT], [], map[]);
            && InitSpec(def, map[]).Fatal?
            && InitSpec(def, map["a" := t, "b" := t, "c" := t]) == Ok(map["a" := t, "b" := t, "c" := t])
  {
    var def := OperatorDef("n", "Op", [], ["a", "b", "c"], [DT_FLOAT], [], map[]);
    var empty: TensorMap := map[];
    InitFailsIff(def, empty);
    assert def.outputs[0] !in empty;
    var full := map["a" := t, "b" := t, "c" := t];
    assert BindOutputsFrom(def, full, 2) == Ok(full);
    assert BindOutputsFrom(def, full, 0) == BindOutputsFrom(def, full, 1) == BindOutputsFrom(def, full, 2);
  }

  /** Operation: the node it was built from, and the tensors its inputs and outputs are bound to. */
  class Operation {
    const operatorDef: OperatorDef
    var inputs: seq<string>
    var outputs: seq<string>

    /** Operation::Operation keeps its own copy of the node. */
    constructor (def: OperatorDef)
      ensures operatorDef == def && inputs == [] && outputs == []
    {
      operatorDef := def;
      inputs := [];
      outputs := [];
    }

    /**
     * Operation::Init. On success the workspace is InitSpec's and each input
     * and output slot, in declared order, is bound to the tensor of its name;
     * on failure no tensor has been created.
     */
    method Init(ws: Workspace) returns (status: Outcome<()>)
      modifies this, ws
      ensures var spec := InitSpec(operatorDef, old(ws.tensors));
              && (status.Ok? <==> spec.Ok?)
              && (spec.Ok? ==>
                    && ws.tensors == spec.value
                    && inputs == old(inputs) + operatorDef.inputs
                    && outputs == old(outputs) + operatorDef.outputs)
              && (status.Fatal? ==> ws.tensors == old(ws.tensors))
    {
      status := BindInputs(ws);
      if status.Ok? {
        status := BindOutputs(ws);
      }
    }

    /** The input loop of Init: each input name must be in the workspace, and is appended in order. */
    method BindInputs(ws: Workspace) returns (status: Outcome<()>)
      modifies this`inputs
      ensures status.Ok? <==> InputsPresent(operatorDef, ws.tensors)
      ensures status.Ok? ==> inputs == old(inputs) + operatorDef.inputs
    {
      var def := operatorDef;
      for k := 0 to |def.inputs|
        invariant inputs == old(inputs) + def.inputs[..k]
        invariant forall j :: 0 <= j < k ==> def.inputs[j] in ws.tensors
      {
        var name := def.inputs[k];
        if name !in ws.tensors {
          return Fatal("op " + def.opType + ": Encountered a non-existing input tensor: " + name);
        }
        inputs := inputs + [name];
      }
      assert def.inputs[..|def.inputs|] == def.inputs;
      status := Success;
    }

    /** The output loop of Init: bind each output name, creating the missing ones. */
    method BindOutputs(ws: Workspace) returns (status: Outcome<()>)
      modifies this`outputs, ws
      ensures var spec := BindOutputsFrom(operatorDef, old(ws.tensors), 0);
              && (status.Ok? <==> spec.Ok?)
              && (spec.Ok? ==> ws.tensors == spec.value && outputs == old(outputs) + operatorDef.outputs)
              && (status.Fatal? ==> ws.tensors == old(ws.tensors))
    {
      var def := operatorDef;
      for i := 0 to |def.outputs|
        invariant outputs == old(outputs) + def.outputs[..i]
        invariant BindOutputsFrom(def, ws.tensors, i) == BindOutputsFrom(def, old(ws.tensors), 0)
        invariant !TypeListConsistent(def) ==> ws.tensors == old(ws.tensors)
      {
        var name := def.outputs[i];
        if name !in ws.tensors {
          if !TypeListConsistent(def) {
            return Fatal("operator output size != operator output type size");
          }
          CreateOutput(ws, i);
        }
        outputs := outputs + [name];
        assert def.outputs[..i + 1] == def.outputs[..i] + [name];
      }
      assert def.outputs[..|def.outputs|] == def.outputs;
      status := Success;
    }

    /** Creates the tensor of output `i`: typed, then given its configured shape when one is declared. */
    method CreateOutput(ws: Workspace, i: nat)
      requires i < |operatorDef.outputs|
      modifies ws
      ensures ws.tensors == old(ws.tensors)[operatorDef.outputs[i] := NewOutputTensor(operatorDef, i)]
    {
      var def := operatorDef;
      var name := def.outputs[i];
      var outputType: DataType;
      if i < |def.outputTypes| {
        outputType := def.outputTypes[i];
      } else {
        outputType := GetOptionalArg(def, "T", DT_FLOAT);
      }
      ws.tensors := ws.tensors[name := TensorRec(outputType, [])];
      if i < |def.outputShapes| {
        ws.tensors := ws.tensors[name := ws.tensors[name].(shapeConfigured := def.outputShapes[i])];
      }
    }
  }
}
