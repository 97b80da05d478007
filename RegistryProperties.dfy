/**
 * Properties of a whole registration pass: what the registry holds after a
 * sequence of Register calls, and what AvailableDevices and CreateOperation
 * answer against it.
 */
module RegistryProperties {
  import opened Outcomes
  import opened MaceTypes
  import opened OperatorDefs
  import opened OpKey
  import opened Registry

  /** One call Register(opType, device, dt, creator). */
  datatype Registration = Registration(opType: string, device: DeviceType, dt: DataType, creator: Creator)

  function KeyFor(g: Registration): string {
    Key(g.opType, g.device, g.dt)
  }

  /** The registry after registering `regs` in order into an empty one, or the first fatal check. */
  function RegisterAll(regs: seq<Registration>): Outcome<RegistryView>
    decreases |regs|
  {
    if |regs| == 0 then Ok(map[])
    else
      var g := regs[|regs| - 1];
      match RegisterAll(regs[..|regs| - 1])
      case Fatal(e) => Fatal(e)
      case Ok(reg) => RegisterSpec(reg, g.opType, g.device, g.dt, g.creator)
  }

  /** Two registrations of the same implementation variant (op type, device, data type). */
  predicate SameVariant(a: Registration, b: Registration) {
    a.opType == b.opType && a.device == b.device && a.dt == b.dt
  }

  /** No variant is registered twice. */
  predicate DistinctVariants(regs: seq<Registration>) {
    forall i, j :: 0 <= i < j < |regs| ==> !SameVariant(regs[i], regs[j])
  }

  /** Registration `g` provides exactly the variant (opType, device, dt). */
  predicate Provides(g: Registration, opType: string, device: DeviceType, dt: DataType) {
    g.opType == opType && g.device == device && g.dt == dt
  }

  /** The devices passed to Register for `opType`. */
  function DevicesOf(regs: seq<Registration>, opType: string): set<DeviceType> {
    set i | 0 <= i < |regs| && regs[i].opType == opType :: regs[i].device
  }

  /** Every op type in `reg` was registered. */
  ghost predicate OnlyRegisteredOps(reg: RegistryView, regs: seq<Registration>) {
    forall op :: op in reg ==> exists i :: 0 <= i < |regs| && regs[i].opType == op
  }

  /** Every registration's creator is filed under its key in its op type's record. */
  ghost predicate AllFiled(reg: RegistryView, regs: seq<Registration>) {
    forall i :: 0 <= i < |regs| ==>
      && regs[i].opType in reg
      && KeyFor(regs[i]) in reg[regs[i].opType].creators
      && reg[regs[i].opType].creators[KeyFor(regs[i])] == regs[i].creator
  }

  /** Each record's devices are the devices registered for its op type. */
  ghost predicate DevicesMatch(reg: RegistryView, regs: seq<Registration>) {
    forall op :: op in reg ==> reg[op].devices == DevicesOf(regs, op)
  }

  /** Every key in a record comes from a registration of that op type. */
  ghost predicate OnlyRegisteredKeys(reg: RegistryView, regs: seq<Registration>) {
    forall op, k :: op in reg && k in reg[op].creators ==>
      exists i :: 0 <= i < |regs| && regs[i].opType == op && KeyFor(regs[i]) == k
  }

  /** `reg` holds exactly what the registrations `regs` put there. */
  ghost predicate Describes(reg: RegistryView, regs: seq<Registration>) {
    && OnlyRegisteredOps(reg, regs)
    && AllFiled(reg, regs)
    && DevicesMatch(reg, regs)
    && OnlyRegisteredKeys(reg, regs)
  }

  /** The registry after registering the new variant `g` into `reg`. */
  function Added(reg: RegistryView, g: Registration): RegistryView {
    var rec := RecordOf(reg, g.opType);
    reg[g.opType := RegInfo(rec.devices + {g.device}, rec.creators[KeyFor(g) := g.creator])]
  }

  /** Within one op type, two registrations share a key exactly when they register the same variant. */
  lemma KeyForInjective(a: Registration, b: Registration)
    requires a.opType == b.opType
    ensures KeyFor(a) == KeyFor(b) <==> SameVariant(a, b)
  {
    KeyInjective(a.opType, a.device, a.dt, b.device, b.dt);
  }

  lemma DistinctAppend(regs: seq<Registration>, g: Registration)
    ensures DistinctVariants(regs + [g]) <==>
              DistinctVariants(regs) && forall i :: 0 <= i < |regs| ==> !SameVariant(regs[i], g)
  {
    var all := regs + [g];
    assert forall i :: 0 <= i < |regs| ==> all[i] == regs[i];
    assert all[|regs|] == g;
  }

  lemma DevicesOfAppend(regs: seq<Registration>, g: Registration, opType: string)
    ensures DevicesOf(regs + [g], opType) ==
              DevicesOf(regs, opType) + (if g.opType == opType then {g.device} else {})
  {
    var all := regs + [g];
    var extra: set<DeviceType> := if g.opType == opType then {g.device} else {};
    forall d | d in DevicesOf(all, opType)
      ensures d in DevicesOf(regs, opType) + extra
    {
      var i :| 0 <= i < |all| && all[i].opType == opType && all[i].device == d;
      if i < |regs| {
        assert all[i] == regs[i];
      }
    }
    forall d | d in DevicesOf(regs, opType)
      ensures d in DevicesOf(all, opType)
    {
      var i :| 0 <= i < |regs| && regs[i].opType == opType && regs[i].device == d;
      assert all[i] == regs[i];
    }
    if g.opType == opType {
      assert all[|regs|] == g;
    }
  }

  lemma OnlyRegisteredOpsStep(reg: RegistryView, regs: seq<Registration>, g: Registration)
    requires OnlyRegisteredOps(reg, regs)
    ensures OnlyRegisteredOps(Added(reg, g), regs + [g])
  {
    var all := regs + [g];
    forall op | op in Added(reg, g)
      ensures exists i :: 0 <= i < |all| && all[i].opType == op
    {
      if op == g.opType {
        assert all[|regs|] == g;
      } else {
        var i :| 0 <= i < |regs| && regs[i].opType == op;
        assert all[i] == regs[i];
      }
    }
  }

  lemma AllFiledStep(reg: RegistryView, regs: seq<Registration>, g: Registration)
    requires AllFiled(reg, regs)
    requires forall i :: 0 <= i < |regs| ==> !SameVariant(regs[i], g)
    ensures AllFiled(Added(reg, g), regs + [g])
  {
    var all, next := regs + [g], Added(reg, g);
    forall i | 0 <= i < |all|
      ensures && all[i].opType in next
              && KeyFor(all[i]) in next[all[i].opType].creators
              && next[all[i].opType].creators[KeyFor(all[i])] == all[i].creator
    {
      if i < |regs| {
        assert all[i] == regs[i];
        if regs[i].opType == g.opType {
          KeyForInjective(regs[i], g);
        }
      } else {
        assert all[i] == g;
      }
    }
  }

  lemma DevicesMatchStep(reg: RegistryView, regs: seq<Registration>, g: Registration)
    requires DevicesMatch(reg, regs) && AllFiled(reg, regs)
    ensures DevicesMatch(Added(reg, g), regs + [g])
  {
    forall op | op in Added(reg, g)
      ensures Added(reg, g)[op].devices == DevicesOf(regs + [g], op)
    {
      DevicesOfAppend(regs, g, op);
      if op == g.opType && op !in reg {
        assert forall i :: 0 <= i < |regs| ==> regs[i].opType != op;
        assert DevicesOf(regs, op) == {};
      }
    }
  }

  lemma OnlyRegisteredKeysStep(reg: RegistryView, regs: seq<Registration>, g: Registration)
    requires OnlyRegisteredKeys(reg, regs)
    ensures OnlyRegisteredKeys(Added(reg, g), regs + [g])
  {
    var all, next := regs + [g], Added(reg, g);
    forall op, k | op in next && k in next[op].creators
      ensures exists i :: 0 <= i < |all| && all[i].opType == op && KeyFor(all[i]) == k
    {
      if op == g.opType && k == KeyFor(g) {
        assert all[|regs|] == g;
      } else {
        var i :| 0 <= i < |regs| && regs[i].opType == op && KeyFor(regs[i]) == k;
        assert all[i] == regs[i];
      }
    }
  }

  /** Registering a variant that is new succeeds and keeps the description exact. */
  lemma DescribesStep(reg: RegistryView, regs: seq<Registration>, g: Registration)
    requires Describes(reg, regs)
    requires forall i :: 0 <= i < |regs| ==> !SameVariant(regs[i], g)
    ensures RegisterSpec(reg, g.opType, g.device, g.dt, g.creator) == Ok(Added(reg, g))
    ensures Describes(Added(reg, g), regs + [g])
  {
    assert KeyFor(g) !in RecordOf(reg, g.opType).creators by {
      if KeyFor(g) in RecordOf(reg, g.opType).creators {
        var i :| 0 <= i < |regs| && regs[i].opType == g.opType && KeyFor(regs[i]) == KeyFor(g);
        KeyForInjective(regs[i], g);
        assert false;
      }
    }
    OnlyRegisteredOpsStep(reg, regs, g);
    AllFiledStep(reg, regs, g);
    DevicesMatchStep(reg, regs, g);
    OnlyRegisteredKeysStep(reg, regs, g);
  }

  /** Registering a variant that is already registered trips the duplicate-key check. */
  lemma DuplicateStep(reg: RegistryView, regs: seq<Registration>, g: Registration, i: nat)
    requires AllFiled(reg, regs)
    requires i < |regs| && SameVariant(regs[i], g)
    ensures RegisterSpec(reg, g.opType, g.device, g.dt, g.creator).Fatal?
  {
    assert KeyFor(regs[i]) == KeyFor(g);
  }

  /** One more registration succeeds exactly when its variant is new, and then keeps the description exact. */
  lemma RegisterStep(reg: RegistryView, regs: seq<Registration>, g: Registration)
    requires Describes(reg, regs)
    ensures var r := RegisterSpec(reg, g.opType, g.device, g.dt, g.creator);
            && (r.Ok? <==> forall i :: 0 <= i < |regs| ==> !SameVariant(regs[i], g))
            && (r.Ok? ==> Describes(r.value, regs + [g]))
  {
    if forall i :: 0 <= i < |regs| ==> !SameVariant(regs[i], g) {
      DescribesStep(reg, regs, g);
    } else {
      var i :| 0 <= i < |regs| && SameVariant(regs[i], g);
      DuplicateStep(reg, regs, g, i);
    }
  }

  /**
   * A registration pass succeeds exactly when no variant is registered
   * twice (a repeated one trips the duplicate-key check), and then the
   * registry holds exactly what was registered.
   */
  lemma {:induction false} RegisterAllMeaning(regs: seq<Registration>)
    ensures RegisterAll(regs).Ok? <==> DistinctVariants(regs)
    ensures RegisterAll(regs).Ok? ==> Describes(RegisterAll(regs).value, regs)
    decreases |regs|
  {
    if |regs| > 0 {
      var prefix, g := regs[..|regs| - 1], regs[|regs| - 1];
      assert regs == prefix + [g];
      RegisterAllMeaning(prefix);
      DistinctAppend(prefix, g);
      if RegisterAll(prefix).Ok? {
        var reg := RegisterAll(prefix).value;
        assert RegisterAll(regs) == RegisterSpec(reg, g.opType, g.device, g.dt, g.creator);
        RegisterStep(reg, prefix, g);
      }
    }
  }

  /**
   * AvailableDevices after a registration pass: fatal for an op type that
   * was never registered, otherwise exactly the devices registered for it.
   */
  lemma DevicesAfterRegistration(regs: seq<Registration>, opType: string)
    requires DistinctVariants(regs)
    ensures RegisterAll(regs).Ok?
    ensures var r := AvailableDevicesSpec(RegisterAll(regs).value, opType);
            && (r.Fatal? <==> forall i :: 0 <= i < |regs| ==> regs[i].opType != opType)
            && (r.Ok? ==> r.value == DevicesOf(regs, opType))
  {
    RegisterAllMeaning(regs);
  }

  /**
   * CreateOperation after a registration pass, when the node's mode is the
   * requested one: fatal unless some registration provides exactly the
   * requested device and the node's "T" type (no fallback to another
   * device or type of the same op), and otherwise the invocation of that
   * registration's creator.
   */
  lemma CreateAfterRegistration(regs: seq<Registration>, def: OperatorDef, device: DeviceType, mode: NetMode)
    requires DistinctVariants(regs)
    requires ModeArg(def) == mode
    ensures RegisterAll(regs).Ok?
    ensures var r := CreateOperationSpec(RegisterAll(regs).value, def, device, mode);
            && (r.Fatal? <==> forall i :: 0 <= i < |regs| ==> !Provides(regs[i], def.opType, device, DataTypeArg(def)))
            && (forall i :: 0 <= i < |regs| && Provides(regs[i], def.opType, device, DataTypeArg(def)) ==>
                  r == Ok(Some(Invocation(regs[i].creator, def))))
  {
    RegisterAllMeaning(regs);
    var reg := RegisterAll(regs).value;
    var key := Key(def.opType, device, DataTypeArg(def));
    var wanted := Registration(def.opType, device, DataTypeArg(def), 0);
    if def.opType in reg && key in reg[def.opType].creators {
      var i :| 0 <= i < |regs| && regs[i].opType == def.opType && KeyFor(regs[i]) == key;
      KeyForInjective(regs[i], wanted);
    }
  }

  /** Two calls for kind "Conv" on CPU and on GPU leave exactly {CPU, GPU} available. */
  lemma DeviceCoverageExample()
    ensures var regs := [Registration("Conv", CPU, DT_FLOAT, 1), Registration("Conv", GPU, DT_FLOAT, 2)];
            RegisterAll(regs).Ok? && AvailableDevicesSpec(RegisterAll(regs).value, "Conv") == Ok({CPU, GPU})
  {
    var regs := [Registration("Conv", CPU, DT_FLOAT, 1), Registration("Conv", GPU, DT_FLOAT, 2)];
    DevicesAfterRegistration(regs, "Conv");
    assert regs[0].device == CPU && regs[1].device == GPU;
    assert DevicesOf(regs, "Conv") == {CPU, GPU};
  }

  /** A kind registered only for (CPU, DT_FLOAT) is fatal when a node asks for (CPU, DT_UINT8). */
  lemma StrictVariantExample(def: OperatorDef)
    requires def.opType == "Conv2D" && def.args == map["T" := DT_UINT8]
    ensures var regs := [Registration("Conv2D", CPU, DT_FLOAT, 1)];
            RegisterAll(regs).Ok? && CreateOperationSpec(RegisterAll(regs).value, def, CPU, NORMAL).Fatal?
  {
    var regs := [Registration("Conv2D", CPU, DT_FLOAT, 1)];
    CreateAfterRegistration(regs, def, CPU, NORMAL);
  }

  /**
   * A node tagged with mode INIT is skipped (None, not fatal) when building
   * for NORMAL, even though its exact variant is registered.
   */
  lemma ModeMismatchExample(def: OperatorDef)
    requires def.opType == "Conv2D" && def.args == map["mode" := INIT]
    ensures var regs := [Registration("Conv2D", CPU, DT_FLOAT, 1)];
            RegisterAll(regs).Ok? && CreateOperationSpec(RegisterAll(regs).value, def, CPU, NORMAL) == Ok(None)
  {
    RegisterAllMeaning([Registration("Conv2D", CPU, DT_FLOAT, 1)]);
  }
}
