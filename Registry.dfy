/**
 * The operator registry: per operator type, the devices it supports and the
 * creator registered under each key (OpRegistrationInfo), and the
 * process-wide table of those records (OpRegistryBase).
 *
 * The value-level functions `RegisterSpec`, `AvailableDevicesSpec` and
 * `CreateOperationSpec` state what the three registry operations do to, or
 * read from, the abstract table `RegistryView`; the classes below implement
 * them on objects updated in place.
 */
module Registry {
  import opened Outcomes
  import opened MaceTypes
  import opened OperatorDefs
  import OpKey

  /** An OpCreator, known only by identity: what it builds is not modelled. */
  type Creator = nat

  /** The result of calling creator `creator` on the construction context of `def`. */
  datatype Invocation = Invocation(creator: Creator, def: OperatorDef)

  /** The abstract contents of one OpRegistrationInfo. */
  datatype RegInfo = RegInfo(devices: set<DeviceType>, creators: map<string, Creator>)

  /** The abstract contents of the registry: op type to record. */
  type RegistryView = map<string, RegInfo>

  /** The record of `opType`, or the fresh empty record Register would create. */
  function RecordOf(reg: RegistryView, opType: string): RegInfo {
    if opType in reg then reg[opType] else RegInfo({}, map[])
  }

  /**
   * OpRegistryBase::Register on the abstract table: creates the record if
   * absent, adds the device and inserts the creator under the key, failing
   * when the key is already present.
   */
  function RegisterSpec(reg: RegistryView, opType: string, device: DeviceType, dt: DataType, creator: Creator)
    : Outcome<RegistryView>
  {
    var rec := RecordOf(reg, opType);
    var key := OpKey.Key(opType, device, dt);
    if key in rec.creators then Fatal("Key already registered: " + key)
    else Ok(reg[opType := RegInfo(rec.devices + {device}, rec.creators[key := creator])])
  }

  /**
   * What a registration does: it fails exactly when the key is already in
   * the op type's record; otherwise the op type is present, the device is
   * in its set, the creator is filed under the key, and every other record
   * and every other key of this record is unchanged.
   */
  lemma RegisterEffect(reg: RegistryView, opType: string, device: DeviceType, dt: DataType, creator: Creator)
    ensures var r := RegisterSpec(reg, opType, device, dt, creator);
            var rec := RecordOf(reg, opType);
            var key := OpKey.Key(opType, device, dt);
            && (r.Ok? <==> key !in rec.creators)
            && (r.Ok? ==>
                  && r.value.Keys == reg.Keys + {opType}
                  && (forall o :: o in reg && o != opType ==> r.value[o] == reg[o])
                  && r.value[opType].devices == rec.devices + {device}
                  && r.value[opType].creators.Keys == rec.creators.Keys + {key}
                  && r.value[opType].creators[key] == creator
                  && (forall k :: k in rec.creators && k != key ==> r.value[opType].creators[k] == rec.creators[k]))
  {
  }

  /** OpRegistryBase::AvailableDevices on the abstract table. */
  function AvailableDevicesSpec(reg: RegistryView, opType: string): Outcome<set<DeviceType>> {
    if opType in reg then Ok(reg[opType].devices)
    else Fatal(opType + " operation is not registered.")
  }

  /**
   * OpRegistryBase::CreateOperation on the abstract table: None when the
   * node's mode is not the requested one, otherwise the invocation of the
   * creator registered under exactly (op type, device, "T" argument).
   */
  function CreateOperationSpec(reg: RegistryView, def: OperatorDef, device: DeviceType, mode: NetMode)
    : (r: Outcome<Option<Invocation>>)
    ensures ModeArg(def) != mode ==> r == Ok(None)
    ensures ModeArg(def) == mode ==>
              var key := OpKey.Key(def.opType, device, DataTypeArg(def));
              && (r.Fatal? <==> def.opType !in reg || key !in reg[def.opType].creators)
              && (r.Ok? ==> r == Ok(Some(Invocation(reg[def.opType].creators[key], def))))
  {
    if ModeArg(def) == mode then
      var opType := def.opType;
      if opType !in reg then Fatal(opType + " operation is not registered.")
      else
        var key := OpKey.Key(opType, device, DataTypeArg(def));
        if key !in reg[opType].creators then Fatal("Key not registered: " + key)
        else Ok(Some(Invocation(reg[opType].creators[key], def)))
    else Ok(None)
  }

  /** A second update of the same key replaces the first. */
  lemma UpdateOverwrites<K, V>(m: map<K, V>, k: K, a: V, b: V)
    ensures m[k := a][k := b] == m[k := b]
  {
  }

  /** OpRegistrationInfo: the record of one operator type. */
  class OpRegistrationInfo {
    var devices: set<DeviceType>
    var creators: map<string, Creator>
    /** The op type whose record this is: the registry keeps one record per op type. */
    ghost const opType: string

    constructor (ghost opType: string)
      ensures this.opType == opType
      ensures devices == {} && creators == map[]
    {
      this.opType := opType;
      devices := {};
      creators := map[];
    }

    method AddDevice(device: DeviceType)
      modifies this
      ensures devices == old(devices) + {device}
      ensures creators == old(creators)
    {
      devices := devices + {device};
    }

    /** Inserts `creator` under `key`; a key already present is a fatal check and is not overwritten. */
    method Register(key: string, creator: Creator) returns (status: Outcome<()>)
      modifies this
      ensures devices == old(devices)
      ensures status.Ok? <==> key !in old(creators)
      ensures status.Ok? ==> creators == old(creators)[key := creator]
      ensures status.Fatal? ==> creators == old(creators)
    {
      if key in creators {
        return Fatal("Key already registered: " + key);
      }
      creators := creators[key := creator];
      status := Success;
    }
  }

  /** OpRegistryBase: the table from op type to its record object. */
  class OpRegistry {
    var registry: map<string, OpRegistrationInfo>
    /** The abstract table the registry holds. */
    ghost var View: RegistryView
    ghost var Repr: set<object>

    /**
     * Every record is owned by the registry and belongs to the op type it is
     * filed under (so no two op types share one), and `View` is their contents.
     */
    ghost predicate Valid()
      reads this, Repr
    {
      && this in Repr
      && registry.Keys == View.Keys
      && (forall op :: op in registry ==>
            && registry[op] in Repr
            && registry[op].opType == op
            && View[op] == RegInfo(registry[op].devices, registry[op].creators))
    }

    constructor ()
      ensures Valid() && fresh(Repr)
      ensures View == map[]
    {
      registry := map[];
      View := map[];
      Repr := {this};
    }

    /** The record of `opType`, created empty first if the op type is new. */
    method RecordFor(opType: string) returns (info: OpRegistrationInfo)
      requires Valid()
      modifies this
      ensures Valid() && fresh(Repr - old(Repr))
      ensures opType in registry && registry[opType] == info && info in Repr
      ensures View == old(View)[opType := RecordOf(old(View), opType)]
    {
      if opType !in registry {
        info := new OpRegistrationInfo(opType);
        registry := registry[opType := info];
        View := View[opType := RegInfo({}, map[])];
        Repr := Repr + {info};
      } else {
        info := registry[opType];
      }
    }

    /**
     * OpRegistryBase::Register. On success the table is `RegisterSpec`'s; on
     * the duplicate-key failure the record exists and has gained the device
     * (AddDevice runs before the check) but its creators are unchanged.
     */
    method Register(opType: string, device: DeviceType, dt: DataType, creator: Creator) returns (status: Outcome<()>)
      requires Valid()
      modifies Repr
      ensures Valid() && fresh(Repr - old(Repr))
      ensures var spec := RegisterSpec(old(View), opType, device, dt, creator);
              && (status.Ok? <==> spec.Ok?)
              && (spec.Ok? ==> View == spec.value)
      ensures status.Fatal? ==>
                && opType in old(View)
                && View == old(View)[opType := RegInfo(old(View)[opType].devices + {device},
                                                       old(View)[opType].creators)]
    {
      ghost var before := View;
      ghost var rec := RecordOf(before, opType);
      var key := OpKey.Build(OpKey.NewBuilder(opType).Device(device).TypeConstraint("T", dt));
      assert key == OpKey.Key(opType, device, dt);
      var info := RecordFor(opType);
      assert View[opType] == rec;
      status := AddToRecord(info, opType, device, key, creator);
      ghost var added := RegInfo(rec.devices + {device}, if status.Ok? then rec.creators[key := creator] else rec.creators);
      assert View == before[opType := rec][opType := added];
      UpdateOverwrites(before, opType, rec, added);
    }

    /** The record part of Register: adds the device, then inserts the creator under `key`. */
    method AddToRecord(info: OpRegistrationInfo, opType: string, device: DeviceType, key: string, creator: Creator)
      returns (status: Outcome<()>)
      requires Valid() && opType in registry && registry[opType] == info
      modifies info, this`View
      ensures Valid() && Repr == old(Repr) && registry == old(registry)
      ensures status.Ok? <==> key !in old(View)[opType].creators
      ensures View == old(View)[opType := RegInfo(old(View)[opType].devices + {device},
                                                  if status.Ok? then old(View)[opType].creators[key := creator]
                                                  else old(View)[opType].creators)]
    {
      info.AddDevice(device);
      status := info.Register(key, creator);
      View := View[opType := RegInfo(info.devices, info.creators)];
    }

    /** OpRegistryBase::AvailableDevices: the device set of a registered op type. */
    method AvailableDevices(opType: string) returns (r: Outcome<set<DeviceType>>)
      requires Valid()
      ensures r == AvailableDevicesSpec(View, opType)
    {
      if opType !in registry {
        return Fatal(opType + " operation is not registered.");
      }
      r := Ok(registry[opType].devices);
    }

    /** OpRegistryBase::CreateOperation, with the construction context reduced to its node. */
    method CreateOperation(def: OperatorDef, device: DeviceType, mode: NetMode) returns (r: Outcome<Option<Invocation>>)
      requires Valid()
      ensures r == CreateOperationSpec(View, def, device, mode)
    {
      var dtype := GetOptionalArg(def, "T", DT_FLOAT);
      var opMode := GetOptionalArg(def, "mode", NORMAL);
      if opMode == mode {
        var opType := def.opType;
        if opType !in registry {
          return Fatal(opType + " operation is not registered.");
        }
        var key := OpKey.Build(OpKey.NewBuilder(opType).Device(device).TypeConstraint("T", dtype));
        var info := registry[opType];
        if key !in info.creators {
          return Fatal("Key not registered: " + key);
        }
        r := Ok(Some(Invocation(info.creators[key], def)));
      } else {
        r := Ok(None);
      }
    }
  }
}
