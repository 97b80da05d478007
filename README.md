# MACE operator registry and operator initialisation

This project models the core of how the MACE inference engine finds and wires
operator implementations (`mace/core/operator.cc`):

- **OpKeyBuilder** turns (op type, device, data type "T") into the string key
  under which an implementation is filed (module `OpKey`).
- **OpRegistrationInfo** and **OpRegistryBase** form the process-wide registry.
  It maps each op type to a record holding the devices the op supports and a
  creator per key. The three operations are Register, AvailableDevices and
  CreateOperation (module `Registry`), with whole-pass properties in
  `RegistryProperties`.
- **Operation** keeps its own copy of its node descriptor. **Init** binds the
  node's inputs and outputs to tensors of the workspace, creating the outputs
  that are missing (module `Operations`).

Fatal checks (`MACE_CHECK`, `LOG(FATAL)`) are modelled as the `Fatal` case of
`Outcomes.Outcome`. A fatal check ends the process, so nothing is said about
state after one, except where the code has already changed something before the
check fired.

The registry's mutating operations are imperative: classes whose fields are
updated in place. Each is proved against a value-level function on the abstract
table `RegistryView`. `RegisterSpec`, `AvailableDevicesSpec` and
`CreateOperationSpec` are those functions. The lemmas in `RegistryProperties`
then state what a whole sequence of registrations leaves in the registry:

- a pass succeeds exactly when no (op type, device, data type) variant repeats;
- AvailableDevices answers exactly the registered devices;
- CreateOperation finds exactly the registered variant, with no fallback.

`Operation.Init` runs the source's two loops through the helper methods
`BindInputs` and `BindOutputs`, one loop each. It is proved against
`InitSpec`, and the lemmas about `InitSpec` state:

- when Init fails;
- which names it adds;
- that tensors already present are left alone;
- what type and configured shape each new tensor gets.

The output-type-list consistency check does not depend on the output index. So
when the list is inconsistent, the check fires at the first output that needs a
new tensor, before any tensor has been created. `Init` proves that a failing
Init leaves the workspace unchanged. Also, when every output already exists, a
node with an inconsistent type list initialises successfully, because the check
runs only on the creation path (`TypeListMismatchExample`).

Keys are unique within one op type (`KeyInjective`), and for a fixed device and
data type the op name is determined by the key (`KeyOpNameInjective`). They are
not unique across op types, because nothing separates the op name from the
device code: "Conv1" on device 2 and "Conv" on device 12 build the same key
(`KeyCollisionAcrossOps`). The collision is harmless, because Register and
CreateOperation (`RegisterSpec`, `CreateOperationSpec`) only look up a key
inside the record of its own op type (`RecordOf(reg, opType)`).

## Model

| member | source | states |
|---|---|---|
| OpKey.Build | mace/core/operator.cc:115-125 | The loop over the fixed constraint order produces the key `KeyOf`: op name, device, then for each constraint name the name, "_" and its data type (a missing constraint renders as the default DataType). |
| OpKey.AppendConstraints | mace/core/operator.cc:120-122 | The loop over the constraint names appends, in order, each name, "_" and its data type to the key built so far. |
| OpKey.KeyLayout | mace/core/operator.cc:115-125 | The key built at registration and lookup is exactly op name ++ device ++ "T_" ++ data type, with no separator between name and device. |
| OpKey.KeyOnlyReadsT | mace/core/operator.cc:109-121 | Two builders with the same op name, device and "T" constraint build the same key: every other constraint is ignored. |
| OpKey.KeyInjective | mace/core/operator.cc:115-125 | For one op name, two keys are equal if and only if device and data type are both equal. |
| OpKey.KeyOpNameInjective | mace/core/operator.cc:115-125 | For a fixed device and data type, two keys are equal if and only if the op names are equal. |
| OpKey.KeyCollisionAcrossOps | mace/core/operator.cc:118-119 | With no separator between op name and device, two different op types can share a key: "Conv1" on device 2 and "Conv" on device 12. |
| MaceTypes.DecimalInjective | mace/core/operator.cc:119-121 | The rendering of device and data type codes is injective (both directions). |
| Registry.RegisterEffect | mace/core/operator.cc:138-154 | Registration fails iff the key is already in the op's record. On success the op is present, the device is added, the creator is filed under the key, and every other record and every other key is unchanged. |
| Registry.CreateOperationSpec | mace/core/operator.cc:165-195 | On a mode mismatch the result is Ok(None) whatever the registry holds. On a match it is fatal iff the op is unregistered or the exact key is absent, and otherwise it is the invocation of the creator under that key. |
| Registry.OpRegistrationInfo.constructor | mace/core/operator.cc:142-145 | A new record has no devices and no creators. |
| Registry.OpRegistrationInfo.AddDevice | mace/core/operator.cc:128-130 | The device set gains the device; the creators are unchanged. |
| Registry.OpRegistrationInfo.Register | mace/core/operator.cc:132-136 | Succeeds iff the key is absent, and then inserts the creator. A duplicate key is fatal and leaves the creators unchanged (no overwrite). |
| Registry.OpRegistry.RecordFor | mace/core/operator.cc:142-145 | The op's record exists afterwards and is the old one, or an empty new one; the rest of the table is unchanged and the registry stays valid. |
| Registry.OpRegistry.AddToRecord | mace/core/operator.cc:146-152 | The record gains the device first; the creator is inserted iff the key was absent. |
| Registry.OpRegistry.Register | mace/core/operator.cc:138-154 | Succeeds iff `RegisterSpec` does, and then the table is `RegisterSpec`'s. On the duplicate-key failure the op's device set has still grown and its creators are unchanged. |
| Registry.OpRegistry.AvailableDevices | mace/core/operator.cc:156-162 | Returns the op's device set, or is fatal for an op that is not registered; reads only. |
| Registry.OpRegistry.CreateOperation | mace/core/operator.cc:165-195 | Reads "T" (default DT_FLOAT) and "mode" (default NORMAL) and returns exactly `CreateOperationSpec`; it changes nothing. |
| RegistryProperties.KeyForInjective | mace/core/operator.cc:148-151 | Within one op type, two registrations share a key iff they register the same device and data type. |
| RegistryProperties.OnlyRegisteredOpsStep | mace/core/operator.cc:142-145 | After a successful registration, every op type in the table still comes from some registration. |
| RegistryProperties.AllFiledStep | mace/core/operator.cc:148-152 | A registration of a new variant keeps every earlier creator filed under its own key and files the new one. |
| RegistryProperties.DevicesMatchStep | mace/core/operator.cc:146 | After a registration, each record's device set is exactly the devices registered for that op. |
| RegistryProperties.OnlyRegisteredKeysStep | mace/core/operator.cc:152 | After a registration, every key in a record comes from a registration of that op. |
| RegistryProperties.DescribesStep | mace/core/operator.cc:138-154 | Registering a new variant succeeds and the table still holds exactly what was registered. |
| RegistryProperties.DuplicateStep | mace/core/operator.cc:132-136 | Registering a variant a second time is fatal. |
| RegistryProperties.RegisterStep | mace/core/operator.cc:138-154 | One more registration succeeds iff its variant is new, and it keeps the table exact. |
| RegistryProperties.RegisterAllMeaning | mace/core/operator.cc:138-154 | A registration pass succeeds iff no variant is registered twice, and then the table holds exactly the registered ops, devices and creators. |
| RegistryProperties.DevicesAfterRegistration | mace/core/operator.cc:156-162 | After a pass, AvailableDevices is fatal iff the op was never registered. Otherwise it returns exactly the set of devices passed for it, repeats collapsed. |
| RegistryProperties.CreateAfterRegistration | mace/core/operator.cc:169-191 | After a pass, with matching mode, CreateOperation is fatal iff no registration provides exactly (op, device, "T"), even if another device or type of the op is registered. Otherwise it invokes that registration's creator. |
| RegistryProperties.DeviceCoverageExample | mace/core/operator.cc:156-162 | Registering an op for CPU and for GPU makes exactly {CPU, GPU} available. |
| RegistryProperties.ModeMismatchExample | mace/core/operator.cc:173-179 | A node tagged with mode INIT yields None, not a fatal error, when built for NORMAL, even though its exact variant is registered. |
| RegistryProperties.StrictVariantExample | mace/core/operator.cc:179-191 | An op registered only for (CPU, float) is fatal for a node asking for (CPU, uint8). |
| Operations.BindFailsIff | mace/core/operator.cc:47-58 | Binding outputs from index k fails iff the type list is inconsistent and some output from k on is missing from the workspace. |
| Operations.BindKeepsExisting | mace/core/operator.cc:49-51 | Tensors already in the workspace are kept unchanged by output binding. |
| Operations.BindKeys | mace/core/operator.cc:47-68 | After binding, the workspace names are the old names plus the output names from k on. |
| Operations.BindCreates | mace/core/operator.cc:59-77 | The first occurrence of a missing output name gets a new tensor with the declared type (else "T", else DT_FLOAT) and the declared shape, if any. |
| Operations.InitFailsIff | mace/core/operator.cc:38-81 | Init fails iff an input is missing, or the type list is inconsistent and some output must be created. |
| Operations.InitBindsOutputs | mace/core/operator.cc:47-79 | A successful Init adds exactly the missing output names and keeps existing tensors. Each new tensor has its declared type and configured shape. |
| Operations.TypeListMismatchExample | mace/core/operator.cc:53-58 | Three outputs with a one-entry type list: fatal on an empty workspace, and a no-op success when all three outputs exist. |
| Operations.Operation.constructor | mace/core/operator.cc:34-36 | The operation holds a copy of the node, with no inputs or outputs bound. |
| Operations.Operation.Init | mace/core/operator.cc:38-81 | Succeeds iff `InitSpec` does. On success the workspace is `InitSpec`'s, and the input and output slots are appended in declared order. On failure no tensor has been created. |
| Operations.Operation.BindInputs | mace/core/operator.cc:40-45 | Succeeds iff every input name is in the workspace, and then appends all of them in order; the workspace is not touched. |
| Operations.Operation.BindOutputs | mace/core/operator.cc:47-79 | Succeeds iff output binding does, leaving its workspace; on failure the workspace is unchanged. |
| Operations.Operation.CreateOutput | mace/core/operator.cc:59-77 | Adds exactly the tensor `NewOutputTensor` for output i under its name. |

## Left out

- Logging (`VLOG`, and the text of `LOG(FATAL)` beyond its message) is not modelled; fatal messages are kept as strings but no contract speaks about them.
- The node descriptor's protobuf encoding and `ProtoArgHelper` are not part of this model. The node is a datatype, and an optional argument is a map lookup with a default.
- Operations.Operation.Init: allocation failure in `CreateTensor` (line 67) is not modelled; creation always succeeds.
- The workspace, tensor, device and allocator classes are not part of this model. The workspace is a name → record map, and a tensor is referred to by its name: a bound name always denotes the same tensor. Aliasing between tensor objects is therefore not modelled.
- A new tensor's configured shape is modelled as the empty sequence until `SetShapeConfigured` runs; no other tensor state is modelled.
- Creators are identifiers. What they build (line 191) is not modelled: CreateOperation returns the invocation (creator, node) instead of an operator.
- CreateOperation's construction context is reduced to its node descriptor; the context constructors (lines 24-32) are trivial and left out.
- OpKey.KeyInjective: the engine renders the data type through `DataTypeToString`, whose name table is not part of this model. Both the device and the data type are rendered here as decimal numbers. Injectivity is proved for that rendering. It relies on the device rendering being injective and never containing the letter 'T', and on the data-type rendering being injective only: the data type comes last in the key, so a data-type name containing 'T' would not make keys ambiguous.
- The enum codes (CPU, GPU, DT_FLOAT, DT_UINT8, INIT, NORMAL, ...) are declared outside `operator.cc`; they are modelled as integers and only their distinctness matters.
- Ownership (`unique_ptr`, `shared_ptr`), the static registration macros and concurrent access to the registry are not modelled; the model is sequential.
- Operations.Operation.Init: on a fatal check the model returns early; the partially filled `inputs`/`outputs` lists are left unspecified, since the process ends there.
