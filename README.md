# Field mappings and the workflow builder of eino's `compose` package

This project models two cooperating parts of eino's composition layer in Dafny,
and proves properties of the model.

- **The field-mapping engine** (`compose/field_mapping.go`). It routes one
  named struct field, or one string map key, of a predecessor node's output to
  a field or key of the successor node's input. Go reflection is replaced by an
  explicit universe of types and values (`values.dfy`):
  - types are strings, integers, maps, pointers, structs with declared fields,
    and interfaces;
  - values are trees of those kinds;
  - a map value carries its key and element types, a pointer its element type,
    a struct its declared fields.
- **The engine's operations** (`field_mapping.dfy`): extraction (`TakeOne`),
  type-level resolution (`CheckAndExtractFieldType`), injection (`AssignOne`),
  the per-edge fan-out (`FieldMap`), assembly of the successor input
  (`ConvertTo`), and compile-time validation with its runtime checker
  (`ValidateFieldMapping`, `RunChecker`).
- **The workflow builder** (`compose/workflow.go`). It wraps a graph. Nodes
  declare the mappings they take their input from, and compiling turns those
  declarations into graph edges.
  - `workflow.dfy` holds the builder's mutable objects as classes: `Mapping`,
    `WorkflowNode`, `Workflow`, and a `Graph` reduced to a log of the calls
    made into it.
  - `workflow_plan.dfy` holds the pure model of the edge-building pass: the
    legality rules, the grouping by source node, the planned calls, and their
    lemmas.

Host-language relations the engine calls but does not define are parameters:
- reflect's `AssignableTo` is `assignable: (Type, Type) -> bool`;
- the three-valued `checkAssignable` is `classify: (Type, Type) -> Assignability`;
- the underlying graph's verdict on each call is `rejects(log, call)`.

A Go panic is modelled as the failure `Err(Panic(cause))`.

Go map iteration order is modelled in two ways:
- In `ConvertTo` and `RunChecker` it is a nondeterministic choice, and the
  contracts hold for every order.
- In `addEdgesWithMapping` the order is a parameter: any duplicate-free
  enumeration of the node keys, and of each node's source nodes (`Enumerates`).
  `LegalityDecides` and `NodeCallsOrderIndependent` state what does not depend
  on that order.

Workflow `Mapping` objects are mutable, and one object can be shared by several
nodes. The edge-building pass therefore reads their current descriptors
(`Descs`, `Workflow.Declared`) when it runs, as the source does.

The successor-shape check (`compose/field_mapping.go:377`) fires only when
**no** mapping targets the whole successor input, and the successor type is
not a struct, a map or a pointer. The predecessor-shape check (`:380`) is the
same with the sources. `ShapeError` and `ValidateFieldMapping` state this
order of checks.

A plain edge is emitted when the group's first mapping is empty
(`compose/workflow.go:355`). `PlainEdgeIffSingleEmpty` proves that, under the
legality rules, this means the group is exactly one, empty mapping.

Every runtime guard built by `validateFieldMapping` reads the one
`successorFieldType` variable that the whole loop shares
(`compose/field_mapping.go:386`, assigned at `:395`, read at `:406`). The guards
run after the loop has finished, so each tests against the type of the **last**
mapping. The model keeps this behaviour in `ValidateFieldMapping`
(`SharedGuards`) and records it under "Findings". `ValidateFieldMappingIntended`
is the per-field reading, in which each guard tests its own field's type.

## Model

| member | source | states |
|---|---|---|
| FieldMappings.FromField | compose/field_mapping.go:62-70 | the descriptor maps the named source field to the entire input, from no node key |
| FieldMappings.ToField | compose/field_mapping.go:72-78 | the descriptor maps the entire source output to the named field |
| FieldMappings.MapFields | compose/field_mapping.go:80-87 | the descriptor maps the named source field to the named destination field |
| FieldMappings.String | compose/field_mapping.go:40-60 | the rendering is "from ", then "<from>(field) of " only for a non-empty from, then the node key, then " to <to>(field)" only for a non-empty to, then "; " |
| FieldMappings.CheckAndExtractFromField | compose/field_mapping.go:188-199 | succeeds iff the input is a struct whose first field of that name is exported, and returns that field's value; a missing name gives FieldNotFound; a non-struct is a panic |
| FieldMappings.CheckAndExtractFromMapKey | compose/field_mapping.go:201-212 | succeeds iff a string is assignable to the map's key type and the key is present, and returns the entry; a key type that does not accept strings gives MapKeyNotString |
| FieldMappings.TakeOne | compose/field_mapping.go:312-337 | an empty from returns the input unchanged; a map gives the entry at that key; a struct, or exactly one pointer to a struct, gives the named exported field; strings and integers are UnsupportedKind |
| FieldMappings.CheckAndExtractFieldType | compose/field_mapping.go:214-245 | the pointer-stripping loop computes exactly ResolveFieldType: an empty field gives the type itself; a map gives its element type only when the key is exactly the string type; otherwise every pointer level is stripped and the declared type of an exported field is returned |
| FieldMappings.ResolveThroughPointer | compose/field_mapping.go:227-233 | below the map check any number of pointer levels makes no difference |
| FieldMappings.PointerToMapIsNotStruct | compose/field_mapping.go:219-233 | a pointer to a map is rejected as NotStruct, because the map check runs before the pointers are stripped |
| FieldMappings.StaticAgreesWithExtraction | compose/field_mapping.go:214-245 | for a struct or one pointer to a struct, type-level resolution succeeds iff value-level extraction does, and it resolves to the declared type of the field whose value is extracted |
| FieldMappings.ValidateStructOrMapKinds | compose/field_mapping.go:357-369 | the accepted kinds are exactly map, pointer and struct, and a pointer to anything is accepted |
| FieldMappings.CheckAndExtractToMapKey | compose/field_mapping.go:274-288 | succeeds iff the destination is a map whose key type accepts strings and whose element type accepts the value's type, and returns the key; a non-map gives NotMap |
| FieldMappings.CheckAndExtractToField | compose/field_mapping.go:249-272 | the pointer-following loop finds exactly the field that ResolveToField names: the first field of that name of the struct behind every pointer, which must be exported and accept the value's type |
| FieldMappings.AssignOne | compose/field_mapping.go:148-186 | computes exactly Inject: an empty to succeeds iff the value's type is assignable to the destination type and gives the value itself; a map gets the entry; a struct gets the field behind its pointers; an interface static type cannot take a named part |
| FieldMappings.InjectChangesOnlyTarget | compose/field_mapping.go:166-184 | a successful named injection keeps the destination's type and changes only the entry or field named to, whose type accepts the value; every other entry and field is unchanged |
| FieldMappings.ExtractAfterInject | compose/field_mapping.go:148-186 | for a destination with at most one pointer level, extracting the injected part gives back the injected value |
| FieldMappings.ExtractAfterInjectTwoPointers | compose/field_mapping.go:249-252 | a concrete struct behind two pointers accepts the injection, yet extraction panics with NotStruct: injection strips every pointer level and extraction strips exactly one |
| FieldMappings.InjectAfterExtract | compose/field_mapping.go:312-337 | injecting an extracted value back into the same place leaves the value unchanged |
| FieldMappings.CollectFieldValues | compose/field_mapping.go:123-128 | every destination key gets exactly one value, the one mapped to it |
| FieldMappings.AssembleParts | compose/field_mapping.go:119-145 | without a "" key: succeeds iff every key can be injected into the zero value, in any iteration order; the result is the zero value with each key's field or entry overwritten; a failure is a panic |
| FieldMappings.ConvertTo | compose/field_mapping.go:113-146 | with a "" key the entire-input value is returned when its type asserts to the destination type, and otherwise it is a panic; without one, it succeeds iff every key can be injected into the zero value, and the result is the zero value with each key's field or entry overwritten; every failure is a panic |
| FieldMappings.ExtractAfterConvert | compose/field_mapping.go:113-146 | each key routed into a struct destination can be extracted from the assembled input with its own value |
| FieldMappings.FieldMap | compose/field_mapping.go:290-304 | succeeds iff every mapping's extraction succeeds, and otherwise panics; the result's keys are exactly the mappings' to fields; for each to the last mapping naming it wins |
| FieldMappings.IsFromAll | compose/field_mapping.go:339-346 | true iff some mapping has an empty from |
| FieldMappings.IsToAll | compose/field_mapping.go:348-355 | true iff some mapping has an empty to |
| FieldMappings.ShapeCheck | compose/field_mapping.go:374-383 | the three shape checks run in order and report the first that fails: from-all together with to-all, then a successor that is not a struct, map or pointer when no mapping targets the whole input, then the same for the predecessor |
| FieldMappings.ValidateFieldMapping | compose/field_mapping.go:371-443 | the ordered shape checks fail with their own error; otherwise it succeeds iff every mapping resolves on both sides and is not classified must-not; it returns no handler iff no mapping is classified may; otherwise the handler guards exactly the may mappings' to fields, each guard keeps its mapping, and every guard tests against the last mapping's successor field type, the one value of the shared variable once the loop has finished (lines 386, 395, 406) |
| FieldMappings.ValidateFieldMappingIntended | compose/field_mapping.go:371-443 | the same outcome and errors as ValidateFieldMapping; a handler's guards are exactly MayGuards, the per-field guards, so the guarded fields are exactly the may mappings' to fields (MayGuardsKeys), each from the last may mapping to it (MayGuardsLast), and each guard tests against that mapping's own successor field type |
| FieldMappings.CheckOneMapping | compose/field_mapping.go:390-418 | one mapping is accepted iff both sides resolve and the pairing is not must-not; it returns the resolved successor field type, and a guard iff the pairing is may, holding that type |
| FieldMappings.BuildFieldCheckers | compose/field_mapping.go:385-418 | succeeds iff every mapping is accepted; the guards are those of the may mappings, the last mapping per to field winning; the shared successor field type ends as the last mapping's |
| FieldMappings.MayGuardsKeys | compose/field_mapping.go:403-417 | a to field is guarded iff some mapping to it is classified may |
| FieldMappings.MayGuardsLast | compose/field_mapping.go:411-416 | the per-field guard of a field comes from the last may mapping to it |
| FieldMappings.MayGuardsOwnType | compose/field_mapping.go:403-416 | every per-field guard belongs to a may mapping to that field and holds that mapping's own successor field type |
| FieldMappings.SharedGuardsLast | compose/field_mapping.go:386-416 | the guard that is actually installed for a field keeps the last may mapping to it, but tests against the last mapping's successor field type in the whole list |
| FieldMappings.SharedGuardCounterexample | compose/field_mapping.go:386-410 | with mappings X to A (interface to interface, a may pairing) and Y to B (int to int), the guard on A tests against int: a value that matches A's interface type is refused as written and accepted by the per-field guard |
| FieldMappings.NoMayNoGuards | compose/field_mapping.go:420-422 | the guards are empty iff no mapping is classified may |
| FieldMappings.ValidationOrderIndependent | compose/field_mapping.go:375-418 | whether validation fails on shape, and whether every mapping is accepted, depends only on which mappings are present, not on their order |
| FieldMappings.GuardCheck | compose/field_mapping.go:404-410 | a guarded value passes unchanged iff its dynamic type is assignable to the field type, and otherwise the runtime check fails for that field |
| FieldMappings.RunChecker | compose/field_mapping.go:424-436 | succeeds iff every guarded key present in the input holds an assignable value, and then returns the input unchanged; unguarded and absent keys are never looked at; a failure names an offending key |
| WorkflowPlan.InputErrorSpec | compose/workflow.go:338-349 | the legality scan fails iff a mapping to the entire input sits among several, or two mappings share a destination field, and the error names the rule that breaks |
| WorkflowPlan.EmitSpec | compose/workflow.go:354-362 | making the calls succeeds iff the graph accepts each one; the log grows by a prefix of the calls, by all of them on success; a failure is the graph's |
| WorkflowPlan.NodeEdgesSpec | compose/workflow.go:335-362 | the edges into one node succeed iff its mappings are legal and the graph accepts every planned call; illegal mappings make no calls |
| WorkflowPlan.RunNodesSpec | compose/workflow.go:329-363 | the pass over the nodes succeeds iff every node has legal, non-empty mappings and the graph accepts the node plan; the log grows by a prefix of that plan |
| WorkflowPlan.AddEdgesSpec | compose/workflow.go:327-398 | the whole pass succeeds iff every node's and END's mappings are legal and the graph accepts every planned call, and then the log grows by exactly the plan; on failure it grows by a prefix of it |
| WorkflowPlan.LegalityDecides | compose/workflow.go:327-398 | when the graph accepts every call, the pass fails iff some node or END has no mappings, a whole-input mapping among several, or a repeated destination field, whatever the iteration order |
| WorkflowPlan.GroupContents | compose/workflow.go:350-351 | a source group holds exactly the mappings from that source |
| WorkflowPlan.GroupOfSource | compose/workflow.go:350-355 | a group is non-empty exactly for a node some mapping comes from, so its first mapping exists |
| WorkflowPlan.GroupInDeclarationOrder | compose/workflow.go:338-351 | a group lists the mappings from its source at ascending positions, every such position included |
| WorkflowPlan.OneCallPerSource | compose/workflow.go:354-362 | exactly one edge call per distinct source node, into the destination, carrying that source's mappings; no two calls share a source |
| WorkflowPlan.NodeCallsOrderIndependent | compose/workflow.go:354-362 | whatever order the source groups are visited in, the same calls are made |
| WorkflowPlan.PlainEdgeIffSingleEmpty | compose/workflow.go:341-357 | for legal mappings a plain edge is emitted iff the node has a single mapping that is empty |
| Workflows.CompileOutcomeSpec | compose/workflow.go:124-130 | compiling succeeds iff the mappings are all legal and the graph accepts every planned edge and then the compile call in all-predecessor mode; the log then grows by exactly those calls |
| Workflows.Graph.Invoke | compose/workflow.go:356-361 | a graph call is appended to the log and fails iff the graph rejects it given the calls before it |
| Workflows.Mapping.constructor | compose/workflow.go:82-85 | a new mapping takes the whole output of the given node to the whole input, so it is empty |
| Workflows.Mapping.From | compose/workflow.go:46-50 | sets only the source field and returns the same mapping |
| Workflows.Mapping.To | compose/workflow.go:52-56 | sets only the destination field and returns the same mapping |
| Workflows.Mapping.String | compose/workflow.go:58-80 | the rendering quotes the node as "node '<key>'", with the optional from and to parts as in the field-mapping rendering |
| Workflows.WorkflowNode.constructor | compose/workflow.go:133-134 | a new node has its key and no inputs |
| Workflows.WorkflowNode.AddInput | compose/workflow.go:295-298 | appends the mappings in order and returns the same node |
| Workflows.Workflow.constructor | compose/workflow.go:103-112 | a new workflow has a fresh graph with an empty log, no nodes, no END mappings and no error |
| Workflows.Workflow.AddNode | compose/workflow.go:133-147 | once an error is stored nothing is registered or called; otherwise the node is registered before the graph is asked to add it, and a graph failure is stored |
| Workflows.Workflow.AddEnd | compose/workflow.go:300-302 | replaces END's mappings entirely and changes nothing else |
| Workflows.Workflow.AddEdgesWithMapping | compose/workflow.go:327-398 | the outcome and the new graph log are exactly those of the pass AddEdges over the mappings as declared now; AddEdgesSpec states what that means |
| Workflows.ScanInputs | compose/workflow.go:335-352 | the first pass over a node's mappings reports exactly the error of the legality scan InputError, and otherwise groups the mappings by source node: one group per source, holding that source's mappings in declaration order |
| Workflows.Workflow.AddEdgesInto | compose/workflow.go:335-362 | the outcome and the new log are exactly NodeEdges: the legality scan over the node's mappings, then one call per source group |
| Workflows.Workflow.Compile | compose/workflow.go:114-131 | a stored error is returned with no call; the any-predecessor mode is refused with no call; otherwise the edges are added and the graph is compiled in all-predecessor mode (CompileOutcomeSpec) |
| Workflows.Workflow.CompileNested | compose/workflow.go:304-313 | like Compile but without looking at the stored error, and the options are forced to all-predecessor mode before the edges are added |

## Left out

- Stream variants (`buildStreamFieldMappingConverter`, `streamFieldMap`, the
  handlers' `transform` closures): they apply the same value-level function to
  each chunk of a stream, and stream transport is not modelled.
- `buildFieldMappingConverter`: its panic on a non-map input is not modelled,
  because the model's `ConvertTo` takes the map directly.
- Nil values, nil maps and nil pointers: values are trees, so a nil pointer
  cannot be dereferenced.
- Aliasing of Go values: injection and assembly return updated values instead
  of writing through `reflect.Value`. In particular, the checker's in-place
  write of `mValue[k]` is not modelled. On failure that write leaves a nil
  entry in the caller's map.
- `generic.NewInstance`: it is the `zero` parameter of `ConvertTo`.
  `mergeValues` is not modelled, because `ConvertTo`'s merge branch cannot be
  reached (each key carries exactly one value, `CollectFieldValues`).
- `AssignableTo` and `checkAssignable`: they are defined outside these files
  and are parameters of the model.
- Promoted fields of embedded structs in `FieldByName` are not modelled: a
  field is found only among the struct's own declared fields.
- Maps with non-string keys: entries are indexed by strings, and the key type
  enters only through the assignability checks.
- Error texts beyond the two `String()` renderings: errors are constructors of
  `Error`, and an error of the underlying graph is `GraphRejected`.
- The underlying graph's own behaviour (`AddEdge`, `addEdgeWithMappings`,
  `Compile`, `compile`, the node builders): it is a log of calls with a
  `rejects` verdict. The runnable a successful compile returns is not modelled.
- The component-specific node builders (`AddChatModelNode` and the rest):
  they differ only in the graph method they call, and all share `AddNode`'s
  sticky-error pattern.
- `NewWorkflow`'s graph options and the component tag, `context.Context`, the
  compile options other than the trigger mode, and the `inputType`,
  `outputType` and `component` accessors.
- MayGuardsLast: it states the per-field guards, each with its own mapping's
  type. The guard the source installs has the shared last type instead;
  `SharedGuardsLast` and `ValidateFieldMapping` state that one.
- The mapping named in a failing guard's error text: the model records each
  guard's mapping as if `mapping` were a fresh variable per iteration, which
  holds from Go 1.22 on. Under older Go the closures would all name the last
  mapping. Error texts are not modelled in any case.
- Defined (named) Go types: types are structural. So the assertion of the
  entire input to the destination type (`AssertsAs`, `compose/field_mapping.go:116`)
  accepts a struct of another defined type with the same fields, where Go
  panics. A map whose key is a defined string type (`type K string`) cannot be
  told apart from `map[string]V`, so the exact key test at
  `compose/field_mapping.go:220` is not represented for it.
- The checker's type assertion `value.(map[string]any)`
  (`compose/field_mapping.go:425`): `RunChecker` takes the `to -> value` map
  directly, so its panic on any other input is not modelled.
- Go map iteration order is not a behaviour the model fixes: it is a
  nondeterministic choice, or the `order`, `groups` and `endGroups`
  parameters of the edge-building methods.

## Findings

| source | as written | input that shows it | evidently intended | confidence | as-written member | corrected member |
|---|---|---|---|---|---|---|
| compose/field_mapping.go:386-406 | every runtime guard closes over the one `successorFieldType` variable of the loop, so once validation has finished each guard tests against the last mapping's successor field type | predecessor struct {X: io.Reader, Y: int}, successor struct {A: io.ReadCloser, B: int}, mappings X to A and Y to B (Reader to ReadCloser is a may pairing, int to int a must); at run time X holds an `*os.File`, which implements io.ReadCloser; the guard on A tests it against int and refuses it. In the model R and W stand for the two interfaces, and `StrV("s")` with an `assignable` that lets it into W stands for the `*os.File` | each guard tests against the successor type of its own field, so the `*os.File` passes the guard on A | not executed | FieldMappings.SharedGuardCounterexample | FieldMappings.ValidateFieldMappingIntended |
