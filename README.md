# FlowGram runtime state, JSON-schema translation and dagre edge normalization in Dafny

This project models three parts of the FlowGram workflow framework and proves
properties of each.

- **The workflow runtime state** (`WorkflowRuntimeState`). It keeps the set of
  executed node IDs. It resolves tagged flow values against the variable store:
  - a `constant` gets its inferred workflow type;
  - a `ref` is a path `[nodeID, key, ...path]`;
  - a `template` has every `{{node.key.path}}` placeholder replaced by the text
    of the referenced value.

  It binds a node's declared inputs, keeping only values whose type matches the
  declaration. It writes a node's produced outputs into the store, filtered by
  the output schema.

  The state is a class, `RuntimeState.WorkflowRuntimeState`, with a mutable
  executed set. The variable store is a class over a map from `(nodeID, key)` to
  a record, `RuntimeInterface.VariableStore`.

  The template regex is a left-to-right scanner (`RuntimeState.Scan`).
  `parseInputs`'s `reduce` and `setNodeOutputs`'s `forEach` are loops proved
  against a specification predicate.
- **`JsonSchemaUtils`**. It translates a JSON schema into the variable engine's
  type AST (`schemaToAST`) and back (`astToSchema`). It also checks an AST
  against a schema or a union of schemas (`isASTMatchSchema`). Both trees are
  datatypes and the translators are recursive functions. Object properties are
  sorted by `extra.index` with a stable insertion sort. `Object.fromEntries` is
  modelled on an ordered entry list.
- **Dagre's `normalize` phase**.
  - `run` splits every edge spanning more than one rank into a chain of
    one-rank segments through dummy nodes, and records each chain's first
    dummy in `dummyChains`.
  - `undo` walks each chain, removes its dummies, and gives the original edge
    its label back, with the dummies' positions as `points`.

  The graph is a class, `Normalize.Graph`, with node and edge maps, the
  `dummyChains` attribute and the id counter. Each method is proved equal to a
  function on the graph's value, `GraphState`. The facts about `run` and `undo`
  are lemmas about those functions (`Normalize`, `NormalizeRun`,
  `NormalizeTheorem`). The main theorem is `NormalizeTheorem.RunThenUndo`. It
  covers `run`, then later phases that only position the dummies, then `undo`:
  - `dummyChains` lists one chain per edge spanning more than one rank;
  - `undo` succeeds;
  - `undo` gives back the original nodes and edge keys;
  - each split edge gets back its weight, label rank and label position, with
    the dummies' positions in chain order as `points`.

Supporting modules:
- `Wrappers` holds `Option` and `Result`.
- `JsValues` holds JavaScript values, with JavaScript truthiness and lodash's
  `isNil`.
- `JsStrings` holds `trim`, `split` and `join`, with the proof that `split`
  inverts `join`.

Points where the code behaves in a way a reader may not expect:
- `init` builds a new executed set but keeps the `id` drawn by the constructor.
- `parseRef` returns null, and does not throw, on a path with fewer than two
  segments.
- An edge that is neither one rank long nor long enough to need dummies is
  still split. For example, an edge from a rank to the same or a lower rank is
  removed and set again between the same ends. Its label then becomes a fresh
  one holding only the weight (`NormalizeRun.Settled`).

## Model

| member | source | states |
|---|---|---|
| RuntimeState.WorkflowRuntimeState.constructor | packages/runtime/js-core/src/domain/state/index.ts:28-30 | the state keeps the given store and run id; the executed set does not exist until `init` |
| RuntimeState.WorkflowRuntimeState.Init | packages/runtime/js-core/src/domain/state/index.ts:32-34 | after `init` the executed set is empty, so no node reads as executed |
| RuntimeState.WorkflowRuntimeState.Dispose | packages/runtime/js-core/src/domain/state/index.ts:36-38 | after `dispose` every node reads as not executed |
| RuntimeState.WorkflowRuntimeState.IsExecutedNode | packages/runtime/js-core/src/domain/state/index.ts:180-182 | a node reads as executed exactly when its id is in the executed set |
| RuntimeState.WorkflowRuntimeState.AddExecutedNode | packages/runtime/js-core/src/domain/state/index.ts:184-186 | the node reads as executed afterwards; every other node's status is unchanged; adding a node already present leaves the set unchanged |
| RuntimeState.WorkflowRuntimeState.ParseRef | packages/runtime/js-core/src/domain/state/index.ts:102-119 | a value not tagged `ref` throws, and only such a value does; a missing path or one shorter than two gives null; otherwise the answer is the store's value for `path[0]`, `path[1]` and the rest of the path |
| RuntimeState.WorkflowRuntimeState.Substitution | packages/runtime/js-core/src/domain/state/index.ts:130-144 | a placeholder's inner text is trimmed and split at dots, then resolved as a reference; the replacement is the value's text, or "" when the reference gives null |
| RuntimeState.WorkflowRuntimeState.ParseTemplate | packages/runtime/js-core/src/domain/state/index.ts:121-150 | a value not tagged `template` throws, and only such a value does; missing or empty text gives null; any other text gives a String-typed result holding the expanded text |
| RuntimeState.WorkflowRuntimeState.ParseValue | packages/runtime/js-core/src/domain/state/index.ts:152-178 | it throws exactly for a missing or unknown tag, and distinguishes the two errors; a constant gives null exactly when it is nil or its workflow type is missing or empty, and otherwise gives itself with that type; `ref` and `template` give what `parseRef` and `parseTemplate` give |
| RuntimeState.WorkflowRuntimeState.SubstituteReference | packages/runtime/js-core/src/domain/state/index.ts:132-143 | the placeholder `node.key` becomes the text of the stored value for `(node, key)`, or "" when the store has no record for it |
| RuntimeState.WorkflowRuntimeState.TemplateReference | packages/runtime/js-core/src/domain/state/index.ts:128-149 | in a template holding `{{node.key}}` after text in which no placeholder starts (braces that open none, as in JSON-shaped text, included), the placeholder is replaced by the stored value's text, or by "" without a record; the text before it is kept, the text after it is expanded in turn, and the result is typed String |
| RuntimeState.WorkflowRuntimeState.ParseInputs | packages/runtime/js-core/src/domain/state/index.ts:74-100 | without a declaration or values the result is `{}`; otherwise the first declared entry whose value throws decides the error; without such an entry, the keys are exactly those of the entries that are declared, resolve to a non-null value and have a type equal to the declared type, and each maps to its parsed value |
| RuntimeState.WorkflowRuntimeState.InputsSpecUnique | packages/runtime/js-core/src/domain/state/index.ts:74-100 | the promise `ParseInputs` keeps determines the result completely: two results that both meet it are equal |
| RuntimeState.WorkflowRuntimeState.GetNodeInputs | packages/runtime/js-core/src/domain/state/index.ts:40-47 | a node's inputs are its input values bound against its input schema, under the same promise as `parseInputs` |
| RuntimeState.WorkflowRuntimeState.SetNodeOutputs | packages/runtime/js-core/src/domain/state/index.ts:49-72 | without an output schema the store is unchanged; otherwise exactly the produced keys the schema declares are written, each with the produced value, the declared type and the declared `items.type`; no other record changes; each written key reads back with its value and declared type |
| RuntimeState.OutputsStepDeclared | packages/runtime/js-core/src/domain/state/index.ts:57-70 | writing one more declared output extends the promise from the outputs already handled to those plus this one |
| RuntimeState.OutputsStepSkipped | packages/runtime/js-core/src/domain/state/index.ts:57-60 | skipping an undeclared output keeps the promise for the outputs handled so far |
| RuntimeState.PlaceholderEnd | packages/runtime/js-core/src/domain/state/index.ts:129 | it finds where a placeholder `{{...}}` ends when the text starts with one (the inner text is non-empty and holds no `}`); it answers none exactly when no placeholder starts there |
| RuntimeState.Scan | packages/runtime/js-core/src/domain/state/index.ts:128-145 | the global placeholder replace with a given replacement function; text without an opening brace comes back unchanged; its partners `ScanOpenText`, `ScanSplice` and `ScanPlain` state how text, placeholders and the rest are treated |
| RuntimeState.WorkflowRuntimeState.Expand | packages/runtime/js-core/src/domain/state/index.ts:128-145 | the template text after the replace, with each placeholder resolved against the current store; a text without placeholders comes back as it is |
| RuntimeState.ScanOpenText | packages/runtime/js-core/src/domain/state/index.ts:128-145 | text in which no placeholder starts is kept as it is, braces included, whatever follows it |
| RuntimeState.OpensNoPlaceholderAt | packages/runtime/js-core/src/domain/state/index.ts:129 | the condition of `ScanOpenText` holds exactly when no placeholder starts at any of the positions it covers |
| RuntimeState.BraceFreeOpensNone | packages/runtime/js-core/src/domain/state/index.ts:129 | no placeholder starts inside text without `{` |
| RuntimeState.ScanSplice | packages/runtime/js-core/src/domain/state/index.ts:128-145 | the global replace keeps text in which no placeholder starts, replaces the placeholder after it by the replacement of its inner text, and continues after its `}}` |
| RuntimeState.ScanJsonShaped | packages/runtime/js-core/src/domain/state/index.ts:128-145 | in JSON-shaped text `{"k": "{{p}}...`, the leading brace is kept and the placeholder is replaced |
| RuntimeState.ScanPlain | packages/runtime/js-core/src/domain/state/index.ts:128-145 | text holding no placeholder comes back unchanged |
| RuntimeState.PlaceholderPath | packages/runtime/js-core/src/domain/state/index.ts:132 | trimming and splitting `node.key` at dots gives the path `[node, key]`; this needs names without dots and with no whitespace at the outer ends |
| RuntimeInterface.Lookup | packages/runtime/js-core/src/domain/state/index.ts:110-114 | the store answers null without a record; for an empty member path it answers the record's value and type; for a longer path it walks into the value |
| RuntimeInterface.VariableStore.GetValue | packages/runtime/js-core/src/domain/state/index.ts:110-114 | null without a record for `(nodeID, key)`; the record's value and type for an empty member path; the walk into the record's value for a longer path |
| RuntimeInterface.VariableStore.SetVariable | packages/runtime/js-core/src/domain/state/index.ts:64-70 | the record for `(nodeID, key)` is inserted or replaced and nothing else changes; reading it back gives the new value and type |
| JsStrings.Trim | packages/runtime/js-core/src/domain/state/index.ts:132 | the result is a contiguous piece of the input; it neither starts nor ends with whitespace, and only whitespace was cut |
| JsStrings.Split | packages/runtime/js-core/src/domain/state/index.ts:132 | there is at least one part and no part holds the separator; joining the parts with the separator gives the input back |
| JsStrings.SplitJoin | packages/runtime/js-core/src/domain/state/index.ts:132 | splitting undoes joining for parts that do not hold the separator |
| JsonSchemaUtils.SchemaToAST | packages/variable-engine/json-schema/src/json-schema/utils.ts:29-87 | the result is undefined exactly when there is no schema or its type is missing or empty |
| JsonSchemaUtils.TypeNames | packages/variable-engine/json-schema/src/json-schema/utils.ts:74-85 | the names "string", "number", "boolean" and "integer" give the matching primitive; every other name that is not a container kind gives a custom type of that name |
| JsonSchemaUtils.WeakKinds | packages/variable-engine/json-schema/src/json-schema/utils.ts:39-70 | with a truthy `extra.weak`, object, array and map schemas give the weak node of their kind, which has no children |
| JsonSchemaUtils.ObjectProperties | packages/variable-engine/json-schema/src/json-schema/utils.ts:42-59 | an object schema that is not weak gives one property per entry, in sorted order; each keeps its key, has its subschema's translation as type, and carries the subschema's title, description, required and default |
| JsonSchemaUtils.SortByIndex | packages/variable-engine/json-schema/src/json-schema/utils.ts:48 | the entries come out in ascending `extra.index` order, with a missing index counting as 0, and as a permutation of the input |
| JsonSchemaUtils.SortStable | packages/variable-engine/json-schema/src/json-schema/utils.ts:48 | the sort is stable: entries with equal index keep their relative order |
| JsonSchemaUtils.SortUnindexed | packages/variable-engine/json-schema/src/json-schema/utils.ts:48 | entries without any index are left in their order |
| JsonSchemaUtils.MetaIrrelevant | packages/variable-engine/json-schema/src/json-schema/utils.ts:29-87 | a schema's own title, description, default and required play no part in its translation |
| JsonSchemaUtils.AstToSchema | packages/variable-engine/json-schema/src/json-schema/utils.ts:94-187 | the result is undefined exactly for a missing AST or a union; a produced schema has no `extra`, no `additionalProperties` and no metadata of its own |
| JsonSchemaUtils.NoDrilldown | packages/variable-engine/json-schema/src/json-schema/utils.ts:103-108 | with `drilldown: false`, an object gets `properties: {}` and an array or a map gets no `items` |
| JsonSchemaUtils.WithMeta | packages/variable-engine/json-schema/src/json-schema/utils.ts:146-157 | title, description, default and required are copied onto the property's schema only when truthy; the rest of the schema is kept; there is nothing to copy onto when the property's type has no schema |
| JsonSchemaUtils.FalsyDefaultDropped | packages/variable-engine/json-schema/src/json-schema/utils.ts:152-154 | a property whose default is 0 gets a schema without that default |
| JsonSchemaUtils.FromEntries | packages/variable-engine/json-schema/src/json-schema/utils.ts:142-161 | the object holds each key once, with the value of that key's last entry; its keys come in the order of their first occurrence (`FirstSeenKeys`), since a repeated key is overwritten in place |
| JsonSchemaUtils.FromEntriesUnique | packages/variable-engine/json-schema/src/json-schema/utils.ts:142-161 | entries whose keys are distinct come back as they are, in order |
| JsonSchemaUtils.MapNotRoundTrip | packages/variable-engine/json-schema/src/json-schema/utils.ts:173-178 | for every map schema whose value schema has a type: its value type is written back under `items` and read from `additionalProperties`, so the result holds no `additionalProperties` and the map schema does not survive the round trip |
| JsonSchemaUtils.TypeNameRoundTrip | packages/variable-engine/json-schema/src/json-schema/utils.ts:114-136 | `{ type: t }` survives `schemaToAST` then `astToSchema` for every primitive or custom type name `t` |
| JsonSchemaUtils.AstRoundTrip | packages/variable-engine/json-schema/src/json-schema/utils.ts:94-187 | an AST without weak nodes, maps or unions survives `astToSchema` then `schemaToAST` when its custom names are not reserved and its object properties have distinct keys, a type each and truthy-or-missing metadata |
| JsonSchemaUtils.ObjectRoundTrip | packages/variable-engine/json-schema/src/json-schema/utils.ts:138-164 | the object case of the round trip: `fromEntries` and the index sort both keep such properties as they are |
| JsonSchemaUtils.PropertyRoundTrip | packages/variable-engine/json-schema/src/json-schema/utils.ts:143-160 | such a property comes back from its schema entry with the same key, type and metadata |
| JsonSchemaUtils.UnionMembers | packages/variable-engine/json-schema/src/json-schema/utils.ts:202 | every union member is the translation of one of the schemas; every schema with a type contributes its translation; with `UnionMembersTyped` and `UnionMembersDrop` the members are exactly the translations of the typed schemas, in order |
| JsonSchemaUtils.UnionMembersDrop | packages/variable-engine/json-schema/src/json-schema/utils.ts:202 | a schema without a type contributes nothing: the union is the same as for the array without it |
| JsonSchemaUtils.UnionMembersTyped | packages/variable-engine/json-schema/src/json-schema/utils.ts:202 | when every schema has a type, the union has one member per schema, in order |
| JsonSchemaUtils.IsASTMatchSchema | packages/variable-engine/json-schema/src/json-schema/utils.ts:195-208 | one schema is compared through its translation; an array of schemas is compared as the union of their translations |
| JsonSchemaUtils.ArrayMatch | packages/variable-engine/json-schema/src/json-schema/utils.ts:199-205 | an array of typed schemas is compared as the union of all their translations in order |
| Normalize.Graph.Run | packages/plugins/free-auto-layout-plugin/src/dagre-lib/normalize.js:33-36 | `dummyChains` is reset to empty, `edges()` lists every edge once, and the new graph is that of normalizing those edges one after another |
| Normalize.Graph.EdgeList | packages/plugins/free-auto-layout-plugin/src/dagre-lib/normalize.js:35 | every edge of the graph is listed, each exactly once |
| Normalize.Graph.NormalizeEdge | packages/plugins/free-auto-layout-plugin/src/dagre-lib/normalize.js:38-76 | the new graph is exactly `normalizeEdge` of the old one |
| Normalize.Graph.AddChain | packages/plugins/free-auto-layout-plugin/src/dagre-lib/normalize.js:51-73 | the loop adds one dummy and one segment per rank strictly between the ends; the last dummy (or the edge's tail when there is none) is where the closing segment starts |
| Normalize.Graph.AddChainDummy | packages/plugins/free-auto-layout-plugin/src/dagre-lib/normalize.js:53-72 | one round adds the next dummy with its label and the segment into it; the first round also appends the dummy to `dummyChains` |
| Normalize.Graph.AddDummyNode | packages/plugins/free-auto-layout-plugin/src/dagre-lib/normalize.js:61 | the node is added under an id that was not a node before, and nothing else changes; when every id lies below the counter, the id is the counter |
| Normalize.Graph.SetEdge | packages/plugins/free-auto-layout-plugin/src/dagre-lib/normalize.js:75 | `setEdge` creates missing endpoints with a blank label and sets the edge's label |
| Normalize.Graph.RemoveNode | packages/plugins/free-auto-layout-plugin/src/dagre-lib/normalize.js:86 | `removeNode` drops the node and every edge touching it |
| Normalize.RemoveNodeShape | packages/plugins/free-auto-layout-plugin/src/dagre-lib/normalize.js:86 | removing a node keeps every edge that does not touch it, with its label, and keeps the graph well formed |
| Normalize.Graph.FirstSuccessor | packages/plugins/free-auto-layout-plugin/src/dagre-lib/normalize.js:85 | the answer is the node's first successor, or none when it has none |
| Normalize.FirstSucc | packages/plugins/free-auto-layout-plugin/src/dagre-lib/normalize.js:85 | the answer is none exactly when there is no successor; otherwise it is a successor, the least one |
| Normalize.DummyCount | packages/plugins/free-auto-layout-plugin/src/dagre-lib/normalize.js:52 | the loop makes one dummy per rank strictly between the ends, and none unless both ranks are defined |
| Normalize.NormalizeEdgeAdded | packages/plugins/free-auto-layout-plugin/src/dagre-lib/normalize.js:49-75 | an edge not one rank long is replaced by its chain: dummies with ranks from the tail's rank plus one upwards; the one at `labelRank` is an "edge-label" dummy with the label's width, height and labelpos; the others are "edge" dummies of size 0; each segment keeps the edge's name and has a label holding only its weight; the first dummy is appended to `dummyChains`; every other node and edge is kept |
| Normalize.NormalizeEdgeKeeps | packages/plugins/free-auto-layout-plugin/src/dagre-lib/normalize.js:38-76 | `normalizeEdge` keeps the graph well formed and every id below the counter; every existing node and every other edge is unchanged |
| Normalize.NormalizeEdgeSpans | packages/plugins/free-auto-layout-plugin/src/dagre-lib/normalize.js:47-75 | on an edge going down the ranks, every resulting edge is another edge of the input or spans exactly one rank; the edge stays exactly when it already spans one rank |
| Normalize.NormalizeAll | packages/plugins/free-auto-layout-plugin/src/dagre-lib/normalize.js:35 | normalizing the edges in turn keeps the graph well formed and never lowers the counter |
| Normalize.RunSpansOne | packages/plugins/free-auto-layout-plugin/src/dagre-lib/normalize.js:26-28 | after `run` on a graph whose edges all go down the ranks, every edge spans exactly one rank |
| NormalizeRun.RunStep | packages/plugins/free-auto-layout-plugin/src/dagre-lib/normalize.js:35 | one more `normalizeEdge` keeps the invariant of `run`, and adds the edge's chain when it splits the edge |
| NormalizeTheorem.RunAll | packages/plugins/free-auto-layout-plugin/src/dagre-lib/normalize.js:33-36 | after the whole edge list, the invariant holds with every edge handled; it covers the chains in place, `dummyChains` as their heads, the original nodes kept and every unsplit edge's label |
| NormalizeTheorem.ChainsSplit | packages/plugins/free-auto-layout-plugin/src/dagre-lib/normalize.js:69-71 | the chains `run` records stand for exactly the edges spanning more than one rank |
| NormalizeTheorem.UntouchedAfterRun | packages/plugins/free-auto-layout-plugin/src/dagre-lib/normalize.js:47-75 | after `run`, the edges touching no dummy are exactly the unsplit edges, under their settled labels |
| Normalize.StepLabel | packages/plugins/free-auto-layout-plugin/src/dagre-lib/normalize.js:87-93 | each dummy walked appends its position to `points`; an "edge-label" dummy also hands its position and size to the label; weight, label rank and labelpos are kept |
| Normalize.Graph.WalkChain | packages/plugins/free-auto-layout-plugin/src/dagre-lib/normalize.js:84-96 | the walk fails exactly when the model's walk `Walk` fails; when it succeeds it leaves `Walk`'s graph and label |
| Normalize.Graph.UndoChain | packages/plugins/free-auto-layout-plugin/src/dagre-lib/normalize.js:80-96 | one chain is undone exactly as `UndoChainG` says, and fails exactly when that fails |
| Normalize.Graph.Undo | packages/plugins/free-auto-layout-plugin/src/dagre-lib/normalize.js:78-97 | the chains are undone in `dummyChains` order; it fails exactly when one of them fails, and otherwise leaves `UndoG`'s graph |
| Normalize.FoldPoints | packages/plugins/free-auto-layout-plugin/src/dagre-lib/normalize.js:87 | along dummies, `points` gains exactly their positions, in chain order |
| Normalize.UndoChainRemoves | packages/plugins/free-auto-layout-plugin/src/dagre-lib/normalize.js:79-96 | undoing a chain that is in place succeeds; it removes exactly the chain's dummies and the edges touching them, keeps everything else, and puts the edge back under the label rebuilt along the chain |
| Normalize.UndoChainsAll | packages/plugins/free-auto-layout-plugin/src/dagre-lib/normalize.js:79 | undoing chains that are in place one after another succeeds and removes all of them |
| NormalizeTheorem.RebuiltAlong | packages/plugins/free-auto-layout-plugin/src/dagre-lib/normalize.js:84-96 | the rebuilt label has the dummies' positions in chain order as `points`, and the original weight, label rank and labelpos |
| NormalizeTheorem.UndoAfterRun | packages/plugins/free-auto-layout-plugin/src/dagre-lib/normalize.js:78-97 | `undo` on the graph `run` left succeeds once later phases have positioned the dummies, and undoes every recorded chain |
| NormalizeTheorem.UndoneAfterRun | packages/plugins/free-auto-layout-plugin/src/dagre-lib/normalize.js:78-97 | after `run` then `undo`, the nodes are the original nodes and the edge keys the original ones; each unsplit edge has its settled label and each split edge its label rebuilt along its chain |
| NormalizeTheorem.RunThenUndo | packages/plugins/free-auto-layout-plugin/src/dagre-lib/normalize.js:17-32 | for `run`, then phases that only position dummies, then `undo`: `dummyChains` holds one chain head per edge spanning more than one rank; `undo` succeeds and restores the original nodes and edge keys; each split edge gets back its weight, label rank and labelpos, with the dummies' positions in chain order as `points` |

## Left out

- The variable store's path walk, `WorkflowRuntimeType.getWorkflowType`,
  `isTypeEqual` and JavaScript's `String()` of non-string values are defined
  outside these files. They are functions fixed when the store or the state is
  built (`RuntimeInterface.Host`, `RuntimeInterface.PathWalk`).
- `RuntimeInterface.Schema`: a declared property always has a `type` here. In
  the source `typeInfo.type` may be undefined and is then stored as it is; a
  missing type is not modelled. This schema type is separate from
  `JsonSchemaUtils.Schema`, which models the fields the schema utilities read.
- `uuid()` is not modelled; the constructor takes the run id as a parameter.
- Before `init` the executed set does not exist (`undefined` in JavaScript).
  It is `None` here. `RuntimeState.WorkflowRuntimeState.Dispose`,
  `AddExecutedNode` and `IsExecutedNode` require `init` to have run, where the
  source would throw.
- `RuntimeState.WorkflowRuntimeState.ParseInputs`, `GetNodeInputs` and
  `SetNodeOutputs` require distinct keys in their entry lists, because they
  stand for JavaScript objects. Each key can occur only once in
  `Object.entries`.
- The flow value tags `constant`, `ref` and `template` are datatype
  constructors. Any other tag, or a missing one, is `Other`. A `null` flow
  value is not modelled separately from a missing tag.
- JavaScript numbers are reals (`JsValues.Value`): NaN, and with it the
  falsiness of NaN, is not represented; nor is the identity of objects.
- JsonSchemaUtils:
  - `ASTFactory` and `ASTMatch` are the constructors and discriminators of the
    datatype `TypeAST`;
  - `isTypeEqual` of `isASTMatchSchema` is a parameter;
  - `createUnion` is the `Union` constructor.
- JsonSchemaUtils.SchemaToAST requires `Defined`: every property entry it
  reads is defined. It reads the entries of an object schema that is not weak,
  and it descends only into the items of an array and the value type of a map
  that are not weak. On an undefined entry the source throws when it reads
  `title`; that throw is not modelled.
- JsonSchemaUtils: schema fields other than type, extra, properties, items,
  additionalProperties, title, description, default and required are not
  modelled. `extra.index` is an integer.
- JsonSchemaUtils:
  - the map produced by `Object.fromEntries` is an ordered entry list;
  - integer-like keys, which JavaScript enumerates first, are not given that
    order.
- Normalize: node ids are naturals. The counter stands for `util.addDummyNode`'s
  unique-name generator, and `Fresh` (every id lies below the counter) is an
  invariant of the model.
- Normalize.FirstSucc: graphlib lists successors in insertion order; the model
  takes the least. The two agree when a dummy has one successor, which holds on
  every chain `run` builds.
- Normalize:
  - labels are values, not shared objects;
  - `undo` sets the edge first and mutates the shared label during the walk;
    the model writes the rebuilt label on the edge once the walk ends;
  - the node label held by `addDummyNode` is shared in the same way; the model
    sets the fields before adding the node.
- Normalize: compound graphs, edge and node attributes that this phase does
  not touch, and other kinds of dummies (`border`, `selfedge`) are not
  modelled.
- Normalize: the order of `g.edges()` is not modelled. `Graph.Run` returns the
  list it used as a ghost value, and the lemmas hold for every order.
- Normalize: `undo` can throw. This happens when a label has no `points`, when
  a dummy has no successor, or when a chain head is missing. Each such case is
  a failure (`None`, `false`); the JavaScript exception is not modelled as
  such.
- Normalize.UndoChainG fails on a chain head that is not a dummy. The source
  does not throw there: `setEdge(undefined, undefined)` adds a node named
  "undefined" with a self-edge, the walk stops at once, and `undo` goes on with
  the next chain. That graph is not modelled. After `run` every chain head is
  a dummy (`NormalizeTheorem.UndoAfterRun`).
- Normalize: the x and y coordinates come from later layout phases. They are
  only copied, and `NormalizeTheorem.Moved` states what those phases may
  change.
- NormalizeTheorem.RunThenUndo requires a graph without dummy nodes, the state
  in which `run` is called.
- NormalizeTheorem.RunThenUndo states the labels of the split edges through
  `points`, weight, label rank and labelpos. The label dummy's position and
  size, copied back onto the label, are stated per step in
  `Normalize.StepLabel` only.
