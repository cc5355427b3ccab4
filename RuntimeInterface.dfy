/** The types the runtime state engine consumes from the runtime interface
    package: flow values, node declarations, variable types, and the variable
    store together with the helpers of `WorkflowRuntimeType`. The store's path
    walk and the type helpers are not part of this model; they are carried as
    functions fixed when the store or the state is built. */
module RuntimeInterface {
  import opened Wrappers
  import opened JsValues

  /** A `WorkflowVariableType` tag such as "string" or "number"; declarations
      carry it as a raw schema `type` string. */
  type VarType = string

  const StringType: VarType := "string"

  /** `IVariableParseResult`: a resolved value and its runtime type. */
  datatype ParseResult = ParseResult(value: Value, type_: VarType)

  /** The record the store keeps for one `(nodeID, key)`. */
  datatype VarRecord = VarRecord(value: Value, type_: VarType, itemsType: Option<VarType>)

  /** The store's walk into a stored value along a non-empty member path. */
  type PathWalk = (VarRecord, seq<string>) -> Option<ParseResult>

  /** `IJsonSchema` as the runtime reads it: a type, an items schema, named
      properties. The type is always present here; a declared property
      without one is not modelled. */
  datatype Schema = Schema(type_: VarType, items: Option<Schema>, properties: Option<map<string, Schema>>)

  /** A type tag that is none of the three known flow value tags (possibly missing). */
  type UnknownTag = t: Option<string> | t != Some("constant") && t != Some("ref") && t != Some("template")
    witness None

  /** `IFlowValue`, by its `type` tag: a literal, a reference path, a template
      string, or a value whose tag is missing or unknown. */
  datatype FlowValue =
    | Constant(content: Value)
    | Ref(path: Option<seq<string>>)
    | Template(text: Option<string>)
    | Other(tag: UnknownTag)

  /** `node.declare`: input schema, input flow values by key, output schema. */
  datatype NodeDeclare = NodeDeclare(
    inputs: Option<Schema>,
    inputsValues: Option<seq<(string, FlowValue)>>,
    outputs: Option<Schema>)

  datatype Node = Node(id: string, declare: NodeDeclare)

  /** The runtime helpers the state engine calls but does not define:
      `WorkflowRuntimeType.getWorkflowType` and `isTypeEqual`, and JavaScript's
      `String(value)` for values that are not strings. `getWorkflowType` may
      answer none or an empty name; the state engine treats both as no type. */
  datatype Host = Host(
    getWorkflowType: Value -> Option<VarType>,
    isTypeEqual: (VarType, VarType) -> bool,
    stringify: Value -> string)

  /** The errors the state engine throws. */
  datatype RuntimeError =
    | InvalidRefValue
    | InvalidTemplateValue
    | InvalidFlowValueType
    | UnknownFlowValueType(tag: string)

  /** The entries of a JavaScript object: no key occurs twice. */
  ghost predicate UniqueKeys<T>(entries: seq<(string, T)>)
  {
    forall i, j :: 0 <= i < j < |entries| ==> entries[i].0 != entries[j].0
  }

  /** The store's answer for `(nodeID, key)` and a member `path`: no record
      gives null; an empty path gives the record's value and declared type; a
      longer path is walked into the value. */
  function Lookup(vars: map<(string, string), VarRecord>, walk: PathWalk,
                  nodeID: string, key: string, path: seq<string>): (r: Option<ParseResult>)
    ensures (nodeID, key) !in vars ==> r == None
    ensures (nodeID, key) in vars && path == [] ==>
              r == Some(ParseResult(vars[(nodeID, key)].value, vars[(nodeID, key)].type_))
    ensures (nodeID, key) in vars && path != [] ==> r == walk(vars[(nodeID, key)], path)
  {
    if (nodeID, key) !in vars then None
    else if path == [] then Some(ParseResult(vars[(nodeID, key)].value, vars[(nodeID, key)].type_))
    else walk(vars[(nodeID, key)], path)
  }

  /** `IVariableStore`: one record per `(nodeID, key)`. */
  class VariableStore {
    var vars: map<(string, string), VarRecord>
    const walk: PathWalk

    constructor (walk: PathWalk)
      ensures vars == map[] && this.walk == walk
    {
      vars := map[];
      this.walk := walk;
    }

    /** `getValue`: null without a record; the record's value and type for
        an empty member path; the walk into the value otherwise. */
    function GetValue(nodeID: string, key: string, path: seq<string>): (r: Option<ParseResult>)
      reads this
      ensures (nodeID, key) !in vars ==> r == None
      ensures (nodeID, key) in vars && path == [] ==>
                r == Some(ParseResult(vars[(nodeID, key)].value, vars[(nodeID, key)].type_))
      ensures (nodeID, key) in vars && path != [] ==> r == walk(vars[(nodeID, key)], path)
      ensures r == Lookup(vars, walk, nodeID, key, path)
    {
      Lookup(vars, walk, nodeID, key, path)
    }

    /** `setVariable`: inserts or overwrites the record for `(nodeID, key)`;
        a later read of that key with an empty path gives the new value. */
    method SetVariable(nodeID: string, key: string, value: Value, type_: VarType, itemsType: Option<VarType>)
      modifies this
      ensures vars == old(vars)[(nodeID, key) := VarRecord(value, type_, itemsType)]
      ensures GetValue(nodeID, key, []) == Some(ParseResult(value, type_))
    {
      vars := vars[(nodeID, key) := VarRecord(value, type_, itemsType)];
    }
  }
}
