/** `WorkflowRuntimeState`: the per-run state of the workflow runtime. It
    tracks which nodes have executed, resolves flow values (constants,
    references, templates) against the variable store, binds a node's declared
    inputs and writes its declared outputs into the store. */
module RuntimeState {
  import opened Wrappers
  import opened JsValues
  import opened JsStrings
  import opened RuntimeInterface

  // ---------------------------------------------------------------------------
  // The template placeholder `{{...}}`, the global pattern /\{\{([^\}]+)\}\}/g.
  // ---------------------------------------------------------------------------

  /** `t` starts with a placeholder whose closing `}}` sits at `j`: the text
      opens with `{{`, has at least one character and no `}` before `j`, and
      `t[j..j+2]` is `}}`. */
  ghost predicate IsPlaceholder(t: string, j: int)
  {
    2 < j && j + 1 < |t| && t[0] == '{' && t[1] == '{' && t[j] == '}' && t[j + 1] == '}'
    && forall k :: 2 <= k < j ==> t[k] != '}'
  }

  /** The first `}` at or after `from`. */
  function FirstClose(t: string, from: nat): (r: Option<nat>)
    requires from <= |t|
    ensures r.Some? ==> from <= r.value < |t| && t[r.value] == '}'
                        && forall k :: from <= k < r.value ==> t[k] != '}'
    ensures r.None? ==> forall k :: from <= k < |t| ==> t[k] != '}'
    decreases |t| - from
  {
    if from == |t| then None
    else if t[from] == '}' then Some(from)
    else FirstClose(t, from + 1)
  }

  /** Where the placeholder at the start of `t` closes, if `t` starts with one. */
  function PlaceholderEnd(t: string): (r: Option<nat>)
    ensures r.Some? ==> IsPlaceholder(t, r.value)
    ensures r.None? ==> forall j :: !IsPlaceholder(t, j)
  {
    if |t| < 2 || t[0] != '{' || t[1] != '{' then None
    else match FirstClose(t, 2)
      case None => None
      case Some(j) => if j > 2 && j + 1 < |t| && t[j + 1] == '}' then Some(j) else None
  }

  /** The global replace as a left-to-right scan with replacement `sub` for
      a placeholder's inner text: a placeholder at the front is replaced and
      scanning resumes after its `}}`; otherwise one character is copied. */
  function Scan(t: string, sub: string -> string): (r: string)
    ensures '{' !in t ==> r == t
    decreases |t|
  {
    if t == [] then []
    else match PlaceholderEnd(t)
      case Some(j) => sub(t[2..j]) + Scan(t[j + 2..], sub)
      case None => [t[0]] + Scan(t[1..], sub)
  }

  /** `t` contains no placeholder at any position. */
  ghost predicate NoPlaceholder(t: string)
  {
    forall i, j :: 0 <= i < |t| ==> !IsPlaceholder(t[i..], j)
  }

  /** A text that opens with a well-formed placeholder: it closes right after the pattern. */
  lemma PlaceholderAtFront(pattern: string, suffix: string)
    requires pattern != [] && '}' !in pattern
    ensures var t := "{{" + pattern + "}}" + suffix;
            PlaceholderEnd(t) == Some(|pattern| + 2) && t[2..|pattern| + 2] == pattern && t[|pattern| + 4..] == suffix
  {
    var t := "{{" + pattern + "}}" + suffix;
    var j := |pattern| + 2;
    forall k | 2 <= k < j ensures t[k] != '}' { assert t[k] == pattern[k - 2]; }
    assert IsPlaceholder(t, j);
    assert t[2..j] == pattern;
    assert t[j + 2..] == suffix;
  }

  /** A character that cannot open a placeholder is copied. */
  lemma ScanCons(c: char, rest: string, sub: string -> string)
    requires c != '{'
    ensures Scan([c] + rest, sub) == [c] + Scan(rest, sub)
  {
    var t := [c] + rest;
    assert t[0] == c;
    assert t[1..] == rest;
  }

  /** No placeholder starts at any of the first `n` positions of `t`. */
  predicate OpensNoPlaceholder(t: string, n: nat)
    decreases n
  {
    n <= |t| && (n > 0 ==> PlaceholderEnd(t).None? && OpensNoPlaceholder(t[1..], n - 1))
  }

  /** `OpensNoPlaceholder` says that at each of the first `n` positions no
      placeholder starts. */
  lemma {:induction false} OpensNoPlaceholderAt(t: string, n: nat)
    requires n <= |t|
    ensures OpensNoPlaceholder(t, n) <==> forall i | 0 <= i < n :: PlaceholderEnd(t[i..]).None?
    decreases n
  {
    if n > 0 {
      OpensNoPlaceholderAt(t[1..], n - 1);
      assert t[0..] == t;
      forall i | 1 <= i < n ensures t[1..][i - 1..] == t[i..] {}
    }
  }

  /** Scanning text at which no placeholder starts copies its first character. */
  lemma ScanCopies(t: string, sub: string -> string)
    requires t != [] && PlaceholderEnd(t).None?
    ensures Scan(t, sub) == [t[0]] + Scan(t[1..], sub)
  {
  }

  /** Scanning text that starts with a placeholder replaces it. */
  lemma ScanReplaces(t: string, j: nat, sub: string -> string)
    requires PlaceholderEnd(t) == Some(j)
    ensures Scan(t, sub) == sub(t[2..j]) + Scan(t[j + 2..], sub)
  {
  }

  /** Text in which no placeholder starts is copied through unchanged,
      whatever follows it; it may hold braces that open no placeholder. */
  lemma {:induction false} ScanOpenText(prefix: string, rest: string, sub: string -> string)
    requires OpensNoPlaceholder(prefix + rest, |prefix|)
    ensures Scan(prefix + rest, sub) == prefix + Scan(rest, sub)
    decreases |prefix|
  {
    if prefix == [] {
      assert prefix + rest == rest;
    } else {
      var t := prefix + rest;
      var tail := prefix[1..];
      assert t[1..] == tail + rest;
      ScanCopies(t, sub);
      ScanOpenText(tail, rest, sub);
      ConsConcat(t[0], tail, Scan(rest, sub));
      assert prefix == [t[0]] + tail;
    }
  }

  /** `[c] + (a + b) == ([c] + a) + b`. */
  lemma ConsConcat(c: char, a: string, b: string)
    ensures [c] + (a + b) == ([c] + a) + b
  {
  }

  /** Text without `{` opens no placeholder, whatever follows it. */
  lemma {:induction false} BraceFreeOpensNone(prefix: string, rest: string)
    requires '{' !in prefix
    ensures OpensNoPlaceholder(prefix + rest, |prefix|)
    decreases |prefix|
  {
    if prefix != [] {
      var t := prefix + rest;
      assert t[0] == prefix[0];
      assert t[1..] == prefix[1..] + rest;
      assert '{' !in prefix[1..] by {
        forall k | 0 <= k < |prefix[1..]| ensures prefix[1..][k] != '{' { assert prefix[1..][k] == prefix[k + 1]; }
      }
      BraceFreeOpensNone(prefix[1..], rest);
    }
  }

  /** A well-formed placeholder after text in which no placeholder starts is
      replaced by its substitution, and scanning resumes right after its
      closing `}}`. */
  lemma ScanSplice(prefix: string, pattern: string, suffix: string, sub: string -> string)
    requires OpensNoPlaceholder(prefix + "{{" + pattern + "}}" + suffix, |prefix|)
    requires pattern != [] && '}' !in pattern
    ensures Scan(prefix + "{{" + pattern + "}}" + suffix, sub) == prefix + sub(pattern) + Scan(suffix, sub)
  {
    var front := "{{" + pattern + "}}" + suffix;
    PlaceholderAtFront(pattern, suffix);
    ScanReplaces(front, |pattern| + 2, sub);
    SpliceConcat(prefix, pattern, suffix);
    ScanOpenText(prefix, front, sub);
  }

  /** The template text as the placeholder at the front of what follows the prefix. */
  lemma SpliceConcat(prefix: string, pattern: string, suffix: string)
    ensures prefix + "{{" + pattern + "}}" + suffix == prefix + ("{{" + pattern + "}}" + suffix)
  {
  }

  /** JSON-shaped template text: the braces and quotes before the placeholder
      open no placeholder and are kept; the placeholder is replaced. */
  lemma ScanJsonShaped(pattern: string, suffix: string, sub: string -> string)
    requires pattern != [] && '}' !in pattern
    ensures Scan("{\"k\": \"" + "{{" + pattern + "}}" + suffix, sub) == "{\"k\": \"" + sub(pattern) + Scan(suffix, sub)
  {
    var prefix := "{\"k\": \"";
    var t := prefix + "{{" + pattern + "}}" + suffix;
    assert t[1] == '"';
    assert t[1..] == prefix[1..] + ("{{" + pattern + "}}" + suffix);
    BraceFreeOpensNone(prefix[1..], "{{" + pattern + "}}" + suffix);
    ScanSplice(prefix, pattern, suffix, sub);
  }

  /** Text that contains no placeholder comes back unchanged. */
  lemma {:induction false} ScanPlain(t: string, sub: string -> string)
    requires NoPlaceholder(t)
    ensures Scan(t, sub) == t
    decreases |t|
  {
    if t != [] {
      assert t[0..] == t;
      assert PlaceholderEnd(t).None? by {
        forall j ensures !IsPlaceholder(t, j) { assert !IsPlaceholder(t[0..], j); }
      }
      assert NoPlaceholder(t[1..]) by {
        forall i, j | 0 <= i < |t[1..]| ensures !IsPlaceholder(t[1..][i..], j) {
          assert t[1..][i..] == t[i + 1..];
        }
      }
      ScanPlain(t[1..], sub);
    }
  }

  /** The two ways of writing a template with the placeholder `{{node.key}}`
      are the same text, and it is not empty. */
  lemma PlaceholderConcat(prefix: string, nodeID: string, key: string, suffix: string)
    ensures prefix + "{{" + nodeID + "." + key + "}}" + suffix == prefix + "{{" + (nodeID + "." + key) + "}}" + suffix
    ensures prefix + "{{" + nodeID + "." + key + "}}" + suffix != []
  {
    var t := prefix + "{{" + nodeID + "." + key + "}}" + suffix;
    assert |t| >= 4;
  }

  /** `String(value)`: a string is itself, anything else goes to `stringify`. */
  function Text(stringify: Value -> string, v: Value): (s: string)
    ensures v.Str? ==> s == v.s
  {
    if v.Str? then v.s else stringify(v)
  }

  /** The replacement of a placeholder with inner text `pattern` against a
      snapshot of the store: the reference `pattern.trim().split('.')` as
      text, or "" when it does not resolve. */
  function Resolved(vars: map<(string, string), VarRecord>, walk: PathWalk, stringify: Value -> string,
                    pattern: string): string
  {
    var p := Split(Trim(pattern), '.');
    if |p| < 2 then ""
    else match Lookup(vars, walk, p[0], p[1], p[2..])
      case Some(res) => Text(stringify, res.value)
      case None => ""
  }

  /** The placeholder text `node.key` (no whitespace at its ends, no dots
      inside the two names) is the reference `[node, key]`. */
  lemma PlaceholderPath(nodeID: string, key: string)
    requires '.' !in nodeID && '.' !in key
    requires nodeID != [] && !IsWhitespace(nodeID[0])
    requires key != [] && !IsWhitespace(key[|key| - 1])
    ensures Split(Trim(nodeID + "." + key), '.') == [nodeID, key]
  {
    var t := nodeID + "." + key;
    assert t[0] == nodeID[0];
    assert TrimStart(t) == t;
    assert t[|t| - 1] == key[|key| - 1];
    assert TrimEnd(t) == t;
    assert Trim(t) == t;
    var parts := [nodeID, key];
    assert parts[1..] == [key];
    assert Join(parts, '.') == t;
    SplitJoin(parts, '.');
  }

  /** The input key has a declared property schema. */
  predicate Declared(declare: Schema, key: string)
  {
    declare.properties.Some? && key in declare.properties.value
  }

  /** The output keys that have a declared property schema. */
  ghost function DeclaredOutputs(declare: Schema, outputs: seq<(string, Value)>): set<string>
  {
    set i | 0 <= i < |outputs| && Declared(declare, outputs[i].0) :: outputs[i].0
  }

  /** The record written for a declared output: the produced value, tagged
      with the declared type and the declared `items.type`. */
  function OutputRecord(declare: Schema, key: string, value: Value): VarRecord
    requires Declared(declare, key)
  {
    var typeInfo := declare.properties.value[key];
    VarRecord(value, typeInfo.type_, if typeInfo.items.Some? then Some(typeInfo.items.value.type_) else None)
  }

  /** The store keys of the declared outputs of node `nodeID`. */
  ghost function OutputKeys(nodeID: string, declare: Schema, outputs: seq<(string, Value)>): set<(string, string)>
  {
    set k | k in DeclaredOutputs(declare, outputs) :: (nodeID, k)
  }

  /** The store after writing `outputs` of node `nodeID` against `declare`:
      exactly the declared produced keys are (over)written, nothing else changes. */
  ghost predicate OutputsWritten(before: map<(string, string), VarRecord>, after: map<(string, string), VarRecord>,
                                 nodeID: string, declare: Schema, outputs: seq<(string, Value)>)
  {
    && after.Keys == before.Keys + OutputKeys(nodeID, declare, outputs)
    && (forall i :: 0 <= i < |outputs| && Declared(declare, outputs[i].0) ==>
          after[(nodeID, outputs[i].0)] == OutputRecord(declare, outputs[i].0, outputs[i].1))
    && (forall k :: k in before && !(k.0 == nodeID && k.1 in DeclaredOutputs(declare, outputs)) ==>
          after[k] == before[k])
  }

  /** The declared output keys of one more entry. */
  lemma DeclaredOutputsStep(declare: Schema, outputs: seq<(string, Value)>, i: nat)
    requires i < |outputs|
    ensures DeclaredOutputs(declare, outputs[..i + 1]) ==
              DeclaredOutputs(declare, outputs[..i]) + (if Declared(declare, outputs[i].0) then {outputs[i].0} else {})
  {
    var pre, post := outputs[..i], outputs[..i + 1];
    var extra: set<string> := if Declared(declare, outputs[i].0) then {outputs[i].0} else {};
    forall k | k in DeclaredOutputs(declare, post) ensures k in DeclaredOutputs(declare, pre) + extra {
      var j :| 0 <= j < |post| && Declared(declare, post[j].0) && post[j].0 == k;
      if j < i { assert pre[j] == post[j]; }
    }
    forall k | k in DeclaredOutputs(declare, pre) + extra ensures k in DeclaredOutputs(declare, post) {
      if k in DeclaredOutputs(declare, pre) {
        var j :| 0 <= j < |pre| && Declared(declare, pre[j].0) && pre[j].0 == k;
        assert post[j] == pre[j];
      } else {
        assert post[i] == outputs[i];
      }
    }
  }

  /** One step of `setNodeOutputs` at a declared entry `i`: writing it extends
      the promise from the first `i` entries to the first `i + 1`. */
  lemma OutputsStepDeclared(before: map<(string, string), VarRecord>, mid: map<(string, string), VarRecord>,
                            nodeID: string, declare: Schema, outputs: seq<(string, Value)>, i: nat)
    requires i < |outputs| && UniqueKeys(outputs) && Declared(declare, outputs[i].0)
    requires OutputsWritten(before, mid, nodeID, declare, outputs[..i])
    ensures OutputsWritten(before, mid[(nodeID, outputs[i].0) := OutputRecord(declare, outputs[i].0, outputs[i].1)],
                           nodeID, declare, outputs[..i + 1])
  {
    var key := outputs[i].0;
    var pre, post := outputs[..i], outputs[..i + 1];
    DeclaredOutputsStep(declare, outputs, i);
    var after := mid[(nodeID, key) := OutputRecord(declare, key, outputs[i].1)];
    assert OutputKeys(nodeID, declare, post) == OutputKeys(nodeID, declare, pre) + {(nodeID, key)};
    forall j | 0 <= j < |post| && Declared(declare, post[j].0)
      ensures after[(nodeID, post[j].0)] == OutputRecord(declare, post[j].0, post[j].1)
    {
      if j < i {
        assert post[j] == pre[j] == outputs[j];
        assert outputs[j].0 != key;
      }
    }
  }

  /** One step of `setNodeOutputs` at an undeclared entry `i`: nothing is
      written and the promise extends to the first `i + 1` entries. */
  lemma OutputsStepSkipped(before: map<(string, string), VarRecord>, mid: map<(string, string), VarRecord>,
                           nodeID: string, declare: Schema, outputs: seq<(string, Value)>, i: nat)
    requires i < |outputs| && !Declared(declare, outputs[i].0)
    requires OutputsWritten(before, mid, nodeID, declare, outputs[..i])
    ensures OutputsWritten(before, mid, nodeID, declare, outputs[..i + 1])
  {
    var pre, post := outputs[..i], outputs[..i + 1];
    DeclaredOutputsStep(declare, outputs, i);
    forall j | 0 <= j < |post| && Declared(declare, post[j].0)
      ensures mid[(nodeID, post[j].0)] == OutputRecord(declare, post[j].0, post[j].1)
    {
      assert j < i;
      assert post[j] == pre[j];
    }
  }

  /** The runtime state of one workflow run. */
  class WorkflowRuntimeState {
    /** The run identity, drawn once by the constructor (`uuid()`). */
    const id: string
    const variableStore: VariableStore
    /** `WorkflowRuntimeType` and `String()`, which the source imports. */
    const host: Host
    /** The executed node IDs; `None` until `init` has created the set. */
    var executedNodes: Option<set<string>>

    constructor (variableStore: VariableStore, host: Host, id: string)
      ensures this.variableStore == variableStore && this.host == host && this.id == id
      ensures executedNodes == None
    {
      this.variableStore := variableStore;
      this.host := host;
      this.id := id;
      executedNodes := None;
    }

    /** `init`: a fresh, empty executed set; no node reads as executed. */
    method Init()
      modifies this
      ensures executedNodes == Some({})
      ensures forall node: Node :: !IsExecutedNode(node)
    {
      executedNodes := Some({});
    }

    /** `dispose`: clears the executed set. */
    method Dispose()
      requires executedNodes.Some?
      modifies this
      ensures executedNodes == Some({})
      ensures forall node: Node :: !IsExecutedNode(node)
    {
      executedNodes := Some({});
    }

    /** `isExecutedNode`: membership of the node's ID in the executed set. */
    function IsExecutedNode(node: Node): (r: bool)
      reads this
      requires executedNodes.Some?
      ensures r <==> node.id in executedNodes.value
    {
      node.id in executedNodes.value
    }

    /** `addExecutedNode`: marks the node executed; idempotent, and no other
        node's status changes. */
    method AddExecutedNode(node: Node)
      requires executedNodes.Some?
      modifies this
      ensures executedNodes == Some(old(executedNodes.value) + {node.id})
      ensures IsExecutedNode(node)
      ensures forall n: Node :: n.id != node.id ==> (IsExecutedNode(n) <==> old(IsExecutedNode(n)))
      ensures old(IsExecutedNode(node)) ==> executedNodes == old(executedNodes)
    {
      ghost var before := executedNodes.value;
      executedNodes := Some(executedNodes.value + {node.id});
      assert node.id in before ==> before + {node.id} == before;
    }

    /** `parseRef`: a value not tagged `ref` throws; a missing path or one with
        fewer than two segments gives null; otherwise the store's value at
        `[nodeID, key, ...path]`. */
    function ParseRef(ref: FlowValue): (r: Result<Option<ParseResult>, RuntimeError>)
      reads variableStore
      ensures !ref.Ref? <==> r == Err(InvalidRefValue)
      ensures ref.Ref? && (ref.path.None? || |ref.path.value| < 2) ==> r == Ok(None)
      ensures ref.Ref? && ref.path.Some? && |ref.path.value| >= 2 ==>
                r == Ok(variableStore.GetValue(ref.path.value[0], ref.path.value[1], ref.path.value[2..]))
    {
      if !ref.Ref? then Err(InvalidRefValue)
      else if ref.path.None? || |ref.path.value| < 2 then Ok(None)
      else
        var p := ref.path.value;
        Ok(variableStore.GetValue(p[0], p[1], p[2..]))
    }

    /** The replacement the template scanner uses: for each placeholder text,
        the reference it names parsed with `parseRef` and turned into text,
        or "" when the reference resolves to null. */
    function Substitution(): (sub: string -> string)
      reads variableStore
      ensures forall pattern :: sub(pattern) ==
                match ParseRef(Ref(Some(Split(Trim(pattern), '.'))))
                case Ok(Some(res)) => Text(host.stringify, res.value)
                case _ => ""
    {
      var vars, walk, stringify := variableStore.vars, variableStore.walk, host.stringify;
      (pattern: string) => Resolved(vars, walk, stringify, pattern)
    }

    /** The template text after the global placeholder replace; a text
        without placeholders comes back as it is. */
    function Expand(t: string): (r: string)
      reads variableStore
      ensures NoPlaceholder(t) ==> r == t
    {
      var sub := Substitution();
      assert NoPlaceholder(t) ==> Scan(t, sub) == t by {
        if NoPlaceholder(t) { ScanPlain(t, sub); }
      }
      Scan(t, sub)
    }

    /** `parseTemplate`: a value not tagged `template` throws; missing or empty
        text gives null; otherwise the expanded text, typed String. */
    function ParseTemplate(template: FlowValue): (r: Result<Option<ParseResult>, RuntimeError>)
      reads variableStore
      ensures !template.Template? <==> r == Err(InvalidTemplateValue)
      ensures template.Template? && (template.text.None? || template.text.value == "") ==> r == Ok(None)
      ensures template.Template? && template.text.Some? && template.text.value != "" ==>
                r == Ok(Some(ParseResult(Str(Expand(template.text.value)), StringType)))
    {
      if !template.Template? then Err(InvalidTemplateValue)
      else if template.text.None? || template.text.value == "" then Ok(None)
      else Ok(Some(ParseResult(Str(Expand(template.text.value)), StringType)))
    }

    /** `parseValue`: only a missing or unknown tag throws; a constant is null
        exactly when it is nil or has no workflow type, and otherwise comes
        back with its inferred type; `ref` and `template` delegate. */
    function ParseValue(flowValue: FlowValue): (r: Result<Option<ParseResult>, RuntimeError>)
      reads variableStore
      ensures r.Err? <==> flowValue.Other?
      ensures flowValue.Other? && (flowValue.tag.None? || flowValue.tag.value == "") ==>
                r == Err(InvalidFlowValueType)
      ensures flowValue.Other? && flowValue.tag.Some? && flowValue.tag.value != "" ==>
                r == Err(UnknownFlowValueType(flowValue.tag.value))
      ensures flowValue.Constant? ==>
                (r == Ok(None) <==> IsNil(flowValue.content) || !TruthyText(host.getWorkflowType(flowValue.content)))
      ensures flowValue.Constant? && r != Ok(None) ==>
                r == Ok(Some(ParseResult(flowValue.content, host.getWorkflowType(flowValue.content).value)))
      ensures flowValue.Ref? ==> r == ParseRef(flowValue)
      ensures flowValue.Template? ==> r == ParseTemplate(flowValue)
    {
      match flowValue
      case Other(tag) =>
        if tag.None? || tag.value == "" then Err(InvalidFlowValueType) else Err(UnknownFlowValueType(tag.value))
      case Constant(value) =>
        var type_ := host.getWorkflowType(value);
        if IsNil(value) || !TruthyText(type_) then Ok(None) else Ok(Some(ParseResult(value, type_.value)))
      case Ref(_) => ParseRef(flowValue)
      case Template(_) => ParseTemplate(flowValue)
    }

    /** The placeholder text `node.key` is replaced by the stored value's
        text, or by "" when the store has no record for it. */
    lemma SubstituteReference(nodeID: string, key: string)
      requires '.' !in nodeID && '.' !in key
      requires nodeID != [] && !IsWhitespace(nodeID[0])
      requires key != [] && !IsWhitespace(key[|key| - 1])
      ensures Substitution()(nodeID + "." + key) ==
                if (nodeID, key) in variableStore.vars
                then Text(host.stringify, variableStore.vars[(nodeID, key)].value)
                else ""
    {
      PlaceholderPath(nodeID, key);
      var p := Split(Trim(nodeID + "." + key), '.');
      assert p[2..] == [];
    }

    /** A template with one reference placeholder `{{node.key}}` after text
        in which no placeholder starts: the placeholder becomes the stored
        value's text, or "" without a record, and the rest of the template is
        expanded in turn. */
    lemma TemplateReference(prefix: string, nodeID: string, key: string, suffix: string)
      requires OpensNoPlaceholder(prefix + "{{" + nodeID + "." + key + "}}" + suffix, |prefix|)
      requires '.' !in nodeID && '.' !in key && '}' !in nodeID && '}' !in key
      requires nodeID != [] && !IsWhitespace(nodeID[0])
      requires key != [] && !IsWhitespace(key[|key| - 1])
      ensures ParseTemplate(Template(Some(prefix + "{{" + nodeID + "." + key + "}}" + suffix))) ==
                Ok(Some(ParseResult(Str(prefix
                                        + (if (nodeID, key) in variableStore.vars
                                           then Text(host.stringify, variableStore.vars[(nodeID, key)].value)
                                           else "")
                                        + Expand(suffix)), StringType)))
    {
      var pattern := nodeID + "." + key;
      assert '}' !in pattern;
      SubstituteReference(nodeID, key);
      PlaceholderConcat(prefix, nodeID, key, suffix);
      ScanSplice(prefix, pattern, suffix, Substitution());
    }

    // -------------------------------------------------------------------------
    // Input binding
    // -------------------------------------------------------------------------

    /** The entry is declared and its flow value throws when parsed. */
    predicate Fails(declare: Schema, entry: (string, FlowValue))
      reads variableStore
    {
      Declared(declare, entry.0) && ParseValue(entry.1).Err?
    }

    /** The entry is declared, resolves to a value, and that value's type
        matches the declared type. */
    predicate Accepted(declare: Schema, entry: (string, FlowValue))
      reads variableStore
    {
      Declared(declare, entry.0) && ParseValue(entry.1).Ok? && ParseValue(entry.1).value.Some?
      && host.isTypeEqual(ParseValue(entry.1).value.value.type_, declare.properties.value[entry.0].type_)
    }

    /** What `parseInputs` promises: `{}` without a declaration or values;
        otherwise the first declared entry whose flow value throws decides the
        error, and without one the result holds exactly the accepted entries,
        each mapped to its parsed value. */
    ghost predicate InputsSpec(values: Option<seq<(string, FlowValue)>>, declare: Option<Schema>,
                               r: Result<map<string, Value>, RuntimeError>)
      reads variableStore
    {
      if declare.None? || values.None? then r == Ok(map[])
      else
        var vs, d := values.value, declare.value;
        (r.Err? <==> exists i :: 0 <= i < |vs| && Fails(d, vs[i]))
        && (r.Err? ==> exists i :: 0 <= i < |vs| && Fails(d, vs[i]) && ParseValue(vs[i].1) == Err(r.error)
                                    && forall j :: 0 <= j < i ==> !Fails(d, vs[j]))
        && (r.Ok? ==> forall k :: k in r.value <==> exists i :: 0 <= i < |vs| && vs[i].0 == k && Accepted(d, vs[i]))
        && (r.Ok? ==> forall i :: 0 <= i < |vs| && Accepted(d, vs[i]) ==>
                        vs[i].0 in r.value && r.value[vs[i].0] == ParseValue(vs[i].1).value.value.value)
    }

    /** `InputsSpec` leaves no freedom: at most one result meets it. */
    lemma InputsSpecUnique(values: Option<seq<(string, FlowValue)>>, declare: Option<Schema>,
                           r1: Result<map<string, Value>, RuntimeError>, r2: Result<map<string, Value>, RuntimeError>)
      requires InputsSpec(values, declare, r1) && InputsSpec(values, declare, r2)
      ensures r1 == r2
    {
      if declare.Some? && values.Some? {
        var vs, d := values.value, declare.value;
        if r1.Err? {
          var i1 :| 0 <= i1 < |vs| && Fails(d, vs[i1]) && ParseValue(vs[i1].1) == Err(r1.error)
                    && forall j :: 0 <= j < i1 ==> !Fails(d, vs[j]);
          var i2 :| 0 <= i2 < |vs| && Fails(d, vs[i2]) && ParseValue(vs[i2].1) == Err(r2.error)
                    && forall j :: 0 <= j < i2 ==> !Fails(d, vs[j]);
          assert i1 == i2;
        } else {
          assert r2.Ok?;
          var m1, m2 := r1.value, r2.value;
          forall k ensures k in m1 <==> k in m2 {
            assert k in m1 <==> exists i :: 0 <= i < |vs| && vs[i].0 == k && Accepted(d, vs[i]);
            assert k in m2 <==> exists i :: 0 <= i < |vs| && vs[i].0 == k && Accepted(d, vs[i]);
          }
          forall k | k in m1 ensures m1[k] == m2[k] {
            var i :| 0 <= i < |vs| && vs[i].0 == k && Accepted(d, vs[i]);
          }
          assert m1 == m2;
        }
      }
    }

    /** `parseInputs`: folds the entries into the result, skipping undeclared
        keys, null values and type mismatches. */
    method ParseInputs(values: Option<seq<(string, FlowValue)>>, declare: Option<Schema>)
      returns (r: Result<map<string, Value>, RuntimeError>)
      requires values.Some? ==> UniqueKeys(values.value)
      ensures InputsSpec(values, declare, r)
    {
      if declare.None? || values.None? {
        return Ok(map[]);
      }
      var vs, d := values.value, declare.value;
      var prev: map<string, Value> := map[];
      for i := 0 to |vs|
        invariant forall j :: 0 <= j < i ==> !Fails(d, vs[j])
        invariant forall k :: k in prev <==> exists j :: 0 <= j < i && vs[j].0 == k && Accepted(d, vs[j])
        invariant forall j :: 0 <= j < i && Accepted(d, vs[j]) ==>
                    vs[j].0 in prev && prev[vs[j].0] == ParseValue(vs[j].1).value.value.value
      {
        var (key, inputValue) := vs[i];
        if !Declared(d, key) {
          continue;
        }
        var expectType := d.properties.value[key].type_;
        var result := ParseValue(inputValue);
        if result.Err? {
          return Err(result.error);
        }
        if result.value.None? {
          continue;
        }
        if !host.isTypeEqual(result.value.value.type_, expectType) {
          continue;
        }
        prev := prev[key := result.value.value.value];
      }
      return Ok(prev);
    }

    /** `getNodeInputs`: binds the node's input values against its input schema. */
    method GetNodeInputs(node: Node) returns (r: Result<map<string, Value>, RuntimeError>)
      requires node.declare.inputsValues.Some? ==> UniqueKeys(node.declare.inputsValues.value)
      ensures InputsSpec(node.declare.inputsValues, node.declare.inputs, r)
    {
      r := ParseInputs(node.declare.inputsValues, node.declare.inputs);
    }

    // -------------------------------------------------------------------------
    // Output writing
    // -------------------------------------------------------------------------

    /** `setNodeOutputs`: without an output schema the store is unchanged;
        otherwise every produced key the schema declares is written. */
    method SetNodeOutputs(node: Node, outputs: seq<(string, Value)>)
      requires UniqueKeys(outputs)
      modifies variableStore
      ensures node.declare.outputs.None? ==> variableStore.vars == old(variableStore.vars)
      ensures node.declare.outputs.Some? ==>
                OutputsWritten(old(variableStore.vars), variableStore.vars, node.id, node.declare.outputs.value, outputs)
      ensures node.declare.outputs.Some? ==>
                forall i :: 0 <= i < |outputs| && Declared(node.declare.outputs.value, outputs[i].0) ==>
                  variableStore.GetValue(node.id, outputs[i].0, []) ==
                    Some(ParseResult(outputs[i].1, node.declare.outputs.value.properties.value[outputs[i].0].type_))
    {
      if node.declare.outputs.None? {
        return;
      }
      var d := node.declare.outputs.value;
      for i := 0 to |outputs|
        invariant OutputsWritten(old(variableStore.vars), variableStore.vars, node.id, d, outputs[..i])
      {
        var (key, value) := outputs[i];
        if !Declared(d, key) {
          OutputsStepSkipped(old(variableStore.vars), variableStore.vars, node.id, d, outputs, i);
          continue;
        }
        OutputsStepDeclared(old(variableStore.vars), variableStore.vars, node.id, d, outputs, i);
        var typeInfo := d.properties.value[key];
        var itemsType := if typeInfo.items.Some? then Some(typeInfo.items.value.type_) else None;
        variableStore.SetVariable(node.id, key, value, typeInfo.type_, itemsType);
      }
      assert outputs[..|outputs|] == outputs;
    }
  }
}
