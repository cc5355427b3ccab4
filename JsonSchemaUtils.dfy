/** `JsonSchemaUtils`: translation between a JSON schema (`IJsonSchema`) and
    the type AST of the variable engine (`ASTNodeJSON`), in both directions,
    and the check of a type AST against one schema or a union of schemas. */
module JsonSchemaUtils {
  import opened Wrappers
  import opened JsValues

  // ---------------------------------------------------------------------------
  // The two tree shapes
  // ---------------------------------------------------------------------------

  /** The schema's `extra` block: the `index` that orders object properties
      and the `weak` flag, read with JavaScript truthiness. */
  datatype Extra = Extra(index: Option<int>, weak: Value)

  /** One entry of a schema's `properties` object; `astToSchema` writes
      `undefined` for a property whose type it cannot translate. */
  datatype Entry = Entry(key: string, value: Option<Schema>)

  /** A schema's `properties`: missing, or an object given by its entries in order. */
  datatype Properties = Absent | Present(entries: seq<Entry>)

  /** `IJsonSchema`, with the fields the translation reads or writes. */
  datatype Schema = Schema(
    type_: Option<string>,
    extra: Option<Extra>,
    properties: Properties,
    items: Option<Schema>,
    additionalProperties: Option<Schema>,
    title: Option<string>,
    description: Option<string>,
    default: Value,
    required: Value)

  /** `{ type: t }`: a schema that is only a type name. */
  function TypeOnly(t: string): Schema
  {
    Schema(Some(t), None, Absent, None, None, None, None, Undefined, Undefined)
  }

  /** The metadata a property of an object type carries. */
  datatype Meta = Meta(title: Option<string>, description: Option<string>, required: Value, default: Value)

  /** The variable engine's type AST: the four primitives, object, array and
      map (each possibly weak, that is without children), a named custom
      type, and a union of types. */
  datatype TypeAST =
    | String
    | Number
    | Boolean
    | Integer
    | Object(properties: seq<Property>, weak: bool)
    | Array(items: Option<TypeAST>, weak: bool)
    | Map(valueType: Option<TypeAST>, weak: bool)
    | CustomType(typeName: string)
    | Union(types: seq<TypeAST>)

  datatype Property = Property(key: string, type_: Option<TypeAST>, meta: Meta)

  // ---------------------------------------------------------------------------
  // Property order: a stable sort by `extra.index`
  // ---------------------------------------------------------------------------

  /** The sort key of a property entry: its `extra.index`, or 0 when that is
      missing (or the entry is undefined). */
  function IndexOf(e: Entry): int
  {
    if e.value.Some? && e.value.value.extra.Some? && e.value.value.extra.value.index.Some?
    then e.value.value.extra.value.index.value
    else 0
  }

  predicate SortedByIndex(s: seq<Entry>)
  {
    forall i, j :: 0 <= i < j < |s| ==> IndexOf(s[i]) <= IndexOf(s[j])
  }

  /** The entries of `s` whose index is `k`, in their order in `s`. */
  function WithIndex(s: seq<Entry>, k: int): seq<Entry>
  {
    if s == [] then []
    else (if IndexOf(s[0]) == k then [s[0]] else []) + WithIndex(s[1..], k)
  }

  /** Places `e` into sorted `s` before the first entry whose index is not smaller. */
  function Insert(e: Entry, s: seq<Entry>): (r: seq<Entry>)
    requires SortedByIndex(s)
    ensures SortedByIndex(r)
    ensures multiset(r) == multiset(s) + multiset{e}
  {
    if s == [] || IndexOf(e) <= IndexOf(s[0]) then [e] + s
    else
      var head, tail := s[0], s[1..];
      var rest := Insert(e, tail);
      InsertBelow(head, e, tail, rest);
      assert s == [head] + tail;
      [head] + rest
  }

  /** An entry below everything in `tail` and below `e` can head their insertion. */
  lemma InsertBelow(head: Entry, e: Entry, tail: seq<Entry>, rest: seq<Entry>)
    requires SortedByIndex([head] + tail) && SortedByIndex(rest)
    requires multiset(rest) == multiset(tail) + multiset{e}
    requires IndexOf(head) < IndexOf(e)
    ensures SortedByIndex([head] + rest)
  {
    forall x | x in rest ensures IndexOf(head) <= IndexOf(x) {
      assert x in multiset(rest);
      if x != e {
        assert x in multiset(tail);
        var j :| 0 <= j < |tail| && tail[j] == x;
        assert ([head] + tail)[0] == head && ([head] + tail)[j + 1] == x;
      }
    }
    var r := [head] + rest;
    forall i, j | 0 <= i < j < |r| ensures IndexOf(r[i]) <= IndexOf(r[j]) {
      assert r[j] == rest[j - 1];
      if i > 0 {
        assert r[i] == rest[i - 1];
      }
    }
  }

  /** `entries.sort((a, b) => index(a) - index(b))`, by insertion. */
  function SortByIndex(s: seq<Entry>): (r: seq<Entry>)
    ensures SortedByIndex(r)
    ensures multiset(r) == multiset(s)
  {
    if s == [] then []
    else
      assert s == [s[0]] + s[1..];
      Insert(s[0], SortByIndex(s[1..]))
  }

  /** Inserting `e` puts it right before the entries of its own index and
      moves no other entry past one of equal index. */
  lemma {:induction false} InsertWithIndex(e: Entry, s: seq<Entry>, k: int)
    requires SortedByIndex(s)
    ensures WithIndex(Insert(e, s), k) == if IndexOf(e) == k then [e] + WithIndex(s, k) else WithIndex(s, k)
    decreases |s|
  {
    if s == [] || IndexOf(e) <= IndexOf(s[0]) {
      assert ([e] + s)[1..] == s;
    } else {
      var rest := Insert(e, s[1..]);
      InsertWithIndex(e, s[1..], k);
      assert ([s[0]] + rest)[1..] == rest;
      if IndexOf(e) == k {
        assert IndexOf(s[0]) != k;
        assert WithIndex(s, k) == WithIndex(s[1..], k);
      }
    }
  }

  /** JavaScript's sort is stable: the entries of each index keep their order. */
  lemma {:induction false} SortStable(s: seq<Entry>, k: int)
    ensures WithIndex(SortByIndex(s), k) == WithIndex(s, k)
  {
    if s != [] {
      SortStable(s[1..], k);
      InsertWithIndex(s[0], SortByIndex(s[1..]), k);
    }
  }

  /** Entries that all have index 0 are already in order. */
  lemma {:induction false} WithIndexAll(s: seq<Entry>)
    requires forall i :: 0 <= i < |s| ==> IndexOf(s[i]) == 0
    ensures WithIndex(s, 0) == s
  {
    if s != [] {
      WithIndexAll(s[1..]);
    }
  }

  /** Without any `extra.index` the sort keeps the entries as they are. */
  lemma SortUnindexed(s: seq<Entry>)
    requires forall i :: 0 <= i < |s| ==> IndexOf(s[i]) == 0
    ensures SortByIndex(s) == s
  {
    var r := SortByIndex(s);
    forall i | 0 <= i < |r| ensures IndexOf(r[i]) == 0 {
      assert r[i] in multiset(s);
    }
    WithIndexAll(s);
    WithIndexAll(r);
    SortStable(s, 0);
  }

  // ---------------------------------------------------------------------------
  // schemaToAST
  // ---------------------------------------------------------------------------

  /** The schema's property entries; none when `properties` is missing. */
  function Entries(s: Schema): seq<Entry>
  {
    if s.properties.Present? then s.properties.entries else []
  }

  /** No property entry that `schemaToAST` reads is undefined: it reads the
      entries of an object schema that is not weak (and throws on an
      undefined one, reading its `title`), and descends only into the items
      of an array and the value type of a map that are not weak. */
  predicate Defined(s: Schema)
  {
    TruthyText(s.type_) && !IsWeak(s) ==>
      match KindOf(s.type_.value)
      case ObjectKind => forall e | e in Entries(s) :: e.value.Some? && Defined(e.value.value)
      case ArrayKind => s.items.Some? ==> Defined(s.items.value)
      case MapKind => s.additionalProperties.Some? ==> Defined(s.additionalProperties.value)
      case _ => true
  }

  /** The entries of an object schema that is not weak are all defined. */
  lemma EntriesDefined(s: Schema)
    requires Defined(s) && TruthyText(s.type_) && KindOf(s.type_.value) == ObjectKind && !IsWeak(s)
    ensures forall e | e in Entries(s) :: e.value.Some? && Defined(e.value.value)
  {
  }

  /** `weak` from `extra`, `false` when missing. */
  predicate IsWeak(s: Schema)
  {
    s.extra.Some? && Truthy(s.extra.value.weak)
  }

  /** The schema's property entries in the order `schemaToAST` emits them. */
  function SortedEntries(s: Schema): (r: seq<Entry>)
    ensures r == SortByIndex(Entries(s))
    ensures forall i :: 0 <= i < |r| ==> r[i] in Entries(s)
  {
    var r := SortByIndex(Entries(s));
    assert forall i :: 0 <= i < |r| ==> r[i] in multiset(Entries(s));
    r
  }

  /** The branches of the `switch` on a schema's type name. */
  datatype Kind = ObjectKind | ArrayKind | MapKind | StringKind | NumberKind | BooleanKind | IntegerKind | CustomKind

  function KindOf(name: string): Kind
  {
    match name
    case "object" => ObjectKind
    case "array" => ArrayKind
    case "map" => MapKind
    case "string" => StringKind
    case "number" => NumberKind
    case "boolean" => BooleanKind
    case "integer" => IntegerKind
    case _ => CustomKind
  }

  /** `schemaToAST`: undefined without a schema or a type; otherwise object,
      array and map by their children (none when weak), the four primitives
      by name, and any other type name as a custom type. */
  function SchemaToAST(schema: Option<Schema>): (r: Option<TypeAST>)
    requires schema.Some? ==> Defined(schema.value)
    ensures r.None? <==> schema.None? || !TruthyText(schema.value.type_)
    decreases schema, 0
  {
    if schema.None? || !TruthyText(schema.value.type_) then None
    else
      var s := schema.value;
      match KindOf(s.type_.value)
      case ObjectKind =>
        if IsWeak(s) then Some(Object([], true))
        else
          var sorted := SortedEntries(s);
          Some(Object(seq(|sorted|, i requires 0 <= i < |sorted| => PropertyToAST(sorted[i])), false))
      case ArrayKind => if IsWeak(s) then Some(Array(None, true)) else Some(Array(SchemaToAST(s.items), false))
      case MapKind =>
        if IsWeak(s) then Some(Map(None, true)) else Some(Map(SchemaToAST(s.additionalProperties), false))
      case StringKind => Some(String)
      case NumberKind => Some(Number)
      case BooleanKind => Some(Boolean)
      case IntegerKind => Some(Integer)
      case CustomKind => Some(CustomType(s.type_.value))
  }

  /** One sorted entry as an AST property: its key, its translated schema and
      the schema's metadata. */
  function PropertyToAST(e: Entry): (p: Property)
    requires e.value.Some? && Defined(e.value.value)
    ensures p.key == e.key
    decreases e.value, 1
  {
    var s := e.value.value;
    Property(e.key, SchemaToAST(e.value), Meta(s.title, s.description, s.required, s.default))
  }

  /** The AST properties `schemaToAST` builds for an object schema that is
      not weak, in the order of `SortByIndex`: each keeps its entry's key,
      has its entry's translated schema as type, and carries that schema's
      title, description, required and default. */
  lemma {:induction false} ObjectProperties(s: Schema)
    requires Defined(s) && s.type_ == Some("object") && !IsWeak(s)
    ensures var sorted := SortedEntries(s);
            var r := SchemaToAST(Some(s));
            && r.Some? && r.value.Object? && !r.value.weak && |r.value.properties| == |sorted|
            && forall i :: 0 <= i < |sorted| ==>
                 var p, e := r.value.properties[i], sorted[i];
                 && p.key == e.key
                 && p.type_ == SchemaToAST(e.value)
                 && p.meta == Meta(e.value.value.title, e.value.value.description,
                                   e.value.value.required, e.value.value.default)
  {
    EntriesDefined(s);
  }

  /** The weak node of a container kind. */
  function WeakNode(k: Kind): TypeAST
  {
    if k == ObjectKind then Object([], true) else if k == ArrayKind then Array(None, true) else Map(None, true)
  }

  /** With a truthy `extra.weak`, object, array and map schemas give the weak
      node of their kind, with no children. */
  lemma WeakKinds(s: Schema)
    requires Defined(s) && IsWeak(s) && TruthyText(s.type_)
    requires KindOf(s.type_.value) in {ObjectKind, ArrayKind, MapKind}
    ensures SchemaToAST(Some(s)) == Some(WeakNode(KindOf(s.type_.value)))
  {
  }

  /** The type names `schemaToAST` recognises as primitives, and every other
      non-container name as a custom type of that name. */
  lemma TypeNames(t: string)
    requires t != "" && t != "object" && t != "array" && t != "map"
    ensures SchemaToAST(Some(TypeOnly(t))) ==
              Some(if t == "string" then String
                   else if t == "number" then Number
                   else if t == "boolean" then Boolean
                   else if t == "integer" then Integer
                   else CustomType(t))
  {
  }

  // ---------------------------------------------------------------------------
  // astToSchema
  // ---------------------------------------------------------------------------

  /** The options of `astToSchema`; every one may be left out. */
  datatype Options = Options(drilldown: Option<bool>, drilldownObject: Option<bool>,
                             drilldownMap: Option<bool>, drilldownArray: Option<bool>)

  /** `astToSchema(ast)` without options, as the recursive calls make it. */
  const NoOptions := Options(None, None, None, None)

  /** A destructuring default: it applies only when the option is missing. */
  function OrDefault(o: Option<bool>, d: bool): bool
  {
    if o.Some? then o.value else d
  }

  function Drilldown(o: Options): bool { OrDefault(o.drilldown, true) }
  function DrilldownObject(o: Options): bool { OrDefault(o.drilldownObject, Drilldown(o)) }
  function DrilldownMap(o: Options): bool { OrDefault(o.drilldownMap, Drilldown(o)) }
  function DrilldownArray(o: Options): bool { OrDefault(o.drilldownArray, Drilldown(o)) }

  /** The value of key `k` in an object: its entry, if any. */
  function Get(obj: seq<Entry>, k: string): Option<Option<Schema>>
  {
    if obj == [] then None else if obj[0].key == k then Some(obj[0].value) else Get(obj[1..], k)
  }

  predicate UniqueKeys(obj: seq<Entry>)
  {
    forall i, j :: 0 <= i < j < |obj| ==> obj[i].key != obj[j].key
  }

  /** The keys of an object, in its enumeration order. */
  function EntryKeys(obj: seq<Entry>): (r: seq<string>)
    ensures |r| == |obj| && forall i :: 0 <= i < |obj| ==> r[i] == obj[i].key
  {
    seq(|obj|, i requires 0 <= i < |obj| => obj[i].key)
  }

  /** A key has a value exactly when it is one of the object's keys. */
  lemma {:induction false} GetIn(obj: seq<Entry>, k: string)
    ensures Get(obj, k).Some? <==> k in EntryKeys(obj)
  {
    if obj != [] {
      GetIn(obj[1..], k);
      assert EntryKeys(obj) == [obj[0].key] + EntryKeys(obj[1..]);
    }
  }

  /** `obj[e.key] = e.value`: an existing key is overwritten in place, a new one goes last. */
  function Assign(obj: seq<Entry>, e: Entry): (r: seq<Entry>)
    requires UniqueKeys(obj)
    ensures UniqueKeys(r)
    ensures Get(r, e.key) == Some(e.value)
    ensures forall k :: k != e.key ==> Get(r, k) == Get(obj, k)
    ensures Get(obj, e.key).None? ==> r == obj + [e]
    ensures Get(obj, e.key).Some? ==> EntryKeys(r) == EntryKeys(obj)
  {
    if obj == [] then [e]
    else if obj[0].key == e.key then
      assert forall k :: k != e.key ==> Get(obj[1..], k) == Get(obj, k);
      assert EntryKeys([e] + obj[1..]) == EntryKeys(obj);
      [e] + obj[1..]
    else
      var rest := Assign(obj[1..], e);
      AssignBehind(obj, e, rest);
      assert Get(obj, e.key).Some? ==> EntryKeys([obj[0]] + rest) == EntryKeys(obj) by {
        if Get(obj, e.key).Some? {
          assert EntryKeys([obj[0]] + rest) == [obj[0].key] + EntryKeys(rest);
          assert EntryKeys(obj) == [obj[0].key] + EntryKeys(obj[1..]);
        }
      }
      [obj[0]] + rest
  }

  /** Assigning behind a first entry of another key keeps that entry first. */
  lemma AssignBehind(obj: seq<Entry>, e: Entry, rest: seq<Entry>)
    requires UniqueKeys(obj) && obj != [] && obj[0].key != e.key
    requires UniqueKeys(rest) && Get(rest, e.key) == Some(e.value)
    requires forall k :: k != e.key ==> Get(rest, k) == Get(obj[1..], k)
    requires Get(obj[1..], e.key).None? ==> rest == obj[1..] + [e]
    ensures UniqueKeys([obj[0]] + rest)
    ensures Get(obj, e.key).None? ==> [obj[0]] + rest == obj + [e]
  {
    var r := [obj[0]] + rest;
    forall j | 0 < j < |r| ensures r[j].key != obj[0].key {
      assert r[j] == rest[j - 1];
      GetSome(rest, j - 1);
      if r[j].key == obj[0].key {
        GetKeys(obj[1..], obj[0].key);
      }
    }
    if Get(obj, e.key).None? {
      assert obj == [obj[0]] + obj[1..];
    }
  }

  /** A key at position `i` has a value. */
  lemma {:induction false} GetSome(obj: seq<Entry>, i: nat)
    requires i < |obj|
    ensures Get(obj, obj[i].key).Some?
  {
    if i > 0 && obj[0].key != obj[i].key {
      assert obj[1..][i - 1] == obj[i];
      GetSome(obj[1..], i - 1);
    }
  }

  /** A key with a value sits at some position. */
  lemma {:induction false} GetKeys(obj: seq<Entry>, k: string)
    requires Get(obj, k).Some?
    ensures exists i :: 0 <= i < |obj| && obj[i].key == k
  {
    if obj[0].key != k {
      GetKeys(obj[1..], k);
      var i :| 0 <= i < |obj[1..]| && obj[1..][i].key == k;
      assert obj[i + 1].key == k;
    }
  }

  /** The value of the last entry for key `k`. */
  function LastValue(es: seq<Entry>, k: string): Option<Option<Schema>>
  {
    if es == [] then None
    else if es[|es| - 1].key == k then Some(es[|es| - 1].value)
    else LastValue(es[..|es| - 1], k)
  }

  /** The distinct keys of a list of entries, in the order of their first
      occurrence. */
  function FirstSeenKeys(es: seq<Entry>): seq<string>
  {
    if es == [] then []
    else
      var ks := FirstSeenKeys(es[..|es| - 1]);
      if es[|es| - 1].key in ks then ks else ks + [es[|es| - 1].key]
  }

  /** `Object.fromEntries`: one entry per key, holding the key's last value;
      the keys come in the order of their first occurrence, since assigning a
      repeated key overwrites it in place. */
  function FromEntries(es: seq<Entry>): (r: seq<Entry>)
    ensures UniqueKeys(r)
    ensures forall k :: Get(r, k) == LastValue(es, k)
    ensures EntryKeys(r) == FirstSeenKeys(es)
  {
    if es == [] then []
    else
      var prev, last := FromEntries(es[..|es| - 1]), es[|es| - 1];
      GetIn(prev, last.key);
      Assign(prev, last)
  }

  /** Entries whose keys are distinct come back unchanged. */
  lemma {:induction false} FromEntriesUnique(es: seq<Entry>)
    requires UniqueKeys(es)
    ensures FromEntries(es) == es
  {
    if es != [] {
      var init, last := es[..|es| - 1], es[|es| - 1];
      FromEntriesUnique(init);
      assert Get(init, last.key).None? by {
        if Get(init, last.key).Some? {
          GetKeys(init, last.key);
        }
      }
      assert init + [last] == es;
    }
  }

  /** A property's metadata applied to its translated schema: each of title,
      description, default and required is copied only when truthy. */
  function WithMeta(schema: Option<Schema>, m: Meta): (r: Option<Schema>)
    ensures r.None? <==> schema.None?
    ensures r.Some? ==>
              && r.value.title == (if TruthyText(m.title) then m.title else schema.value.title)
              && r.value.description == (if TruthyText(m.description) then m.description else schema.value.description)
              && r.value.default == (if Truthy(m.default) then m.default else schema.value.default)
              && r.value.required == (if Truthy(m.required) then m.required else schema.value.required)
    ensures r.Some? ==>
              && r.value.type_ == schema.value.type_ && r.value.extra == schema.value.extra
              && r.value.properties == schema.value.properties && r.value.items == schema.value.items
              && r.value.additionalProperties == schema.value.additionalProperties
  {
    if schema.None? then None
    else
      var s0 := schema.value;
      var s1 := if TruthyText(m.title) then s0.(title := m.title) else s0;
      var s2 := if TruthyText(m.description) then s1.(description := m.description) else s1;
      var s3 := if Truthy(m.default) then s2.(default := m.default) else s2;
      Some(if Truthy(m.required) then s3.(required := m.required) else s3)
  }

  /** `astToSchema`: undefined for no AST and for a union; the four
      primitives and a custom type by name; an object's properties and an
      array's or map's element type (both under `items`) only when drilling
      down. Nested types are translated without options. */
  function AstToSchema(ast: Option<TypeAST>, options: Options): (r: Option<Schema>)
    ensures r.None? <==> ast.None? || ast.value.Union?
    ensures r.Some? ==> r.value.extra.None? && r.value.additionalProperties.None?
    ensures r.Some? ==> r.value.title.None? && r.value.description.None?
                        && r.value.default == Undefined && r.value.required == Undefined
    decreases ast
  {
    match ast
    case None => None
    case Some(t) =>
      match t
      case String => Some(TypeOnly("string"))
      case Boolean => Some(TypeOnly("boolean"))
      case Number => Some(TypeOnly("number"))
      case Integer => Some(TypeOnly("integer"))
      case Object(props, _) =>
        Some(TypeOnly("object").(properties := Present(
          if DrilldownObject(options)
          then FromEntries(seq(|props|, i requires 0 <= i < |props| => PropertyEntry(props[i])))
          else [])))
      case Array(items, _) =>
        Some(TypeOnly("array").(items := if DrilldownArray(options) then AstToSchema(items, NoOptions) else None))
      case Map(valueType, _) =>
        Some(TypeOnly("map").(items := if DrilldownMap(options) then AstToSchema(valueType, NoOptions) else None))
      case CustomType(name) => Some(TypeOnly(name))
      case Union(_) => None
  }

  /** The entry `astToSchema` writes for property `p` of an object: its
      key, and its type's schema carrying its metadata. */
  function PropertyEntry(p: Property): (e: Entry)
    ensures e.key == p.key
    decreases p
  {
    Entry(p.key, WithMeta(AstToSchema(p.type_, NoOptions), p.meta))
  }

  /** With `drilldown: false`, an object has `properties: {}` and an array or
      a map has no `items`. */
  lemma NoDrilldown(t: TypeAST)
    ensures var r := AstToSchema(Some(t), Options(Some(false), None, None, None));
            && (t.Object? ==> r == Some(TypeOnly("object").(properties := Present([]))))
            && (t.Array? ==> r == Some(TypeOnly("array")))
            && (t.Map? ==> r == Some(TypeOnly("map")))
  {
  }

  /** For any map schema whose value schema has a type, the value type comes
      back under `items`, not under `additionalProperties`, so the map schema
      does not survive the round trip. */
  lemma MapNotRoundTrip(v: Schema)
    requires Defined(v) && TruthyText(v.type_)
    ensures var s := TypeOnly("map").(additionalProperties := Some(v));
            var back := AstToSchema(SchemaToAST(Some(s)), NoOptions);
            && SchemaToAST(Some(s)) == Some(Map(SchemaToAST(Some(v)), false))
            && back == Some(TypeOnly("map").(items := AstToSchema(SchemaToAST(Some(v)), NoOptions)))
            && back.value.items.Some? && back.value.additionalProperties.None?
            && back != Some(s)
  {
  }

  /** A falsy `default` (here 0) is not copied onto the property's schema. */
  lemma FalsyDefaultDropped()
    ensures var t := Object([Property("count", Some(Number), Meta(None, None, Undefined, Num(0.0)))], false);
            AstToSchema(Some(t), NoOptions)
              == Some(TypeOnly("object").(properties := Present([Entry("count", Some(TypeOnly("number")))])))
  {
    var e := Entry("count", Some(TypeOnly("number")));
    assert FromEntries([e]) == [e] by { FromEntriesUnique([e]); }
  }

  /** `{ type: t }` survives `schemaToAST` then `astToSchema` for every
      primitive or custom type name. */
  lemma TypeNameRoundTrip(t: string)
    requires t != "" && t != "object" && t != "array" && t != "map"
    ensures AstToSchema(SchemaToAST(Some(TypeOnly(t))), NoOptions) == Some(TypeOnly(t))
  {
    TypeNames(t);
  }

  // ---------------------------------------------------------------------------
  // The round trip from the AST side
  // ---------------------------------------------------------------------------

  /** Metadata that survives the truthiness tests: every field is missing or truthy. */
  predicate CanonicalMeta(m: Meta)
  {
    && (m.title.None? || m.title.value != "")
    && (m.description.None? || m.description.value != "")
    && (m.default == Undefined || Truthy(m.default))
    && (m.required == Undefined || Truthy(m.required))
  }

  /** A custom type name `schemaToAST` reads back as that custom type. */
  predicate CustomName(n: string)
  {
    n != "" && n != "object" && n != "array" && n != "map"
    && n != "string" && n != "number" && n != "boolean" && n != "integer"
  }

  /** An AST that `astToSchema` describes completely: no weak node, no map,
      no union, object properties with distinct keys, a type and canonical
      metadata each, and custom names that are not reserved. */
  predicate Canonical(t: TypeAST)
  {
    match t
    case String => true
    case Number => true
    case Boolean => true
    case Integer => true
    case Object(props, weak) =>
      && !weak
      && (forall i, j :: 0 <= i < j < |props| ==> props[i].key != props[j].key)
      && (forall p | p in props :: p.type_.Some? && Canonical(p.type_.value) && CanonicalMeta(p.meta))
    case Array(items, weak) => !weak && (items.Some? ==> Canonical(items.value))
    case Map(_, _) => false
    case CustomType(n) => CustomName(n)
    case Union(_) => false
  }

  /** Metadata fields play no part in `schemaToAST` of the schema itself. */
  lemma MetaIrrelevant(s: Schema, s': Schema)
    requires Defined(s) && Defined(s')
    requires s'.type_ == s.type_ && s'.extra == s.extra && s'.properties == s.properties
             && s'.items == s.items && s'.additionalProperties == s.additionalProperties
    ensures SchemaToAST(Some(s')) == SchemaToAST(Some(s))
  {
    if TruthyText(s.type_) {
      match KindOf(s.type_.value)
      case ObjectKind =>
        if !IsWeak(s) {
          assert SortedEntries(s') == SortedEntries(s) by { assert Entries(s') == Entries(s); }
        }
      case _ =>
    }
  }

  lemma MetaDefined(s: Schema, s': Schema)
    requires Defined(s)
    requires s'.type_ == s.type_ && s'.extra == s.extra && s'.properties == s.properties
             && s'.items == s.items && s'.additionalProperties == s.additionalProperties
    ensures Defined(s')
  {
    assert Entries(s') == Entries(s);
  }

  /** A canonical AST survives `astToSchema` then `schemaToAST`. */
  lemma {:induction false} AstRoundTrip(t: TypeAST)
    requires Canonical(t)
    ensures AstToSchema(Some(t), NoOptions).Some?
    ensures Defined(AstToSchema(Some(t), NoOptions).value)
    ensures SchemaToAST(AstToSchema(Some(t), NoOptions)) == Some(t)
    decreases t, 2
  {
    match t
    case Object(_, _) => ObjectRoundTrip(t);
    case Array(items, _) =>
      if items.Some? {
        AstRoundTrip(items.value);
      }
    case _ =>
  }

  /** The object case of `AstRoundTrip`: with distinct keys and no index,
      `fromEntries` and the sort both keep the properties as they are. */
  lemma {:induction false} ObjectRoundTrip(t: TypeAST)
    requires t.Object? && Canonical(t)
    ensures AstToSchema(Some(t), NoOptions).Some?
    ensures Defined(AstToSchema(Some(t), NoOptions).value)
    ensures SchemaToAST(AstToSchema(Some(t), NoOptions)) == Some(t)
    decreases t, 1
  {
    var props := t.properties;
    var es := seq(|props|, i requires 0 <= i < |props| => PropertyEntry(props[i]));
    forall i | 0 <= i < |props|
      ensures es[i].value.Some? && Defined(es[i].value.value) && IndexOf(es[i]) == 0
      ensures PropertyToAST(es[i]) == props[i]
    {
      assert props[i] in props;
      PropertyRoundTrip(props[i]);
    }
    ObjectToEntries(t, es);
    EntriesToObject(es, props);
  }

  /** An object with distinct keys becomes the object schema of its property entries. */
  lemma ObjectToEntries(t: TypeAST, es: seq<Entry>)
    requires t.Object? && forall i, j :: 0 <= i < j < |t.properties| ==> t.properties[i].key != t.properties[j].key
    requires |es| == |t.properties| && forall i :: 0 <= i < |es| ==> es[i] == PropertyEntry(t.properties[i])
    ensures AstToSchema(Some(t), NoOptions) == Some(TypeOnly("object").(properties := Present(es)))
  {
    assert UniqueKeys(es);
    FromEntriesUnique(es);
    assert es == seq(|t.properties|, i requires 0 <= i < |t.properties| => PropertyEntry(t.properties[i]));
  }

  /** The object schema of entries that translate back to `props` gives the object of `props`. */
  lemma EntriesToObject(es: seq<Entry>, props: seq<Property>)
    requires |es| == |props|
    requires forall i :: 0 <= i < |es| ==> es[i].value.Some? && Defined(es[i].value.value) && IndexOf(es[i]) == 0
    requires forall i :: 0 <= i < |es| ==> PropertyToAST(es[i]) == props[i]
    ensures var s := TypeOnly("object").(properties := Present(es));
            Defined(s) && SchemaToAST(Some(s)) == Some(Object(props, false))
  {
    var s := TypeOnly("object").(properties := Present(es));
    assert Entries(s) == es;
    assert Defined(s);
    SortUnindexed(es);
    ObjectProperties(s);
    var r := SchemaToAST(Some(s)).value;
    forall i | 0 <= i < |props| ensures r.properties[i] == props[i] {
      assert SortedEntries(s)[i] == es[i];
    }
    assert r.properties == props;
  }

  /** A canonical property comes back from its entry unchanged. */
  lemma {:induction false} PropertyRoundTrip(p: Property)
    requires p.type_.Some? && Canonical(p.type_.value) && CanonicalMeta(p.meta)
    ensures var e := PropertyEntry(p);
            e.value.Some? && Defined(e.value.value) && IndexOf(e) == 0 && PropertyToAST(e) == p
    decreases p
  {
    AstRoundTrip(p.type_.value);
    var c := AstToSchema(p.type_, NoOptions).value;
    MetaDefined(c, WithMeta(Some(c), p.meta).value);
    MetaIrrelevant(c, WithMeta(Some(c), p.meta).value);
  }

  // ---------------------------------------------------------------------------
  // isASTMatchSchema
  // ---------------------------------------------------------------------------

  /** The schema argument of `isASTMatchSchema`: one schema (possibly
      undefined) or an array of schemas. */
  datatype SchemaArg = One(schema: Option<Schema>) | Many(schemas: seq<Schema>)

  /** The members of the union built from an array of schemas: each schema's
      AST in order, with the schemas that have no type dropped. */
  function UnionMembers(ss: seq<Schema>): (r: seq<TypeAST>)
    requires forall i :: 0 <= i < |ss| ==> Defined(ss[i])
    ensures |r| <= |ss|
    ensures forall t :: t in r ==> exists i :: 0 <= i < |ss| && SchemaToAST(Some(ss[i])) == Some(t)
    ensures forall i :: 0 <= i < |ss| && TruthyText(ss[i].type_) ==> SchemaToAST(Some(ss[i])).value in r
  {
    if ss == [] then []
    else
      var rest := UnionMembers(ss[1..]);
      assert forall i :: 1 <= i < |ss| ==> ss[i] == ss[1..][i - 1];
      match SchemaToAST(Some(ss[0]))
      case None => rest
      case Some(t) => [t] + rest
  }

  /** When every schema in the array has a type, the union has one member per
      schema, each the AST of the schema at the same position. */
  lemma {:induction false} UnionMembersTyped(ss: seq<Schema>)
    requires forall i :: 0 <= i < |ss| ==> Defined(ss[i]) && TruthyText(ss[i].type_)
    ensures |UnionMembers(ss)| == |ss|
    ensures forall i :: 0 <= i < |ss| ==> Some(UnionMembers(ss)[i]) == SchemaToAST(Some(ss[i]))
  {
    if ss != [] {
      UnionMembersTyped(ss[1..]);
      UnionMembersFirst(ss);
      var r := UnionMembers(ss);
      forall i | 1 <= i < |ss| ensures Some(r[i]) == SchemaToAST(Some(ss[i])) {
        assert ss[i] == ss[1..][i - 1];
      }
    }
  }

  /** A schema without a type contributes nothing: the union is that of the
      array with the schema taken out. */
  lemma {:induction false} UnionMembersDrop(ss: seq<Schema>, i: nat)
    requires i < |ss| && forall j :: 0 <= j < |ss| ==> Defined(ss[j])
    requires !TruthyText(ss[i].type_)
    ensures UnionMembers(ss) == UnionMembers(ss[..i] + ss[i + 1..])
    decreases i
  {
    if i == 0 {
      assert ss[..0] + ss[1..] == ss[1..];
    } else {
      var rest := ss[..i] + ss[i + 1..];
      assert rest[0] == ss[0];
      assert rest[1..] == ss[1..][..i - 1] + ss[1..][i..];
      UnionMembersDrop(ss[1..], i - 1);
    }
  }

  /** A typed first schema contributes the first member. */
  lemma UnionMembersFirst(ss: seq<Schema>)
    requires ss != [] && forall i :: 0 <= i < |ss| ==> Defined(ss[i])
    requires TruthyText(ss[0].type_)
    ensures UnionMembers(ss) == [SchemaToAST(Some(ss[0])).value] + UnionMembers(ss[1..])
  {
  }

  /** `isASTMatchSchema`: the AST's own `isTypeEqual` (a parameter here)
      against the AST of one schema, or against the union of the ASTs of an
      array of schemas. */
  function IsASTMatchSchema(ast: TypeAST, schema: SchemaArg, isTypeEqual: (TypeAST, Option<TypeAST>) -> bool): (r: bool)
    requires schema.One? && schema.schema.Some? ==> Defined(schema.schema.value)
    requires schema.Many? ==> forall i :: 0 <= i < |schema.schemas| ==> Defined(schema.schemas[i])
    ensures schema.One? ==> (r <==> isTypeEqual(ast, SchemaToAST(schema.schema)))
    ensures schema.Many? ==> (r <==> isTypeEqual(ast, Some(Union(UnionMembers(schema.schemas)))))
  {
    match schema
    case One(s) => isTypeEqual(ast, SchemaToAST(s))
    case Many(ss) => isTypeEqual(ast, Some(Union(UnionMembers(ss))))
  }

  /** An array of typed schemas is compared as the union of their ASTs in order. */
  lemma ArrayMatch(ast: TypeAST, ss: seq<Schema>, isTypeEqual: (TypeAST, Option<TypeAST>) -> bool)
    requires forall i :: 0 <= i < |ss| ==> Defined(ss[i]) && TruthyText(ss[i].type_)
    ensures IsASTMatchSchema(ast, Many(ss), isTypeEqual) <==>
            isTypeEqual(ast, Some(Union(seq(|ss|, i requires 0 <= i < |ss| => SchemaToAST(Some(ss[i])).value))))
  {
    UnionMembersTyped(ss);
    var u := seq(|ss|, i requires 0 <= i < |ss| => SchemaToAST(Some(ss[i])).value);
    assert UnionMembers(ss) == u;
  }
}
