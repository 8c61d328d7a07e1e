/**
  The JSON-Schema subset evaluator of scripts/migration-readiness.py: recursion through `$ref`,
  `items` and `properties`, when it terminates, and what it then decides.
*/
module JsonSchema {
  import opened Wrappers
  import opened Sequences

  /** A parsed JSON value; objects keep their members in order. */
  datatype Json =
    | Null
    | Boolean(b: bool)
    | Integer(n: int)
    | Float(x: real)
    | NotFinite
    | Text(s: string)
    | Array(items: seq<Json>)
    | Object(members: seq<Member>)

  datatype Member = Member(name: string, value: Json)

  datatype Type = NullType | BooleanType | IntegerType | NumberType | StringType | ArrayType | ObjectType

  datatype Format = Uuid | DateTime

  /** A schema with the supported keywords; an absent numeric bound or list keeps the source's default. */
  datatype Schema = Schema(
    ref: Option<string>, types: Option<seq<Type>>, constant: Option<Json>, enumeration: Option<seq<Json>>,
    minimum: Option<real>, maximum: Option<real>, minLength: int, pattern: Option<string>, format: Option<Format>,
    minItems: int, maxItems: Option<int>, uniqueItems: bool, items: Option<Schema>,
    properties: seq<Property>, required: seq<string>, closed: bool)

  datatype Property = Property(name: string, schema: Schema)

  type Definitions = map<string, Schema>

  /** Library calls left abstract: value equality, regular expressions, the two formats, and `json.dumps`. */
  datatype World = World(
    equal: (Json, Json) -> bool, matches: (string, string) -> bool, uuid: string -> bool, dateTime: string -> bool,
    encode: Json -> string)

  // ------------------------------------------------ checks that do not recurse

  /** `json_type_matches`: booleans are not numbers. */
  predicate TypeMatches(v: Json, t: Type) {
    match t
    case NullType => v.Null?
    case BooleanType => v.Boolean?
    case IntegerType => v.Integer?
    case NumberType => v.Integer? || v.Float? || v.NotFinite?
    case StringType => v.Text?
    case ArrayType => v.Array?
    case ObjectType => v.Object?
  }

  predicate InRange(x: real, s: Schema) {
    (s.minimum.Some? ==> s.minimum.value <= x) && (s.maximum.Some? ==> x <= s.maximum.value)
  }

  predicate TextOk(text: string, s: Schema, w: World) {
    && s.minLength <= |text|
    && (s.pattern.Some? ==> w.matches(s.pattern.value, text))
    && (s.format == Some(Uuid) ==> w.uuid(text))
    && (s.format == Some(DateTime) ==> w.dateTime(text))
  }

  predicate ArrayOk(items: seq<Json>, s: Schema, w: World) {
    && s.minItems <= |items|
    && (s.maxItems.Some? ==> |items| <= s.maxItems.value)
    && (s.uniqueItems ==> forall i, j | 0 <= i < j < |items| :: w.encode(items[i]) != w.encode(items[j]))
  }

  predicate HasMember(members: seq<Member>, name: string) {
    exists i :: 0 <= i < |members| && members[i].name == name
  }

  function Lookup(properties: seq<Property>, name: string): (r: Option<Schema>)
    ensures r.Some? ==> exists i :: 0 <= i < |properties| && properties[i] == Property(name, r.value)
    ensures r.None? ==> forall i | 0 <= i < |properties| :: properties[i].name != name
  {
    if properties == [] then None
    else if properties[0].name == name then Some(properties[0].schema)
    else Lookup(properties[1..], name)
  }

  predicate ObjectOk(members: seq<Member>, s: Schema) {
    && (forall i | 0 <= i < |s.required| :: HasMember(members, s.required[i]))
    && (s.closed ==> forall i | 0 <= i < |members| :: Lookup(s.properties, members[i].name).Some?)
  }

  /** Every keyword of one schema except the three that recurse. */
  predicate LocalOk(v: Json, s: Schema, w: World) {
    && (s.types.Some? ==> exists i :: 0 <= i < |s.types.value| && TypeMatches(v, s.types.value[i]))
    && (s.constant.Some? ==> w.equal(v, s.constant.value))
    && (s.enumeration.Some? ==> exists i :: 0 <= i < |s.enumeration.value| && w.equal(v, s.enumeration.value[i]))
    && match v
       case Integer(n) => InRange(n as real, s)
       case Float(x) => InRange(x, s)
       case NotFinite => false
       case Text(text) => TextOk(text, s, w)
       case Array(items) => ArrayOk(items, s, w)
       case Object(members) => ObjectOk(members, s)
       case _ => true
  }

  // ------------------------------------------------ the evaluator

  /**
    `validate_json_schema` with at most `depth` nested calls: None when that is not enough,
    otherwise whether the value is accepted. A reference that does not resolve is an error, and
    the keywords beside a `$ref` are never looked at.
  */
  function Eval(depth: nat, v: Json, s: Schema, defs: Definitions, w: World): Option<bool>
    decreases depth, 0
  {
    if depth == 0 then None
    else if s.ref.Some? then
      if s.ref.value in defs then Eval(depth - 1, v, defs[s.ref.value], defs, w) else Some(false)
    else if !LocalOk(v, s, w) then Some(false)
    else
      match v
      case Array(items) => if s.items.Some? then EvalItems(depth - 1, items, s.items.value, defs, w) else Some(true)
      case Object(members) => EvalMembers(depth - 1, members, s.properties, defs, w)
      case _ => Some(true)
  }

  function EvalItems(depth: nat, items: seq<Json>, s: Schema, defs: Definitions, w: World): Option<bool>
    decreases depth, |items|
  {
    if items == [] then Some(true)
    else
      match Eval(depth, items[0], s, defs, w)
      case Some(true) => EvalItems(depth, items[1..], s, defs, w)
      case stop => stop
  }

  function EvalMembers(depth: nat, members: seq<Member>, properties: seq<Property>, defs: Definitions, w: World): Option<bool>
    decreases depth, |members|
  {
    if members == [] then Some(true)
    else
      match Lookup(properties, members[0].name)
      case None => EvalMembers(depth, members[1..], properties, defs, w)
      case Some(s) =>
        match Eval(depth, members[0].value, s, defs, w)
        case Some(true) => EvalMembers(depth, members[1..], properties, defs, w)
        case stop => stop
  }

  // ------------------------------------------------ chains of references

  /** Following references from `s` reaches, within `k` of them, a schema without one or a dangling name. */
  predicate Ends(defs: Definitions, s: Schema, k: nat)
    decreases k
  {
    s.ref.None? || s.ref.value !in defs || (k > 0 && Ends(defs, defs[s.ref.value], k - 1))
  }

  /** A chain of definitions, each a reference to the next. */
  ghost predicate RefChain(defs: Definitions, names: seq<string>) {
    && (forall i | 0 <= i < |names| :: names[i] in defs)
    && (forall i | 0 <= i < |names| - 1 :: defs[names[i]].ref == Some(names[i + 1]))
  }

  ghost predicate Cycle(defs: Definitions, names: seq<string>) {
    |names| > 1 && RefChain(defs, names) && names[0] == names[|names| - 1]
  }

  ghost predicate Acyclic(defs: Definitions) {
    forall names :: !Cycle(defs, names)
  }

  /** A chain that has not ended after `k` references visits `k + 1` definitions. */
  lemma {:induction false} LongChain(defs: Definitions, s: Schema, k: nat) returns (names: seq<string>)
    requires !Ends(defs, s, k)
    ensures |names| == k + 1 && RefChain(defs, names) && s.ref == Some(names[0])
    decreases k
  {
    var name := s.ref.value;
    if k == 0 {
      names := [name];
    } else {
      var rest := LongChain(defs, defs[name], k - 1);
      names := [name] + rest;
      forall i | 0 <= i < |names| ensures names[i] in defs {
        assert i == 0 || names[i] == rest[i - 1];
      }
      forall i | 0 <= i < |names| - 1 ensures defs[names[i]].ref == Some(names[i + 1]) {
        assert names[i + 1] == rest[i];
        assert i == 0 || names[i] == rest[i - 1];
      }
    }
  }

  lemma {:induction false} DistinctFit(names: seq<string>, all: set<string>)
    requires forall i | 0 <= i < |names| :: names[i] in all
    requires forall i, j | 0 <= i < j < |names| :: names[i] != names[j]
    ensures |names| <= |all|
    decreases |names|
  {
    if names != [] {
      var rest := names[1..];
      forall i | 0 <= i < |rest| ensures rest[i] in all - {names[0]} {
        assert rest[i] == names[i + 1];
      }
      DistinctFit(rest, all - {names[0]});
    }
  }

  /** Without a cycle no chain visits a definition twice, so every chain ends within `|defs|` references. */
  lemma AcyclicEnds(defs: Definitions, s: Schema)
    requires Acyclic(defs)
    ensures Ends(defs, s, |defs|)
  {
    if !Ends(defs, s, |defs|) {
      var names := LongChain(defs, s, |defs|);
      forall i, j | 0 <= i < j < |names| ensures names[i] != names[j] {
        var part := names[i..j + 1];
        assert RefChain(defs, part) by {
          forall k | 0 <= k < |part| - 1 ensures defs[part[k]].ref == Some(part[k + 1]) {
            assert part[k] == names[i + k] && part[k + 1] == names[i + k + 1];
          }
        }
        assert !Cycle(defs, part);
      }
      assert |defs| == |defs.Keys|;
      DistinctFit(names, defs.Keys);
    }
  }

  /** A chain inside a cycle goes on for any number of references. */
  lemma {:induction false} CycleNeverEnds(defs: Definitions, names: seq<string>, i: nat, s: Schema, k: nat)
    requires Cycle(defs, names) && i < |names| - 1 && s.ref == Some(names[i])
    ensures !Ends(defs, s, k)
    decreases k
  {
    if k > 0 {
      var next := defs[names[i]];
      assert next.ref == Some(names[i + 1]);
      CycleNeverEnds(defs, names, if i + 1 < |names| - 1 then i + 1 else 0, next, k - 1);
    }
  }

  // ------------------------------------------------ what it decides

  /** The schema at the end of a chain of references, or None where the chain dangles or never ends. */
  function Target(defs: Definitions, s: Schema, k: nat): (r: Option<Schema>)
    ensures r.Some? ==> r.value.ref.None?
    decreases k
  {
    if s.ref.None? then Some(s)
    else if s.ref.value !in defs || k == 0 then None
    else Target(defs, defs[s.ref.value], k - 1)
  }

  /** The types a value has: a boolean is neither an integer nor a number, and only a whole number is also an integer. */
  function TypesOf(v: Json): set<Type> {
    match v
    case Null => {NullType}
    case Boolean(_) => {BooleanType}
    case Integer(_) => {IntegerType, NumberType}
    case Float(_) => {NumberType}
    case NotFinite => {NumberType}
    case Text(_) => {StringType}
    case Array(_) => {ArrayType}
    case Object(_) => {ObjectType}
  }

  /** The value is one of the listed types and values. */
  ghost predicate MeetsAny(v: Json, s: Schema, w: World) {
    && (s.types.Some? ==> exists t :: t in s.types.value && t in TypesOf(v))
    && (s.constant.Some? ==> w.equal(v, s.constant.value))
    && (s.enumeration.Some? ==> exists c :: c in s.enumeration.value && w.equal(v, c))
  }

  /** `minimum` and `maximum`, both inclusive; infinities and NaN are refused. */
  ghost predicate MeetsNumber(v: Json, s: Schema) {
    && v != NotFinite
    && (v.Integer? && s.minimum.Some? ==> v.n as real >= s.minimum.value)
    && (v.Integer? && s.maximum.Some? ==> v.n as real <= s.maximum.value)
    && (v.Float? && s.minimum.Some? ==> v.x >= s.minimum.value)
    && (v.Float? && s.maximum.Some? ==> v.x <= s.maximum.value)
  }

  /** `minLength`, `pattern` and `format`. */
  ghost predicate MeetsText(v: Json, s: Schema, w: World) {
    v.Text? ==>
      && |v.s| >= s.minLength
      && (forall pattern | s.pattern == Some(pattern) :: w.matches(pattern, v.s))
      && (s.format == Some(Uuid) ==> w.uuid(v.s))
      && (s.format == Some(DateTime) ==> w.dateTime(v.s))
  }

  /** `minItems`, `maxItems` and `uniqueItems`: distinct items have distinct encodings. */
  ghost predicate MeetsArray(v: Json, s: Schema, w: World) {
    v.Array? ==>
      && |v.items| >= s.minItems
      && (s.maxItems.Some? ==> |v.items| <= s.maxItems.value)
      && (s.uniqueItems ==> forall i, j | 0 <= i < |v.items| && 0 <= j < |v.items| && i != j :: w.encode(v.items[i]) != w.encode(v.items[j]))
  }

  function NamesOf(members: seq<Member>): set<string> {
    set i | 0 <= i < |members| :: members[i].name
  }

  function PropertyNames(properties: seq<Property>): set<string> {
    set i | 0 <= i < |properties| :: properties[i].name
  }

  /** `required` and `additionalProperties: false`, over sets of names. */
  ghost predicate MeetsObject(v: Json, s: Schema) {
    v.Object? ==>
      && (forall name | name in s.required :: name in NamesOf(v.members))
      && (s.closed ==> NamesOf(v.members) <= PropertyNames(s.properties))
  }

  /** Every keyword of a schema that has no reference, each stated on the value and that keyword alone. */
  ghost predicate Meets(v: Json, s: Schema, w: World) {
    MeetsAny(v, s, w) && MeetsNumber(v, s) && MeetsText(v, s, w) && MeetsArray(v, s, w) && MeetsObject(v, s)
  }

  /** The property with this name is the one at `j`; where a name is repeated the first counts. */
  ghost predicate Governs(properties: seq<Property>, j: int, name: string) {
    && 0 <= j < |properties| && properties[j].name == name
    && forall k | 0 <= k < j :: properties[k].name != name
  }

  /** The plain reading of a schema: its keywords, and recursion on the value alone, in no particular order. */
  ghost predicate Conforms(v: Json, s: Schema, defs: Definitions, w: World)
    decreases v
  {
    var target := Target(defs, s, |defs|);
    && target.Some? && Meets(v, target.value, w)
    && (v.Array? && target.value.items.Some? ==>
          forall i | 0 <= i < |v.items| :: Conforms(v.items[i], target.value.items.value, defs, w))
    && (v.Object? ==>
          forall i, j | 0 <= i < |v.members| && Governs(target.value.properties, j, v.members[i].name) ::
            Conforms(v.members[i].value, target.value.properties[j].schema, defs, w))
  }

  /** The first property with a name is the one that is looked up. */
  lemma {:induction false} LookupGoverns(properties: seq<Property>, name: string)
    ensures Lookup(properties, name).Some? <==> name in PropertyNames(properties)
    ensures Lookup(properties, name).Some? <==> exists j :: Governs(properties, j, name)
    ensures forall j | Governs(properties, j, name) :: Lookup(properties, name) == Some(properties[j].schema)
    decreases |properties|
  {
    if properties != [] {
      var rest := properties[1..];
      LookupGoverns(rest, name);
      if properties[0].name == name {
        assert Governs(properties, 0, name);
      } else {
        forall j | Governs(properties, j, name) ensures Lookup(properties, name) == Some(properties[j].schema) {
          assert rest[j - 1] == properties[j];
          assert Governs(rest, j - 1, name);
        }
        if Lookup(rest, name).Some? {
          var j :| Governs(rest, j, name);
          assert properties[j + 1] == rest[j];
          assert Governs(properties, j + 1, name);
        }
      }
    }
  }

  lemma TypesAgree(v: Json, t: Type)
    ensures TypeMatches(v, t) <==> t in TypesOf(v)
  {}

  lemma AnyAgrees(v: Json, s: Schema, w: World)
    ensures MeetsAny(v, s, w) <==>
      && (s.types.Some? ==> exists i :: 0 <= i < |s.types.value| && TypeMatches(v, s.types.value[i]))
      && (s.constant.Some? ==> w.equal(v, s.constant.value))
      && (s.enumeration.Some? ==> exists i :: 0 <= i < |s.enumeration.value| && w.equal(v, s.enumeration.value[i]))
  {
    forall t ensures TypeMatches(v, t) <==> t in TypesOf(v) { TypesAgree(v, t); }
    hide TypeMatches, TypesOf;
  }

  lemma ObjectsAgree(v: Json, s: Schema)
    requires v.Object?
    ensures ObjectOk(v.members, s) <==> MeetsObject(v, s)
  {
    forall name ensures HasMember(v.members, name) <==> name in NamesOf(v.members) {}
    forall name ensures Lookup(s.properties, name).Some? <==> name in PropertyNames(s.properties) { LookupGoverns(s.properties, name); }
    hide Lookup, PropertyNames;
    assert NamesOf(v.members) <= PropertyNames(s.properties) <==>
      forall i | 0 <= i < |v.members| :: v.members[i].name in PropertyNames(s.properties);
  }

  /** The checks the evaluator makes before it recurses are the keywords, each as it is stated on its own. */
  lemma LocalMeets(v: Json, s: Schema, w: World)
    ensures LocalOk(v, s, w) <==> Meets(v, s, w)
  {
    AnyAgrees(v, s, w);
    hide MeetsAny;
    if v.Object? {
      ObjectsAgree(v, s);
      hide ObjectOk, MeetsObject;
    }
  }

  /**
    Exactly when a value is accepted by a schema without a reference, whatever the definitions are:
    it meets every keyword, every item is accepted by `items`, and every member by the property of its name.
  */
  lemma AcceptedIff(depth: nat, v: Json, s: Schema, defs: Definitions, w: World)
    requires s.ref.None?
    ensures Eval(depth + 1, v, s, defs, w) == Some(true) <==>
      && Meets(v, s, w)
      && (v.Array? && s.items.Some? ==> forall i | 0 <= i < |v.items| :: Eval(depth, v.items[i], s.items.value, defs, w) == Some(true))
      && (v.Object? ==>
            forall i, j | 0 <= i < |v.members| && Governs(s.properties, j, v.members[i].name) ::
              Eval(depth, v.members[i].value, s.properties[j].schema, defs, w) == Some(true))
  {
    LocalMeets(v, s, w);
    hide LocalOk, Meets, Governs;
    if v.Array? && s.items.Some? {
      ItemsAccepted(depth, v.items, s.items.value, defs, w);
    } else if v.Object? {
      MembersAccepted(depth, v.members, s.properties, defs, w);
    }
  }

  lemma {:induction false} ItemsAccepted(depth: nat, items: seq<Json>, s: Schema, defs: Definitions, w: World)
    ensures EvalItems(depth, items, s, defs, w) == Some(true) <==>
            forall i | 0 <= i < |items| :: Eval(depth, items[i], s, defs, w) == Some(true)
    decreases |items|
  {
    hide Eval;
    if items != [] {
      ItemsAccepted(depth, items[1..], s, defs, w);
      assert forall i | 0 < i < |items| :: items[i] == items[1..][i - 1];
    }
  }

  lemma {:induction false} MembersAccepted(depth: nat, members: seq<Member>, properties: seq<Property>, defs: Definitions, w: World)
    ensures EvalMembers(depth, members, properties, defs, w) == Some(true) <==>
            forall i, j | 0 <= i < |members| && Governs(properties, j, members[i].name) ::
              Eval(depth, members[i].value, properties[j].schema, defs, w) == Some(true)
    decreases |members|
  {
    hide Eval, Governs;
    if members != [] {
      MembersAccepted(depth, members[1..], properties, defs, w);
      assert forall i | 0 < i < |members| :: members[i] == members[1..][i - 1];
      LookupGoverns(properties, members[0].name);
    }
  }

  /** A schema with a required name, with or without other keywords, refuses every object that lacks it. */
  lemma MissingRefused(depth: nat, v: Json, s: Schema, name: string, defs: Definitions, w: World)
    requires s.ref.None? && v.Object? && name in s.required
    requires forall i | 0 <= i < |v.members| :: v.members[i].name != name
    ensures Eval(depth + 1, v, s, defs, w) == Some(false)
  {
    LocalMeets(v, s, w);
    hide LocalOk;
    assert name !in NamesOf(v.members);
  }

  function Height(v: Json): nat
    decreases v
  {
    match v
    case Array(items) => 1 + ItemsHeight(items)
    case Object(members) => 1 + MembersHeight(members)
    case _ => 0
  }

  function ItemsHeight(items: seq<Json>): (h: nat)
    decreases items
    ensures forall i | 0 <= i < |items| :: Height(items[i]) <= h
  {
    if items == [] then 0
    else
      assert forall i | 0 < i < |items| :: items[i] == items[1..][i - 1];
      Max(Height(items[0]), ItemsHeight(items[1..]))
  }

  function MembersHeight(members: seq<Member>): (h: nat)
    decreases members
    ensures forall i | 0 <= i < |members| :: Height(members[i].value) <= h
  {
    if members == [] then 0
    else
      assert forall i | 0 < i < |members| :: members[i] == members[1..][i - 1];
      Max(Height(members[0].value), MembersHeight(members[1..]))
  }

  /** Nested calls enough for a value of height `h` and a chain with `k` references left. */
  function Enough(defs: Definitions, h: nat, k: nat): nat {
    h * (|defs| + 2) + k + 1
  }

  lemma {:induction false} TargetStable(defs: Definitions, s: Schema, k: nat, l: nat)
    requires Ends(defs, s, k) && k <= l
    ensures Target(defs, s, k) == Target(defs, s, l)
    decreases k
  {
    if s.ref.Some? && s.ref.value in defs {
      TargetStable(defs, defs[s.ref.value], k - 1, l - 1);
    }
  }

  /** A reference conforms as what it refers to. */
  lemma ConformsThroughReference(v: Json, s: Schema, k: nat, defs: Definitions, w: World)
    requires Ends(defs, s, k) && k <= |defs| && s.ref.Some? && s.ref.value in defs
    ensures Conforms(v, s, defs, w) == Conforms(v, defs[s.ref.value], defs, w)
  {
    hide Meets, Governs;
    var next := defs[s.ref.value];
    TargetStable(defs, s, k, |defs|);
    TargetStable(defs, next, k - 1, |defs|);
  }

  lemma EnoughNext(defs: Definitions, h: nat, k: nat)
    ensures Enough(defs, h, k) > 0
    ensures k > 0 ==> Enough(defs, h, k - 1) == Enough(defs, h, k) - 1
  {}

  lemma EnoughBelow(defs: Definitions, h: nat, height: nat, k: nat)
    requires h < height
    ensures Enough(defs, h, |defs|) < Enough(defs, height, k)
  {
    var d := |defs| + 2;
    assert (h + 1) * d <= height * d;
    assert (h + 1) * d == h * d + d;
  }

  ghost predicate ItemsConform(items: seq<Json>, s: Schema, defs: Definitions, w: World) {
    forall i | 0 <= i < |items| :: Conforms(items[i], s, defs, w)
  }

  ghost predicate MembersConform(members: seq<Member>, properties: seq<Property>, defs: Definitions, w: World) {
    forall i, j | 0 <= i < |members| && Governs(properties, j, members[i].name) ::
      Conforms(members[i].value, properties[j].schema, defs, w)
  }

  lemma ConformsDirectly(v: Json, s: Schema, defs: Definitions, w: World)
    requires s.ref.None?
    ensures Conforms(v, s, defs, w) <==>
            && Meets(v, s, w)
            && (v.Array? && s.items.Some? ==> ItemsConform(v.items, s.items.value, defs, w))
            && (v.Object? ==> MembersConform(v.members, s.properties, defs, w))
  {
    hide Meets, Governs;
  }

  /**
    The evaluator, given enough nested calls, decides the plain reading of the schema. The bound on
    nested calls is explicit: the height of the value, times the definitions plus two.
  */
  lemma {:induction false} EvalRefines(depth: nat, v: Json, s: Schema, k: nat, defs: Definitions, w: World)
    requires Acyclic(defs) && Ends(defs, s, k) && k <= |defs|
    requires depth >= Enough(defs, Height(v), k)
    ensures Eval(depth, v, s, defs, w) == Some(Conforms(v, s, defs, w))
    decreases v, k
  {
    hide LocalOk, Meets, Acyclic, ItemsConform, MembersConform, Enough;
    EnoughNext(defs, Height(v), k);
    if s.ref.Some? {
      if s.ref.value in defs {
        EvalRefines(depth - 1, v, defs[s.ref.value], k - 1, defs, w);
        ConformsThroughReference(v, s, k, defs, w);
      }
    } else {
      hide Conforms;
      ConformsDirectly(v, s, defs, w);
      LocalMeets(v, s, w);
      match v {
        case Array(items) =>
          if s.items.Some? {
            EnoughBelow(defs, ItemsHeight(items), Height(v), k);
            ItemsRefine(depth - 1, items, s.items.value, defs, w);
          }
        case Object(members) =>
          EnoughBelow(defs, MembersHeight(members), Height(v), k);
          MembersRefine(depth - 1, members, s.properties, defs, w);
        case _ =>
      }
    }
  }

  lemma {:induction false} ItemsRefine(depth: nat, items: seq<Json>, s: Schema, defs: Definitions, w: World)
    requires Acyclic(defs) && depth >= Enough(defs, ItemsHeight(items), |defs|)
    ensures EvalItems(depth, items, s, defs, w) == Some(ItemsConform(items, s, defs, w))
    decreases items, 0
  {
    hide Eval, Conforms;
    if items != [] {
      AcyclicEnds(defs, s);
      EnoughAtMost(defs, Height(items[0]), ItemsHeight(items), |defs|);
      EnoughAtMost(defs, ItemsHeight(items[1..]), ItemsHeight(items), |defs|);
      EvalRefines(depth, items[0], s, |defs|, defs, w);
      ItemsRefine(depth, items[1..], s, defs, w);
      assert items == [items[0]] + items[1..];
    }
  }

  lemma EnoughAtMost(defs: Definitions, h: nat, height: nat, k: nat)
    requires h <= height
    ensures Enough(defs, h, k) <= Enough(defs, height, k)
  {
    assert h * (|defs| + 2) <= height * (|defs| + 2);
  }

  lemma {:induction false} MembersRefine(depth: nat, members: seq<Member>, properties: seq<Property>, defs: Definitions, w: World)
    requires Acyclic(defs) && depth >= Enough(defs, MembersHeight(members), |defs|)
    ensures EvalMembers(depth, members, properties, defs, w) == Some(MembersConform(members, properties, defs, w))
    decreases members, 0
  {
    hide Eval, Conforms, Governs;
    if members != [] {
      EnoughAtMost(defs, Height(members[0].value), MembersHeight(members), |defs|);
      EnoughAtMost(defs, MembersHeight(members[1..]), MembersHeight(members), |defs|);
      LookupGoverns(properties, members[0].name);
      var found := Lookup(properties, members[0].name);
      if found.Some? {
        AcyclicEnds(defs, found.value);
        EvalRefines(depth, members[0].value, found.value, |defs|, defs, w);
      }
      MembersRefine(depth, members[1..], properties, defs, w);
      assert forall i | 0 < i < |members| :: members[i] == members[1..][i - 1];
    }
  }

  // ------------------------------------------------ termination

  ghost predicate Terminates(v: Json, s: Schema, defs: Definitions, w: World) {
    exists depth :: Eval(depth, v, s, defs, w).Some?
  }

  lemma {:induction false} NeverEnough(v: Json, s: Schema, k: nat, defs: Definitions, w: World)
    requires !Ends(defs, s, k)
    ensures Eval(k + 1, v, s, defs, w).None?
    decreases k
  {
    if k > 0 {
      NeverEnough(v, defs[s.ref.value], k - 1, defs, w);
    }
  }

  function Reference(name: string): Schema {
    Schema(Some(name), None, None, None, None, None, 0, None, None, 0, None, false, None, [], [], false)
  }

  /**
    The evaluator terminates on every value and schema exactly when no chain of definitions that are
    themselves references is cyclic; recursion through items and properties may be cyclic.
  */
  lemma TerminatesIff(defs: Definitions, w: World)
    ensures (forall v, s :: Terminates(v, s, defs, w)) <==> Acyclic(defs)
  {
    assert Acyclic(defs) || exists names :: Cycle(defs, names);
    hide Eval, Acyclic, RefChain;
    if Acyclic(defs) {
      forall v, s ensures Terminates(v, s, defs, w) {
        AcyclicEnds(defs, s);
        EvalRefines(Enough(defs, Height(v), |defs|), v, s, |defs|, defs, w);
      }
    }
    forall names | Cycle(defs, names) ensures !Terminates(Null, Reference(names[0]), defs, w) {
      CycleDiverges(defs, names, w);
    }
  }

  lemma CycleDiverges(defs: Definitions, names: seq<string>, w: World)
    requires Cycle(defs, names)
    ensures !Terminates(Null, Reference(names[0]), defs, w)
  {
    var s := Reference(names[0]);
    forall depth: nat ensures Eval(depth, Null, s, defs, w).None? {
      if depth > 0 {
        CycleNeverEnds(defs, names, 0, s, depth - 1);
        NeverEnough(Null, s, depth - 1, defs, w);
      }
    }
  }

  // ------------------------------------------------ inlining

  datatype Step = ToItems | ToProperty(index: nat)

  /** Replace the reference at a position inside `s` by what it refers to; elsewhere nothing changes. */
  function InlineAt(s: Schema, path: seq<Step>, defs: Definitions): Schema
    decreases s
  {
    if path == [] then (if s.ref.Some? && s.ref.value in defs then defs[s.ref.value] else s)
    else
      match path[0]
      case ToItems =>
        if s.items.Some? then s.(items := Some(InlineAt(s.items.value, path[1..], defs))) else s
      case ToProperty(i) =>
        if i < |s.properties| then
          var p := s.properties[i];
          s.(properties := s.properties[i := Property(p.name, InlineAt(p.schema, path[1..], defs))])
        else s
  }

  /** `t` is `s` with some references, at any depths, replaced by what they refer to. */
  ghost predicate Inlines(s: Schema, t: Schema, defs: Definitions)
    decreases s
  {
    || s == t
    || (s.ref.Some? && s.ref.value in defs && t == defs[s.ref.value])
    || (&& t == s.(items := t.items, properties := t.properties)
        && (s.items.Some? <==> t.items.Some?)
        && (s.items.Some? ==> Inlines(s.items.value, t.items.value, defs))
        && |s.properties| == |t.properties|
        && forall i | 0 <= i < |s.properties| ::
             s.properties[i].name == t.properties[i].name && Inlines(s.properties[i].schema, t.properties[i].schema, defs))
  }

  lemma {:induction false} InlineAtInlines(s: Schema, path: seq<Step>, defs: Definitions)
    ensures Inlines(s, InlineAt(s, path, defs), defs)
    decreases s
  {
    var t := InlineAt(s, path, defs);
    if path != [] {
      match path[0]
      case ToItems =>
        if s.items.Some? {
          InlineAtInlines(s.items.value, path[1..], defs);
        }
      case ToProperty(i) =>
        if i < |s.properties| {
          InlineAtInlines(s.properties[i].schema, path[1..], defs);
          forall j | 0 <= j < |s.properties|
            ensures s.properties[j].name == t.properties[j].name && Inlines(s.properties[j].schema, t.properties[j].schema, defs)
          {
            assert j == i || t.properties[j] == s.properties[j];
          }
          assert s.items.Some? ==> Inlines(s.items.value, t.items.value, defs);
          assert t == s.(items := t.items, properties := t.properties);
        }
    }
  }

  lemma {:induction false} LookupInlines(p: seq<Property>, q: seq<Property>, name: string, defs: Definitions)
    requires PropertiesInline(p, q, defs)
    ensures Lookup(p, name).Some? <==> Lookup(q, name).Some?
    ensures Lookup(p, name).Some? ==> Inlines(Lookup(p, name).value, Lookup(q, name).value, defs)
    decreases |p|
  {
    if p != [] {
      assert p[0].name == q[0].name;
      forall i | 0 <= i < |p| - 1
        ensures p[1..][i].name == q[1..][i].name && Inlines(p[1..][i].schema, q[1..][i].schema, defs)
      {
        assert p[1..][i] == p[i + 1] && q[1..][i] == q[i + 1];
      }
      LookupInlines(p[1..], q[1..], name, defs);
    }
  }

  ghost predicate PropertiesInline(p: seq<Property>, q: seq<Property>, defs: Definitions) {
    |p| == |q| && forall i | 0 <= i < |p| :: p[i].name == q[i].name && Inlines(p[i].schema, q[i].schema, defs)
  }

  /** Inlining inside a schema leaves its own keywords as they are. */
  lemma LocalUnchanged(v: Json, s: Schema, t: Schema, defs: Definitions, w: World)
    requires t == s.(items := t.items, properties := t.properties) && PropertiesInline(s.properties, t.properties, defs)
    ensures LocalOk(v, s, w) == LocalOk(v, t, w)
  {
    assert v.Text? ==> TextOk(v.s, s, w) == TextOk(v.s, t, w);
    assert v.Array? ==> ArrayOk(v.items, s, w) == ArrayOk(v.items, t, w);
    assert v.Integer? || v.Float? ==> forall x :: InRange(x, s) == InRange(x, t);
    hide TextOk, ArrayOk, InRange;
    if v.Object? {
      forall i | 0 <= i < |v.members|
        ensures Lookup(s.properties, v.members[i].name).Some? <==> Lookup(t.properties, v.members[i].name).Some?
      {
        LookupInlines(s.properties, t.properties, v.members[i].name, defs);
      }
    }
  }

  ghost predicate Within(a: Option<bool>, b: Option<bool>) {
    a.Some? ==> a == b
  }

  /** What the evaluator decides it also decides with more nested calls. */
  lemma {:induction false} EvalMonotone(depth: nat, v: Json, s: Schema, defs: Definitions, w: World)
    ensures Within(Eval(depth, v, s, defs, w), Eval(depth + 1, v, s, defs, w))
    decreases depth, 0
  {
    hide LocalOk;
    if depth > 0 {
      if s.ref.Some? {
        if s.ref.value in defs {
          EvalMonotone(depth - 1, v, defs[s.ref.value], defs, w);
        }
      } else if v.Array? && s.items.Some? {
        ItemsMonotone(depth - 1, v.items, s.items.value, defs, w);
      } else if v.Object? {
        MembersMonotone(depth - 1, v.members, s.properties, defs, w);
      }
    }
  }

  lemma {:induction false} ItemsMonotone(depth: nat, items: seq<Json>, s: Schema, defs: Definitions, w: World)
    ensures Within(EvalItems(depth, items, s, defs, w), EvalItems(depth + 1, items, s, defs, w))
    decreases depth, |items|
  {
    hide Eval;
    if items != [] {
      EvalMonotone(depth, items[0], s, defs, w);
      ItemsMonotone(depth, items[1..], s, defs, w);
    }
  }

  lemma {:induction false} MembersMonotone(depth: nat, members: seq<Member>, properties: seq<Property>, defs: Definitions, w: World)
    ensures Within(EvalMembers(depth, members, properties, defs, w), EvalMembers(depth + 1, members, properties, defs, w))
    decreases depth, |members|
  {
    hide Eval;
    if members != [] {
      var found := Lookup(properties, members[0].name);
      if found.Some? {
        EvalMonotone(depth, members[0].value, found.value, defs, w);
      }
      MembersMonotone(depth, members[1..], properties, defs, w);
    }
  }

  lemma InlinesCases(s: Schema, t: Schema, defs: Definitions)
    requires Inlines(s, t, defs)
    ensures || s == t
            || (s.ref.Some? && s.ref.value in defs && t == defs[s.ref.value])
            || (&& t == s.(items := t.items, properties := t.properties)
                && (s.items.Some? <==> t.items.Some?)
                && (s.items.Some? ==> Inlines(s.items.value, t.items.value, defs))
                && PropertiesInline(s.properties, t.properties, defs))
  {}

  /** Inlining keeps a verdict without more calls, and one more call undoes it. */
  lemma {:induction false} InlineStep(depth: nat, v: Json, s: Schema, t: Schema, defs: Definitions, w: World)
    requires Inlines(s, t, defs)
    ensures Within(Eval(depth, v, s, defs, w), Eval(depth, v, t, defs, w))
    ensures Within(Eval(depth, v, t, defs, w), Eval(depth + 1, v, s, defs, w))
    decreases depth, 0
  {
    InlinesCases(s, t, defs);
    hide LocalOk, Inlines, PropertiesInline;
    if s == t {
      EvalMonotone(depth, v, s, defs, w);
    } else if s.ref.Some? && s.ref.value in defs && t == defs[s.ref.value] {
      if depth > 0 {
        EvalMonotone(depth - 1, v, t, defs, w);
      }
    } else if s.ref.Some? {
      EvalMonotone(depth, v, s, defs, w);
    } else if depth > 0 {
      hide Eval;
      InlineInside(depth, v, s, t, defs, w);
    }
  }

  function Width(v: Json): nat {
    match v
    case Array(items) => |items|
    case Object(members) => |members|
    case _ => 0
  }

  lemma {:induction false} InlineInside(depth: nat, v: Json, s: Schema, t: Schema, defs: Definitions, w: World)
    requires depth > 0 && s.ref.None? && t == s.(items := t.items, properties := t.properties)
    requires s.items.Some? <==> t.items.Some?
    requires s.items.Some? ==> Inlines(s.items.value, t.items.value, defs)
    requires PropertiesInline(s.properties, t.properties, defs)
    ensures Within(Eval(depth, v, s, defs, w), Eval(depth, v, t, defs, w))
    ensures Within(Eval(depth, v, t, defs, w), Eval(depth + 1, v, s, defs, w))
    decreases depth - 1, Width(v) + 1
  {
    hide LocalOk, Inlines, PropertiesInline;
    LocalUnchanged(v, s, t, defs, w);
    if v.Array? && s.items.Some? {
      InlineItems(depth - 1, v.items, s.items.value, t.items.value, defs, w);
    } else if v.Object? {
      InlineMembers(depth - 1, v.members, s.properties, t.properties, defs, w);
    }
  }

  lemma {:induction false} InlineItems(depth: nat, items: seq<Json>, s: Schema, t: Schema, defs: Definitions, w: World)
    requires Inlines(s, t, defs)
    ensures Within(EvalItems(depth, items, s, defs, w), EvalItems(depth, items, t, defs, w))
    ensures Within(EvalItems(depth, items, t, defs, w), EvalItems(depth + 1, items, s, defs, w))
    decreases depth, |items|
  {
    hide Eval, Inlines;
    if items != [] {
      InlineStep(depth, items[0], s, t, defs, w);
      InlineItems(depth, items[1..], s, t, defs, w);
    }
  }

  lemma {:induction false} InlineMembers(depth: nat, members: seq<Member>, p: seq<Property>, q: seq<Property>, defs: Definitions, w: World)
    requires PropertiesInline(p, q, defs)
    ensures Within(EvalMembers(depth, members, p, defs, w), EvalMembers(depth, members, q, defs, w))
    ensures Within(EvalMembers(depth, members, q, defs, w), EvalMembers(depth + 1, members, p, defs, w))
    decreases depth, |members|
  {
    hide Eval, Inlines, PropertiesInline;
    if members != [] {
      LookupInlines(p, q, members[0].name, defs);
      var found := Lookup(p, members[0].name);
      if found.Some? {
        InlineStep(depth, members[0].value, found.value, Lookup(q, members[0].name).value, defs, w);
      }
      InlineMembers(depth, members[1..], p, q, defs, w);
    }
  }

  ghost predicate Decides(v: Json, s: Schema, defs: Definitions, w: World, verdict: bool) {
    exists depth :: Eval(depth, v, s, defs, w) == Some(verdict)
  }

  /**
    Inlining one reference at any depth, the root definitions fixed, leaves the verdict on every
    value unchanged, including that there is none when the evaluation does not end.
  */
  lemma InliningKeepsVerdict(s: Schema, path: seq<Step>, v: Json, defs: Definitions, w: World, verdict: bool)
    ensures Decides(v, s, defs, w, verdict) <==> Decides(v, InlineAt(s, path, defs), defs, w, verdict)
  {
    hide Eval, Inlines, InlineAt;
    var t := InlineAt(s, path, defs);
    InlineAtInlines(s, path, defs);
    forall depth: nat ensures Within(Eval(depth, v, s, defs, w), Eval(depth, v, t, defs, w))
      ensures Within(Eval(depth, v, t, defs, w), Eval(depth + 1, v, s, defs, w))
    {
      InlineStep(depth, v, s, t, defs, w);
    }
    if Decides(v, t, defs, w, verdict) {
      var depth: nat :| Eval(depth, v, t, defs, w) == Some(verdict);
      assert Eval(depth + 1, v, s, defs, w) == Some(verdict);
    }
  }
}
