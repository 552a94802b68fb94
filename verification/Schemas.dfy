/**
 JSON values, the validator schemas the API is written with, and the OpenAPI Schema Objects
 published for them (section 4.7.24 of the OpenAPI Specification 3.0.3), each with a meaning
 over JSON values; and the translation between the two.
 */
module Schemas {
  import opened Options

  datatype Json =
    | JNull
    | JBool(b: bool)
    | JNumber(n: real)
    | JString(s: string)
    | JArray(items: seq<Json>)
    | JObject(members: map<string, Json>)

  datatype Format = Email | Url | Uuid | DateTime

  function FormatName(f: Format): string {
    match f
    case Email => "email"
    case Url => "url"
    case Uuid => "uuid"
    case DateTime => "date-time"
  }

  /** Which strings satisfy a named format; the same test for the validator and for the document. */
  type Formats = (string, string) -> bool

  datatype StringCheck =
    | MinLength(n: nat)
    | MaxLength(n: nat)
    | HasFormat(format: Format)
    | Trim
    | OtherString(test: string -> bool)

  datatype NumberCheck =
    | IsInt
    | AtLeast(bound: real, inclusive: bool)
    | AtMost(bound: real, inclusive: bool)
    | OtherNumber(test: real -> bool)

  datatype UnknownKeys = Strip | Strict | Passthrough

  datatype Property = Property(key: string, schema: Zod)

  datatype Zod =
    | ZString(checks: seq<StringCheck>)
    | ZNumber(bounds: seq<NumberCheck>)
    | ZBoolean
    | ZDate
    | ZLiteral(literal: Json)
    | ZEnum(values: seq<string>)
    | ZArray(item: Zod, minItems: Option<nat>, maxItems: Option<nat>)
    | ZObject(shape: seq<Property>, unknownKeys: UnknownKeys)
    | ZRecord(valueType: Zod)
    | ZIntersection(left: Zod, right: Zod)
    | ZUnion(options: seq<Zod>)
    | ZOther(accepts: Option<Json> -> bool) // a construct the translation does not know
    | ZOptional(inner: Zod)
    | ZNullable(inner: Zod)
    | ZDefault(inner: Zod, fallback: Json)
    | ZEffects(inner: Zod, refine: Option<Json> -> bool)

  datatype Additional = Unspecified | Allowed(allowed: bool) | Each(schema: OpenApi)

  datatype Limits = Limits(
    minimum: Option<real>,
    maximum: Option<real>,
    minLength: Option<nat>,
    maxLength: Option<nat>,
    minItems: Option<nat>,
    maxItems: Option<nat>)

  const UNLIMITED := Limits(None, None, None, None, None, None)

  datatype OpenApi = OpenApi(
    kind: Option<string>,
    format: Option<string>,
    enumeration: Option<seq<Json>>,
    items: Option<OpenApi>,
    oneOf: seq<OpenApi>, // empty if absent
    properties: map<string, OpenApi>, // absent and empty mean the same
    required: Option<seq<string>>,
    additional: Additional,
    nullable: bool,
    defaultValue: Option<Json>,
    limits: Limits)

  const BLANK := OpenApi(None, None, None, None, [], map[], None, Unspecified, false, None, UNLIMITED)

  // ----- what the validator accepts -----

  /** The validator measures strings in UTF-16 code units. */
  ghost function CodeUnits(s: string): nat {
    if s == [] then 0 else (if s[0] >= '\U{10000}' then 2 else 1) + CodeUnits(s[1..])
  }

  function TrimLeft(s: string): string {
    if s != [] && s[0] in " \t\n\r" then TrimLeft(s[1..]) else s
  }

  function TrimRight(s: string): string {
    if s != [] && s[|s| - 1] in " \t\n\r" then TrimRight(s[..|s| - 1]) else s
  }

  /** Checks run in order; `trim` replaces the string the later ones see. */
  ghost predicate StringPasses(checks: seq<StringCheck>, s: string, formats: Formats) {
    checks == [] ||
    match checks[0]
    case MinLength(n) => n <= CodeUnits(s) && StringPasses(checks[1..], s, formats)
    case MaxLength(n) => CodeUnits(s) <= n && StringPasses(checks[1..], s, formats)
    case HasFormat(f) => formats(FormatName(f), s) && StringPasses(checks[1..], s, formats)
    case Trim => StringPasses(checks[1..], TrimRight(TrimLeft(s)), formats)
    case OtherString(test) => test(s) && StringPasses(checks[1..], s, formats)
  }

  ghost predicate IsInteger(n: real) {
    n == n.Floor as real
  }

  ghost predicate NumberPasses(check: NumberCheck, n: real) {
    match check
    case IsInt => IsInteger(n)
    case AtLeast(bound, inclusive) => bound < n || (inclusive && bound == n)
    case AtMost(bound, inclusive) => n < bound || (inclusive && bound == n)
    case OtherNumber(test) => test(n)
  }

  ghost predicate SizeWithin(size: nat, least: Option<nat>, most: Option<nat>) {
    (least.Some? ==> least.value <= size) && (most.Some? ==> size <= most.value)
  }

  ghost predicate NumberWithin(n: real, least: Option<real>, most: Option<real>) {
    (least.Some? ==> least.value <= n) && (most.Some? ==> n <= most.value)
  }

  ghost function Member(members: map<string, Json>, key: string): Option<Json> {
    if key in members then Some(members[key]) else None
  }

  ghost predicate IsKey(shape: seq<Property>, key: string) {
    exists i :: 0 <= i < |shape| && shape[i].key == key
  }

  /** Whether parsing `v` succeeds; `None` is a value that is absent. */
  ghost predicate Accepts(z: Zod, v: Option<Json>, formats: Formats)
    decreases z
  {
    match z
    case ZString(checks) => v.Some? && v.value.JString? && StringPasses(checks, v.value.s, formats)
    case ZNumber(bounds) =>
      v.Some? && v.value.JNumber? && forall i :: 0 <= i < |bounds| ==> NumberPasses(bounds[i], v.value.n)
    case ZBoolean => v.Some? && v.value.JBool?
    case ZDate => false // no JSON value is a Date
    case ZLiteral(literal) => v == Some(literal)
    case ZEnum(values) => v.Some? && v.value.JString? && v.value.s in values
    case ZArray(item, least, most) =>
      v.Some? && v.value.JArray? && SizeWithin(|v.value.items|, least, most) &&
      forall i :: 0 <= i < |v.value.items| ==> Accepts(item, Some(v.value.items[i]), formats)
    case ZObject(shape, unknownKeys) =>
      v.Some? && v.value.JObject? &&
      (forall i :: 0 <= i < |shape| ==> Accepts(shape[i].schema, Member(v.value.members, shape[i].key), formats)) &&
      (unknownKeys == Strict ==> forall k :: k in v.value.members ==> IsKey(shape, k))
    case ZRecord(valueType) =>
      v.Some? && v.value.JObject? &&
      forall k :: k in v.value.members ==> Accepts(valueType, Some(v.value.members[k]), formats)
    case ZIntersection(left, right) => Accepts(left, v, formats) && Accepts(right, v, formats)
    case ZUnion(options) => exists i :: 0 <= i < |options| && Accepts(options[i], v, formats)
    case ZOther(accepts) => accepts(v)
    case ZOptional(inner) => v.None? || Accepts(inner, v, formats)
    case ZNullable(inner) => v == Some(JNull) || Accepts(inner, v, formats)
    case ZDefault(inner, fallback) => Accepts(inner, if v.None? then Some(fallback) else v, formats)
    case ZEffects(inner, refine) => Accepts(inner, v, formats) && refine(v)
  }

  // ----- what a published schema means -----

  ghost predicate HasKind(kind: string, v: Json) {
    match kind
    case "string" => v.JString?
    case "number" => v.JNumber?
    case "integer" => v.JNumber? && IsInteger(v.n)
    case "boolean" => v.JBool?
    case "array" => v.JArray?
    case "object" => v.JObject?
    case _ => false
  }

  /** `nullable` adds null to the allowed type; every other keyword still applies. */
  ghost predicate Valid(s: OpenApi, v: Json, formats: Formats)
    decreases s, 1
  {
    && (s.kind.Some? ==> HasKind(s.kind.value, v) || (s.nullable && v == JNull))
    && (s.enumeration.Some? ==> v in s.enumeration.value)
    && (s.oneOf != [] ==> OneValid(s.oneOf, v, formats))
    && (v.JString? ==> StringValid(s, v.s, formats))
    && (v.JNumber? ==> NumberWithin(v.n, s.limits.minimum, s.limits.maximum))
    && (v.JArray? ==> SizeWithin(|v.items|, s.limits.minItems, s.limits.maxItems))
    && (v.JArray? && s.items.Some? ==> forall i :: 0 <= i < |v.items| ==> Valid(s.items.value, v.items[i], formats))
    && (v.JObject? && s.required.Some? ==> forall i :: 0 <= i < |s.required.value| ==> s.required.value[i] in v.members)
    && (v.JObject? ==> forall k :: k in v.members ==>
          if k in s.properties then Valid(s.properties[k], v.members[k], formats)
          else match s.additional
               case Unspecified => true
               case Allowed(allowed) => allowed
               case Each(schema) => Valid(schema, v.members[k], formats))
  }

  /** Exactly one of the schemas holds. */
  ghost predicate OneValid(schemas: seq<OpenApi>, v: Json, formats: Formats)
    decreases schemas, 1
  {
    exists i :: 0 <= i < |schemas| && Valid(schemas[i], v, formats) && OthersInvalid(schemas, i, v, formats)
  }

  ghost predicate OthersInvalid(schemas: seq<OpenApi>, i: int, v: Json, formats: Formats)
    decreases schemas, 0
  {
    forall j :: 0 <= j < |schemas| && j != i ==> !Valid(schemas[j], v, formats)
  }

  ghost predicate StringValid(s: OpenApi, text: string, formats: Formats) {
    (s.format.Some? ==> formats(s.format.value, text)) && SizeWithin(|text|, s.limits.minLength, s.limits.maxLength)
  }

  // ----- the translation -----

  const UNWRAP_DEPTH := 20

  datatype Unwrapped = Unwrapped(inner: Zod, optional: bool, nullable: bool, defaultValue: Option<Json>)

  function UnwrapFrom(z: Zod, depth: nat, optional: bool, nullable: bool, defaultValue: Option<Json>): (u: Unwrapped)
    ensures u.inner == z || u.inner < z
    decreases depth, z
  {
    if depth == 0 then Unwrapped(z, optional, nullable, defaultValue)
    else
      match z
      case ZOptional(inner) => UnwrapFrom(inner, depth - 1, true, nullable, defaultValue)
      case ZNullable(inner) => UnwrapFrom(inner, depth - 1, optional, true, defaultValue)
      case ZDefault(inner, fallback) => UnwrapFrom(inner, depth - 1, true, nullable, Some(fallback))
      case ZEffects(inner, _) => UnwrapFrom(inner, depth - 1, optional, nullable, defaultValue)
      case _ => Unwrapped(z, optional, nullable, defaultValue)
  }

  function Unwrap(z: Zod): Unwrapped {
    UnwrapFrom(z, UNWRAP_DEPTH, false, false, None)
  }

  function FirstMinLength(checks: seq<StringCheck>): Option<nat> {
    if checks == [] then None
    else if checks[0].MinLength? then Some(checks[0].n) else FirstMinLength(checks[1..])
  }

  function FirstMaxLength(checks: seq<StringCheck>): Option<nat> {
    if checks == [] then None
    else if checks[0].MaxLength? then Some(checks[0].n) else FirstMaxLength(checks[1..])
  }

  function FirstFormat(checks: seq<StringCheck>): Option<string> {
    if checks == [] then None
    else if checks[0].HasFormat? then Some(FormatName(checks[0].format)) else FirstFormat(checks[1..])
  }

  function FirstAtLeast(bounds: seq<NumberCheck>): Option<real> {
    if bounds == [] then None
    else if bounds[0].AtLeast? then Some(bounds[0].bound) else FirstAtLeast(bounds[1..])
  }

  function FirstAtMost(bounds: seq<NumberCheck>): Option<real> {
    if bounds == [] then None
    else if bounds[0].AtMost? then Some(bounds[0].bound) else FirstAtMost(bounds[1..])
  }

  predicate SomeInt(bounds: seq<NumberCheck>) {
    exists i :: 0 <= i < |bounds| && bounds[i].IsInt?
  }

  /** JavaScript's `typeof`. */
  function TypeOf(v: Json): string {
    match v
    case JBool(_) => "boolean"
    case JNumber(_) => "number"
    case JString(_) => "string"
    case _ => "object"
  }

  function PropertiesOf(shape: seq<Property>): map<string, OpenApi>
    decreases shape, 0
  {
    if shape == [] then map[]
    else
      var n := |shape| - 1;
      PropertiesOf(shape[..n])[shape[n].key := Compile(shape[n].schema)]
  }

  function RequiredOf(shape: seq<Property>): seq<string> {
    if shape == [] then []
    else
      var n := |shape| - 1;
      RequiredOf(shape[..n]) + (if Unwrap(shape[n].schema).optional then [] else [shape[n].key])
  }

  function Required(s: OpenApi): seq<string> {
    if s.required.Some? then s.required.value else []
  }

  function OptionsOf(options: seq<Zod>): (schemas: seq<OpenApi>)
    ensures |schemas| == |options| && forall i :: 0 <= i < |options| ==> schemas[i] == Compile(options[i])
    decreases options, 0
  {
    if options == [] then []
    else
      var n := |options| - 1;
      OptionsOf(options[..n]) + [Compile(options[n])]
  }

  /** Schemas without parts; a construct the translation does not know stays untyped. */
  function LeafSchema(base: OpenApi, leaf: Zod): OpenApi {
    match leaf
    case ZString(checks) =>
      base.(kind := Some("string"), format := FirstFormat(checks),
            limits := UNLIMITED.(minLength := FirstMinLength(checks), maxLength := FirstMaxLength(checks)))
    case ZNumber(bounds) =>
      base.(kind := Some(if SomeInt(bounds) then "integer" else "number"),
            limits := UNLIMITED.(minimum := FirstAtLeast(bounds), maximum := FirstAtMost(bounds)))
    case ZBoolean => base.(kind := Some("boolean"))
    case ZDate => base.(kind := Some("string"), format := Some("date-time"))
    case ZLiteral(literal) => base.(kind := Some(TypeOf(literal)), enumeration := Some([literal]))
    case ZEnum(values) =>
      base.(kind := Some("string"), enumeration := Some(seq(|values|, i requires 0 <= i < |values| => JString(values[i]))))
    case _ => base
  }

  function ObjectSchema(base: OpenApi, properties: map<string, OpenApi>, required: seq<string>, unknownKeys: UnknownKeys): OpenApi {
    base.(kind := Some("object"), properties := properties,
          required := if required == [] then None else Some(required), additional := Allowed(unknownKeys != Strict))
  }

  function ArraySchema(base: OpenApi, items: OpenApi, least: Option<nat>, most: Option<nat>): OpenApi {
    base.(kind := Some("array"), items := Some(items), limits := UNLIMITED.(minItems := least, maxItems := most))
  }

  function RecordSchema(base: OpenApi, value: OpenApi): OpenApi {
    base.(kind := Some("object"), additional := Each(value))
  }

  function BothSchema(base: OpenApi, left: OpenApi, right: OpenApi): OpenApi {
    base.(kind := Some("object"), properties := left.properties + right.properties,
          required := Some(Required(left) + Required(right)))
  }

  function BaseOf(u: Unwrapped): OpenApi {
    BLANK.(nullable := u.nullable, defaultValue := u.defaultValue)
  }

  function Compile(z: Zod): OpenApi
    decreases z, 1
  {
    var base := BaseOf(Unwrap(z));
    match Unwrap(z).inner
    case ZArray(item, least, most) => ArraySchema(base, Compile(item), least, most)
    case ZObject(shape, unknownKeys) => ObjectSchema(base, PropertiesOf(shape), RequiredOf(shape), unknownKeys)
    case ZRecord(valueType) => RecordSchema(base, Compile(valueType))
    case ZUnion(options) => base.(oneOf := OptionsOf(options))
    case ZIntersection(left, right) => BothSchema(base, Compile(left), Compile(right))
    case leaf => LeafSchema(base, leaf)
  }

  method UnwrapLoop(z: Zod) returns (u: Unwrapped)
    ensures u == Unwrap(z)
  {
    var inner, optional, nullable, defaultValue := z, false, false, None;
    for depth := 0 to UNWRAP_DEPTH
      invariant UnwrapFrom(inner, UNWRAP_DEPTH - depth, optional, nullable, defaultValue) == Unwrap(z)
    {
      match inner {
        case ZOptional(next) => optional, inner := true, next;
        case ZNullable(next) => nullable, inner := true, next;
        case ZDefault(next, fallback) => optional, defaultValue, inner := true, Some(fallback), next;
        case ZEffects(next, _) => inner := next;
        case _ => break;
      }
    }
    u := Unwrapped(inner, optional, nullable, defaultValue);
  }

  /** The loop over an object's properties. */
  method CompileShape(shape: seq<Property>) returns (properties: map<string, OpenApi>, required: seq<string>)
    ensures properties == PropertiesOf(shape) && required == RequiredOf(shape)
    decreases shape, 0
  {
    properties, required := map[], [];
    for i := 0 to |shape|
      invariant properties == PropertiesOf(shape[..i]) && required == RequiredOf(shape[..i])
    {
      assert shape[..i + 1][..i] == shape[..i];
      var Property(key, value) := shape[i];
      var property := ZodToOpenApi(value);
      properties := properties[key := property];
      var presence := UnwrapLoop(value);
      if !presence.optional { required := required + [key]; }
    }
    assert shape[..|shape|] == shape;
  }

  /** The options of a union, in order. */
  method CompileOptions(options: seq<Zod>) returns (schemas: seq<OpenApi>)
    ensures schemas == OptionsOf(options)
    decreases options, 0
  {
    schemas := [];
    for i := 0 to |options|
      invariant schemas == OptionsOf(options[..i])
    {
      assert options[..i + 1][..i] == options[..i];
      var schema := ZodToOpenApi(options[i]);
      schemas := schemas + [schema];
    }
    assert options[..|options|] == options;
  }

  /** The construct under the wrappers. */
  method CompileInner(ghost z: Zod, u: Unwrapped) returns (schema: OpenApi)
    requires u == Unwrap(z)
    ensures schema == Compile(z)
    decreases u.inner, 1
  {
    var base := BaseOf(u);
    match u.inner {
      case ZArray(item, least, most) =>
        var items := ZodToOpenApi(item);
        schema := ArraySchema(base, items, least, most);
      case ZObject(shape, unknownKeys) =>
        var properties, required := CompileShape(shape);
        schema := ObjectSchema(base, properties, required, unknownKeys);
      case ZRecord(valueType) =>
        var value := ZodToOpenApi(valueType);
        schema := RecordSchema(base, value);
      case ZUnion(options) =>
        var list := CompileOptions(options);
        schema := base.(oneOf := list);
      case ZIntersection(left, right) =>
        var l := ZodToOpenApi(left);
        var r := ZodToOpenApi(right);
        schema := BothSchema(base, l, r);
      case leaf =>
        schema := LeafSchema(base, leaf);
    }
  }

  method ZodToOpenApi(z: Zod) returns (schema: OpenApi)
    ensures schema == Compile(z)
    decreases z, 2
  {
    var u := UnwrapLoop(z);
    schema := CompileInner(z, u);
  }
}
