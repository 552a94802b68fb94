/**
 The published schema against the validator.

 `Sound`: for faithful schemas every JSON value the validator accepts is valid under the
 published schema. `Exact`: for plain schemas the two agree on every value.
 */
module SchemaProofs {
  import opened Options
  import opened Schemas

  // ----- strings -----

  /** Every string in the value stays in the Basic Multilingual Plane, where lengths agree. */
  ghost predicate Basic(v: Json) {
    match v
    case JString(s) => forall i :: 0 <= i < |s| ==> s[i] < '\U{10000}'
    case JArray(items) => forall i :: 0 <= i < |items| ==> Basic(items[i])
    case JObject(members) => forall k :: k in members ==> Basic(members[k])
    case _ => true
  }

  lemma {:induction false} CodeUnitsBasic(s: string)
    requires Basic(JString(s))
    ensures CodeUnits(s) == |s|
  {
    if s != [] {
      assert forall i :: 0 <= i < |s[1..]| ==> s[1..][i] == s[i + 1];
      CodeUnitsBasic(s[1..]);
    }
  }

  ghost predicate LimitBeforeTrim(checks: seq<StringCheck>) {
    checks != [] && !checks[0].Trim? && (checks[0].MaxLength? || LimitBeforeTrim(checks[1..]))
  }

  ghost predicate FormatBeforeTrim(checks: seq<StringCheck>) {
    checks != [] && !checks[0].Trim? && (checks[0].HasFormat? || FormatBeforeTrim(checks[1..]))
  }

  /** No `trim` runs before the published length limit or before the published format. */
  ghost predicate TrimsLast(checks: seq<StringCheck>) {
    && (FirstMaxLength(checks) == None || LimitBeforeTrim(checks))
    && (FirstFormat(checks) == None || FormatBeforeTrim(checks))
  }

  lemma {:induction false} TrimShortens(s: string)
    ensures |TrimLeft(s)| <= |s| && |TrimRight(s)| <= |s|
    ensures Basic(JString(s)) ==> Basic(JString(TrimLeft(s))) && Basic(JString(TrimRight(s)))
  {
    if s != [] {
      TrimShortens(s[1..]);
      TrimShortens(s[..|s| - 1]);
    }
  }

  lemma {:induction false} StringSound(checks: seq<StringCheck>, s: string, formats: Formats)
    requires StringPasses(checks, s, formats) && Basic(JString(s))
    ensures FirstMinLength(checks).Some? ==> FirstMinLength(checks).value <= |s|
    ensures FirstMaxLength(checks).Some? && LimitBeforeTrim(checks) ==> |s| <= FirstMaxLength(checks).value
    ensures FirstFormat(checks).Some? && FormatBeforeTrim(checks) ==> formats(FirstFormat(checks).value, s)
  {
    if checks != [] {
      CodeUnitsBasic(s);
      if checks[0].Trim? {
        TrimShortens(s);
        TrimShortens(TrimLeft(s));
        StringSound(checks[1..], TrimRight(TrimLeft(s)), formats);
      } else {
        StringSound(checks[1..], s, formats);
      }
    }
  }

  /** Every check is the one of its kind that gets published. */
  ghost predicate PlainString(checks: seq<StringCheck>) {
    forall i :: 0 <= i < |checks| ==>
      match checks[i]
      case MinLength(n) => FirstMinLength(checks) == Some(n)
      case MaxLength(n) => FirstMaxLength(checks) == Some(n)
      case HasFormat(f) => FirstFormat(checks) == Some(FormatName(f))
      case _ => false
  }

  ghost predicate CheckHolds(check: StringCheck, s: string, formats: Formats) {
    match check
    case MinLength(n) => n <= |s|
    case MaxLength(n) => |s| <= n
    case HasFormat(f) => formats(FormatName(f), s)
    case _ => false
  }

  lemma {:induction false} StringComplete(checks: seq<StringCheck>, s: string, formats: Formats)
    requires Basic(JString(s)) && forall i :: 0 <= i < |checks| ==> CheckHolds(checks[i], s, formats)
    ensures StringPasses(checks, s, formats)
  {
    if checks != [] {
      CodeUnitsBasic(s);
      StringComplete(checks[1..], s, formats);
    }
  }

  lemma {:induction false} PlainTrimsLast(checks: seq<StringCheck>)
    requires forall i :: 0 <= i < |checks| ==> !checks[i].Trim?
    ensures TrimsLast(checks)
  {
    if checks != [] { PlainTrimsLast(checks[1..]); }
  }

  // ----- numbers -----

  lemma {:induction false} NumberSound(bounds: seq<NumberCheck>, n: real)
    requires forall i :: 0 <= i < |bounds| ==> NumberPasses(bounds[i], n)
    ensures FirstAtLeast(bounds).Some? ==> FirstAtLeast(bounds).value <= n
    ensures FirstAtMost(bounds).Some? ==> n <= FirstAtMost(bounds).value
    ensures SomeInt(bounds) ==> IsInteger(n)
  {
    if bounds != [] { NumberSound(bounds[1..], n); }
  }

  ghost predicate PlainNumber(bounds: seq<NumberCheck>) {
    forall i :: 0 <= i < |bounds| ==>
      match bounds[i]
      case IsInt => true
      case AtLeast(bound, inclusive) => inclusive && FirstAtLeast(bounds) == Some(bound)
      case AtMost(bound, inclusive) => inclusive && FirstAtMost(bounds) == Some(bound)
      case OtherNumber(_) => false
  }

  // ----- wrappers -----

  ghost predicate IsWrapper(z: Zod) {
    z.ZOptional? || z.ZNullable? || z.ZDefault? || z.ZEffects?
  }

  /** `typeof` names the JSON type of the literal. */
  ghost predicate IsTyped(literal: Json) {
    !literal.JNull? && !literal.JArray?
  }

  ghost predicate HasEnumeration(z: Zod) {
    z.ZEnum? || z.ZLiteral?
  }

  /** `nullable` does not admit null: an enumeration has to list it, and a union has no type to add it to. */
  ghost predicate IgnoresNullable(z: Zod) {
    HasEnumeration(z) || z.ZUnion?
  }

  lemma {:induction false} UnwrapAccepts(z: Zod, depth: nat, optional: bool, nullable: bool, d: Option<Json>, v: Json, formats: Formats)
    requires Accepts(z, Some(v), formats)
    ensures var u := UnwrapFrom(z, depth, optional, nullable, d);
      (v == JNull && u.nullable) || Accepts(u.inner, Some(v), formats)
    decreases depth
  {
    if depth > 0 {
      match z {
        case ZOptional(inner) => UnwrapAccepts(inner, depth - 1, true, nullable, d, v, formats);
        case ZNullable(inner) =>
          if v == JNull {
            UnwrapKeeps(inner, depth - 1, optional, true, d);
          } else {
            UnwrapAccepts(inner, depth - 1, optional, true, d, v, formats);
          }
        case ZDefault(inner, fallback) => UnwrapAccepts(inner, depth - 1, true, nullable, Some(fallback), v, formats);
        case ZEffects(inner, _) => UnwrapAccepts(inner, depth - 1, optional, nullable, d, v, formats);
        case _ =>
      }
    }
  }

  lemma {:induction false} UnwrapKeeps(z: Zod, depth: nat, optional: bool, nullable: bool, d: Option<Json>)
    ensures var u := UnwrapFrom(z, depth, optional, nullable, d);
      (nullable ==> u.nullable) && (optional ==> u.optional)
    decreases depth
  {
    if depth > 0 {
      match z {
        case ZOptional(inner) => UnwrapKeeps(inner, depth - 1, true, nullable, d);
        case ZNullable(inner) => UnwrapKeeps(inner, depth - 1, optional, true, d);
        case ZDefault(inner, fallback) => UnwrapKeeps(inner, depth - 1, true, nullable, Some(fallback));
        case ZEffects(inner, _) => UnwrapKeeps(inner, depth - 1, optional, nullable, d);
        case _ =>
      }
    }
  }

  // ----- soundness -----

  /** The schema accepts objects and nothing else, not even an absent value. */
  ghost predicate ObjectOnly(z: Zod) {
    match z
    case ZObject(_, _) => true
    case ZRecord(_) => true
    case ZEffects(inner, _) => ObjectOnly(inner)
    case ZIntersection(left, right) => ObjectOnly(left) || ObjectOnly(right)
    case _ => false
  }

  lemma {:induction false} ObjectOnlyAccepts(z: Zod, v: Option<Json>, formats: Formats)
    requires ObjectOnly(z) && Accepts(z, v, formats)
    ensures v.Some? && v.value.JObject?
  {
    match z {
      case ZEffects(inner, _) => ObjectOnlyAccepts(inner, v, formats);
      case ZIntersection(left, right) =>
        if ObjectOnly(left) {
          ObjectOnlyAccepts(left, v, formats);
        } else {
          ObjectOnlyAccepts(right, v, formats);
        }
      case _ =>
    }
  }

  ghost predicate KindsDiffer(a: string, b: string) {
    a != b && !(a == "number" && b == "integer") && !(a == "integer" && b == "number")
  }

  ghost predicate KindsExclude(a: OpenApi, b: OpenApi) {
    a.kind.Some? && b.kind.Some? && KindsDiffer(a.kind.value, b.kind.value) && !(a.nullable && b.nullable)
  }

  ghost predicate EnumerationsExclude(a: OpenApi, b: OpenApi) {
    a.enumeration.Some? && b.enumeration.Some? && forall v :: v in a.enumeration.value ==> v !in b.enumeration.value
  }

  ghost predicate IsDiscriminator(a: OpenApi, b: OpenApi, key: string) {
    key in Required(a) && key in Required(b) && key in a.properties && key in b.properties
  }

  /** No value is valid under both: types or enumerations differ, or those of a property both require. */
  ghost predicate Exclusive(a: OpenApi, b: OpenApi)
    decreases a
  {
    || KindsExclude(a, b)
    || EnumerationsExclude(a, b)
    || (a.kind == Some("object") == b.kind && !(a.nullable && b.nullable) &&
        exists key :: IsDiscriminator(a, b, key) && Exclusive(a.properties[key], b.properties[key]))
  }

  lemma {:induction false} ExclusiveMeaning(a: OpenApi, b: OpenApi, v: Json, formats: Formats)
    requires Exclusive(a, b)
    ensures !(Valid(a, v, formats) && Valid(b, v, formats))
    decreases a
  {
    if Valid(a, v, formats) && Valid(b, v, formats) && !KindsExclude(a, b) && !EnumerationsExclude(a, b) {
      var key :| IsDiscriminator(a, b, key) && Exclusive(a.properties[key], b.properties[key]);
      ExclusiveMeaning(a.properties[key], b.properties[key], v.members[key], formats);
    }
  }

  ghost predicate OptionsExclude(options: seq<Zod>) {
    forall i, j :: 0 <= i < j < |options| ==> Exclusive(Compile(options[i]), Compile(options[j]))
  }

  /** A property that may be absent is not published as required. */
  ghost predicate AbsenceShown(p: Zod, formats: Formats) {
    Accepts(p, None, formats) ==> Unwrap(p).optional
  }

  /** Schemas the translation describes soundly; `SchemaLimits` says for each construct how far its condition is needed. */
  ghost predicate Faithful(z: Zod, formats: Formats)
    decreases z
  {
    && (Unwrap(z).nullable ==> !IgnoresNullable(Unwrap(z).inner))
    && match z
       case ZString(checks) => TrimsLast(checks)
       case ZLiteral(literal) => IsTyped(literal)
       case ZArray(item, _, _) => Faithful(item, formats)
       case ZObject(shape, _) =>
         forall i :: 0 <= i < |shape| ==> Faithful(shape[i].schema, formats) && AbsenceShown(shape[i].schema, formats)
       case ZRecord(valueType) => Faithful(valueType, formats)
       case ZUnion(options) => OptionsExclude(options) && forall i :: 0 <= i < |options| ==> Faithful(options[i], formats)
       case ZIntersection(left, right) =>
         Faithful(left, formats) && Faithful(right, formats) && (ObjectOnly(left) || ObjectOnly(right))
       case ZOptional(inner) => Faithful(inner, formats)
       case ZNullable(inner) => Faithful(inner, formats)
       case ZDefault(inner, _) => Faithful(inner, formats)
       case ZEffects(inner, _) => Faithful(inner, formats)
       case _ => true
  }

  lemma {:induction false} UnwrapFaithful(
      z: Zod, depth: nat, optional: bool, nullable: bool, d: Option<Json>, formats: Formats)
    requires Faithful(z, formats)
    ensures Faithful(UnwrapFrom(z, depth, optional, nullable, d).inner, formats)
    decreases depth
  {
    if depth > 0 {
      match z {
        case ZOptional(inner) => UnwrapFaithful(inner, depth - 1, true, nullable, d, formats);
        case ZNullable(inner) => UnwrapFaithful(inner, depth - 1, optional, true, d, formats);
        case ZDefault(inner, fallback) => UnwrapFaithful(inner, depth - 1, true, nullable, Some(fallback), formats);
        case ZEffects(inner, _) => UnwrapFaithful(inner, depth - 1, optional, nullable, d, formats);
        case _ =>
      }
    }
  }

  lemma {:induction false} PropertyCompiled(shape: seq<Property>, key: string) returns (i: nat)
    requires key in PropertiesOf(shape)
    ensures i < |shape| && shape[i].key == key && PropertiesOf(shape)[key] == Compile(shape[i].schema)
  {
    var n := |shape| - 1;
    if shape[n].key == key {
      i := n;
    } else {
      i := PropertyCompiled(shape[..n], key);
    }
  }

  lemma {:induction false} PropertyKeys(shape: seq<Property>, key: string)
    ensures key in PropertiesOf(shape) <==> IsKey(shape, key)
  {
    if shape != [] {
      var n := |shape| - 1;
      PropertyKeys(shape[..n], key);
      if IsKey(shape, key) && shape[n].key != key {
        var i :| 0 <= i < |shape| && shape[i].key == key;
        assert shape[..n][i].key == key;
      }
    }
  }

  lemma {:induction false} RequiredKey(shape: seq<Property>, r: nat) returns (i: nat)
    requires r < |RequiredOf(shape)|
    ensures i < |shape| && shape[i].key == RequiredOf(shape)[r] && !Unwrap(shape[i].schema).optional
  {
    var n := |shape| - 1;
    if r < |RequiredOf(shape[..n])| {
      i := RequiredKey(shape[..n], r);
    } else {
      i := n;
    }
  }

  /**
   Every JSON value the validator accepts is valid under the published schema: types, bounds,
   enumerations, items, `oneOf`, `required`, `properties` and `additionalProperties`.
   */
  lemma {:induction false} Sound(z: Zod, v: Json, formats: Formats)
    requires Faithful(z, formats) && Basic(v) && Accepts(z, Some(v), formats)
    ensures Valid(Compile(z), v, formats)
    decreases z, 1
  {
    var inner := Unwrap(z).inner;
    UnwrapAccepts(z, UNWRAP_DEPTH, false, false, None, v, formats);
    UnwrapFaithful(z, UNWRAP_DEPTH, false, false, None, formats);
    if !Accepts(inner, Some(v), formats) {
      SoundNull(z, formats);
    } else if inner.ZArray? {
      SoundArray(z, inner, v, formats);
    } else if inner.ZObject? {
      SoundObject(z, inner, v, formats);
    } else if inner.ZRecord? {
      SoundRecord(z, inner, v, formats);
    } else if inner.ZUnion? {
      SoundUnion(z, inner, v, formats);
    } else if inner.ZIntersection? {
      SoundIntersection(z, inner, v, formats);
    } else {
      SoundLeaf(z, inner, v, formats);
    }
  }

  lemma SoundNull(z: Zod, formats: Formats)
    requires Unwrap(z).nullable && !IgnoresNullable(Unwrap(z).inner)
    ensures Valid(Compile(z), JNull, formats)
  {
  }

  lemma SoundLeaf(z: Zod, leaf: Zod, v: Json, formats: Formats)
    requires leaf == Unwrap(z).inner && Faithful(leaf, formats) && Basic(v) && Accepts(leaf, Some(v), formats)
    requires !leaf.ZArray? && !leaf.ZObject? && !leaf.ZRecord? && !leaf.ZUnion? && !leaf.ZIntersection?
    ensures Valid(Compile(z), v, formats)
  {
    match leaf {
      case ZString(checks) => StringSound(checks, v.s, formats);
      case ZNumber(bounds) => NumberSound(bounds, v.n);
      case ZEnum(values) =>
        var i :| 0 <= i < |values| && values[i] == v.s;
        assert Compile(z).enumeration.value[i] == v;
      case _ =>
    }
  }

  lemma {:induction false} SoundArray(z: Zod, arr: Zod, v: Json, formats: Formats)
    requires arr == Unwrap(z).inner && arr.ZArray? && Faithful(arr, formats) && Basic(v)
    requires Accepts(arr, Some(v), formats)
    ensures Valid(Compile(z), v, formats)
    decreases arr, 0
  {
    forall i | 0 <= i < |v.items| ensures Valid(Compile(arr.item), v.items[i], formats) {
      Sound(arr.item, v.items[i], formats);
    }
  }

  lemma {:induction false} SoundRecord(z: Zod, record: Zod, v: Json, formats: Formats)
    requires record == Unwrap(z).inner && record.ZRecord? && Faithful(record, formats) && Basic(v)
    requires Accepts(record, Some(v), formats)
    ensures Valid(Compile(z), v, formats)
    decreases record, 0
  {
    forall k | k in v.members ensures Valid(Compile(record.valueType), v.members[k], formats) {
      Sound(record.valueType, v.members[k], formats);
    }
  }

  lemma {:induction false} SoundUnion(z: Zod, union: Zod, v: Json, formats: Formats)
    requires union == Unwrap(z).inner && union.ZUnion? && Faithful(union, formats) && Basic(v)
    requires Accepts(union, Some(v), formats)
    ensures Valid(Compile(z), v, formats)
    decreases union, 0
  {
    var options := union.options;
    var i: nat :| i < |options| && Accepts(options[i], Some(v), formats);
    Sound(options[i], v, formats);
    OneOption(options, i, v, formats);
  }

  /** Of options that exclude each other the valid one is the only one. */
  lemma OneOption(options: seq<Zod>, i: nat, v: Json, formats: Formats)
    requires i < |options| && OptionsExclude(options) && Valid(Compile(options[i]), v, formats)
    ensures OneValid(OptionsOf(options), v, formats)
  {
    forall j | 0 <= j < |options| && j != i ensures !Valid(OptionsOf(options)[j], v, formats) {
      if i < j {
        ExclusiveMeaning(Compile(options[i]), Compile(options[j]), v, formats);
      } else {
        ExclusiveMeaning(Compile(options[j]), Compile(options[i]), v, formats);
      }
    }
    assert OthersInvalid(OptionsOf(options), i, v, formats);
  }

  lemma {:induction false} SoundIntersection(z: Zod, both: Zod, v: Json, formats: Formats)
    requires both == Unwrap(z).inner && both.ZIntersection? && Faithful(both, formats) && Basic(v)
    requires Accepts(both, Some(v), formats)
    ensures Valid(Compile(z), v, formats)
    decreases both, 0
  {
    ObjectOnlyAccepts(both, Some(v), formats);
    Sound(both.left, v, formats);
    Sound(both.right, v, formats);
    BothValid(z, both, v, formats);
  }

  /** An object valid on both sides is valid under the published intersection. */
  lemma BothValid(z: Zod, both: Zod, v: Json, formats: Formats)
    requires both == Unwrap(z).inner && both.ZIntersection? && v.JObject?
    requires Valid(Compile(both.left), v, formats) && Valid(Compile(both.right), v, formats)
    ensures Valid(Compile(z), v, formats)
  {
    var l, r := Compile(both.left), Compile(both.right);
    forall i | 0 <= i < |Required(l) + Required(r)| ensures (Required(l) + Required(r))[i] in v.members {
      if i >= |Required(l)| { assert (Required(l) + Required(r))[i] == Required(r)[i - |Required(l)|]; }
    }
    forall k | k in v.members && k in l.properties + r.properties
      ensures Valid((l.properties + r.properties)[k], v.members[k], formats)
    {
    }
  }

  lemma {:induction false} SoundObject(z: Zod, obj: Zod, v: Json, formats: Formats)
    requires obj == Unwrap(z).inner && obj.ZObject? && Faithful(obj, formats) && Basic(v)
    requires Accepts(obj, Some(v), formats)
    ensures Valid(Compile(z), v, formats)
    decreases obj, 0
  {
    var shape := obj.shape;
    forall k | k in v.members && k in PropertiesOf(shape)
      ensures Valid(PropertiesOf(shape)[k], v.members[k], formats)
    {
      var i := PropertyCompiled(shape, k);
      Sound(shape[i].schema, v.members[k], formats);
    }
    forall r | 0 <= r < |RequiredOf(shape)| ensures RequiredOf(shape)[r] in v.members {
      var i := RequiredKey(shape, r);
      assert AbsenceShown(shape[i].schema, formats);
    }
    forall k | k in v.members ensures k in PropertiesOf(shape) <==> IsKey(shape, k) { PropertyKeys(shape, k); }
  }

  // ----- exactness -----

  ghost predicate UniqueKeys(shape: seq<Property>) {
    forall i, j :: 0 <= i < j < |shape| ==> shape[i].key != shape[j].key
  }

  /** Schemas without refinements, intersections or dates, whose checks are all published and whose defaults are accepted. */
  ghost predicate Plain(z: Zod, formats: Formats)
    decreases z
  {
    && !IsWrapper(Unwrap(z).inner)
    && (Unwrap(z).nullable ==> !IgnoresNullable(Unwrap(z).inner))
    && match z
       case ZString(checks) => PlainString(checks)
       case ZNumber(bounds) => PlainNumber(bounds)
       case ZLiteral(literal) => IsTyped(literal)
       case ZArray(item, _, _) => Plain(item, formats)
       case ZObject(shape, _) =>
         UniqueKeys(shape) &&
         forall i :: 0 <= i < |shape| ==> Plain(shape[i].schema, formats) && AbsenceShown(shape[i].schema, formats)
       case ZRecord(valueType) => Plain(valueType, formats)
       case ZUnion(options) =>
         options != [] && OptionsExclude(options) && forall i :: 0 <= i < |options| ==> Plain(options[i], formats)
       case ZOptional(inner) => Plain(inner, formats)
       case ZNullable(inner) => Plain(inner, formats)
       case ZDefault(inner, fallback) => Plain(inner, formats) && Accepts(inner, Some(fallback), formats)
       case ZBoolean => true
       case ZEnum(_) => true
       case ZOther(accepts) => forall v :: accepts(v)
       case _ => false
  }

  lemma {:induction false} PlainIsFaithful(z: Zod, formats: Formats)
    requires Plain(z, formats)
    ensures Faithful(z, formats)
    decreases z
  {
    match z {
      case ZString(checks) => PlainTrimsLast(checks);
      case ZArray(item, _, _) => PlainIsFaithful(item, formats);
      case ZObject(shape, _) =>
        forall i | 0 <= i < |shape| ensures Faithful(shape[i].schema, formats) { PlainIsFaithful(shape[i].schema, formats); }
      case ZRecord(valueType) => PlainIsFaithful(valueType, formats);
      case ZUnion(options) =>
        forall i | 0 <= i < |options| ensures Faithful(options[i], formats) { PlainIsFaithful(options[i], formats); }
      case ZOptional(inner) => PlainIsFaithful(inner, formats);
      case ZNullable(inner) => PlainIsFaithful(inner, formats);
      case ZDefault(inner, _) => PlainIsFaithful(inner, formats);
      case _ =>
    }
  }

  lemma {:induction false} UnwrapPlain(z: Zod, depth: nat, optional: bool, nullable: bool, d: Option<Json>, formats: Formats)
    requires Plain(z, formats)
    ensures Plain(UnwrapFrom(z, depth, optional, nullable, d).inner, formats)
    decreases depth
  {
    if depth > 0 {
      match z {
        case ZOptional(inner) => UnwrapPlain(inner, depth - 1, true, nullable, d, formats);
        case ZNullable(inner) => UnwrapPlain(inner, depth - 1, optional, true, d, formats);
        case ZDefault(inner, fallback) => UnwrapPlain(inner, depth - 1, true, nullable, Some(fallback), formats);
        case _ =>
      }
    }
  }

  /** Wrappers without refinements, whose defaults are accepted. */
  ghost predicate PlainWrappers(z: Zod, formats: Formats) {
    match z
    case ZOptional(inner) => PlainWrappers(inner, formats)
    case ZNullable(inner) => PlainWrappers(inner, formats)
    case ZDefault(inner, fallback) => Accepts(inner, Some(fallback), formats) && PlainWrappers(inner, formats)
    case ZEffects(_, _) => false
    case _ => true
  }

  lemma {:induction false} PlainIsPlainWrappers(z: Zod, formats: Formats)
    requires Plain(z, formats)
    ensures PlainWrappers(z, formats)
  {
    if IsWrapper(z) { PlainIsPlainWrappers(z.inner, formats); }
  }

  /** On plain schemas unwrapping loses nothing: the converse of `UnwrapAccepts`. */
  lemma {:induction false} UnwrapBack(
      z: Zod, depth: nat, optional: bool, nullable: bool, d: Option<Json>, v: Json, formats: Formats)
    requires PlainWrappers(z, formats)
    requires var u := UnwrapFrom(z, depth, optional, nullable, d);
      Accepts(u.inner, Some(v), formats) || (v == JNull && u.nullable && !nullable)
    ensures Accepts(z, Some(v), formats)
    decreases depth
  {
    if depth > 0 {
      match z {
        case ZOptional(inner) => UnwrapBack(inner, depth - 1, true, nullable, d, v, formats);
        case ZNullable(inner) => if v != JNull { UnwrapBack(inner, depth - 1, optional, true, d, v, formats); }
        case ZDefault(inner, fallback) => UnwrapBack(inner, depth - 1, true, nullable, Some(fallback), v, formats);
        case _ =>
      }
    }
  }

  /** A plain schema published as optional accepts an absent value. */
  lemma {:induction false} OptionalBack(z: Zod, depth: nat, nullable: bool, d: Option<Json>, formats: Formats)
    requires PlainWrappers(z, formats) && UnwrapFrom(z, depth, false, nullable, d).optional
    ensures Accepts(z, None, formats)
    decreases depth
  {
    if depth > 0 && z.ZNullable? { OptionalBack(z.inner, depth - 1, true, d, formats); }
  }

  lemma {:induction false} PropertyAt(shape: seq<Property>, i: nat)
    requires i < |shape| && UniqueKeys(shape)
    ensures shape[i].key in PropertiesOf(shape) && PropertiesOf(shape)[shape[i].key] == Compile(shape[i].schema)
    ensures Unwrap(shape[i].schema).optional || shape[i].key in RequiredOf(shape)
  {
    var n := |shape| - 1;
    if i < n {
      assert shape[..n][i] == shape[i] && shape[i].key != shape[n].key;
      PropertyAt(shape[..n], i);
    }
  }

  lemma {:induction false} Complete(z: Zod, v: Json, formats: Formats)
    requires Plain(z, formats) && Basic(v) && Valid(Compile(z), v, formats)
    ensures Accepts(z, Some(v), formats)
    decreases z, 2
  {
    UnwrapPlain(z, UNWRAP_DEPTH, false, false, None, formats);
    if !(v == JNull && Unwrap(z).nullable) { CompleteInner(z, Unwrap(z).inner, v, formats); }
    PlainIsPlainWrappers(z, formats);
    UnwrapBack(z, UNWRAP_DEPTH, false, false, None, v, formats);
  }

  lemma {:induction false} CompleteInner(z: Zod, inner: Zod, v: Json, formats: Formats)
    requires inner == Unwrap(z).inner && !IsWrapper(inner) && Plain(inner, formats) && Basic(v)
    requires Valid(Compile(z), v, formats) && !(v == JNull && Unwrap(z).nullable)
    ensures Accepts(inner, Some(v), formats)
    decreases inner, 1
  {
    if inner.ZArray? {
      CompleteArray(z, inner, v, formats);
    } else if inner.ZObject? {
      CompleteObject(z, inner, v, formats);
    } else if inner.ZRecord? {
      CompleteRecord(z, inner, v, formats);
    } else if inner.ZUnion? {
      CompleteUnion(z, inner, v, formats);
    } else {
      CompleteLeaf(z, inner, v, formats);
    }
  }

  lemma {:induction false} CompleteArray(z: Zod, arr: Zod, v: Json, formats: Formats)
    requires arr == Unwrap(z).inner && arr.ZArray? && Plain(arr, formats) && Basic(v)
    requires Valid(Compile(z), v, formats) && !(v == JNull && Unwrap(z).nullable)
    ensures Accepts(arr, Some(v), formats)
    decreases arr, 0
  {
    forall i | 0 <= i < |v.items| ensures Accepts(arr.item, Some(v.items[i]), formats) {
      Complete(arr.item, v.items[i], formats);
    }
  }

  lemma {:induction false} CompleteRecord(z: Zod, record: Zod, v: Json, formats: Formats)
    requires record == Unwrap(z).inner && record.ZRecord? && Plain(record, formats) && Basic(v)
    requires Valid(Compile(z), v, formats) && !(v == JNull && Unwrap(z).nullable)
    ensures Accepts(record, Some(v), formats)
    decreases record, 0
  {
    forall k | k in v.members ensures Accepts(record.valueType, Some(v.members[k]), formats) {
      Complete(record.valueType, v.members[k], formats);
    }
  }

  lemma {:induction false} CompleteUnion(z: Zod, union: Zod, v: Json, formats: Formats)
    requires union == Unwrap(z).inner && union.ZUnion? && Plain(union, formats) && Basic(v)
    requires Valid(Compile(z), v, formats)
    ensures Accepts(union, Some(v), formats)
    decreases union, 0
  {
    assert OneValid(OptionsOf(union.options), v, formats);
    var i :| 0 <= i < |union.options| && Valid(OptionsOf(union.options)[i], v, formats);
    Complete(union.options[i], v, formats);
  }

  lemma CompleteLeaf(z: Zod, leaf: Zod, v: Json, formats: Formats)
    requires leaf == Unwrap(z).inner && !IsWrapper(leaf) && Plain(leaf, formats) && Basic(v) && Valid(Compile(z), v, formats)
    requires !leaf.ZArray? && !leaf.ZObject? && !leaf.ZRecord? && !leaf.ZUnion? && !(v == JNull && Unwrap(z).nullable)
    ensures Accepts(leaf, Some(v), formats)
  {
    match leaf {
      case ZString(checks) =>
        forall i | 0 <= i < |checks| ensures CheckHolds(checks[i], v.s, formats) {}
        StringComplete(checks, v.s, formats);
      case ZNumber(bounds) =>
        assert forall i :: 0 <= i < |bounds| ==> NumberPasses(bounds[i], v.n);
      case ZEnum(values) =>
        var i :| 0 <= i < |values| && Compile(z).enumeration.value[i] == v;
        assert values[i] == v.s;
      case _ =>
    }
  }

  lemma {:induction false} CompleteObject(z: Zod, obj: Zod, v: Json, formats: Formats)
    requires obj == Unwrap(z).inner && obj.ZObject? && Plain(obj, formats) && Basic(v)
    requires Valid(Compile(z), v, formats) && !(v == JNull && Unwrap(z).nullable)
    ensures Accepts(obj, Some(v), formats)
    decreases obj, 0
  {
    var shape := obj.shape;
    forall i | 0 <= i < |shape| ensures Accepts(shape[i].schema, Member(v.members, shape[i].key), formats) {
      PropertyAt(shape, i);
      if shape[i].key in v.members {
        Complete(shape[i].schema, v.members[shape[i].key], formats);
      } else {
        PlainIsPlainWrappers(shape[i].schema, formats);
        OptionalBack(shape[i].schema, UNWRAP_DEPTH, false, None, formats);
      }
    }
    forall k | k in v.members ensures k in PropertiesOf(shape) <==> IsKey(shape, k) { PropertyKeys(shape, k); }
  }

  /** For plain schemas the published schema and the validator agree on every value. */
  lemma Exact(z: Zod, v: Json, formats: Formats)
    requires Plain(z, formats) && Basic(v)
    ensures Accepts(z, Some(v), formats) <==> Valid(Compile(z), v, formats)
  {
    PlainIsFaithful(z, formats);
    if Accepts(z, Some(v), formats) { Sound(z, v, formats); }
    if Valid(Compile(z), v, formats) { Complete(z, v, formats); }
  }
}
