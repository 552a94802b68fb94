/**
 Where the published schema does not follow the validator, and exactly when it does.
 */
module SchemaLimits {
  import opened Options
  import opened Schemas
  import opened SchemaProofs

  /** Every value of the Basic Multilingual Plane that the validator accepts is valid as published. */
  ghost predicate Describes(z: Zod, formats: Formats) {
    forall v :: Basic(v) && Accepts(z, Some(v), formats) ==> Valid(Compile(z), v, formats)
  }

  /** The validator accepts the value, and the published schema refuses it. */
  ghost predicate Refutes(z: Zod, v: Json, formats: Formats) {
    Accepts(z, Some(v), formats) && !Valid(Compile(z), v, formats)
  }

  // ----- enumerations and literals -----

  lemma EnumeratedSound(z: Zod, v: Json, formats: Formats)
    requires HasEnumeration(Unwrap(z).inner) && (Unwrap(z).inner.ZLiteral? ==> IsTyped(Unwrap(z).inner.literal))
    requires Accepts(z, Some(v), formats) && v != JNull
    ensures Valid(Compile(z), v, formats)
  {
    UnwrapAccepts(z, UNWRAP_DEPTH, false, false, None, v, formats);
    if Unwrap(z).inner.ZEnum? {
      var values := Unwrap(z).inner.values;
      var i :| 0 <= i < |values| && values[i] == v.s;
      assert Compile(z).enumeration.value[i] == v;
    }
  }

  /** An enumeration or literal, however wrapped, is published soundly if and only if the validator refuses null. */
  lemma EnumerationExact(z: Zod, formats: Formats)
    requires HasEnumeration(Unwrap(z).inner)
    requires Unwrap(z).inner.ZLiteral? ==> IsTyped(Unwrap(z).inner.literal)
    ensures (forall v :: Accepts(z, Some(v), formats) ==> Valid(Compile(z), v, formats))
       <==> !Accepts(z, Some(JNull), formats)
  {
    assert !Valid(Compile(z), JNull, formats);
    if !Accepts(z, Some(JNull), formats) {
      forall v | Accepts(z, Some(v), formats) ensures Valid(Compile(z), v, formats) { EnumeratedSound(z, v, formats); }
    }
  }

  /** A literal is published soundly if and only if `typeof` names its JSON type: it is neither null nor an array. */
  lemma LiteralExact(literal: Json, formats: Formats)
    ensures (forall v :: !Refutes(ZLiteral(literal), v, formats)) <==> IsTyped(literal)
  {
    var z := ZLiteral(literal);
    assert Unwrap(z).inner == z && Accepts(z, Some(literal), formats);
    assert Compile(z).enumeration == Some([literal]) && Compile(z).kind == Some(TypeOf(literal));
    if !IsTyped(literal) {
      assert Refutes(z, literal, formats);
    } else {
      forall v ensures !Refutes(z, v, formats) { assert v == literal ==> v in Compile(z).enumeration.value; }
    }
  }

  // ----- properties that may be absent -----

  /** The schema under the first `n` wrappers, if there are that many. */
  ghost function Peeled(z: Zod, n: nat): Option<Zod>
    decreases n
  {
    if n == 0 then Some(z) else if IsWrapper(z) then Peeled(z.inner, n - 1) else None
  }

  ghost predicate Presence(z: Option<Zod>) {
    z.Some? && (z.value.ZOptional? || z.value.ZDefault?)
  }

  ghost predicate LayerShows(z: Zod, n: nat) {
    Presence(Peeled(z, n))
  }

  /** Unwrapping finds a schema optional if and only if one of the layers it looks at says so. */
  lemma {:induction false} UnwrapSees(z: Zod, depth: nat, nullable: bool, d: Option<Json>)
    ensures UnwrapFrom(z, depth, false, nullable, d).optional <==> exists n: nat :: n < depth && LayerShows(z, n)
    decreases depth
  {
    if depth > 0 {
      if z.ZOptional? || z.ZDefault? {
        assert LayerShows(z, 0);
        UnwrapKeeps(z.inner, depth - 1, true, nullable, if z.ZDefault? then Some(z.fallback) else d);
      } else if IsWrapper(z) {
        UnwrapSees(z.inner, depth - 1, nullable || z.ZNullable?, d);
        if n: nat :| n < depth && LayerShows(z, n) { assert n > 0 && LayerShows(z.inner, n - 1); }
        if n: nat :| n < depth - 1 && LayerShows(z.inner, n) { assert LayerShows(z, n + 1); }
      } else {
        forall n: nat ensures !LayerShows(z, n) {}
      }
    }
  }

  ghost predicate AllFaithful(shape: seq<Property>, formats: Formats) {
    forall i :: 0 <= i < |shape| ==> Faithful(shape[i].schema, formats)
  }

  /** The object without one of its members is still accepted if that property may be absent. */
  lemma AbsenceAccepted(shape: seq<Property>, unknownKeys: UnknownKeys, members: map<string, Json>, i: nat, formats: Formats)
    requires UniqueKeys(shape) && i < |shape| && Accepts(shape[i].schema, None, formats)
    requires Basic(JObject(members)) && Accepts(ZObject(shape, unknownKeys), Some(JObject(members)), formats)
    ensures var fewer := JObject(members - {shape[i].key});
      Basic(fewer) && Accepts(ZObject(shape, unknownKeys), Some(fewer), formats)
  {
    var fewer := members - {shape[i].key};
    forall j | 0 <= j < |shape| ensures Accepts(shape[j].schema, Member(fewer, shape[j].key), formats) {
      if j != i {
        assert shape[j].key != shape[i].key;
        assert Member(fewer, shape[j].key) == Member(members, shape[j].key);
      }
    }
    assert forall k :: k in fewer ==> k in members && fewer[k] == members[k];
  }

  /**
   Objects that some value meets, of properties published soundly: they are published soundly if
   and only if every property that may be absent shows so in one of the first 20 layers of its schema.
   */
  lemma AbsenceExact(shape: seq<Property>, unknownKeys: UnknownKeys, witnessed: Json, formats: Formats)
    requires UniqueKeys(shape) && AllFaithful(shape, formats)
    requires Basic(witnessed) && Accepts(ZObject(shape, unknownKeys), Some(witnessed), formats)
    ensures Describes(ZObject(shape, unknownKeys), formats) <==>
      forall i :: 0 <= i < |shape| && Accepts(shape[i].schema, None, formats) ==>
        exists n: nat :: n < 20 && LayerShows(shape[i].schema, n)
  {
    var z := ZObject(shape, unknownKeys);
    forall i | 0 <= i < |shape|
      ensures Unwrap(shape[i].schema).optional <==> exists n: nat :: n < 20 && LayerShows(shape[i].schema, n)
    {
      UnwrapSees(shape[i].schema, UNWRAP_DEPTH, false, None);
    }
    if forall i :: 0 <= i < |shape| ==> AbsenceShown(shape[i].schema, formats) {
      FaithfulDescribes(z, formats);
    } else {
      var i: nat :| i < |shape| && !AbsenceShown(shape[i].schema, formats);
      HiddenAbsence(shape, unknownKeys, witnessed, i, formats);
    }
  }

  lemma FaithfulDescribes(z: Zod, formats: Formats)
    requires Faithful(z, formats)
    ensures Describes(z, formats)
  {
    forall v | Basic(v) && Accepts(z, Some(v), formats) ensures Valid(Compile(z), v, formats) { Sound(z, v, formats); }
  }

  lemma HiddenAbsence(shape: seq<Property>, unknownKeys: UnknownKeys, witnessed: Json, i: nat, formats: Formats)
    requires UniqueKeys(shape) && i < |shape| && !AbsenceShown(shape[i].schema, formats)
    requires Basic(witnessed) && Accepts(ZObject(shape, unknownKeys), Some(witnessed), formats)
    ensures !Describes(ZObject(shape, unknownKeys), formats)
  {
    var z, key := ZObject(shape, unknownKeys), shape[i].key;
    var fewer := JObject(witnessed.members - {key});
    AbsenceAccepted(shape, unknownKeys, witnessed.members, i, formats);
    PropertyAt(shape, i);
    assert Unwrap(z).inner == z && Compile(z).required == Some(RequiredOf(shape));
    var r :| 0 <= r < |RequiredOf(shape)| && RequiredOf(shape)[r] == key;
    assert Compile(z).required.value[r] !in fewer.members;
  }

  /** In particular no layer shows that a property of unknown type, such as any, may be absent. */
  lemma UnknownPropertyUnsound(
      shape: seq<Property>, unknownKeys: UnknownKeys, witnessed: Json, i: nat, accepts: Option<Json> -> bool, formats: Formats)
    requires UniqueKeys(shape) && i < |shape| && shape[i].schema == ZOther(accepts) && accepts(None)
    requires Basic(witnessed) && Accepts(ZObject(shape, unknownKeys), Some(witnessed), formats)
    ensures !Describes(ZObject(shape, unknownKeys), formats)
  {
    HiddenAbsence(shape, unknownKeys, witnessed, i, formats);
  }

  // ----- unions -----

  ghost predicate ValidTwice(schemas: seq<OpenApi>, i: int, j: int, v: Json, formats: Formats) {
    0 <= i < |schemas| && 0 <= j < |schemas| && Valid(schemas[i], v, formats) && Valid(schemas[j], v, formats)
  }

  ghost predicate TwoValid(schemas: seq<OpenApi>, v: Json, formats: Formats) {
    exists i, j :: i < j && ValidTwice(schemas, i, j, v, formats)
  }

  ghost predicate SomeValid(schemas: seq<OpenApi>, v: Json, formats: Formats) {
    exists i :: 0 <= i < |schemas| && Valid(schemas[i], v, formats)
  }

  lemma OneIsSomeNotTwo(schemas: seq<OpenApi>, v: Json, formats: Formats)
    ensures OneValid(schemas, v, formats) <==> SomeValid(schemas, v, formats) && !TwoValid(schemas, v, formats)
  {
    if i: nat :| i < |schemas| && Valid(schemas[i], v, formats) {
      if j: nat :| j < |schemas| && j != i && Valid(schemas[j], v, formats) {
        assert ValidTwice(schemas, i, j, v, formats) && ValidTwice(schemas, j, i, v, formats);
        assert TwoValid(schemas, v, formats);
      } else {
        assert OthersInvalid(schemas, i, v, formats);
      }
    }
  }

  ghost predicate ValidUnderOne(z: Zod, v: Json, formats: Formats)
    requires Unwrap(z).inner.ZUnion?
  {
    SomeValid(OptionsOf(Unwrap(z).inner.options), v, formats)
  }

  ghost predicate ValidUnderTwo(z: Zod, v: Json, formats: Formats)
    requires Unwrap(z).inner.ZUnion?
  {
    TwoValid(OptionsOf(Unwrap(z).inner.options), v, formats)
  }

  ghost predicate NullPublished(z: Zod, formats: Formats)
    requires Unwrap(z).inner.ZUnion?
  {
    Accepts(z, Some(JNull), formats) ==> ValidUnderOne(z, JNull, formats)
  }

  ghost predicate NothingTwice(z: Zod, formats: Formats)
    requires Unwrap(z).inner.ZUnion?
  {
    forall v :: Basic(v) && Accepts(z, Some(v), formats) ==> !ValidUnderTwo(z, v, formats)
  }

  lemma UnionMeaning(z: Zod, v: Json, formats: Formats)
    requires Unwrap(z).inner.ZUnion? && Unwrap(z).inner.options != []
    ensures Valid(Compile(z), v, formats) <==> ValidUnderOne(z, v, formats) && !ValidUnderTwo(z, v, formats)
  {
    OneIsSomeNotTwo(OptionsOf(Unwrap(z).inner.options), v, formats);
  }

  /** What a union accepts some published option holds of, unless it is null let through by a wrapper. */
  lemma SomeOptionValid(z: Zod, v: Json, formats: Formats)
    requires Unwrap(z).inner.ZUnion? && AllOptionsFaithful(Unwrap(z).inner.options, formats)
    requires Basic(v) && Accepts(z, Some(v), formats) && v != JNull
    ensures ValidUnderOne(z, v, formats)
  {
    var options := Unwrap(z).inner.options;
    UnwrapAccepts(z, UNWRAP_DEPTH, false, false, None, v, formats);
    var i :| 0 <= i < |options| && Accepts(options[i], Some(v), formats);
    Sound(options[i], v, formats);
    assert OptionsOf(options)[i] == Compile(options[i]);
  }

  ghost predicate AllOptionsFaithful(options: seq<Zod>, formats: Formats) {
    forall i :: 0 <= i < |options| ==> Faithful(options[i], formats)
  }

  lemma UnionAt(z: Zod, v: Json, formats: Formats)
    requires Unwrap(z).inner.ZUnion? && Unwrap(z).inner.options != []
    requires AllOptionsFaithful(Unwrap(z).inner.options, formats) && Basic(v) && Accepts(z, Some(v), formats)
    ensures Valid(Compile(z), v, formats) <==>
      (v == JNull ==> ValidUnderOne(z, JNull, formats)) && !ValidUnderTwo(z, v, formats)
  {
    UnionMeaning(z, v, formats);
    if v != JNull { SomeOptionValid(z, v, formats); }
  }

  /**
   A union of faithful options, however wrapped, is published soundly if and only if no value it
   accepts is valid under two of the published options, and null, if accepted, is valid under one.
   */
  lemma UnionExact(z: Zod, formats: Formats)
    requires Unwrap(z).inner.ZUnion? && Unwrap(z).inner.options != []
    requires AllOptionsFaithful(Unwrap(z).inner.options, formats)
    ensures Describes(z, formats) <==> NullPublished(z, formats) && NothingTwice(z, formats)
  {
    if Describes(z, formats) {
      if Accepts(z, Some(JNull), formats) { UnionAt(z, JNull, formats); }
      forall v | Basic(v) && Accepts(z, Some(v), formats) ensures !ValidUnderTwo(z, v, formats) { UnionAt(z, v, formats); }
    }
    if NullPublished(z, formats) && NothingTwice(z, formats) {
      forall v | Basic(v) && Accepts(z, Some(v), formats) ensures Valid(Compile(z), v, formats) { UnionAt(z, v, formats); }
    }
  }

  lemma OtherIsUntyped(accepts: Option<Json> -> bool, v: Json, formats: Formats)
    ensures Valid(Compile(ZOther(accepts)), v, formats)
  {
    assert Unwrap(ZOther(accepts)).inner == ZOther(accepts);
  }

  lemma TwoOptionsRefute(options: seq<Zod>, i: nat, j: nat, v: Json, formats: Formats)
    requires i < j < |options| && Valid(Compile(options[i]), v, formats) && Valid(Compile(options[j]), v, formats)
    ensures !Valid(Compile(ZUnion(options)), v, formats)
  {
    assert Unwrap(ZUnion(options)).inner == ZUnion(options);
    assert ValidTwice(OptionsOf(options), i, j, v, formats);
    UnionMeaning(ZUnion(options), v, formats);
  }

  /** An option of unknown type has an empty schema: what any other faithful option accepts is then valid under two. */
  lemma UnknownOptionUnsound(options: seq<Zod>, i: nat, j: nat, accepts: Option<Json> -> bool, v: Json, formats: Formats)
    requires i < |options| && j < |options| && i != j && options[i] == ZOther(accepts) && Faithful(options[j], formats)
    requires Basic(v) && Accepts(options[j], Some(v), formats)
    ensures Refutes(ZUnion(options), v, formats)
  {
    Sound(options[j], v, formats);
    OtherIsUntyped(accepts, v, formats);
    TwoOptionsRefute(options, if i < j then i else j, if i < j then j else i, v, formats);
  }

  // ----- intersections -----

  /** An intersection of two faithful schemas is published soundly if and only if it accepts nothing but objects. */
  lemma IntersectionExact(l: Zod, r: Zod, formats: Formats)
    requires Faithful(l, formats) && Faithful(r, formats)
    ensures Describes(ZIntersection(l, r), formats)
      <==> forall v :: Basic(v) && Accepts(ZIntersection(l, r), Some(v), formats) ==> v.JObject?
  {
    var z := ZIntersection(l, r);
    assert Unwrap(z).inner == z && Compile(z).kind == Some("object") && !Compile(z).nullable;
    forall v | Basic(v) && Accepts(z, Some(v), formats) ensures Valid(Compile(z), v, formats) <==> v.JObject? {
      if v.JObject? {
        Sound(l, v, formats);
        Sound(r, v, formats);
        BothValid(z, z, v, formats);
      }
    }
  }

  lemma ScalarIntersectionUnsound(b: bool, formats: Formats)
    ensures Refutes(ZIntersection(ZBoolean, ZBoolean), JBool(b), formats)
  {
    var z := ZIntersection(ZBoolean, ZBoolean);
    assert Unwrap(z).inner == z && Compile(z).kind == Some("object");
  }

  // ----- trimming -----

  ghost predicate IsBlank(c: char) {
    c in " \t\n\r"
  }

  ghost predicate BlankAtEnd(s: string) {
    s != "" && (IsBlank(s[0]) || IsBlank(s[|s| - 1]))
  }

  ghost predicate RefusesBlanks(format: Format, formats: Formats) {
    forall s :: BlankAtEnd(s) ==> !formats(FormatName(format), s)
  }

  /** Trims, lengths, and formats that refuse a blank at either end. */
  ghost predicate Noticing(checks: seq<StringCheck>, formats: Formats) {
    forall i :: 0 <= i < |checks| ==>
      !checks[i].OtherString? && (checks[i].HasFormat? ==> RefusesBlanks(checks[i].format, formats))
  }

  /** A longer string would still pass the limits before the first trim. */
  ghost predicate HasRoom(checks: seq<StringCheck>, size: nat) {
    checks == [] || checks[0].Trim? || ((checks[0].MaxLength? ==> size < checks[0].n) && HasRoom(checks[1..], size))
  }

  ghost function Spaces(n: nat): string {
    if n == 0 then "" else Spaces(n - 1) + " "
  }

  function Trimmed(s: string): string {
    TrimRight(TrimLeft(s))
  }

  lemma {:induction false} TrimLeftSpace(s: string)
    ensures TrimLeft(s + " ") == if TrimLeft(s) == "" then "" else TrimLeft(s) + " "
  {
    if s == "" {
      assert "" + " " == " " && " "[1..] == "";
      assert TrimLeft(" ") == TrimLeft("");
    } else if s[0] in " \t\n\r" {
      assert (s + " ")[1..] == s[1..] + " ";
      TrimLeftSpace(s[1..]);
    }
  }

  lemma TrimSpace(s: string)
    ensures Trimmed(s + " ") == Trimmed(s)
  {
    TrimLeftSpace(s);
    var t := TrimLeft(s) + " ";
    assert t[..|t| - 1] == TrimLeft(s) && t[|t| - 1] == ' ';
  }

  lemma {:induction false} TrimSpaces(s: string, n: nat)
    ensures Trimmed(s + Spaces(n)) == Trimmed(s)
  {
    if n == 0 {
      assert s + "" == s;
    } else {
      assert s + Spaces(n) == (s + Spaces(n - 1)) + " ";
      TrimSpace(s + Spaces(n - 1));
      TrimSpaces(s, n - 1);
    }
  }

  lemma {:induction false} SpacesAreBasic(s: string, n: nat)
    requires Basic(JString(s))
    ensures |Spaces(n)| == n && Basic(JString(s + Spaces(n)))
  {
    if n > 0 {
      SpacesAreBasic(s, n - 1);
      assert s + Spaces(n) == (s + Spaces(n - 1)) + " ";
    }
  }

  /** Blanks at the end are not noticed before the first trim, but for a format or limit there. */
  lemma {:induction false} PaddingPasses(checks: seq<StringCheck>, s: string, n: nat, formats: Formats)
    requires Noticing(checks, formats) && !FormatBeforeTrim(checks) && Basic(JString(s)) && StringPasses(checks, s, formats)
    requires !LimitBeforeTrim(checks) || (n == 1 && HasRoom(checks, |s|))
    ensures StringPasses(checks, s + Spaces(n), formats) || !HasTrim(checks)
  {
    if checks != [] {
      if checks[0].Trim? {
        TrimSpaces(s, n);
      } else {
        SpacesAreBasic(s, n);
        CodeUnitsBasic(s);
        CodeUnitsBasic(s + Spaces(n));
        PaddingPasses(checks[1..], s, n, formats);
      }
    }
  }

  ghost predicate HasTrim(checks: seq<StringCheck>) {
    checks != [] && (checks[0].Trim? || HasTrim(checks[1..]))
  }

  lemma {:induction false} OnlyTrimsHide(checks: seq<StringCheck>)
    ensures HasTrim(checks) || TrimsLast(checks)
  {
    if checks != [] { OnlyTrimsHide(checks[1..]); }
  }

  lemma StringMeaning(checks: seq<StringCheck>, s: string, formats: Formats)
    ensures Accepts(ZString(checks), Some(JString(s)), formats) <==> StringPasses(checks, s, formats)
    ensures Valid(Compile(ZString(checks)), JString(s), formats) <==>
      (FirstFormat(checks).Some? ==> formats(FirstFormat(checks).value, s))
      && SizeWithin(|s|, FirstMinLength(checks), FirstMaxLength(checks))
  {
    assert Unwrap(ZString(checks)).inner == ZString(checks);
  }

  lemma {:induction false} FirstFormatNotices(checks: seq<StringCheck>, s: string, formats: Formats)
    requires Noticing(checks, formats) && BlankAtEnd(s) && FirstFormat(checks).Some?
    ensures !formats(FirstFormat(checks).value, s)
  {
    if !checks[0].HasFormat? { FirstFormatNotices(checks[1..], s, formats); }
  }

  lemma {:induction false} FormatSeesWhole(checks: seq<StringCheck>, s: string, formats: Formats)
    requires Noticing(checks, formats) && FormatBeforeTrim(checks) && StringPasses(checks, s, formats)
    ensures !BlankAtEnd(s)
  {
    if !checks[0].HasFormat? { FormatSeesWhole(checks[1..], s, formats); }
  }

  /** Nothing to trim, nothing hidden. */
  lemma {:induction false} UntrimmedSound(checks: seq<StringCheck>, s: string, formats: Formats)
    requires StringPasses(checks, s, formats) && Basic(JString(s)) && !BlankAtEnd(s)
    ensures FirstMinLength(checks).Some? ==> FirstMinLength(checks).value <= |s|
    ensures FirstMaxLength(checks).Some? ==> |s| <= FirstMaxLength(checks).value
    ensures FirstFormat(checks).Some? ==> formats(FirstFormat(checks).value, s)
  {
    if checks != [] {
      CodeUnitsBasic(s);
      assert TrimLeft(s) == s && TrimRight(s) == s;
      UntrimmedSound(checks[1..], s, formats);
    }
  }

  lemma PaddingRefutes(checks: seq<StringCheck>, witnessed: string, n: nat, formats: Formats)
    requires Noticing(checks, formats) && !FormatBeforeTrim(checks) && !TrimsLast(checks) && n > 0
    requires Basic(JString(witnessed)) && StringPasses(checks, witnessed, formats)
    requires if FirstFormat(checks).Some? then n == 1 && HasRoom(checks, |witnessed|)
             else !LimitBeforeTrim(checks) && n > FirstMaxLength(checks).value
    ensures !Describes(ZString(checks), formats)
  {
    var padded := witnessed + Spaces(n);
    OnlyTrimsHide(checks);
    PaddingPasses(checks, witnessed, n, formats);
    SpacesAreBasic(witnessed, n);
    assert padded[|padded| - 1] == Spaces(n)[n - 1] == ' ';
    if FirstFormat(checks).Some? { FirstFormatNotices(checks, padded, formats); }
    StringMeaning(checks, padded, formats);
    assert Refutes(ZString(checks), JString(padded), formats);
  }

  /**
   Trims, lengths, and formats that refuse a blank at either end, which some string meets with
   room for one more character: they are published soundly if and only if a format is checked
   before every trim, or there is no format and no trim runs before the published limit.
   */
  lemma TrimExact(checks: seq<StringCheck>, witnessed: string, formats: Formats)
    requires Noticing(checks, formats) && HasRoom(checks, |witnessed|)
    requires Basic(JString(witnessed)) && StringPasses(checks, witnessed, formats)
    ensures Describes(ZString(checks), formats) <==> FormatBeforeTrim(checks) || TrimsLast(checks)
  {
    var z := ZString(checks);
    assert Unwrap(z).inner == z;
    if FormatBeforeTrim(checks) {
      forall v | Basic(v) && Accepts(z, Some(v), formats) ensures Valid(Compile(z), v, formats) {
        StringMeaning(checks, v.s, formats);
        FormatSeesWhole(checks, v.s, formats);
        UntrimmedSound(checks, v.s, formats);
      }
    } else if TrimsLast(checks) {
      FaithfulDescribes(z, formats);
    } else if FirstFormat(checks).Some? {
      PaddingRefutes(checks, witnessed, 1, formats);
    } else {
      PaddingRefutes(checks, witnessed, FirstMaxLength(checks).value + 1, formats);
    }
  }

  // ----- characters and code units -----

  ghost predicate Lengths(checks: seq<StringCheck>) {
    forall i :: 0 <= i < |checks| ==> checks[i].MinLength? || checks[i].MaxLength?
  }

  lemma {:induction false} NoFormat(checks: seq<StringCheck>)
    requires Lengths(checks)
    ensures FirstFormat(checks) == None
  {
    if checks != [] { NoFormat(checks[1..]); }
  }

  ghost predicate UnitsWithin(check: StringCheck, units: nat)
    requires check.MinLength? || check.MaxLength?
  {
    if check.MinLength? then check.n <= units else units <= check.n
  }

  lemma {:induction false} LengthsMeaning(checks: seq<StringCheck>, s: string, formats: Formats)
    requires Lengths(checks)
    ensures StringPasses(checks, s, formats) <==> forall i :: 0 <= i < |checks| ==> UnitsWithin(checks[i], CodeUnits(s))
  {
    if checks != [] {
      LengthsMeaning(checks[1..], s, formats);
      assert forall i :: 0 < i < |checks| ==> checks[i] == checks[1..][i - 1];
      assert forall i :: 0 <= i < |checks[1..]| ==> checks[1..][i] == checks[i + 1];
    }
  }

  /** The greatest minimum among the checks. */
  ghost function Least(checks: seq<StringCheck>): nat {
    if checks == [] then 0
    else
      var rest := Least(checks[1..]);
      if checks[0].MinLength? && checks[0].n > rest then checks[0].n else rest
  }

  lemma {:induction false} LeastMeaning(checks: seq<StringCheck>)
    ensures forall i :: 0 <= i < |checks| && checks[i].MinLength? ==> checks[i].n <= Least(checks)
    ensures Least(checks) == 0 || exists i :: 0 <= i < |checks| && checks[i].MinLength? && checks[i].n == Least(checks)
    ensures FirstMinLength(checks).Some? ==> FirstMinLength(checks).value <= Least(checks)
  {
    if checks != [] {
      var rest := checks[1..];
      LeastMeaning(rest);
      forall i | 0 <= i < |checks| && checks[i].MinLength? ensures checks[i].n <= Least(checks) {
        if i > 0 { assert checks[i] == rest[i - 1]; }
      }
      if Least(checks) == Least(rest) && Least(rest) > 0 {
        var i :| 0 <= i < |rest| && rest[i].MinLength? && rest[i].n == Least(rest);
        assert checks[i + 1] == rest[i];
      }
    }
  }

  lemma {:induction false} FirstMaxIsCheck(checks: seq<StringCheck>)
    ensures FirstMaxLength(checks).Some? ==>
      exists i :: 0 <= i < |checks| && checks[i] == MaxLength(FirstMaxLength(checks).value)
  {
    if checks != [] && !checks[0].MaxLength? {
      FirstMaxIsCheck(checks[1..]);
      if FirstMaxLength(checks).Some? {
        var i :| 0 <= i < |checks[1..]| && checks[1..][i] == MaxLength(FirstMaxLength(checks).value);
        assert checks[i + 1] == checks[1..][i];
      }
    }
  }

  /** Code units lie between the number of characters and twice that. */
  lemma {:induction false} UnitBounds(s: string)
    ensures |s| <= CodeUnits(s) <= 2 * |s|
  {
    if s != [] { UnitBounds(s[1..]); }
  }

  /** As few characters as possible with the given number of code units. */
  ghost function Densest(units: nat): string {
    if units == 0 then "" else if units == 1 then "a" else "\U{1F600}" + Densest(units - 2)
  }

  lemma {:induction false} DensestMeaning(units: nat)
    ensures CodeUnits(Densest(units)) == units && |Densest(units)| == (units + 1) / 2
  {
    if units >= 2 {
      DensestMeaning(units - 2);
      assert Densest(units)[1..] == Densest(units - 2);
    } else if units == 1 {
      assert "a"[1..] == "";
    }
  }

  /**
   On all strings, lengths that some string meets are published soundly if and only if even the
   fewest characters that meet the greatest minimum meet the published one.
   */
  lemma LengthsExact(checks: seq<StringCheck>, witnessed: string, formats: Formats)
    requires Lengths(checks) && StringPasses(checks, witnessed, formats)
    ensures (forall s :: !Refutes(ZString(checks), JString(s), formats)) <==>
      (FirstMinLength(checks).Some? ==> 2 * FirstMinLength(checks).value <= Least(checks) + 1)
  {
    NoFormat(checks);
    LeastMeaning(checks);
    LengthsMeaning(checks, witnessed, formats);
    var units := Least(checks);
    if FirstMinLength(checks).Some? && 2 * FirstMinLength(checks).value > units + 1 {
      var s := Densest(units);
      DensestMeaning(units);
      LengthsMeaning(checks, s, formats);
      StringMeaning(checks, s, formats);
      assert Refutes(ZString(checks), JString(s), formats);
    } else {
      forall s ensures !Refutes(ZString(checks), JString(s), formats) { LengthsHold(checks, s, formats); }
    }
  }

  lemma LengthsHold(checks: seq<StringCheck>, s: string, formats: Formats)
    requires Lengths(checks) && (FirstMinLength(checks).Some? ==> 2 * FirstMinLength(checks).value <= Least(checks) + 1)
    ensures !Refutes(ZString(checks), JString(s), formats)
  {
    NoFormat(checks);
    StringMeaning(checks, s, formats);
    LengthsMeaning(checks, s, formats);
    LeastMeaning(checks);
    FirstMaxIsCheck(checks);
    UnitBounds(s);
  }

  /** So a single minimum is published soundly if and only if it is at most one. */
  lemma MinLengthExact(n: nat, formats: Formats)
    ensures (forall s :: !Refutes(ZString([MinLength(n)]), JString(s), formats)) <==> n <= 1
  {
    DensestMeaning(n);
    LengthsMeaning([MinLength(n)], Densest(n), formats);
    LengthsExact([MinLength(n)], Densest(n), formats);
    assert [MinLength(n)][1..] == [];
    assert Least([MinLength(n)]) == n;
  }
}
