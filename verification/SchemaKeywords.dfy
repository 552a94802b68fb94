/**
 Which keywords are published for a schema, said of the list of checks and layers it is built from.

 Validity does not read `default`, and soundness alone allows keywords to be left out; here each
 keyword is fixed for all schemas. `IntersectionAgrees` does the same for intersections.
 */
module SchemaKeywords {
  import opened Options
  import opened Schemas
  import opened SchemaProofs
  import opened SchemaLimits

  // ----- wrappers -----

  ghost predicate DefaultsTo(z: Zod, n: nat, v: Json) {
    var layer := Peeled(z, n);
    layer.Some? && layer.value.ZDefault? && layer.value.fallback == v
  }

  ghost predicate IsDefaultLayer(z: Zod, n: nat) {
    var layer := Peeled(z, n);
    layer.Some? && layer.value.ZDefault?
  }

  /** Of the layers looked at the n-th has the innermost default. */
  ghost predicate InnermostDefault(z: Zod, depth: nat, n: nat) {
    n < depth && IsDefaultLayer(z, n) && forall m: nat :: n < m < depth ==> !IsDefaultLayer(z, m)
  }

  lemma DefaultBelow(z: Zod, n: nat)
    requires IsWrapper(z)
    ensures forall v :: DefaultsTo(z, n + 1, v) <==> DefaultsTo(z.inner, n, v)
    ensures IsDefaultLayer(z, n + 1) <==> IsDefaultLayer(z.inner, n)
  {
  }

  lemma {:induction false} NoDefaultBelow(z: Zod, n: nat)
    requires !IsWrapper(z)
    ensures !IsDefaultLayer(z, n)
  {
  }

  /** One layer less. */
  lemma UnwrapLayer(z: Zod, depth: nat, optional: bool, nullable: bool, d: Option<Json>)
    requires depth > 0 && IsWrapper(z)
    ensures UnwrapFrom(z, depth, optional, nullable, d).defaultValue ==
      UnwrapFrom(z.inner, depth - 1, optional || z.ZOptional? || z.ZDefault?, nullable || z.ZNullable?,
                 if z.ZDefault? then Some(z.fallback) else d).defaultValue
  {
  }

  lemma {:induction false} UnwrapNoDefault(z: Zod, depth: nat, optional: bool, nullable: bool, d: Option<Json>)
    requires forall n: nat :: n < depth ==> !IsDefaultLayer(z, n)
    ensures UnwrapFrom(z, depth, optional, nullable, d).defaultValue == d
    decreases depth
  {
    if depth > 0 && IsWrapper(z) {
      assert !IsDefaultLayer(z, 0);
      forall m: nat | m < depth - 1 ensures !IsDefaultLayer(z.inner, m) {
        DefaultBelow(z, m);
        assert !IsDefaultLayer(z, m + 1);
      }
      UnwrapLayer(z, depth, optional, nullable, d);
      UnwrapNoDefault(z.inner, depth - 1, optional || z.ZOptional?, nullable || z.ZNullable?, d);
    }
  }

  lemma {:induction false} UnwrapDefault(z: Zod, depth: nat, optional: bool, nullable: bool, d: Option<Json>, n: nat)
    requires InnermostDefault(z, depth, n)
    ensures var u := UnwrapFrom(z, depth, optional, nullable, d); u.defaultValue.Some? && DefaultsTo(z, n, u.defaultValue.value)
    decreases depth
  {
    if !IsWrapper(z) { NoDefaultBelow(z, n); }
    UnwrapLayer(z, depth, optional, nullable, d);
    forall m: nat ensures IsDefaultLayer(z, m + 1) <==> IsDefaultLayer(z.inner, m) { DefaultBelow(z, m); }
    var below := if z.ZDefault? then Some(z.fallback) else d;
    if n == 0 {
      forall m: nat | m < depth - 1 ensures !IsDefaultLayer(z.inner, m) { assert !IsDefaultLayer(z, m + 1); }
      UnwrapNoDefault(z.inner, depth - 1, optional || z.ZOptional? || z.ZDefault?, nullable || z.ZNullable?, below);
    } else {
      DefaultBelow(z, n - 1);
      forall m: nat | n - 1 < m < depth - 1 ensures !IsDefaultLayer(z.inner, m) { assert !IsDefaultLayer(z, m + 1); }
      UnwrapDefault(z.inner, depth - 1, optional || z.ZOptional? || z.ZDefault?, nullable || z.ZNullable?, below, n - 1);
    }
  }

  lemma {:induction false} LastDefault(z: Zod, depth: nat) returns (n: nat)
    requires exists m: nat :: m < depth && IsDefaultLayer(z, m)
    ensures InnermostDefault(z, depth, n)
  {
    if IsDefaultLayer(z, depth - 1) { n := depth - 1; } else { n := LastDefault(z, depth - 1); }
  }

  /** The published default is the fallback of the innermost default among the first 20 layers; without one there is none. */
  lemma DefaultExact(z: Zod)
    ensures forall v :: Compile(z).defaultValue == Some(v) <==> exists n: nat :: InnermostDefault(z, 20, n) && DefaultsTo(z, n, v)
    ensures Compile(z).defaultValue == None <==> forall n: nat :: n < 20 ==> !IsDefaultLayer(z, n)
  {
    CompiledDefault(z);
    if exists m: nat :: m < 20 && IsDefaultLayer(z, m) {
      var n := LastDefault(z, 20);
      UnwrapDefault(z, 20, false, false, None, n);
      forall v ensures Compile(z).defaultValue == Some(v) <==> exists k: nat :: InnermostDefault(z, 20, k) && DefaultsTo(z, k, v) {
        assert forall k: nat :: InnermostDefault(z, 20, k) ==> k == n;
      }
    } else {
      UnwrapNoDefault(z, 20, false, false, None);
    }
  }

  lemma CompiledDefault(z: Zod)
    ensures Compile(z).defaultValue == UnwrapFrom(z, 20, false, false, None).defaultValue
    ensures Compile(z).nullable == UnwrapFrom(z, 20, false, false, None).nullable
  {
  }

  ghost predicate IsNullableLayer(z: Zod, n: nat) {
    var layer := Peeled(z, n);
    layer.Some? && layer.value.ZNullable?
  }

  lemma {:induction false} UnwrapNullable(z: Zod, depth: nat, optional: bool, d: Option<Json>)
    ensures UnwrapFrom(z, depth, optional, false, d).nullable <==> exists n: nat :: n < depth && IsNullableLayer(z, n)
    decreases depth
  {
    if depth > 0 {
      if z.ZNullable? {
        assert IsNullableLayer(z, 0);
        UnwrapKeeps(z.inner, depth - 1, optional, true, d);
      } else if IsWrapper(z) {
        UnwrapNullable(z.inner, depth - 1, optional || z.ZOptional? || z.ZDefault?, if z.ZDefault? then Some(z.fallback) else d);
        if n: nat :| n < depth && IsNullableLayer(z, n) { assert n > 0 && IsNullableLayer(z.inner, n - 1); }
        if n: nat :| n < depth - 1 && IsNullableLayer(z.inner, n) { assert IsNullableLayer(z, n + 1); }
      } else {
        forall n: nat ensures !IsNullableLayer(z, n) {}
      }
    }
  }

  /** And `nullable` says whether one of them is nullable. */
  lemma NullableExact(z: Zod)
    ensures Compile(z).nullable <==> exists n: nat :: n < 20 && IsNullableLayer(z, n)
  {
    UnwrapNullable(z, 20, false, None);
    CompiledDefault(z);
  }

  // ----- strings and numbers -----

  ghost predicate FirstMinimum(checks: seq<StringCheck>, published: Option<nat>) {
    match published
    case None => forall i :: 0 <= i < |checks| ==> !checks[i].MinLength?
    case Some(n) => exists i :: 0 <= i < |checks| && checks[i] == MinLength(n) && forall j :: 0 <= j < i ==> !checks[j].MinLength?
  }

  ghost predicate FirstMaximum(checks: seq<StringCheck>, published: Option<nat>) {
    match published
    case None => forall i :: 0 <= i < |checks| ==> !checks[i].MaxLength?
    case Some(n) => exists i :: 0 <= i < |checks| && checks[i] == MaxLength(n) && forall j :: 0 <= j < i ==> !checks[j].MaxLength?
  }

  /** The names under which the OpenAPI Specification knows the formats. */
  ghost predicate Names(format: Format, name: string) {
    match format
    case Email => name == "email"
    case Url => name == "url"
    case Uuid => name == "uuid"
    case DateTime => name == "date-time"
  }

  ghost predicate FormatAt(checks: seq<StringCheck>, i: int, name: string) {
    0 <= i < |checks| && checks[i].HasFormat? && Names(checks[i].format, name)
  }

  ghost predicate FirstNamed(checks: seq<StringCheck>, published: Option<string>) {
    match published
    case None => forall i :: 0 <= i < |checks| ==> !checks[i].HasFormat?
    case Some(name) => exists i :: FormatAt(checks, i, name) && forall j :: 0 <= j < i ==> !checks[j].HasFormat?
  }

  lemma {:induction false} FirstChecks(checks: seq<StringCheck>)
    ensures FirstMinimum(checks, FirstMinLength(checks))
    ensures FirstMaximum(checks, FirstMaxLength(checks))
    ensures FirstNamed(checks, FirstFormat(checks))
  {
    if checks != [] {
      FirstChecks(checks[1..]);
      MinimumAfter(checks);
      MaximumAfter(checks);
      NamedAfter(checks);
    }
  }

  lemma MinimumAfter(checks: seq<StringCheck>)
    requires checks != [] && FirstMinimum(checks[1..], FirstMinLength(checks[1..]))
    ensures FirstMinimum(checks, FirstMinLength(checks))
  {
    if checks[0].MinLength? {
      assert checks[0] == MinLength(FirstMinLength(checks).value);
    } else if FirstMinLength(checks).Some? {
      var n := FirstMinLength(checks).value;
      var i :| 0 <= i < |checks[1..]| && checks[1..][i] == MinLength(n) && forall j :: 0 <= j < i ==> !checks[1..][j].MinLength?;
      assert checks[i + 1] == MinLength(n);
      assert forall j :: 0 < j < i + 1 ==> checks[j] == checks[1..][j - 1];
    } else {
      assert forall j :: 0 < j < |checks| ==> checks[j] == checks[1..][j - 1];
    }
  }

  lemma MaximumAfter(checks: seq<StringCheck>)
    requires checks != [] && FirstMaximum(checks[1..], FirstMaxLength(checks[1..]))
    ensures FirstMaximum(checks, FirstMaxLength(checks))
  {
    if checks[0].MaxLength? {
      assert checks[0] == MaxLength(FirstMaxLength(checks).value);
    } else if FirstMaxLength(checks).Some? {
      var n := FirstMaxLength(checks).value;
      var i :| 0 <= i < |checks[1..]| && checks[1..][i] == MaxLength(n) && forall j :: 0 <= j < i ==> !checks[1..][j].MaxLength?;
      assert checks[i + 1] == MaxLength(n);
      assert forall j :: 0 < j < i + 1 ==> checks[j] == checks[1..][j - 1];
    } else {
      assert forall j :: 0 < j < |checks| ==> checks[j] == checks[1..][j - 1];
    }
  }

  lemma NamedAfter(checks: seq<StringCheck>)
    requires checks != [] && FirstNamed(checks[1..], FirstFormat(checks[1..]))
    ensures FirstNamed(checks, FirstFormat(checks))
  {
    if checks[0].HasFormat? {
      assert FormatAt(checks, 0, FirstFormat(checks).value);
    } else if FirstFormat(checks).Some? {
      var name := FirstFormat(checks).value;
      var i :| FormatAt(checks[1..], i, name) && forall j :: 0 <= j < i ==> !checks[1..][j].HasFormat?;
      assert FormatAt(checks, i + 1, name);
      assert forall j :: 0 < j < i + 1 ==> checks[j] == checks[1..][j - 1];
    } else {
      assert forall j :: 0 < j < |checks| ==> checks[j] == checks[1..][j - 1];
    }
  }

  /** A string is published with its first minimum, its first maximum and the standard name of its first format; a date by its format. */
  lemma StringKeywords(z: Zod)
    requires Unwrap(z).inner.ZString? || Unwrap(z).inner.ZDate?
    ensures var s, inner := Compile(z), Unwrap(z).inner;
      && s.kind == Some("string") && s.enumeration == None
      && (inner.ZDate? ==> s.format == Some("date-time"))
      && (inner.ZString? ==>
            FirstMinimum(inner.checks, s.limits.minLength) && FirstMaximum(inner.checks, s.limits.maxLength)
            && FirstNamed(inner.checks, s.format))
  {
    if Unwrap(z).inner.ZString? { FirstChecks(Unwrap(z).inner.checks); }
  }

  ghost predicate FirstLower(bounds: seq<NumberCheck>, published: Option<real>) {
    match published
    case None => forall i :: 0 <= i < |bounds| ==> !bounds[i].AtLeast?
    case Some(b) =>
      exists i :: 0 <= i < |bounds| && bounds[i].AtLeast? && bounds[i].bound == b && forall j :: 0 <= j < i ==> !bounds[j].AtLeast?
  }

  ghost predicate FirstUpper(bounds: seq<NumberCheck>, published: Option<real>) {
    match published
    case None => forall i :: 0 <= i < |bounds| ==> !bounds[i].AtMost?
    case Some(b) =>
      exists i :: 0 <= i < |bounds| && bounds[i].AtMost? && bounds[i].bound == b && forall j :: 0 <= j < i ==> !bounds[j].AtMost?
  }

  lemma {:induction false} FirstLowerFound(bounds: seq<NumberCheck>)
    ensures FirstLower(bounds, FirstAtLeast(bounds))
  {
    if bounds != [] && !bounds[0].AtLeast? {
      FirstLowerFound(bounds[1..]);
      assert forall j :: 0 < j < |bounds| ==> bounds[j] == bounds[1..][j - 1];
      if FirstAtLeast(bounds).Some? {
        var b := FirstAtLeast(bounds).value;
        var i :| 0 <= i < |bounds[1..]| && bounds[1..][i].AtLeast? && bounds[1..][i].bound == b
          && forall j :: 0 <= j < i ==> !bounds[1..][j].AtLeast?;
        assert bounds[i + 1].AtLeast? && bounds[i + 1].bound == b;
      }
    }
  }

  lemma {:induction false} FirstUpperFound(bounds: seq<NumberCheck>)
    ensures FirstUpper(bounds, FirstAtMost(bounds))
  {
    if bounds != [] && !bounds[0].AtMost? {
      FirstUpperFound(bounds[1..]);
      assert forall j :: 0 < j < |bounds| ==> bounds[j] == bounds[1..][j - 1];
      if FirstAtMost(bounds).Some? {
        var b := FirstAtMost(bounds).value;
        var i :| 0 <= i < |bounds[1..]| && bounds[1..][i].AtMost? && bounds[1..][i].bound == b
          && forall j :: 0 <= j < i ==> !bounds[1..][j].AtMost?;
        assert bounds[i + 1].AtMost? && bounds[i + 1].bound == b;
      }
    }
  }

  /** A number is published as an integer exactly if some check asks for one, with its first bounds, strict or not. */
  lemma NumberKeywords(z: Zod)
    requires Unwrap(z).inner.ZNumber?
    ensures var s, bounds := Compile(z), Unwrap(z).inner.bounds;
      && s.kind == Some(if exists i :: 0 <= i < |bounds| && bounds[i].IsInt? then "integer" else "number")
      && FirstLower(bounds, s.limits.minimum) && FirstUpper(bounds, s.limits.maximum)
  {
    FirstLowerFound(Unwrap(z).inner.bounds);
    FirstUpperFound(Unwrap(z).inner.bounds);
  }

  // ----- intersections -----

  ghost predicate OpenObject(z: Zod) {
    z.ZObject? && !z.unknownKeys.Strict?
  }

  ghost predicate NoCommonKey(l: seq<Property>, r: seq<Property>) {
    forall i, j :: 0 <= i < |l| && 0 <= j < |r| ==> l[i].key != r[j].key
  }

  lemma NoCommonProperty(l: seq<Property>, r: seq<Property>)
    requires NoCommonKey(l, r)
    ensures PropertiesOf(l).Keys !! PropertiesOf(r).Keys
  {
    forall key | key in PropertiesOf(l) && key in PropertiesOf(r) ensures false {
      var i := PropertyCompiled(l, key);
      var j := PropertyCompiled(r, key);
    }
  }

  /** A value valid under the published intersection is valid on each side. */
  lemma SideValid(z: Zod, side: Zod, v: Json, formats: Formats)
    requires z.ZIntersection? && OpenObject(z.left) && OpenObject(z.right) && NoCommonKey(z.left.shape, z.right.shape)
    requires (side == z.left || side == z.right) && Valid(Compile(z), v, formats)
    ensures Valid(Compile(side), v, formats)
  {
    var l, r, s := Compile(z.left), Compile(z.right), Compile(side);
    assert Unwrap(z).inner == z && Unwrap(z.left).inner == z.left && Unwrap(z.right).inner == z.right;
    NoCommonProperty(z.left.shape, z.right.shape);
    var both := Compile(z);
    assert both.properties == l.properties + r.properties && both.required == Some(Required(l) + Required(r));
    forall k | k in v.members && k in s.properties ensures Valid(s.properties[k], v.members[k], formats) {
      assert both.properties[k] == s.properties[k];
    }
    forall i | 0 <= i < |Required(s)| ensures Required(s)[i] in v.members {
      assert Required(s)[i] == both.required.value[if side == z.left then i else |Required(l)| + i];
    }
  }

  /** An intersection of plain open objects without a common key: validator and published schema agree on every value. */
  lemma IntersectionAgrees(z: Zod, v: Json, formats: Formats)
    requires z.ZIntersection? && OpenObject(z.left) && OpenObject(z.right) && NoCommonKey(z.left.shape, z.right.shape)
    requires Plain(z.left, formats) && Plain(z.right, formats) && Basic(v)
    ensures Accepts(z, Some(v), formats) <==> Valid(Compile(z), v, formats)
  {
    PlainIsFaithful(z.left, formats);
    PlainIsFaithful(z.right, formats);
    if Accepts(z, Some(v), formats) {
      assert Unwrap(z).inner == z;
      Sound(z, v, formats);
    }
    if Valid(Compile(z), v, formats) {
      SideValid(z, z.left, v, formats);
      SideValid(z, z.right, v, formats);
      Complete(z.left, v, formats);
      Complete(z.right, v, formats);
    }
  }
}
