/**
  Attribute classification and type/name resolution of the TypeScript
  generator: the decision table that gives every schema attribute its kind,
  the size resolver, the size-provider search and the mapping from kinds and
  sizes to generated TypeScript names.
 */
module Helpers {
  import opened Wrappers
  import opened SchemaModel

  predicate IsStructType(t: string) { t == "struct" }
  predicate IsEnumType(t: string) { t == "enum" }
  predicate IsByteType(t: string) { t == "byte" }

  predicate EndsWith(s: string, suffix: string) {
    |suffix| <= |s| && s[|s| - |suffix|..] == suffix
  }

  predicate IsFlagsEnum(name: string) { EndsWith(name, "Flags") }

  /** `'disposition' in attribute and attribute['disposition'] == 'inline'` */
  predicate IsInline(a: Attribute) { a.disposition == Some("inline") }

  /**
    Name of the generated class for `typename`: a DTO for byte and enum types
    and for types the schema does not declare, a builder for declared structs.
   */
  function GetGeneratedClassName(typename: string, classType: string, schema: Schema): (r: string)
    ensures r == typename + "Dto" || r == typename + "Builder"
    ensures r == typename + "Builder" <==>
              !IsByteType(classType) && !IsEnumType(classType) &&
              typename in schema.decls && IsStructType(schema.decls[typename].typ)
  {
    var defaultName := typename + "Dto";
    if IsByteType(classType) || IsEnumType(classType) || typename !in schema.decls then
      defaultName
    else if IsStructType(schema.decls[typename].typ) then
      typename + "Builder"
    else
      defaultName
  }

  /** Byte fields up to eight bytes wide map to a built-in scalar. */
  predicate IsBuiltinType(typename: string, size: Size) {
    size.Fixed? && IsByteType(typename) && size.n <= 8
  }

  /** The structural kinds of attribute; Unknown exists in the source's enumeration only. */
  datatype AttributeKind = Simple | Buffer | Array | Custom | Flags | Enum | Unknown

  /**
    Effective size of an attribute: its own `size`, else the size declared by
    the type it references, else 1. Byte and enum attributes without a `size`
    raise a KeyError, as does a reference to an undeclared type.
   */
  function GetAttributeSize(schema: Schema, a: Attribute): (r: Result<Size, Failure>)
    ensures a.size.Some? ==> r == Success(a.size.value)
    ensures a.size.None? && (IsByteType(a.typ) || IsEnumType(a.typ)) ==>
              r == Failure(KeyError(Str("size")))
    ensures a.size.None? && !IsByteType(a.typ) && !IsEnumType(a.typ) ==>
              (r.Success? <==> a.typ in schema.decls) &&
              (r.Failure? ==> r.error == KeyError(Str(a.typ))) &&
              (r.Success? ==> r.value == schema.decls[a.typ].size.GetOr(Fixed(1)))
  {
    if a.size.None? && !IsByteType(a.typ) && !IsEnumType(a.typ) then
      if a.typ !in schema.decls then Failure(KeyError(Str(a.typ)))
      else
        var attr := schema.decls[a.typ];
        if attr.size.Some? then Success(attr.size.value) else Success(Fixed(1))
    else if a.size.None? then
      Failure(KeyError(Str("size")))
    else
      Success(a.size.value)
  }

  /**
    The first-match decision table. Its contract gives, for every kind, the
    exact set of attributes that receive it.
   */
  function GetAttributeKind(a: Attribute): (k: AttributeKind)
    ensures k != Unknown
    ensures IsFlagsEnum(a.typ) ==> k == Flags
    ensures k == Flags <==> IsFlagsEnum(a.typ)
    ensures k == Custom <==> !IsFlagsEnum(a.typ) && (IsStructType(a.typ) || a.size.None?)
    ensures k == Enum <==> IsEnumType(a.typ) && a.size.Some?
    ensures k == Array <==>
              !IsFlagsEnum(a.typ) && !IsStructType(a.typ) && !IsEnumType(a.typ) &&
              a.size.Some? && a.size.value.Named? &&
              !EndsWith(a.size.value.field, "Size") && EndsWith(a.size.value.field, "Count")
    ensures k == Simple <==> a.size.Some? && IsBuiltinType(a.typ, a.size.value)
    ensures k == Buffer <==>
              !IsFlagsEnum(a.typ) && !IsStructType(a.typ) && !IsEnumType(a.typ) && a.size.Some? &&
              (if a.size.value.Named?
               then EndsWith(a.size.value.field, "Size") || !EndsWith(a.size.value.field, "Count")
               else !IsBuiltinType(a.typ, a.size.value))
  {
    if IsFlagsEnum(a.typ) then Flags
    else if IsStructType(a.typ) || a.size.None? then Custom
    else if IsEnumType(a.typ) then Enum
    else if a.size.value.Named? && EndsWith(a.size.value.field, "Size") then Buffer
    else if a.size.value.Named? && EndsWith(a.size.value.field, "Count") then Array
    else if IsBuiltinType(a.typ, a.size.value) then Simple
    else Buffer
  }

  /**
    The search behind `get_attribute_property_equal`: the first attribute, in
    list order, whose `property` equals `value`; each attribute is compared
    before the search enters its inline sub-layout, and that sub-layout is
    searched before the later siblings. `visiting` holds the structs whose
    layouts are being searched on the current call path: entering one of them
    again would repeat the same call forever, which Python ends with a
    RecursionError.
   */
  function PropertyEqualIn(schema: Schema, attributes: seq<Attribute>, property: Property, value: Value,
                           recurse: bool, visiting: set<string>): (r: Result<Option<Attribute>, Failure>)
    ensures r.Success? && r.value.Some? ==> Get(r.value.value, property) == Some(value)
    ensures r == Success(None) ==> forall i :: 0 <= i < |attributes| ==> Get(attributes[i], property) != Some(value)
    ensures (forall i :: 0 <= i < |attributes| ==> Get(attributes[i], property) != Some(value)) &&
            (!recurse || forall i :: 0 <= i < |attributes| ==> !IsInline(attributes[i])) ==>
              r == Success(None)
    decreases schema.decls.Keys - visiting, |attributes|
  {
    if attributes == [] then Success(None)
    else
      var a := attributes[0];
      if Get(a, property) == Some(value) then Success(Some(a))
      else if recurse && IsInline(a) then
        if a.typ !in schema.decls then Failure(KeyError(Str(a.typ)))
        else if schema.decls[a.typ].layout.None? then Failure(KeyError(Str("layout")))
        else if a.typ in visiting then Failure(RecursionError)
        else
          var nested := PropertyEqualIn(schema, schema.decls[a.typ].layout.value, property, value,
                                        true, visiting + {a.typ});
          if nested.Failure? || nested.value.Some? then nested
          else PropertyEqualIn(schema, attributes[1..], property, value, recurse, visiting)
      else
        PropertyEqualIn(schema, attributes[1..], property, value, recurse, visiting)
  }

  function GetAttributePropertyEqual(schema: Schema, attributes: seq<Attribute>, property: Property,
                                     value: Value, recurse: bool := true): (r: Result<Option<Attribute>, Failure>)
    ensures r.Success? && r.value.Some? ==> Get(r.value.value, property) == Some(value)
    ensures attributes != [] && Get(attributes[0], property) == Some(value) ==>
              r == Success(Some(attributes[0]))
    ensures r == WalkOutcome(Walk(schema, attributes, recurse, {}), property, value)
  {
    SearchFindsFirstCandidate(schema, attributes, property, value, recurse, {});
    PropertyEqualIn(schema, attributes, property, value, recurse, {})
  }

  /**
    The name of the size provider of `attributeName`: the attribute found by
    the search whose `size` is that name. A provider without a `name` raises a
    KeyError.
   */
  function GetAttributeIfSize(attributeName: string, attributes: seq<Attribute>, schema: Schema)
    : (r: Result<Option<string>, Failure>)
    ensures var found := GetAttributePropertyEqual(schema, attributes, SizeKey, Str(attributeName));
            (found.Failure? ==> r == Failure(found.error)) &&
            (found == Success(None) ==> r == Success(None)) &&
            (found.Success? && found.value.Some? ==>
               found.value.value.size == Some(Named(attributeName)) &&
               (r.Success? <==> found.value.value.name.Some?) &&
               (r.Success? ==> r.value == found.value.value.name) &&
               (r.Failure? ==> r.error == KeyError(Str("name"))))
  {
    var found := GetAttributePropertyEqual(schema, attributes, SizeKey, Str(attributeName));
    if found.Failure? then Failure(found.error)
    else if found.value.None? then Success(None)
    else if found.value.value.name.None? then Failure(KeyError(Str("name")))
    else Success(Some(found.value.value.name.value))
  }

  /**
    The pre-order walk the search performs: the attributes it compares, in
    order, and the failure that stops it when it reaches an inline attribute
    whose layout cannot be entered (`stop` is None when the walk completes).
   */
  datatype Walked = Walked(visited: seq<Attribute>, stop: Option<Failure>)

  function Walk(schema: Schema, attributes: seq<Attribute>, recurse: bool, visiting: set<string>): Walked
    decreases schema.decls.Keys - visiting, |attributes|
  {
    if attributes == [] then Walked([], None)
    else
      var a := attributes[0];
      var nested :=
        if !(recurse && IsInline(a)) then Walked([], None)
        else if a.typ !in schema.decls then Walked([], Some(KeyError(Str(a.typ))))
        else if schema.decls[a.typ].layout.None? then Walked([], Some(KeyError(Str("layout"))))
        else if a.typ in visiting then Walked([], Some(RecursionError))
        else Walk(schema, schema.decls[a.typ].layout.value, true, visiting + {a.typ});
      if nested.stop.Some? then Walked([a] + nested.visited, nested.stop)
      else
        var rest := Walk(schema, attributes[1..], recurse, visiting);
        Walked([a] + nested.visited + rest.visited, rest.stop)
  }

  /** The first attribute of `s` whose `property` equals `value`. */
  function FirstWith(s: seq<Attribute>, property: Property, value: Value): Option<Attribute> {
    if s == [] then None
    else if Get(s[0], property) == Some(value) then Some(s[0])
    else FirstWith(s[1..], property, value)
  }

  lemma {:induction false} FirstWithAppend(s: seq<Attribute>, t: seq<Attribute>, property: Property, value: Value)
    ensures FirstWith(s + t, property, value) ==
              if FirstWith(s, property, value).Some? then FirstWith(s, property, value)
              else FirstWith(t, property, value)
  {
    if s == [] {
      assert s + t == t;
    } else {
      assert (s + t)[0] == s[0];
      assert (s + t)[1..] == s[1..] + t;
      FirstWithAppend(s[1..], t, property, value);
    }
  }

  /**
    The search returns the first matching attribute of the pre-order walk
    (each attribute, then its inline sub-layout, then its later siblings).
    When the walk holds no match, the search raises the failure that stopped
    the walk, or returns None when the walk completed.
   */
  function WalkOutcome(w: Walked, property: Property, value: Value): Result<Option<Attribute>, Failure> {
    var first := FirstWith(w.visited, property, value);
    if first.Some? then Success(first)
    else if w.stop.Some? then Failure(w.stop.value)
    else Success(None)
  }

  lemma {:induction false} SearchFindsFirstCandidate(schema: Schema, attributes: seq<Attribute>, property: Property,
                                                     value: Value, recurse: bool, visiting: set<string>)
    ensures PropertyEqualIn(schema, attributes, property, value, recurse, visiting) ==
              WalkOutcome(Walk(schema, attributes, recurse, visiting), property, value)
    decreases schema.decls.Keys - visiting, |attributes|
  {
    if attributes != [] {
      var a := attributes[0];
      SearchFindsFirstCandidate(schema, attributes[1..], property, value, recurse, visiting);
      if !(recurse && IsInline(a)) {
        SearchSkipsLayout(schema, attributes, property, value, recurse, visiting);
      } else if a.typ !in schema.decls || schema.decls[a.typ].layout.None? || a.typ in visiting {
        SearchStopsAtLayout(schema, attributes, property, value, recurse, visiting);
      } else {
        SearchFindsFirstCandidate(schema, schema.decls[a.typ].layout.value, property, value, true, visiting + {a.typ});
        SearchEntersLayout(schema, attributes, property, value, recurse, visiting);
      }
    }
  }

  /** An attribute the search does not enter: compared, then the siblings. */
  lemma SearchSkipsLayout(schema: Schema, attributes: seq<Attribute>, property: Property,
                          value: Value, recurse: bool, visiting: set<string>)
    requires attributes != [] && !(recurse && IsInline(attributes[0]))
    requires PropertyEqualIn(schema, attributes[1..], property, value, recurse, visiting) ==
               WalkOutcome(Walk(schema, attributes[1..], recurse, visiting), property, value)
    ensures PropertyEqualIn(schema, attributes, property, value, recurse, visiting) ==
              WalkOutcome(Walk(schema, attributes, recurse, visiting), property, value)
  {
    InlineStep(attributes[0], [], Walk(schema, attributes[1..], recurse, visiting).visited, property, value);
  }

  /** An inline attribute whose layout cannot be entered ends the walk right after it. */
  lemma SearchStopsAtLayout(schema: Schema, attributes: seq<Attribute>, property: Property,
                            value: Value, recurse: bool, visiting: set<string>)
    requires attributes != [] && recurse && IsInline(attributes[0])
    requires var t := attributes[0].typ;
             t !in schema.decls || schema.decls[t].layout.None? || t in visiting
    ensures PropertyEqualIn(schema, attributes, property, value, recurse, visiting) ==
              WalkOutcome(Walk(schema, attributes, recurse, visiting), property, value)
  {
    var a := attributes[0];
    InlineStep(a, [], [], property, value);
    assert [a] + [] + [] == [a] + [];
  }

  /** An inline attribute whose layout resolves: compared, then its layout, then the siblings. */
  lemma SearchEntersLayout(schema: Schema, attributes: seq<Attribute>, property: Property,
                           value: Value, recurse: bool, visiting: set<string>)
    requires attributes != [] && recurse && IsInline(attributes[0])
    requires var t := attributes[0].typ;
             t in schema.decls && schema.decls[t].layout.Some? && t !in visiting
    requires var t := attributes[0].typ;
             PropertyEqualIn(schema, schema.decls[t].layout.value, property, value, true, visiting + {t}) ==
               WalkOutcome(Walk(schema, schema.decls[t].layout.value, true, visiting + {t}), property, value)
    requires PropertyEqualIn(schema, attributes[1..], property, value, recurse, visiting) ==
               WalkOutcome(Walk(schema, attributes[1..], recurse, visiting), property, value)
    ensures PropertyEqualIn(schema, attributes, property, value, recurse, visiting) ==
              WalkOutcome(Walk(schema, attributes, recurse, visiting), property, value)
  {
    var a := attributes[0];
    var nested := Walk(schema, schema.decls[a.typ].layout.value, true, visiting + {a.typ});
    if nested.stop.Some? {
      InlineStep(a, nested.visited, [], property, value);
      assert [a] + nested.visited + [] == [a] + nested.visited;
    } else {
      InlineStep(a, nested.visited, Walk(schema, attributes[1..], recurse, visiting).visited, property, value);
    }
  }

  /** One step of the walk: the attribute, then what its sub-layout contributes, then the siblings. */
  lemma InlineStep(a: Attribute, nested: seq<Attribute>, rest: seq<Attribute>, property: Property, value: Value)
    ensures FirstWith([a] + nested + rest, property, value) ==
              if Get(a, property) == Some(value) then Some(a)
              else if FirstWith(nested, property, value).Some? then FirstWith(nested, property, value)
              else FirstWith(rest, property, value)
  {
    assert ([a] + nested + rest)[0] == a;
    assert ([a] + nested + rest)[1..] == nested + rest;
    FirstWithAppend(nested, rest, property, value);
  }

  /**
    The search enters an inline attribute's sub-layout before it looks at that
    attribute's later siblings: a match nested in the first attribute wins over
    a direct match in the second.
   */
  lemma NestedMatchPrecedesLaterSibling()
    ensures
      var inner := Attribute(Some("innerCount"), "byte", Some(Named("payloadSize")), None, None);
      var embedded := Attribute(None, "Embedded", None, Some("inline"), None);
      var outer := Attribute(Some("outerCount"), "byte", Some(Named("payloadSize")), None, None);
      var schema := Schema(["Embedded"], map["Embedded" := Decl("struct", None, Some([inner]))]);
      GetAttributeIfSize("payloadSize", [embedded, outer], schema) == Success(Some("innerCount"))
  {
    var inner := Attribute(Some("innerCount"), "byte", Some(Named("payloadSize")), None, None);
    var embedded := Attribute(None, "Embedded", None, Some("inline"), None);
    var outer := Attribute(Some("outerCount"), "byte", Some(Named("payloadSize")), None, None);
    var schema := Schema(["Embedded"], map["Embedded" := Decl("struct", None, Some([inner]))]);
    assert PropertyEqualIn(schema, [inner], SizeKey, Str("payloadSize"), true, {"Embedded"}) == Success(Some(inner));
  }

  /**
    The search stops at the first inline attribute whose layout cannot be
    entered, but only if no earlier attribute matched: a match before an
    undeclared inline type is returned, a match after it is never reached.
   */
  lemma UnresolvedInlineStopsSearch()
    ensures var provider := Attribute(Some("count"), "byte", Some(Named("payloadSize")), None, None);
            var other := Attribute(Some("flag"), "byte", Some(Fixed(1)), None, None);
            var broken := Attribute(None, "Missing", None, Some("inline"), None);
            var schema := Schema([], map[]);
            GetAttributePropertyEqual(schema, [other, provider, broken], SizeKey, Str("payloadSize")) == Success(Some(provider)) &&
            GetAttributePropertyEqual(schema, [broken, provider], SizeKey, Str("payloadSize")) == Failure(KeyError(Str("Missing")))
  {
  }

  /** TypeScript type of a built-in scalar: one number up to four bytes, a pair of words for eight. */
  function GetBuiltinType(size: Size): (r: Result<string, Failure>)
    ensures r.Success? <==> size.Fixed? && size.n in {1, 2, 4, 8}
    ensures r.Success? ==> r.value == if size.n == 8 then "number[]" else "number"
    ensures r.Failure? ==> r.error == KeyError(SizeValue(size))
  {
    match size
    case Fixed(n) =>
      if n == 1 || n == 2 || n == 4 then Success("number")
      else if n == 8 then Success("number[]")
      else Failure(KeyError(Int(n)))
    case Named(f) => Failure(KeyError(Str(f)))
  }

  /** True when the name helpers take their non-scalar branch. */
  predicate IsWideOrNamed(size: Size) { size.Named? || size.n > 8 }

  function GetReadMethodName(size: Size): (r: Result<string, Failure>)
    ensures IsWideOrNamed(size) ==> r == Success("readFully")
    ensures !IsWideOrNamed(size) ==> (r.Success? <==> size.n in {1, 2, 4, 8})
    ensures !IsWideOrNamed(size) && r.Success? ==>
              r.value == if size.n == 8 then "GeneratorUtils.uint64ToBuffer" else "GeneratorUtils.uintToBuffer"
  {
    if IsWideOrNamed(size) then Success("readFully")
    else if size.n == 1 || size.n == 2 || size.n == 4 then Success("GeneratorUtils.uintToBuffer")
    else if size.n == 8 then Success("GeneratorUtils.uint64ToBuffer")
    else Failure(KeyError(Int(size.n)))
  }

  function GetReverseMethodName(size: Size): (r: string)
    ensures r == "{0}" <==> IsWideOrNamed(size) || size.n == 1
    ensures r == "{0}" || r == "{0}.reverse()"
  {
    if IsWideOrNamed(size) || size.n == 1 then "{0}" else "{0}.reverse()"
  }

  function GetWriteMethodName(size: Size): (r: Result<string, Failure>)
    ensures IsWideOrNamed(size) ==> r == Success("write")
    ensures !IsWideOrNamed(size) ==> (r.Success? <==> size.n in {1, 2, 4, 8})
    ensures !IsWideOrNamed(size) && r.Success? ==>
              (size.n == 1 ==> r.value == "writeByte") && (size.n == 2 ==> r.value == "writeShort") &&
              (size.n == 4 ==> r.value == "writeInt") && (size.n == 8 ==> r.value == "writeLong")
  {
    if IsWideOrNamed(size) then Success("write")
    else if size.n == 1 then Success("writeByte")
    else if size.n == 2 then Success("writeShort")
    else if size.n == 4 then Success("writeInt")
    else if size.n == 8 then Success("writeLong")
    else Failure(KeyError(Int(size.n)))
  }

  function GetByteConvertMethodName(size: Size): (r: Result<string, Failure>)
    ensures IsWideOrNamed(size) ==> r == Success("")
    ensures !IsWideOrNamed(size) ==> (r.Success? <==> size.n in {1, 2, 4, 8})
    ensures !IsWideOrNamed(size) && r.Success? ==>
              r.value == if size.n == 8 then "GeneratorUtils.bufferToUint64({0})" else "GeneratorUtils.bufferToUint({0})"
  {
    if IsWideOrNamed(size) then Success("")
    else if size.n == 1 || size.n == 2 || size.n == 4 then Success("GeneratorUtils.bufferToUint({0})")
    else if size.n == 8 then Success("GeneratorUtils.bufferToUint64({0})")
    else Failure(KeyError(Int(size.n)))
  }

  /**
    The four size-indexed name helpers agree on which numeric sizes up to 8
    they support.
   */
  lemma ScalarWidthHelpersAgree(size: Size)
    requires size.Fixed? && size.n <= 8
    ensures GetBuiltinType(size).Success? == GetReadMethodName(size).Success?
                                          == GetWriteMethodName(size).Success?
                                          == GetByteConvertMethodName(size).Success?
  {
  }

  /** The TypeScript type generated for an attribute. */
  function GetGeneratedType(schema: Schema, a: Attribute): (r: Result<string, Failure>)
    ensures GetAttributeKind(a) == Simple ==> r == GetBuiltinType(a.size.value)
    ensures GetAttributeKind(a) == Buffer ==> r == Success("Uint8Array")
    ensures var typename := if IsByteType(a.typ) then a.typ else GetGeneratedClassName(a.typ, a.typ, schema);
            (GetAttributeKind(a) == Array ==> r == Success(typename + "[]")) &&
            (GetAttributeKind(a) in {Flags, Custom, Enum} ==> r == Success(typename))
  {
    var kind := GetAttributeKind(a);
    if kind == Simple then
      match GetAttributeSize(schema, a)
      case Success(size) => GetBuiltinType(size)
      case Failure(e) => Failure(e)
    else if kind == Buffer then Success("Uint8Array")
    else
      var typename := if !IsByteType(a.typ) then GetGeneratedClassName(a.typ, a.typ, schema) else a.typ;
      if kind == Array then Success(typename + "[]")
      else Success(typename)
  }

  function GetDefaultValue(a: Attribute): (r: string)
    ensures r == "0" || r == "null"
    ensures r == "0" <==> a.size.Some? && a.size.value.Fixed? && IsByteType(a.typ) && a.size.value.n <= 8
  {
    if GetAttributeKind(a) == Simple then "0" else "null"
  }

  /** An eight-byte `byte` field is still a built-in scalar, held as a pair of 32-bit words. */
  lemma EightByteFieldIsWordPair(schema: Schema)
    ensures var amount := Attribute(Some("amount"), "byte", Some(Fixed(8)), None, None);
            GetAttributeKind(amount) == Simple && GetGeneratedType(schema, amount) == Success("number[]")
  {
  }
}
