/**
  The TypeScript generation driver: one pass over the schema that emits byte
  types and selected structs at once and defers enums into the shared enum
  registry, then one artifact per registered enum, then the static helper
  file. The per-type generators are parameters: opaque functions from a
  declaration (and, for classes, the registry as it stands when they run) to
  code lines and a generated name.
 */
module FileGeneration {
  import opened Wrappers
  import opened SchemaModel
  import Helpers
  import HelperStrings

  /** What a class generator produces: the imports it needs, its code lines and its generated name. */
  datatype ClassOutput = ClassOutput(imports: seq<string>, lines: seq<string>, name: string)

  /** What an enum generator produces: its code lines and its generated name. */
  datatype EnumOutput = EnumOutput(lines: seq<string>, name: string)

  /**
    The per-type generators, whose source is not part of this model:
    byte types, structs (with the predicate that decides whether a struct
    gets a file), enums and the static helper files.
   */
  datatype Generators = Generators(
    defineType: (string, Decl, Registry) -> ClassOutput,
    structClass: (string, Decl, Registry) -> ClassOutput,
    shouldGenerate: string -> bool,
    enumClass: (string, Decl) -> EnumOutput,
    staticClass: string -> seq<string>)

  /** The contents of the enum registry: its names in insertion order and the generator under each. */
  datatype Registry = Registry(keys: seq<string>, entries: map<string, EnumOutput>) {
    ghost predicate Valid() {
      (forall i, j :: 0 <= i < j < |keys| ==> keys[i] != keys[j]) &&
      (forall n :: n in entries <==> n in keys)
    }
  }

  /**
    `registry[name] = generator` on an insertion-ordered dict: a new name goes
    to the end, a known name keeps its place and takes the new generator.
   */
  function Register(r: Registry, name: string, gen: EnumOutput): (r': Registry)
    ensures r.Valid() ==> r'.Valid()
    ensures name in r'.entries && r'.entries[name] == gen
    ensures forall n :: n != name ==> (n in r'.entries <==> n in r.entries)
    ensures forall n :: n != name && n in r.entries ==> r'.entries[n] == r.entries[n]
    ensures |r.keys| <= |r'.keys| && r'.keys[..|r.keys|] == r.keys
  {
    Registry(if name in r.entries then r.keys else r.keys + [name], r.entries[name := gen])
  }

  /** One emitted file: its code lines and the generated name it is filed under. */
  datatype Artifact = Artifact(code: seq<string>, name: string)

  /** What the iterator hands out: a file name and its code. */
  datatype Descriptor = Descriptor(fileName: string, code: seq<string>)

  function ImportLine(importType: string): string {
    "import " + importType + ";"
  }

  function ImportLines(imports: seq<string>): seq<string> {
    seq(|imports|, i requires 0 <= i < |imports| => ImportLine(imports[i]))
  }

  /** The code of a class file: the blank line of `set_import`, the imports, a blank line, the class. */
  function ClassArtifact(out: ClassOutput): Artifact {
    Artifact([""] + ImportLines(out.imports) + [""] + out.lines, out.name)
  }

  function EnumArtifact(e: EnumOutput): Artifact {
    Artifact([""] + [""] + e.lines, e.name)
  }

  const HelperFiles: seq<string> := ["GeneratorUtils"]

  function HelperArtifact(g: Generators, fileName: string): Artifact {
    Artifact(g.staticClass(fileName), fileName)
  }

  /** Entries that get a file during the schema pass: byte types, and structs the predicate selects. */
  predicate Selected(g: Generators, name: string, d: Decl) {
    Helpers.IsByteType(d.typ) || (Helpers.IsStructType(d.typ) && g.shouldGenerate(name))
  }

  function ClassOutputFor(g: Generators, name: string, d: Decl, r: Registry): ClassOutput
    requires Selected(g, name, d)
  {
    if Helpers.IsByteType(d.typ) then g.defineType(name, d, r) else g.structClass(name, d, r)
  }

  datatype PassState = PassState(artifacts: seq<Artifact>, registry: Registry)

  predicate IsEnumEntry(schema: Schema, name: string) {
    name in schema.decls && Helpers.IsEnumType(schema.decls[name].typ)
  }

  predicate SelectedEntry(g: Generators, schema: Schema, name: string) {
    name in schema.decls && Selected(g, name, schema.decls[name])
  }

  /**
    The schema pass's work on one entry. Every name of a well-formed schema is
    declared; an undeclared one would be skipped.
   */
  function Step(g: Generators, schema: Schema, st: PassState, name: string): (st': PassState)
    ensures st.registry.Valid() ==> st'.registry.Valid()
    ensures |st'.artifacts| == |st.artifacts| + (if SelectedEntry(g, schema, name) then 1 else 0)
    ensures st'.artifacts[..|st.artifacts|] == st.artifacts
    ensures !IsEnumEntry(schema, name) ==> st'.registry == st.registry
  {
    if name !in schema.decls then st
    else
      var d := schema.decls[name];
      if Helpers.IsByteType(d.typ) then
        PassState(st.artifacts + [ClassArtifact(g.defineType(name, d, st.registry))], st.registry)
      else if Helpers.IsEnumType(d.typ) then
        PassState(st.artifacts, Register(st.registry, name, g.enumClass(name, d)))
      else if Helpers.IsStructType(d.typ) && g.shouldGenerate(name) then
        PassState(st.artifacts + [ClassArtifact(g.structClass(name, d, st.registry))], st.registry)
      else
        st
  }

  /** The state after the schema pass has seen its first `k` entries. */
  function SchemaPass(g: Generators, schema: Schema, reg0: Registry, k: nat): (st: PassState)
    requires k <= |schema.order|
    ensures reg0.Valid() ==> st.registry.Valid()
  {
    if k == 0 then PassState([], reg0)
    else Step(g, schema, SchemaPass(g, schema, reg0, k - 1), schema.order[k - 1])
  }

  /** The registry once the whole schema has been seen. */
  function FinalRegistry(g: Generators, schema: Schema, reg0: Registry): Registry {
    SchemaPass(g, schema, reg0, |schema.order|).registry
  }

  /** The artifacts of the first `n` registry entries, in insertion order. */
  function EnumArtifacts(r: Registry, n: nat): (arts: seq<Artifact>)
    requires r.Valid() && n <= |r.keys|
    ensures |arts| == n
    ensures forall j :: 0 <= j < n ==> arts[j] == EnumArtifact(r.entries[r.keys[j]])
  {
    if n == 0 then []
    else
      assert r.keys[n - 1] in r.keys;
      EnumArtifacts(r, n - 1) + [EnumArtifact(r.entries[r.keys[n - 1]])]
  }

  /** The artifacts of the first `n` helper files. */
  function HelperArtifacts(g: Generators, n: nat): (arts: seq<Artifact>)
    requires n <= |HelperFiles|
  {
    if n == 0 then [] else HelperArtifacts(g, n - 1) + [HelperArtifact(g, HelperFiles[n - 1])]
  }

  /** Everything one run emits, starting from the registry `reg0`. */
  function GenerateSpec(g: Generators, schema: Schema, reg0: Registry): seq<Artifact>
    requires reg0.Valid()
  {
    var pass := SchemaPass(g, schema, reg0, |schema.order|);
    pass.artifacts + EnumArtifacts(pass.registry, |pass.registry.keys|) + HelperArtifacts(g, |HelperFiles|)
  }

  /** `__next__`: every artifact is filed as its generated name plus `.ts`. */
  function Describe(arts: seq<Artifact>): (ds: seq<Descriptor>)
    ensures |ds| == |arts|
    ensures forall i :: 0 <= i < |arts| ==> ds[i] == Descriptor(arts[i].name + ".ts", arts[i].code)
  {
    if arts == [] then []
    else Describe(arts[..|arts| - 1]) + [Descriptor(arts[|arts| - 1].name + ".ts", arts[|arts| - 1].code)]
  }

  // ---------------------------------------------------------------------------
  // Properties of the emission order

  /** How many of the first `k` schema entries get a file during the schema pass. */
  function CountSelected(g: Generators, schema: Schema, k: nat): nat
    requires k <= |schema.order|
  {
    if k == 0 then 0
    else CountSelected(g, schema, k - 1) + (if SelectedEntry(g, schema, schema.order[k - 1]) then 1 else 0)
  }

  /** The enum names among the first `k` schema entries. */
  function EnumNames(schema: Schema, k: nat): (names: set<string>)
    requires k <= |schema.order|
    ensures forall n :: n in names ==> IsEnumEntry(schema, n) && n in schema.order[..k]
  {
    if k == 0 then {}
    else EnumNames(schema, k - 1) + (if IsEnumEntry(schema, schema.order[k - 1]) then {schema.order[k - 1]} else {})
  }

  /** The enum names among the first `k` entries that the registry did not hold before, in schema order. */
  function FreshEnumNames(schema: Schema, reg0: Registry, k: nat): seq<string>
    requires k <= |schema.order|
  {
    if k == 0 then []
    else
      var n := schema.order[k - 1];
      FreshEnumNames(schema, reg0, k - 1) + (if IsEnumEntry(schema, n) && n !in reg0.entries then [n] else [])
  }

  /**
    The schema pass emits exactly one artifact per selected entry and nothing
    for enums or for entries of any other type.
   */
  lemma {:induction false} PassCount(g: Generators, schema: Schema, reg0: Registry, k: nat)
    requires k <= |schema.order|
    ensures |SchemaPass(g, schema, reg0, k).artifacts| == CountSelected(g, schema, k)
  {
    if k > 0 {
      PassCount(g, schema, reg0, k - 1);
    }
  }

  /** Later entries only append to what earlier entries emitted. */
  lemma {:induction false} PassExtends(g: Generators, schema: Schema, reg0: Registry, j: nat, k: nat)
    requires j <= k <= |schema.order|
    ensures var early := SchemaPass(g, schema, reg0, j).artifacts;
            var late := SchemaPass(g, schema, reg0, k).artifacts;
            |early| <= |late| && late[..|early|] == early
  {
    if j < k {
      PassExtends(g, schema, reg0, j, k - 1);
      var mid := SchemaPass(g, schema, reg0, k - 1).artifacts;
      var late := SchemaPass(g, schema, reg0, k).artifacts;
      assert late[..|mid|] == mid;
    }
  }

  /**
    A selected entry's artifact sits at its schema position among the selected
    entries, generated from the registry as it stood when the pass reached it.
   */
  lemma PassArtifactAt(g: Generators, schema: Schema, reg0: Registry, i: nat, k: nat)
    requires i < k <= |schema.order| && SelectedEntry(g, schema, schema.order[i])
    ensures var arts := SchemaPass(g, schema, reg0, k).artifacts;
            CountSelected(g, schema, i) < |arts| &&
            arts[CountSelected(g, schema, i)] ==
              ClassArtifact(ClassOutputFor(g, schema.order[i], schema.decls[schema.order[i]],
                                           SchemaPass(g, schema, reg0, i).registry))
  {
    PassCount(g, schema, reg0, i);
    PassExtends(g, schema, reg0, i + 1, k);
    var arts := SchemaPass(g, schema, reg0, i + 1).artifacts;
    assert arts[CountSelected(g, schema, i)] == arts[..|arts|][CountSelected(g, schema, i)];
  }

  /** Only enum entries touch the registry, by registering their own generator. */
  lemma PassRegistryStep(g: Generators, schema: Schema, reg0: Registry, k: nat)
    requires 0 < k <= |schema.order|
    ensures var n := schema.order[k - 1];
            var before := SchemaPass(g, schema, reg0, k - 1).registry;
            SchemaPass(g, schema, reg0, k).registry ==
              if IsEnumEntry(schema, n) then Register(before, n, g.enumClass(n, schema.decls[n])) else before
  {
  }

  /** Registrations made before the pass keep their place in the registry's order. */
  lemma {:induction false} PassKeepsOrder(g: Generators, schema: Schema, reg0: Registry, k: nat)
    requires k <= |schema.order|
    ensures var r := SchemaPass(g, schema, reg0, k).registry;
            |reg0.keys| <= |r.keys| && r.keys[..|reg0.keys|] == reg0.keys
  {
    if k > 0 {
      PassKeepsOrder(g, schema, reg0, k - 1);
      PassRegistryStep(g, schema, reg0, k);
      var r := SchemaPass(g, schema, reg0, k - 1).registry;
      var r' := SchemaPass(g, schema, reg0, k).registry;
      assert r'.keys[..|r.keys|] == r.keys;
      assert r'.keys[..|reg0.keys|] == r'.keys[..|r.keys|][..|reg0.keys|];
    }
  }

  /**
    The registry's contents after the pass: every enum of the schema is
    registered with its own generator; earlier registrations keep their
    generator unless the schema declares that enum again; nothing else is added.
   */
  lemma {:induction false} PassRegistry(g: Generators, schema: Schema, reg0: Registry, k: nat)
    requires k <= |schema.order|
    ensures var r := SchemaPass(g, schema, reg0, k).registry;
            (forall n :: n in r.entries <==> n in reg0.entries || n in EnumNames(schema, k)) &&
            (forall n :: n in EnumNames(schema, k) ==> r.entries[n] == g.enumClass(n, schema.decls[n])) &&
            (forall n :: n in reg0.entries && n !in EnumNames(schema, k) ==> r.entries[n] == reg0.entries[n])
  {
    if k > 0 {
      PassRegistry(g, schema, reg0, k - 1);
      PassRegistryStep(g, schema, reg0, k);
    }
  }

  /**
    When the schema names each type once, the pass appends to the registry's
    keys exactly the schema's enums that were not registered yet, in schema order.
   */
  lemma {:induction false} PassKeys(g: Generators, schema: Schema, reg0: Registry, k: nat)
    requires schema.Valid() && k <= |schema.order|
    ensures SchemaPass(g, schema, reg0, k).registry.keys == reg0.keys + FreshEnumNames(schema, reg0, k)
  {
    if k > 0 {
      PassKeys(g, schema, reg0, k - 1);
      KeysStep(g, schema, reg0, k);
      var n := schema.order[k - 1];
      if IsEnumEntry(schema, n) && n !in reg0.entries {
        var added := FreshEnumNames(schema, reg0, k - 1);
        assert reg0.keys + added + [n] == reg0.keys + (added + [n]);
      }
    }
  }

  /** One step of `PassKeys`: the keys grow by the entry's name exactly when it is an enum new to the registry. */
  lemma KeysStep(g: Generators, schema: Schema, reg0: Registry, k: nat)
    requires schema.Valid() && 0 < k <= |schema.order|
    ensures var n := schema.order[k - 1];
            var before := SchemaPass(g, schema, reg0, k - 1).registry.keys;
            SchemaPass(g, schema, reg0, k).registry.keys ==
              if IsEnumEntry(schema, n) && n !in reg0.entries then before + [n] else before
  {
    PassRegistryStep(g, schema, reg0, k);
    RegisteredBefore(g, schema, reg0, k - 1);
  }

  /**
    When the schema names each type once, the next entry is registered when
    the pass reaches it exactly when it was registered before the pass.
   */
  lemma RegisteredBefore(g: Generators, schema: Schema, reg0: Registry, k: nat)
    requires schema.Valid() && k < |schema.order|
    ensures schema.order[k] in SchemaPass(g, schema, reg0, k).registry.entries <==> schema.order[k] in reg0.entries
  {
    PassRegistry(g, schema, reg0, k);
    assert schema.order[k] !in schema.order[..k];
  }

  lemma {:induction false} EnumNamesComplete(schema: Schema, i: nat, k: nat)
    requires i < k <= |schema.order| && IsEnumEntry(schema, schema.order[i])
    ensures schema.order[i] in EnumNames(schema, k)
  {
    if i < k - 1 {
      EnumNamesComplete(schema, i, k - 1);
    }
  }

  /**
    The shape of one run, in size: one artifact per selected entry, one per
    registry entry after the pass, and the helper file.
   */
  lemma GenerateLength(g: Generators, schema: Schema, reg0: Registry)
    requires reg0.Valid()
    ensures |GenerateSpec(g, schema, reg0)| ==
              CountSelected(g, schema, |schema.order|) + |FinalRegistry(g, schema, reg0).keys| + 1
  {
    PassCount(g, schema, reg0, |schema.order|);
    GenerateSplit(g, schema, reg0);
  }

  /**
    The run begins with the selected entries' artifacts in schema order, each
    generated from the registry as it stood when the pass reached its entry.
   */
  lemma ClassesComeFirst(g: Generators, schema: Schema, reg0: Registry, i: nat)
    requires reg0.Valid() && i < |schema.order| && SelectedEntry(g, schema, schema.order[i])
    ensures CountSelected(g, schema, i) < CountSelected(g, schema, |schema.order|)
    ensures CountSelected(g, schema, i) < |GenerateSpec(g, schema, reg0)|
    ensures GenerateSpec(g, schema, reg0)[CountSelected(g, schema, i)] ==
              ClassArtifact(ClassOutputFor(g, schema.order[i], schema.decls[schema.order[i]],
                                           SchemaPass(g, schema, reg0, i).registry))
  {
    var k := |schema.order|;
    PassCount(g, schema, reg0, k);
    PassArtifactAt(g, schema, reg0, i, k);
    GenerateSplit(g, schema, reg0);
  }

  /**
    After every class artifact come the registry's entries in insertion
    order, so no enum precedes any byte type or struct, wherever it is declared.
   */
  lemma EnumsFollowClasses(g: Generators, schema: Schema, reg0: Registry, j: nat)
    requires reg0.Valid() && j < |FinalRegistry(g, schema, reg0).keys|
    ensures CountSelected(g, schema, |schema.order|) + j < |GenerateSpec(g, schema, reg0)|
    ensures var r := FinalRegistry(g, schema, reg0);
            GenerateSpec(g, schema, reg0)[CountSelected(g, schema, |schema.order|) + j] ==
              EnumArtifact(r.entries[r.keys[j]])
  {
    PassCount(g, schema, reg0, |schema.order|);
    GenerateSplit(g, schema, reg0);
  }

  /** The helper file comes exactly once, last. */
  lemma HelperComesLast(g: Generators, schema: Schema, reg0: Registry)
    requires reg0.Valid()
    ensures var out := GenerateSpec(g, schema, reg0);
            |out| > 0 && out[|out| - 1] == Artifact(g.staticClass("GeneratorUtils"), "GeneratorUtils")
  {
    GenerateSplit(g, schema, reg0);
  }

  lemma GenerateSplit(g: Generators, schema: Schema, reg0: Registry)
    requires reg0.Valid()
    ensures var pass := SchemaPass(g, schema, reg0, |schema.order|);
            GenerateSpec(g, schema, reg0) ==
              pass.artifacts + EnumArtifacts(pass.registry, |pass.registry.keys|) +
              [Artifact(g.staticClass("GeneratorUtils"), "GeneratorUtils")]
  {
    assert HelperArtifacts(g, |HelperFiles|) == [Artifact(g.staticClass("GeneratorUtils"), "GeneratorUtils")];
  }

  /**
    Generating again with the registry a run left behind leaves that registry
    as it was: a second run registers the same enums, with the same
    generators, in the same places.
   */
  lemma RerunKeepsRegistry(g: Generators, schema: Schema, reg0: Registry)
    ensures FinalRegistry(g, schema, FinalRegistry(g, schema, reg0)) == FinalRegistry(g, schema, reg0)
  {
    PassRegistry(g, schema, reg0, |schema.order|);
    RerunStable(g, schema, FinalRegistry(g, schema, reg0), |schema.order|);
  }

  /** A registry that already holds every enum of the schema, each under its own generator, is a fixed point of the pass. */
  lemma {:induction false} RerunStable(g: Generators, schema: Schema, r1: Registry, k: nat)
    requires k <= |schema.order|
    requires forall n :: n in EnumNames(schema, |schema.order|) ==>
               n in r1.entries && r1.entries[n] == g.enumClass(n, schema.decls[n])
    ensures SchemaPass(g, schema, r1, k).registry == r1
  {
    if k > 0 {
      RerunStable(g, schema, r1, k - 1);
      PassRegistryStep(g, schema, r1, k);
      var n := schema.order[k - 1];
      if IsEnumEntry(schema, n) {
        EnumNamesComplete(schema, k - 1, |schema.order|);
        ReRegister(r1, n, g.enumClass(n, schema.decls[n]));
      }
    }
  }

  /** Registering a name again under the generator it already has changes nothing. */
  lemma ReRegister(r: Registry, name: string, gen: EnumOutput)
    requires name in r.entries && r.entries[name] == gen
    ensures Register(r, name, gen) == r
  {
    assert r.entries[name := gen] == r.entries;
  }

  // ---------------------------------------------------------------------------
  // The imperative driver

  /** The class-level `enum_class_list`: one registry shared by every generator instance. */
  class EnumRegistry {
    var keys: seq<string>
    var entries: map<string, EnumOutput>

    ghost predicate Valid()
      reads this
    {
      State().Valid()
    }

    function State(): Registry
      reads this
    {
      Registry(keys, entries)
    }

    constructor ()
      ensures Valid() && State() == Registry([], map[])
    {
      keys, entries := [], map[];
    }

    method Put(name: string, gen: EnumOutput)
      requires Valid()
      modifies this
      ensures Valid() && State() == Register(old(State()), name, gen)
    {
      if name !in entries {
        keys := keys + [name];
      }
      entries := entries[name := gen];
    }
  }

  class TypescriptFileGenerator {
    const schema: Schema
    /** The lines of the configured copyright file, when that file exists. */
    const copyright: Option<seq<string>>
    const generators: Generators
    const enumClassList: EnumRegistry
    var code: seq<string>

    constructor (schema: Schema, copyright: Option<seq<string>>, generators: Generators, enumClassList: EnumRegistry)
      ensures this.schema == schema && this.copyright == copyright
      ensures this.generators == generators && this.enumClassList == enumClassList
      ensures code == []
    {
      this.schema := schema;
      this.copyright := copyright;
      this.generators := generators;
      this.enumClassList := enumClassList;
      code := [];
    }

    /** Loads the copyright header, each line stripped. */
    method AddCopyright()
      modifies this`code
      ensures copyright.None? ==> code == old(code)
      ensures copyright.Some? ==>
                |code| == |copyright.value| &&
                forall i :: 0 <= i < |code| ==> code[i] == HelperStrings.Strip(copyright.value[i])
    {
      if copyright.Some? {
        var lines := copyright.value;
        code := seq(|lines|, i requires 0 <= i < |lines| => HelperStrings.Strip(lines[i]));
      }
    }

    /** Loads the header and then clears the buffer, so the header never reaches a file. */
    method InitializeClass()
      modifies this`code
      ensures code == []
    {
      AddCopyright();
      code := [];
    }

    method SetImport()
      modifies this`code
      ensures code == old(code) + [""]
    {
      code := code + [""];
    }

    /** Appends a class's imports, a blank line and the class itself. */
    method UpdateCode(generated: ClassOutput)
      modifies this`code
      ensures code == old(code) + ImportLines(generated.imports) + [""] + generated.lines
    {
      var imports := generated.imports;
      var k := 0;
      while k < |imports|
        invariant 0 <= k <= |imports|
        invariant code == old(code) + ImportLines(imports[..k])
      {
        assert ImportLines(imports[..k + 1]) == ImportLines(imports[..k]) + [ImportLine(imports[k])];
        code := code + [ImportLine(imports[k])];
        k := k + 1;
      }
      assert imports[..k] == imports;
      code := code + [""] + generated.lines;
    }

    /** `generate`: the schema pass, the deferred enums, then the helper files. */
    method Generate() returns (out: seq<Artifact>)
      requires schema.Valid() && enumClassList.Valid()
      modifies this`code, enumClassList
      ensures enumClassList.Valid()
      ensures out == GenerateSpec(generators, schema, old(enumClassList.State()))
      ensures enumClassList.State() == FinalRegistry(generators, schema, old(enumClassList.State()))
    {
      var classes := GenerateSchemaEntries();
      var enums := GenerateRegisteredEnums();
      var helpers := GenerateHelperFiles();
      out := classes + enums + helpers;
    }

    /** The first loop of `generate`: byte types and selected structs at once, enums into the registry. */
    method GenerateSchemaEntries() returns (out: seq<Artifact>)
      requires schema.Valid() && enumClassList.Valid()
      modifies this`code, enumClassList
      ensures enumClassList.Valid()
      ensures PassState(out, enumClassList.State()) ==
                SchemaPass(generators, schema, old(enumClassList.State()), |schema.order|)
    {
      ghost var reg0 := enumClassList.State();
      out := [];
      var i := 0;
      while i < |schema.order|
        invariant 0 <= i <= |schema.order|
        invariant enumClassList.Valid()
        invariant PassState(out, enumClassList.State()) == SchemaPass(generators, schema, reg0, i)
      {
        assert schema.order[i] in schema.order;
        var emitted := GenerateEntry(schema.order[i], out);
        out := out + emitted;
        i := i + 1;
      }
    }

    /** The body of the first loop for one schema entry; `prior` is what the loop emitted so far. */
    method GenerateEntry(typeDescriptor: string, ghost prior: seq<Artifact>) returns (emitted: seq<Artifact>)
      requires typeDescriptor in schema.decls && enumClassList.Valid()
      modifies this`code, enumClassList
      ensures enumClassList.Valid()
      ensures PassState(prior + emitted, enumClassList.State()) ==
                Step(generators, schema, PassState(prior, old(enumClassList.State())), typeDescriptor)
    {
      var value := schema.decls[typeDescriptor];
      InitializeClass();
      SetImport();
      emitted := [];
      if Helpers.IsByteType(value.typ) {
        var newClass := generators.defineType(typeDescriptor, value, enumClassList.State());
        UpdateCode(newClass);
        assert Artifact(code, newClass.name) == ClassArtifact(newClass);
        emitted := [Artifact(code, newClass.name)];
      } else if Helpers.IsEnumType(value.typ) {
        enumClassList.Put(typeDescriptor, generators.enumClass(typeDescriptor, value));
      } else if Helpers.IsStructType(value.typ) {
        if generators.shouldGenerate(typeDescriptor) {
          var newClass := generators.structClass(typeDescriptor, value, enumClassList.State());
          UpdateCode(newClass);
          assert Artifact(code, newClass.name) == ClassArtifact(newClass);
          emitted := [Artifact(code, newClass.name)];
        }
      }
      assert prior + [] == prior;
    }

    /** The second loop of `generate`: one file per registry entry, in insertion order. */
    method GenerateRegisteredEnums() returns (out: seq<Artifact>)
      requires enumClassList.Valid()
      modifies this`code
      ensures out == EnumArtifacts(enumClassList.State(), |enumClassList.keys|)
    {
      out := [];
      var j := 0;
      while j < |enumClassList.keys|
        invariant 0 <= j <= |enumClassList.keys|
        invariant out == EnumArtifacts(enumClassList.State(), j)
      {
        InitializeClass();
        SetImport();
        assert enumClassList.keys[j] in enumClassList.keys;
        var enumClass := enumClassList.entries[enumClassList.keys[j]];
        code := code + [""] + enumClass.lines;
        assert Artifact(code, enumClass.name) == EnumArtifact(enumClass);
        out := out + [Artifact(code, enumClass.name)];
        j := j + 1;
      }
    }

    /** The last loop of `generate`: the static helper files. */
    method GenerateHelperFiles() returns (out: seq<Artifact>)
      modifies this`code
      ensures out == HelperArtifacts(generators, |HelperFiles|)
    {
      out := [];
      var h := 0;
      while h < |HelperFiles|
        invariant 0 <= h <= |HelperFiles|
        invariant out == HelperArtifacts(generators, h)
      {
        var filename := HelperFiles[h];
        InitializeClass();
        code := code + generators.staticClass(filename);
        assert Artifact(code, filename) == HelperArtifact(generators, filename);
        out := out + [Artifact(code, filename)];
        h := h + 1;
      }
    }

    /**
      `__iter__` followed by `__next__` until the run is exhausted: every
      artifact of the run, in order, as a descriptor named after it.
     */
    method Descriptors() returns (ds: seq<Descriptor>)
      requires schema.Valid() && enumClassList.Valid()
      modifies this`code, enumClassList
      ensures enumClassList.Valid()
      ensures ds == Describe(GenerateSpec(generators, schema, old(enumClassList.State())))
      ensures enumClassList.State() == FinalRegistry(generators, schema, old(enumClassList.State()))
      ensures code == []
    {
      var arts := Generate();
      ghost var registryAfter := enumClassList.State();
      ds := [];
      code := [];
      var i := 0;
      while i < |arts|
        invariant 0 <= i <= |arts|
        invariant enumClassList.Valid() && enumClassList.State() == registryAfter
        invariant ds == Describe(arts[..i]) && code == []
      {
        code := [];
        assert arts[..i + 1][..i] == arts[..i];
        ds := ds + [Descriptor(arts[i].name + ".ts", arts[i].code)];
        i := i + 1;
      }
      assert arts[..i] == arts;
    }
  }
}
