# A Dafny model of the catbuffer TypeScript generator core

catbuffer-generators turns a schema of binary wire-format types (byte
fields, structs, enums, flag sets, buffers, count-prefixed arrays and inline
compositions) into serializer classes. This project models the TypeScript
back end's core in Dafny 4.11:

- **`Helpers` and `HelperStrings`** (`helpers.dfy`, `helper_strings.dfy`)
  model `generators/typescript/Helpers.py`, which is pure code. It covers the
  first-match decision table giving each attribute its `AttributeKind`. It
  covers the size resolver and the size-provider search through inline
  sub-layouts. It covers the mapping from kinds and sizes to TypeScript type
  names and read/write/convert method templates, and the string helpers.
  Python's dictionary misses and `s[0]` on an empty string are modelled as
  `Result` failures (`KeyError`, `IndexError`), not as preconditions.
- **`GeneratorUtils`** (`generator_utils.dfy`) models
  `generators/typescript/GeneratorUtils.ts`, the byte-conversion runtime that
  every generated class imports. The pure helpers are functions. The helpers
  that write into a fresh buffer or reverse their argument in place are
  methods over `array<byte>`. Every exception is a `Failure`.
- **`FileGeneration`** (`file_generator.dfy`) models
  `generators/typescript/TypescriptFileGenerator.py`, which is imperative
  code. The class-level `enum_class_list` dictionary is an `EnumRegistry`
  object that the caller passes to every generator instance (in Python it is
  a class attribute, so all instances share it). `TypescriptFileGenerator` is
  a class with a `code` buffer. Its `Generate` method runs the three loops of
  `generate` and is proved equal to `GenerateSpec`, a pure definition of the
  emission order. The ordering lemmas are stated about `GenerateSpec`. The
  per-type generators are opaque function parameters (`Generators`).
- `schema_model.dfy` holds the schema data model and the error values.
  `wrappers.dfy` holds `Option` and `Result`.

The size-provider search (`generators/typescript/Helpers.py:105-114`) is a
depth-first pre-order walk: it compares one attribute, then searches that
attribute's inline sub-layout, and only then moves to the next sibling. A
match nested in an earlier inline attribute therefore wins over a direct match
in a later sibling, as `Helpers.NestedMatchPrecedesLaterSibling` shows on a
concrete schema. The walk stops with a KeyError at the first inline attribute
whose type is undeclared or has no layout, unless an earlier attribute
matched. When nothing matches, the search gives `None`, and so does
`get_attribute_if_size`: a field without a size provider is not an error
there. A named size that ends in neither `Size` nor `Count` makes the
attribute a BUFFER.

The search's recursion is guarded by the set of structs being searched on
the current call path. Re-entering one of them would make Python repeat the
same call until it raises `RecursionError`, and the model reports
`RecursionError` at that point.

Because the registry is shared between instances, a second run starts from
the registry the first run left. `FileGeneration.RerunKeepsRegistry` shows
the registry itself is then unchanged. The class artifacts of the second run
can still differ from the first run's, because the class generators are
handed the registry, which already holds every enum from the start of the
second run.

## Model

| member | source | states |
|---|---|---|
| Helpers.GetGeneratedClassName | generators/typescript/Helpers.py:28-33 | The name is `typename + "Builder"` exactly when the class type is neither byte nor enum and the schema declares `typename` as a struct; otherwise it is `typename + "Dto"`. |
| Helpers.IsStructType | generators/typescript/Helpers.py:15-16 | True exactly for the type name `struct`. A one-line predicate with no contract of its own. |
| Helpers.IsEnumType | generators/typescript/Helpers.py:19-20 | True exactly for the type name `enum`. A one-line predicate with no contract of its own. |
| Helpers.IsByteType | generators/typescript/Helpers.py:23-24 | True exactly for the type name `byte`. A one-line predicate with no contract of its own. |
| Helpers.IsFlagsEnum | generators/typescript/Helpers.py:61-62 | True exactly for a name ending in `Flags`. A one-line predicate with no contract of its own; `GetAttributeKind` states its role. |
| Helpers.IsBuiltinType | generators/typescript/Helpers.py:36-38 | True exactly for a byte type with a numeric size up to 8. It has no contract of its own; `GetAttributeKind` and `GetDefaultValue` state its role. |
| Helpers.GetAttributeSize | generators/typescript/Helpers.py:52-58 | An explicit size is returned verbatim. Without one, a non-byte, non-enum attribute takes the referenced declaration's size, or 1. An undeclared type raises KeyError on the type name. A byte or enum attribute without a size raises KeyError on `size`. |
| Helpers.GetAttributeKind | generators/typescript/Helpers.py:61-88 | For every kind, the exact condition under which an attribute receives it. A `Flags` suffix wins over everything. CUSTOM (struct, or no size) comes before ENUM. Named sizes ending in `Size` are BUFFER and those ending in `Count` are ARRAY. SIMPLE holds exactly for byte with a numeric size up to 8. Every other case is BUFFER. UNKNOWN is never returned. |
| Helpers.PropertyEqualIn | generators/typescript/Helpers.py:105-114 | A returned attribute has the property equal to the value. `None` means no direct attribute matches. When no direct attribute matches and no attribute is searched inline, the result is `None`. |
| Helpers.GetAttributePropertyEqual | generators/typescript/Helpers.py:105-114 | Any attribute found matches, and a matching first attribute is returned at once, before any recursion. The result is exactly the outcome of the pre-order walk: its first match; otherwise the KeyError or RecursionError that stopped it; otherwise `None`. |
| Helpers.GetAttributeIfSize | generators/typescript/Helpers.py:100-102 | Gives the provider's `name` when the search finds an attribute whose size names the field. Gives `None` when the search finds nothing. Search errors pass through, and a nameless provider raises KeyError on `name`. |
| Helpers.SearchFindsFirstCandidate | generators/typescript/Helpers.py:105-114 | For every schema and attribute list, the search returns the first match of the pre-order walk (each attribute, then its inline sub-layout, then its later siblings). With no match on the walk, it raises the failure of the first inline attribute whose layout cannot be entered (undeclared type, no `layout`, or a struct re-entered on the call path), or returns `None` when the walk completes. |
| Helpers.NestedMatchPrecedesLaterSibling | generators/typescript/Helpers.py:106-113 | On a concrete schema, a provider nested in an inline first attribute is returned instead of a direct provider in the second attribute. |
| Helpers.UnresolvedInlineStopsSearch | generators/typescript/Helpers.py:106-113 | On concrete lists, a match before an inline attribute of an undeclared type is returned, while a match after it is never reached and the search raises KeyError on that type. |
| Helpers.GetBuiltinType | generators/typescript/Helpers.py:117-120 | Defined exactly for numeric sizes 1, 2, 4 and 8 (`number`, or `number[]` for 8). Any other size raises KeyError on that size. |
| Helpers.GetReadMethodName | generators/typescript/Helpers.py:123-132 | Gives `readFully` for named sizes and sizes above 8. Otherwise it is defined exactly for 1, 2, 4 and 8: `uint64ToBuffer` for 8, `uintToBuffer` for the rest. |
| Helpers.GetReverseMethodName | generators/typescript/Helpers.py:135-140 | The identity template `{0}` exactly for named sizes, sizes above 8 and size 1; `{0}.reverse()` otherwise. |
| Helpers.GetWriteMethodName | generators/typescript/Helpers.py:143-152 | Gives `write` for named sizes and sizes above 8. Otherwise it is defined exactly for 1, 2, 4 and 8, with `writeByte` for 1, `writeShort` for 2, `writeInt` for 4 and `writeLong` for 8. |
| Helpers.GetByteConvertMethodName | generators/typescript/Helpers.py:154-163 | Gives the empty template for named sizes and sizes above 8. Otherwise it is defined exactly for 1, 2, 4 and 8: `bufferToUint64` for 8, `bufferToUint` for the rest. |
| Helpers.ScalarWidthHelpersAgree | generators/typescript/Helpers.py:117-163 | For numeric sizes up to 8, the four size-indexed helpers succeed on exactly the same sizes. |
| Helpers.GetGeneratedType | generators/typescript/Helpers.py:165-181 | SIMPLE gives the built-in type of the size, and BUFFER gives `Uint8Array`. ARRAY gives the class name (or `byte`) followed by `[]`. FLAGS, CUSTOM and ENUM give the class name (or `byte`). |
| Helpers.GetDefaultValue | generators/typescript/Helpers.py:225-229 | `"0"` exactly when the attribute is byte with a numeric size up to 8, `"null"` otherwise. |
| Helpers.EightByteFieldIsWordPair | generators/typescript/Helpers.py:165-169 | An eight-byte byte field is SIMPLE and its generated type is `number[]`. |
| HelperStrings.Underscored | generators/typescript/Helpers.py:221 | The comprehension adds one character per upper-case letter, and adds nothing but underscores. |
| HelperStrings.UnderscoredPlacement | generators/typescript/Helpers.py:221 | Character `s[i]` lands at position `i` plus the number of upper-case letters in `s[..i+1]`, and an upper-case `s[i]` has an underscore right before it. With the length, this fixes every character of the result. |
| HelperStrings.CreateEnumName | generators/typescript/Helpers.py:220-222 | IndexError exactly for the empty name. Otherwise the result starts with the first letter upper-cased, contains no lower-case letter, and has one extra character per upper-case letter after the first. Character `i` of the name's tail, upper-cased, sits at one past its position in `Underscored(tail)`, and each upper-case letter after the first has `_` right before it. |
| HelperStrings.EnumNameKeepsLetters | generators/typescript/Helpers.py:220-222 | With underscores erased, the enum name is the upper-cased input, letter for letter. |
| HelperStrings.Spaced | generators/typescript/Helpers.py:199 | The comprehension adds one character per upper-case letter and leaves no upper-case letter. |
| HelperStrings.SpacedPlacement | generators/typescript/Helpers.py:199 | Character `s[i]`, lower-cased, lands at position `i` plus the number of upper-case letters in `s[..i+1]`, and an upper-case `s[i]` has a space right before it. With the length, this fixes every character of the result. |
| HelperStrings.GetCommentFromName | generators/typescript/Helpers.py:198-199 | IndexError exactly for the empty name. Otherwise the first letter is capitalised, no later character is upper-case, and the result has one extra character per later capital. Character `i` of the name's tail, lower-cased, sits at one past its position in `Spaced(tail)`, and each later capital has a space right before it. |
| HelperStrings.CommentKeepsLetters | generators/typescript/Helpers.py:198-199 | With spaces erased, the comment's tail is the name's tail in lower case. |
| HelperStrings.AppendPeriodIfNeeded | generators/typescript/Helpers.py:194-195 | The result always ends in `.`. It equals the input exactly when the input already ends in `.`, and otherwise is the input plus `.`. |
| HelperStrings.AppendPeriodIdempotent | generators/typescript/Helpers.py:194-195 | Appending a period twice is the same as appending it once. |
| HelperStrings.FormatDescription | generators/typescript/Helpers.py:202-204 | IndexError exactly for the empty description. Otherwise the first letter is capitalised and the rest is kept. The result ends in `.`, and is one character longer exactly when the description did not already end in `.`. |
| HelperStrings.GetCommentsIfPresent | generators/typescript/Helpers.py:207-210 | `None` exactly for the empty comment. Otherwise `/** `, then the formatted description, then ` */`. |
| HelperStrings.Strip | generators/typescript/Helpers.py:214 | The result is a slice of the input with only white space outside it, and it neither starts nor ends with white space. |
| HelperStrings.GetCommentsFromAttribute | generators/typescript/Helpers.py:213-217 | Non-empty stripped comments are used as they are, formatted when asked. Blank comments with a non-empty name use the comment derived from the name, formatted when asked. Blank comments without a name give nothing when formatted and the empty text otherwise. The only failure is IndexError, exactly when the comments are blank and the name is empty. |
| HelperStrings.Indent | generators/typescript/Helpers.py:96-97 | Four spaces per level (none for a count of zero or less), followed by the code unchanged. |
| HelperStrings.GetImportForType | generators/typescript/Helpers.py:184-191 | An import exactly when the part before `<` is `ArrayList` or `EnumSet`, and then it is `java.util.` plus that name. |
| HelperStrings.GetClassTypeFromName | generators/typescript/Helpers.py:232-233 | The type name followed by `.ts`. |
| HelperStrings.FormatImport | generators/typescript/Helpers.py:235-236 | No contract of its own. `FormatImportPlain` and `FormatImportArray` state its result for a bracket-free type `T` and for `T[]`. |
| HelperStrings.FormatImportPlain | generators/typescript/Helpers.py:235-236 | A type without brackets is imported as `{ T } from './T'`. |
| HelperStrings.FormatImportArray | generators/typescript/Helpers.py:235-236 | An array type `T[]` is imported as its element type `T`. |
| GeneratorUtils.DecodeEncode | generators/typescript/GeneratorUtils.ts:35-70 | Little-endian decoding inverts encoding for every value that fits the width. |
| GeneratorUtils.EncodeDecode | generators/typescript/GeneratorUtils.ts:35-70 | Little-endian encoding inverts decoding for every byte sequence. |
| GeneratorUtils.UintToBuffer | generators/typescript/GeneratorUtils.ts:35-51 | Succeeds exactly for widths 1, 2 and 4, with a fresh array holding the little-endian bytes of the value modulo 2^(8n). A negative width fails as an invalid array length, and any other width as an unexpected buffer size. |
| GeneratorUtils.BufferToUint | generators/typescript/GeneratorUtils.ts:58-70 | Succeeds exactly for 1-, 2- and 4-byte buffers, with the value below 2^(8n) whose little-endian encoding is the buffer. Other lengths raise the buffer-size error. |
| GeneratorUtils.UintBufferRoundTrip | generators/typescript/GeneratorUtils.ts:35-70 | Decoding what `uintToBuffer` wrote gives back every value below 2^(8n). |
| GeneratorUtils.ReadUint32At | generators/typescript/GeneratorUtils.ts:25-27 | The result is below 2^32. With four bytes available it equals `b[i] + 2^8 b[i+1] + 2^16 b[i+2] + 2^24 b[i+3]`. With `b[i]` missing it is 0. |
| GeneratorUtils.Uint64Words | generators/typescript/GeneratorUtils.ts:15-16 | Two words below 2^32, low word first, which together make the value of the reversed bytes. |
| GeneratorUtils.Reverse | generators/typescript/GeneratorUtils.ts:15 | The array afterwards holds its old contents in reverse. |
| GeneratorUtils.BufferToUint64 | generators/typescript/GeneratorUtils.ts:11-17 | Fails exactly when the length is not 8, and then leaves the input unchanged. Otherwise it reverses the input in place and returns the two words of the original bytes. |
| GeneratorUtils.Uint64ToBuffer | generators/typescript/GeneratorUtils.ts:77-80 | Four bytes per word. The bytes at `4i..4i+4` are the little-endian encoding of word `i` after JavaScript's ToUint32, so out-of-range words wrap modulo 2^32. |
| GeneratorUtils.Uint64RoundTrip | generators/typescript/GeneratorUtils.ts:77-80 | Reading back, with `bufferToUint64`, the reversed bytes written by `uint64ToBuffer` returns the original two words. |
| GeneratorUtils.SetFrom | generators/typescript/GeneratorUtils.ts:90-91 | The source is copied at the offset, and the target's bytes before and after it are kept. |
| GeneratorUtils.ConcatTypedArrays | generators/typescript/GeneratorUtils.ts:88-93 | A fresh array holding the first array followed by the second. |
| GeneratorUtils.ToInt32 | generators/typescript/GeneratorUtils.ts:104 | JavaScript's signed 32-bit conversion: in range, and congruent to the input modulo 2^32. |
| GeneratorUtils.LowByteShift | generators/typescript/GeneratorUtils.ts:104 | `x << 24` keeps exactly the low byte of `x`, as the top byte of a signed word. |
| GeneratorUtils.Uint8ToInt8 | generators/typescript/GeneratorUtils.ts:100-105 | Fails exactly above 0xFF. Otherwise the result is in [-128, 128) with the same low byte as the input: `x` below 128, and `x - 256` for 128..255. |
| GeneratorUtils.GetBytes | generators/typescript/GeneratorUtils.ts:113-119 | RangeError exactly when the size exceeds the length. Otherwise the result is the first `size` bytes. A negative size counts back from the end, as `slice` does. |
| FileGeneration.Register | generators/typescript/TypescriptFileGenerator.py:60 | Keeps the registry well formed: a re-registered name is overwritten in place, never duplicated. The new generator is stored, other entries are kept, and the old key order is a prefix of the new one. |
| FileGeneration.Step | generators/typescript/TypescriptFileGenerator.py:51-66 | One entry of the pass keeps the registry well formed and only appends to the artifacts: one artifact exactly for a byte entry or a selected struct, none otherwise. Only an enum entry changes the registry. |
| FileGeneration.SchemaPass | generators/typescript/TypescriptFileGenerator.py:50-66 | The schema pass keeps the registry well formed. |
| FileGeneration.EnumArtifacts | generators/typescript/TypescriptFileGenerator.py:69-73 | One artifact per registry entry, in insertion order. |
| FileGeneration.Describe | generators/typescript/TypescriptFileGenerator.py:22-25 | Every descriptor carries its artifact's code and the name plus `.ts`. |
| FileGeneration.GenerateSpec | generators/typescript/TypescriptFileGenerator.py:49-81 | The reference definition of a run, with no contract of its own: the schema pass's artifacts, then one artifact per registry key in insertion order, then the `GeneratorUtils` file. The ordering lemmas below are stated about it. |
| FileGeneration.PassCount | generators/typescript/TypescriptFileGenerator.py:55-66 | The pass emits exactly one artifact per byte entry and per selected struct. Enums and entries of other types emit nothing. |
| FileGeneration.PassExtends | generators/typescript/TypescriptFileGenerator.py:50-66 | Later entries only append to what earlier entries emitted. |
| FileGeneration.PassArtifactAt | generators/typescript/TypescriptFileGenerator.py:55-66 | A selected entry's artifact sits at its rank among the selected entries. It is generated from the registry as it stood when the pass reached that entry. |
| FileGeneration.PassRegistryStep | generators/typescript/TypescriptFileGenerator.py:59-60 | Only enum entries change the registry, each by registering its own generator. |
| FileGeneration.PassKeepsOrder | generators/typescript/TypescriptFileGenerator.py:59-60 | Names registered before the pass keep their places. |
| FileGeneration.PassRegistry | generators/typescript/TypescriptFileGenerator.py:59-60 | After the pass, the registry holds the earlier names and the schema's enums, and nothing else. Each schema enum has its own generator. Earlier entries the schema does not redeclare keep theirs. |
| FileGeneration.PassKeys | generators/typescript/TypescriptFileGenerator.py:59-60 | When the schema names each type once, the pass appends exactly the schema's not-yet-registered enums to the key order, in schema order. |
| FileGeneration.GenerateLength | generators/typescript/TypescriptFileGenerator.py:49-81 | A run emits the selected entries, then one file per registry entry, then one helper file. |
| FileGeneration.ClassesComeFirst | generators/typescript/TypescriptFileGenerator.py:55-66 | Byte and selected struct artifacts open the run, in schema order. |
| FileGeneration.EnumsFollowClasses | generators/typescript/TypescriptFileGenerator.py:68-73 | Every registry enum comes after all byte and struct artifacts, in insertion order. |
| FileGeneration.HelperComesLast | generators/typescript/TypescriptFileGenerator.py:75-81 | The last artifact is `GeneratorUtils`. |
| FileGeneration.GenerateSplit | generators/typescript/TypescriptFileGenerator.py:49-81 | The run is the pass's artifacts, then the registry's, then exactly one `GeneratorUtils` artifact. |
| FileGeneration.RerunKeepsRegistry | generators/typescript/TypescriptFileGenerator.py:59-60 | Running again on the registry a run left behind leaves that registry unchanged. |
| FileGeneration.RerunStable | generators/typescript/TypescriptFileGenerator.py:59-60 | A registry that already holds every enum of the schema, each under its own generator, comes out of the pass unchanged. |
| FileGeneration.ReRegister | generators/typescript/TypescriptFileGenerator.py:60 | Registering a name again under the generator it already has leaves the registry as it was. |
| FileGeneration.EnumRegistry.constructor | generators/typescript/TypescriptFileGenerator.py:13 | The registry starts empty and well formed. |
| FileGeneration.EnumRegistry.Put | generators/typescript/TypescriptFileGenerator.py:60 | Assigning into the registry is `Register` on its contents, and it keeps the registry well formed. |
| FileGeneration.TypescriptFileGenerator.constructor | generators/typescript/TypescriptFileGenerator.py:15-20 | Stores the schema and options and starts with an empty code buffer. |
| FileGeneration.TypescriptFileGenerator.AddCopyright | generators/typescript/TypescriptFileGenerator.py:37-40 | With a header, the buffer becomes its stripped lines; without one, the buffer is unchanged. |
| FileGeneration.TypescriptFileGenerator.InitializeClass | generators/typescript/TypescriptFileGenerator.py:45-47 | The buffer is empty afterwards, so neither the header nor an earlier file's lines remain. |
| FileGeneration.TypescriptFileGenerator.SetImport | generators/typescript/TypescriptFileGenerator.py:42-43 | Appends one blank line. |
| FileGeneration.TypescriptFileGenerator.UpdateCode | generators/typescript/TypescriptFileGenerator.py:31-35 | Appends one `import X;` line per required import, then a blank line, then the class. |
| FileGeneration.TypescriptFileGenerator.Generate | generators/typescript/TypescriptFileGenerator.py:49-81 | Emits exactly `GenerateSpec` from the registry it starts with, whatever the copyright header. It leaves the registry as the pass defines it. |
| FileGeneration.TypescriptFileGenerator.GenerateSchemaEntries | generators/typescript/TypescriptFileGenerator.py:50-66 | The first loop's output and registry are the schema pass over all entries. |
| FileGeneration.TypescriptFileGenerator.GenerateEntry | generators/typescript/TypescriptFileGenerator.py:51-66 | One entry's artifacts and registry change are one step of the pass. |
| FileGeneration.TypescriptFileGenerator.GenerateRegisteredEnums | generators/typescript/TypescriptFileGenerator.py:69-73 | One artifact per registry entry, in insertion order: two blank lines, then the enum. |
| FileGeneration.TypescriptFileGenerator.GenerateHelperFiles | generators/typescript/TypescriptFileGenerator.py:76-81 | The `GeneratorUtils` artifact holds the static class's code alone. |
| FileGeneration.TypescriptFileGenerator.Descriptors | generators/typescript/TypescriptFileGenerator.py:22-28 | Iterating to the end yields the run's artifacts in order, named `name + ".ts"`, and leaves the buffer empty. The shared registry is left as the pass defines it, which is where the next run starts. |

## Left out

- `generators/All.py` maps names to generator classes and has no logic; it is not part of this model.
- The per-type generators (`TypescriptClassGenerator`, `TypescriptDefineTypeClassGenerator`, `TypescriptEnumGenerator`, `TypescriptStaticClassGenerator`) and `Descriptor` are not part of this model. They are opaque functions in `Generators`, and `check_should_generate_class` is an opaque predicate. The struct generator is not handed the schema separately; the opaque function stands for all it computes.
- Reading the copyright file is I/O. Its lines (or their absence) are a constructor parameter.
- Python's lazy generator protocol is not modelled. A run is computed in full, and `Descriptors` then hands out its artifacts in order. The interleaving of `__next__` with the generator body does not change the output.
- FileGeneration.Step: an undeclared name in the schema's order is skipped. A well-formed schema never has one, and `Generate` requires a well-formed schema.
- GeneratorUtils.Uint64ToBuffer: assumes a little-endian host. `Uint32Array` uses the host's native byte order.
- JavaScript numbers are modelled as integers. Fractional values, NaN arguments and values beyond 2^53 are not modelled. The only NaN modelled is the one `readUint32At` produces from a missing first byte.
- `bufferToUint` reads `buffer.buffer` through a `DataView` starting at offset 0. The model assumes the buffer is its own backing store, which holds for every buffer the helpers create.
- GeneratorUtils.GetBytes works on the byte sequence, so the fresh copy and the unchanged input are by construction.
- Upper/lower case and white space are ASCII only. `str.isupper`, `upper`, `lower` and `strip` on other Unicode characters are not modelled.
- Helpers.PropertyEqualIn: reports `RecursionError` only when a struct is re-entered on the same call path. Python would also stop a very deep but acyclic chain of inline structs at its recursion limit.
- Helpers.PropertyEqualIn: attributes always have a `type`. A missing `type` key (a KeyError in Python) is not modelled.
- `TypeDescriptorType`, `InterfaceType` and `TypeDescriptorDisposition` are string constants, written inline as `"byte"`, `"struct"`, `"enum"` and `"inline"`.
- Helpers.PropertyEqualIn: its own contract states only that a returned attribute matches and when `None` is certain. Its full behaviour, errors included, is stated by `SearchFindsFirstCandidate` and carried into `GetAttributePropertyEqual`'s contract.
- An enum's code is fixed when the enum is registered (`Generators.enumClass`). The class generators get the registry as a read-only value, so they cannot change it or a registered enum generator. Python builds `TypescriptEnumGenerator` at `generators/typescript/TypescriptFileGenerator.py:60`, hands the live `enum_class_list` to every class generator, and calls the enum's `generate()` only at line 72. Changes to registered enums during the pass (the "dynamic values" the comment at line 68 makes room for) are not modelled. `EnumsFollowClasses` and `RerunKeepsRegistry` rely on this.
- HelperStrings.FormatImport has no contract of its own. Its behaviour is stated by `FormatImportPlain` and `FormatImportArray`.
