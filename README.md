# gRPC message source generator — a Dafny model

The generator is a C# source generator. In a compilation it finds the partial classes
marked `[GrpcMessage]` or `[GrpcService]`. For each message class it builds a
Protocol Buffers `DescriptorProto` from the class's properties and emits a partial
class of the same name in namespace `Example` with the `IMessage` members:
`CalculateSize`, `Clone`, `Equals` and `MergeFrom(other)`. For each service class it
emits an empty partial class.

This project models that core and proves its properties:

- `discovery.dfy` (module `Discovery`): the class filter of `ExtensionMethods.cs`, built from LINQ `Where`, `SelectMany` and `FirstOrDefault` over abstract syntax nodes.
- `type_mapper.dfy` (module `TypeMapper`): `GetType`, from a property's type syntax to a protobuf field type.
- `descriptor.dfy` (module `Descriptor`): the loop over the properties in `Execute`. It builds the descriptor and the per-field rules of the emitted operations.
- `wire_size.dfy` (module `WireSize`): the sizes the emitted `CalculateSize` asks Google.Protobuf for. They follow the Protocol Buffers encoding documentation ("Base 128 Varints" and "Length-delimited records") and are proved equal to the length of a varint encoder (`WireSize.RawVarint32SizeIsEncodingLength`).
- `codec.dfy` (module `Codec`): what the emitted operations compute, on message values. A value is the sequence of its field values, in descriptor order.
- `message.dfy` (module `Messages`): a generated message class. `MergeFrom` updates the fields in place and `CalculateSize` adds up the size field by field. Both are proved against `Codec`.
- `generator.dfy` (module `Generator`): the driver `Execute`. It emits one unit per message and then one per service, and stops at the first exception.
- `syntax.dfy` and `wrappers.dfy`: the abstract input (compilation, syntax nodes, attributes, properties) and `Option`/`Result`.

Some behaviours of the code worth stating up front, each followed by the model:

- No field number is assigned. The descriptor fields get only a name and a type, and `Number` is never set.
- An unsupported property type throws out of `Execute`. This ends the whole run, including later messages and all services.
- A class that carries both markers is selected as a message and as a service. Its two units share the hint name `{Name}.g.cs`, so the host's `AddSource` throws (`Generator.BothAttributesNeverComplete`).
- A property is nullable (`IsNullable`) exactly when its type is declared with `?`. The `?` then decides which values the property may hold, its default, whether its size line compiles and the null check of its merge line.

## Model

| member | source | states |
|---|---|---|
| `Discovery.ClassesWithAttribute` | GrpcSourceGenerator/ExtensionMethods.cs:13-25 | A node is selected exactly when it occurs in some syntax tree, is a class declaration, carries the attribute and is partial. The result is a subsequence of all nodes in document order. |
| `Discovery.ClassesWithAttributeMultiplicity` | GrpcSourceGenerator/ExtensionMethods.cs:16-24 | Filtering never duplicates. A selected node occurs as often as among all nodes, and any other node does not occur at all. |
| `Discovery.GetGrpcMessages` | GrpcSourceGenerator/ExtensionMethods.cs:27-30 | The message list holds exactly the partial classes that carry `[GrpcMessage]`, in document order. |
| `Discovery.GetGrpcServices` | GrpcSourceGenerator/ExtensionMethods.cs:32-35 | The service list holds exactly the partial classes that carry `[GrpcService]`, in document order. |
| `Discovery.HasAttribute` | GrpcSourceGenerator/ExtensionMethods.cs:42-54 | True exactly when some attribute in some attribute list has a written name equal to the requested name. |
| `Discovery.IsPartial` | GrpcSourceGenerator/ExtensionMethods.cs:37-40 | `Modifiers.Any` for the `partial` keyword, a first-match scan, holds exactly when `partial` is among the modifiers. |
| `Discovery.ArgumentsIgnored` | GrpcSourceGenerator/ExtensionMethods.cs:42-68 | Removing every attribute argument does not change whether a node is selected, so the name override is never read. |
| `Discovery.TextualVariantsNotSelected` | GrpcSourceGenerator/ExtensionMethods.cs:46-49 | A class whose only attribute is written `GrpcMessageAttribute` or `System.GrpcMessage` is not a message. |
| `Discovery.NonPartialOrNonClassDropped` | GrpcSourceGenerator/ExtensionMethods.cs:16-23 | A declaration that is not partial, or is not a class (struct, record, interface), is in neither list, and no error is raised. |
| `Discovery.BothAttributesInBothLists` | GrpcSourceGenerator/ExtensionMethods.cs:27-35 | A partial class with both attributes, in one attribute list or in two and with or without arguments, is in both the message list and the service list. |
| `TypeMapper.GetType` | GrpcSourceGenerator/analyzers/dotnet/cs/GrpcMessageSourceGenerator.cs:14-41 | A successful mapping is always Int32, Uint32, Double, Float or String. |
| `TypeMapper.GetTypeByTable` | GrpcSourceGenerator/analyzers/dotnet/cs/GrpcMessageSourceGenerator.cs:14-41 | The mapping equals the keyword table's entry for the type under all nullable wrappers. Otherwise it is an error naming that innermost type. |
| `TypeMapper.GetTypeIgnoresNullable` | GrpcSourceGenerator/analyzers/dotnet/cs/GrpcMessageSourceGenerator.cs:16-19 | A type wrapped as nullable at any depth maps like the unwrapped type. |
| `TypeMapper.GetTypeSupported` | GrpcSourceGenerator/analyzers/dotnet/cs/GrpcMessageSourceGenerator.cs:21-40 | Mapping succeeds exactly for `int`, `uint`, `double`, `float` and `string`, possibly wrapped as nullable. |
| `TypeMapper.UnsupportedExamples` | GrpcSourceGenerator/analyzers/dotnet/cs/GrpcMessageSourceGenerator.cs:38-40 | `bool`, `long`, a named type and an array type are errors, at any nullable depth. |
| `Descriptor.BuildMessage` | GrpcSourceGenerator/analyzers/dotnet/cs/GrpcMessageSourceGenerator.cs:50-73 | Succeeds exactly when every property type maps. The descriptor is then named after the class and has one field per property, in order, with that property's name and mapped type. Otherwise the error is that of the first unsupported property. |
| `Descriptor.DescribesUnique` | GrpcSourceGenerator/analyzers/dotnet/cs/GrpcMessageSourceGenerator.cs:53-73 | The class name and its properties determine the descriptor and the field rules. |
| `Descriptor.NoMessageFields` | GrpcSourceGenerator/analyzers/dotnet/cs/GrpcMessageSourceGenerator.cs:80-87 | No field is of Message type, so `Clone` copies every field by assignment. |
| `WireSize.RawVarint32SizeIsEncodingLength` | GrpcSourceGenerator/analyzers/dotnet/cs/GrpcMessageSourceGenerator.cs:104-110 | The uint32 size equals the length of the base 128 varint encoding. |
| `WireSize.Int32SizeIsEncodingLength` | GrpcSourceGenerator/analyzers/dotnet/cs/GrpcMessageSourceGenerator.cs:89-95 | The int32 size equals the varint length of the value, taken as 64-bit two's complement. A negative value takes 10 bytes. |
| `WireSize.StringSizeIsRecordLength` | GrpcSourceGenerator/analyzers/dotnet/cs/GrpcMessageSourceGenerator.cs:119-125 | The string size is the varint length of its UTF-8 byte count plus that count. |
| `WireSize.Utf8Length` | GrpcSourceGenerator/analyzers/dotnet/cs/GrpcMessageSourceGenerator.cs:121-125 | The UTF-8 byte count lies between 1 and 4 bytes per character. |
| `Codec.FieldSizePositive` | GrpcSourceGenerator/analyzers/dotnet/cs/GrpcMessageSourceGenerator.cs:89-125 | A field adds to the size exactly when it is an int, uint or string field that is not 0, null or empty. |
| `Codec.Size` | GrpcSourceGenerator/analyzers/dotnet/cs/GrpcMessageSourceGenerator.cs:164-170 | The size of a message value bounds the size each of its fields adds. |
| `Codec.SizeZeroIffElided` | GrpcSourceGenerator/analyzers/dotnet/cs/GrpcMessageSourceGenerator.cs:164-170 | The size is 0 exactly when every int, uint and string field holds 0, null or the empty string. |
| `Codec.DefaultsSizeZero` | GrpcSourceGenerator/analyzers/dotnet/cs/GrpcMessageSourceGenerator.cs:164-170 | A fresh instance has size 0. |
| `Codec.PointSize` | GrpcSourceGenerator/analyzers/dotnet/cs/GrpcMessageSourceGenerator.cs:89-95 | With `X = 0` and `Y = 5`, only `Y` counts, giving a size of 3. |
| `Codec.FieldSizeAsWrittenAgrees` | GrpcSourceGenerator/analyzers/dotnet/cs/GrpcMessageSourceGenerator.cs:89-110 | For every well-typed value, the size line as written agrees with `FieldSize` wherever it compiles: non-nullable `int`/`uint`, and `string`, `double` and `float` fields, null included. For an `int?` or `uint?` property it has no size, because the line does not compile. |
| `Codec.NullableIntSizeAsWritten` | GrpcSourceGenerator/analyzers/dotnet/cs/GrpcMessageSourceGenerator.cs:89-95 | An `int?` property has no size as written, whether it holds 5 or null. `FieldSize` counts the null as 0 and the 5 as a plain `int` would. |
| `Codec.FieldSizeAsWritten` | GrpcSourceGenerator/analyzers/dotnet/cs/GrpcMessageSourceGenerator.cs:89-110 | The size line as written has no value exactly for an `int?` or `uint?` property, for which it does not compile. |
| `Codec.MergeTakesNonElided` | GrpcSourceGenerator/analyzers/dotnet/cs/GrpcMessageSourceGenerator.cs:96-131 | Each merged field is `other`'s value unless that value is elided (0, null, empty, or a double or float field), and otherwise the receiver's. Merge copies exactly the fields that add to the size. |
| `Codec.Merge` | GrpcSourceGenerator/analyzers/dotnet/cs/GrpcMessageSourceGenerator.cs:96-131 | Every field of the merge is either the receiver's or `other`'s value. |
| `Codec.MergeWellTyped` | GrpcSourceGenerator/analyzers/dotnet/cs/GrpcMessageSourceGenerator.cs:112-117 | Merging keeps every field value within its property's type. |
| `Codec.MergeDefaultsNoOp` | GrpcSourceGenerator/analyzers/dotnet/cs/GrpcMessageSourceGenerator.cs:193-199 | Merging from a fresh default instance leaves the receiver unchanged. |
| `Codec.MergeIdempotent` | GrpcSourceGenerator/analyzers/dotnet/cs/GrpcMessageSourceGenerator.cs:96-131 | Merging the same `other` twice equals merging it once. |
| `Codec.MergeSelf` | GrpcSourceGenerator/analyzers/dotnet/cs/GrpcMessageSourceGenerator.cs:193-199 | A message merged from itself is unchanged. |
| `Codec.MergeAssociative` | GrpcSourceGenerator/analyzers/dotnet/cs/GrpcMessageSourceGenerator.cs:96-131 | Merging `a` and then `b` equals merging once from the merge of `a` and `b`. |
| `Codec.EqualIffSame` | GrpcSourceGenerator/analyzers/dotnet/cs/GrpcMessageSourceGenerator.cs:180-191 | The field-by-field comparison holds exactly when all field values are the same. |
| `Codec.Equal` | GrpcSourceGenerator/analyzers/dotnet/cs/GrpcMessageSourceGenerator.cs:180-191 | The first-mismatch scan holds exactly when the values agree at every field. |
| `Codec.EqualIsEquivalence` | GrpcSourceGenerator/analyzers/dotnet/cs/GrpcMessageSourceGenerator.cs:74-78 | The field-by-field comparison is reflexive, symmetric and transitive. |
| `Codec.EqualsAsWrittenSymmetric` | GrpcSourceGenerator/analyzers/dotnet/cs/GrpcMessageSourceGenerator.cs:74-78 | The comparison as written, with IEEE `!=` on floating fields, is symmetric. |
| `Codec.EqualsAsWritten` | GrpcSourceGenerator/analyzers/dotnet/cs/GrpcMessageSourceGenerator.cs:74-78 | The first-mismatch scan as written holds exactly when no field differs under the emitted `!=`, IEEE on floating fields. |
| `Codec.EqualsAsWrittenReflexiveIffNoNaN` | GrpcSourceGenerator/analyzers/dotnet/cs/GrpcMessageSourceGenerator.cs:180-191 | As written, a message equals an identical copy exactly when none of its double or float fields is NaN. |
| `Codec.SignedZerosEqualAsWritten` | GrpcSourceGenerator/analyzers/dotnet/cs/GrpcMessageSourceGenerator.cs:74-78 | As written, a `double` field holding +0.0 and one holding -0.0 compare equal, while `Equal` tells them apart. |
| `Codec.NaNCopyNotEqualAsWritten` | GrpcSourceGenerator/analyzers/dotnet/cs/GrpcMessageSourceGenerator.cs:172-191 | Take a message whose double field holds NaN. As written, an identical copy is not `Equals` to it, while `Equal` holds. |
| `Messages.Message.constructor` | GrpcSourceGenerator/analyzers/dotnet/cs/GrpcMessageSourceGenerator.cs:158 | `new X()` gives every property its C# default (0, or null for strings and nullable properties). |
| `Messages.Message.CalculateSize` | GrpcSourceGenerator/analyzers/dotnet/cs/GrpcMessageSourceGenerator.cs:164-170 | The accumulated size equals `Size` of the instance's field values. |
| `Messages.Message.MergeFrom` | GrpcSourceGenerator/analyzers/dotnet/cs/GrpcMessageSourceGenerator.cs:193-200 | A null `other` changes nothing. Otherwise the new field values are the merge of the old values with `other`'s old values, also when `other` is the receiver itself. |
| `Messages.Message.Equals` | GrpcSourceGenerator/analyzers/dotnet/cs/GrpcMessageSourceGenerator.cs:180-191 | `Equals`, with floating fields compared by bit pattern as the first finding corrects it, is false for null and true for the same instance. Otherwise it holds exactly when all field values are the same. |
| `Messages.Message.Clone` | GrpcSourceGenerator/analyzers/dotnet/cs/GrpcMessageSourceGenerator.cs:172-178 | The clone is a new instance with every field equal to the original's, and each is `Equals` to the other. |
| `Messages.Message.Copy` | GrpcSourceGenerator/analyzers/dotnet/cs/GrpcMessageSourceGenerator.cs:174-177 | The clone's object initializer assigns every property from the original. |
| `Generator.AddSource` | GrpcSourceGenerator/analyzers/dotnet/cs/GrpcMessageSourceGenerator.cs:217 | A unit is kept exactly when its hint name is new, so the kept hint names stay distinct. A repeated name is the host's exception. |
| `Generator.EmitUnits` | GrpcSourceGenerator/analyzers/dotnet/cs/GrpcMessageSourceGenerator.cs:48-228 | The two loops emit the units of the messages and then the services, in order, under `{Name}.g.cs` with pairwise distinct hint names, each message with its descriptor. They complete exactly when every class got its unit. Otherwise they stop at the first class whose unit throws, with that class's exception. |
| `Generator.Execute` | GrpcSourceGenerator/analyzers/dotnet/cs/GrpcMessageSourceGenerator.cs:43-229 | The units emitted are those of the messages and then the services, in order, under `{Name}.g.cs`, each message with its descriptor. The run completes exactly when all of them are emitted. Otherwise it stops at the first class whose unit throws, with that class's exception. |
| `Generator.BothAttributesNeverComplete` | GrpcSourceGenerator/analyzers/dotnet/cs/GrpcMessageSourceGenerator.cs:220-228 | A class in both lists makes two units with the same hint name, so no run emits every unit. |

## Left out

- Roslyn syntax walking is left out. `SyntaxTrees`, `DescendantNodes`, `GetProperties` and the semantic model are replaced by abstract input: a syntax tree is the list of its descendant nodes, and each class declaration carries its properties with their declared types. `IsNullable` is not part of this model's sources; it is taken to hold exactly for a property whose type is written with `?` (`Syntax.PropertyDecl.IsNullable`).
- The generated C# text is modelled by its meaning, not by its characters. This covers the string templating, `SourceText` and the `#nullable`/`using` preamble.
- `md.ToByteArray()` is not modelled, because descriptor serialisation is a Google.Protobuf call. Neither is the `Descriptor` property that reads it back.
- The hard-coded `GeneratedClrTypeInfo` field-name list is not modelled. It does not depend on the message.
- The emitted `MergeFrom(CodedInputStream)` and `WriteTo` are not modelled. Both only throw `NotImplementedException`, so there is no wire codec to model or to prove a round trip for.
- `double` and `float` values are modelled as IEEE 754 bit patterns with no arithmetic. They take part in no size or merge rule.
- Message-typed fields are not modelled: `GetType` never yields Message (`Descriptor.NoMessageFields`), so the recursive clone branch is never taken.
- `Initialize`, which launches a debugger in debug builds, is not modelled.
- The older generator that emits only `partial class X {}` is not modelled, and neither are the marker attribute classes (pure metadata).
- Messages.Message.constructor: assumes the message class declares no property initializers (`public int X { get; set; } = 5;`) and no constructor that sets properties, so that `new X()` leaves every property at its C# default. The property declarations of the model cannot express either. `Codec.MergeDefaultsNoOp` and `Codec.DefaultsSizeZero` rest on the same assumption.
- Messages.Message.Equals: is about the corrected `Equals`, which compares `double` and `float` fields by bit pattern. The emitted IEEE comparison is `Codec.EqualsAsWritten`; it differs on NaN (`Codec.NaNCopyNotEqualAsWritten`) and on +0.0 against -0.0 (`Codec.SignedZerosEqualAsWritten`). `Messages.Message.Clone`'s promise that the clone `Equals` its original holds for the corrected comparison; as written it holds exactly when no floating field is NaN (`Codec.EqualsAsWrittenReflexiveIffNoNaN`).
- Messages.Message.MergeFrom: the model, like every emitted member, assumes the generated `partial class` joins the discovered class. The unit declares it in the fixed namespace `Example` (GrpcSourceGenerator/analyzers/dotnet/cs/GrpcMessageSourceGenerator.cs:149), so this holds only for a top-level class of namespace `Example`. Any other class gets a separate class `Example.{Name}`; when the message has properties, its members name properties that class does not have, and the unit does not compile. Service units (line 223) are declared in the global namespace in the same way.
- Messages.Message.CalculateSize: does not model the 32-bit wrap-around of the C# `int size` accumulator. It would take strings of about 2 GB to reach it. For a class with an `int?` or `uint?` property it is the corrected method of the second finding: as written, no compiled `CalculateSize` exists for such a class, and the null check of `MergeFrom`'s merge line (lines 96 and 112) is likewise reached only in a corrected unit.
- Messages.Message.CalculateSize: assumes that no property name clashes with a name of the emitted code, as do `MergeFrom`, `Equals` and `Clone`. The templates paste each property name into method bodies that have names of their own. A property `int size` is shadowed by `CalculateSize`'s local accumulator (line 166): the emitted `if (size != 0) size += 2 + ComputeInt32Size(size)` reads the accumulator, never the property, so a message whose only field is `size = 5` compiles and reports 0 where `Codec.Size` gives 3. A property named `other` clashes with the parameter of `Equals` and `MergeFrom`. Properties named `descriptor`, `descriptorData`, `_parser`, `Equals`, `MergeFrom` or `WriteTo` duplicate emitted members. An `@`-escaped keyword name loses its `@` through `Identifier.ValueText` (line 63). In all of these except `size` the unit does not compile.
- WireSize.Utf8Length: counts Unicode scalar values. It does not model unpaired UTF-16 surrogates, which a C# string may hold and UTF-8 encoding replaces.
- WireSize.StringSize: requires the UTF-8 byte count to be below 2^31, because `GetByteCount` returns a C# `int` and throws beyond that.
- Generator.AddSource: compares hint names exactly, while the host compares them ignoring case.
- Generator.Execute: returns the units added before an exception. The host discards a failing generator's output altogether and reports a warning, which is host behaviour outside the generator.

## Findings

| source | as written | input that shows it | evidently intended | confidence | as-written member | corrected member |
|---|---|---|---|---|---|---|
| GrpcSourceGenerator/analyzers/dotnet/cs/GrpcMessageSourceGenerator.cs:74-78 | `Equals` compares each field with C#'s `!=`, which is IEEE comparison on `double` and `float`, so NaN differs from itself | a message with a `double` property holding NaN: `Clone()` gives a copy with every field equal, and `Equals` returns false (also, +0.0 and -0.0 compare equal) | a clone equals its original; compare floating fields by bit pattern, as Google.Protobuf's own generated code does | high (not executed) | `Codec.NaNCopyNotEqualAsWritten` | `Codec.EqualIsEquivalence` |
| GrpcSourceGenerator/analyzers/dotnet/cs/GrpcMessageSourceGenerator.cs:89-95 | for an `int?` (or `uint?`) property the size line passes the nullable value to `ComputeInt32Size(int)` (or `ComputeUInt32Size(uint)`); C# has no implicit conversion from `int?` to `int`, so the generated unit does not compile | any `int?`/`uint?` property, such as `int? Age`: the generated unit does not compile | a null property counts as default and adds 0, like the null check of the merge line, and a present value is sized like a plain `int` | high (not executed) | `Codec.NullableIntSizeAsWritten` | `Codec.SizeZeroIffElided` |
