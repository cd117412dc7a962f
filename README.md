# ConfOxide accessor engine in Dafny

ConfOxide models an application's settings as a sealed class deriving from
`SettingsBase<T>`. The static constructor of `TypeAccessor<T>` builds, once
per type, a compiled accessor for every public property it recognises; a
property it does not recognise is reported in `TypeAccessor<T>.Error` and the
type gets no accessors. A recognised property is one of three kinds:

- a scalar, handled by `ValuePropertyAccessor`;
- a list (`IList<E>`) of elements, handled by `CollectionPropertyAccessor`;
- a nested settings class, handled by `NestedPropertyAccessor`.

The extension methods `EquivalentTo`, `ResetValues` and `AssignFrom` fold over
those accessors, and the `SettingsBase<T>` constructor initialises every
property and then resets it.

This project models that engine:

- **Type predicates.** `TypeExtensions` decides whether a type is scalar, a
  settings type or a list, and for a list, its element type.
- **JSON naming and codec.** `TypedPropertyAccessor` picks the JSON name.
  `ScalarType` is the codec: `ToJson`, `FromJson` and `FromObject`, with the
  widening table `JsonConvertibleTypes`. Its class initialiser compiles the
  JSON delegates and fails for some types (a settings class as a list
  element, `IntPtr`); every accessor operation that uses the codec then
  raises a `TypeInitializationException`.
- **The static build.** `Metadata` holds each accessor's constructor, the
  per-property classification and the build of `TypeAccessor<T>`. The build is
  written twice: as the function `TypeAccessorOf` and as the loop method
  `BuildTypeAccessor`. The module also holds the `Error` report, the JSON-name
  index and `PropertyCollection.TryGetValue`.
- **Instances on the heap.** `Instances` models a settings instance as a class
  holding one slot per accessor. A list property is a `ListObj` that the
  accessors clear and refill in place. A nested property is another `Settings`
  object. `Abstract()` maps an instance to a value tree (`Semantics.State`).
- **The operations.** `ValuePropertyAccessor`, `CollectionPropertyAccessor` and
  `SettingsExtensions` implement the accessor operations as methods on those
  instances. Each one is specified against `Semantics`.
  `SettingsExtensions` also holds the nested accessor's operations and the
  `SettingsBase<T>` constructor (`New`). They share that module because they
  call one another recursively.

The model keeps the behaviour the code has, including behaviour its own
comments and tests would not expect, with one exception: the static build
(`TypeAccessorOf`, `BuildTypeAccessor`) and everything built on it use the
corrected classification `Metadata.Classify`, which hands a scalar property a
`ValuePropertyAccessor`. As written, the build rejects it (see "## Findings",
where `Metadata.ClassifyAsWritten` models the code as it stands). The other
behaviours kept are:

- `NestedPropertyAccessor.Copy` runs `GetValue(to).AssignFrom(GetValue(to))`.
  The nested instance is assigned from itself and the source is never read.
  Because a collection `Copy` clears the target list before reading the source
  list, a self-assignment also empties every list inside the nested instance.
  See `Semantics.SelfAssignClears`, `Semantics.NestedCopyIgnoresSource` and
  `Semantics.NestedCopyLosesSourceValue`.
- The collection accessor binds the setter with `GetSetMethod(true)`, so a
  private setter is accepted. The value and nested accessors use
  `GetSetMethod()`, which fails without a public setter.
- `decimal` and enums, bare or nullable, are not scalar types: they are neither
  primitive nor in `scalarTypes`. Only one level of `Nullable` is unwrapped.
- `IsSettingsType` inspects only the direct base type. A class deriving through
  an intermediate generic base is therefore not a settings type.
- `IsSettingsType` is called on the property type before `IsScalarType`.
  `Type.BaseType` is null for `object` and for interfaces, so a property of
  such a type dereferences null and aborts the static constructor.

Several .NET facilities are parameters rather than definitions:

- **`ScalarType.Runtime`:** `Convert.ChangeType`, the explicit conversions of a
  `JToken`, `Enum.Parse`, `Enum.ToObject`, `Enum.ToString`, `TimeSpan.Parse`,
  `DateTimeOffset.Parse` and `ToString`. Each answers a value or the exception
  the call throws, so the exception class a caller sees is the runtime's.
- **`SettingsExtensions.JsonHooks`:** the nested instance's `ReadJson`, `ToJson`
  and `UpdateJson`, which live outside the modelled files.

A type is described by `TypeExtensions.TypeDesc`. Its declared classes carry
their sealed flag, base type, default constructor, list element and
properties.

## Model

| member | source | states |
|---|---|---|
| TypeExtensions.IsScalarType | ConfOxide/MemberAccess/TypeExtensions.cs:11-22 | for a non-nullable type: scalar exactly for string, a primitive, DateTime, DateTimeOffset, TimeSpan or Uri; decimal and enums never |
| TypeExtensions.IsSettingsType | ConfOxide/MemberAccess/TypeExtensions.cs:25-29 | true exactly for a non-interface declared class whose direct base is SettingsBase of itself; a NullReference fault exactly when the type has no base type |
| TypeExtensions.GetListElementType | ConfOxide/MemberAccess/TypeExtensions.cs:32-39 | IList<E> gives E, a class gives the E of the IList<E> it implements, and there is no result exactly when neither holds |
| TypeExtensions.StringIsScalar | ConfOxide/MemberAccess/TypeExtensions.cs:14-15 | string is scalar |
| TypeExtensions.NullableScalarIffUnderlying | ConfOxide/MemberAccess/TypeExtensions.cs:16-20 | Nullable<U> is scalar exactly when U is |
| TypeExtensions.DecimalAndEnumsAreNotScalar | ConfOxide/MemberAccess/TypeExtensions.cs:11-21 | decimal, enums and their nullable forms are not scalar |
| TypeExtensions.LayeredClassIsNotSettingsType | ConfOxide/MemberAccess/TypeExtensions.cs:25-28 | a class whose direct base is some other class is not a settings type, even if that class derives from SettingsBase |
| ScalarType.Default | ConfOxide/MemberAccess/ValuePropertyAccessor.cs:18 | default(T) is a zero value exactly for the primitive, decimal, date and time, and enum types, and null for every other type modelled (reference types, nullables and declared structs, whose value the model does not track) |
| ScalarType.ToJson | ConfOxide/MemberAccess/ScalarType.cs:28-52 | the encoding delegate, which exists only when `CodecBuilds`: the result is always a JValue; it is JSON null exactly for a nullable without a value; otherwise it is built with the JValue constructor for the widened underlying type |
| ScalarType.NullableWithValueAsUnderlying | ConfOxide/MemberAccess/ScalarType.cs:31-50 | a nullable holding a value is written exactly as its underlying type writes it |
| ScalarType.JsonConvertibleTypes | ConfOxide/MemberAccess/ScalarType.cs:74-83 | a type is mapped only to long, ulong or object, the types whose JValue constructors the encoder uses |
| ScalarType.WideningIsFinal | ConfOxide/MemberAccess/ScalarType.cs:37-41 | a type the table maps to is not itself in the table, so the encoder's single lookup finds the constructor type |
| ScalarType.IntegersAreWidened | ConfOxide/MemberAccess/ScalarType.cs:74-80 | byte, sbyte, short and int are written as long; ushort and uint as ulong; the other primitives as themselves |
| ScalarType.DecimalAndOffsetAreBoxed | ConfOxide/MemberAccess/ScalarType.cs:81-82 | decimal and DateTimeOffset values go to the JValue(object) constructor |
| ScalarType.EnumWrittenAsName | ConfOxide/MemberAccess/ScalarType.cs:39-41 | an enum, bare or nullable with a value, is written as its name |
| ScalarType.CodecBuilds | ConfOxide/MemberAccess/ScalarType.cs:12-52 | whether the class initialiser succeeds; its contract is stated by ScalarTypesHaveCodec and DeclaredTypesHaveNoCodec: every scalar type but IntPtr and UIntPtr, and no declared class or struct |
| ScalarType.CodecFault | ConfOxide/MemberAccess/ScalarType.cs:12-26 | the initialiser's failure is a TypeInitialization fault: an argument mismatch for a primitive or struct, a missing JToken conversion otherwise |
| ScalarType.ScalarTypesHaveCodec | ConfOxide/MemberAccess/ScalarType.cs:12-52 | for a scalar type the codec builds exactly when the type is not IntPtr or UIntPtr |
| ScalarType.DeclaredTypesHaveNoCodec | ConfOxide/MemberAccess/ScalarType.cs:21-26 | for a declared class or struct, bare or nullable, the codec never builds, and using it is a TypeInitialization fault |
| ScalarType.NullEnumRoundTrips | ConfOxide/MemberAccess/ScalarType.cs:21-50 | a nullable enum without a value is written as JSON null and read back as null, whatever the runtime |
| ScalarType.EnumRoundTrips | ConfOxide/MemberAccess/ScalarType.cs:21-41 | an enum value round-trips when its name reads back as that string and parses back to the value |
| ScalarType.FromJson | ConfOxide/MemberAccess/ScalarType.cs:21-26 | the decoding delegate; its contract is stated by EnumReadByName, NonEnumReadIsCast, NullEnumRoundTrips and EnumRoundTrips |
| ScalarType.FromObject | ConfOxide/MemberAccess/ScalarType.cs:55-62 | the default-literal conversion; its contract is stated by TimeLiteralsParsed and EnumLiteralsByNameOrNumber |
| ScalarType.EnumReadByName | ConfOxide/MemberAccess/ScalarType.cs:21-22 | reading an enum: JSON null gives default(T); a token whose string conversion succeeds is parsed as a member name, with Enum.Parse's own exception when it is not one; a failing string conversion passes its exception on |
| ScalarType.NonEnumReadIsCast | ConfOxide/MemberAccess/ScalarType.cs:23-26 | when the codec builds, reading any other type is the token's explicit conversion: its value, or the exception the conversion throws |
| ScalarType.TimeLiteralsParsed | ConfOxide/MemberAccess/ScalarType.cs:58-61 | a TimeSpan or DateTimeOffset object is taken as is; any other non-null object, including an opaque value of another kind, is parsed from its string form; null gives NullReference |
| ScalarType.EnumLiteralsByNameOrNumber | ConfOxide/MemberAccess/ScalarType.cs:55-57 | an enum is parsed by name from a string and converted numerically from anything else, each with the runtime call's own exception |
| TypedPropertyAccessor.GetJsonName | ConfOxide/MemberAccess/TypedPropertyAccessor.cs:22-32 | the result is a non-empty JsonProperty or DataMember name, and it is absent exactly when neither name is non-empty |
| TypedPropertyAccessor.NewTypedAccessor | ConfOxide/MemberAccess/TypedPropertyAccessor.cs:15-20 | the base constructor succeeds exactly when the property has a public getter, and it fixes the JSON name |
| TypedPropertyAccessor.JsonPropertyNameWins | ConfOxide/MemberAccess/TypedPropertyAccessor.cs:23-25 | a non-empty JsonProperty name is the JSON name |
| TypedPropertyAccessor.DataMemberNameSecond | ConfOxide/MemberAccess/TypedPropertyAccessor.cs:19-31 | without a JsonProperty name, the DataMember name if non-empty, else the property's name |
| TypedPropertyAccessor.JsonNameIsACandidate | ConfOxide/MemberAccess/TypedPropertyAccessor.cs:19-31 | the JSON name is always the property name or one of the two attribute names |
| Metadata.NewValueAccessor | ConfOxide/MemberAccess/ValuePropertyAccessor.cs:21-36 | built exactly when there is a public getter and a public setter and the default literal, if any, converts; the default is default(T) without a literal |
| Metadata.NewCollectionAccessor | ConfOxide/MemberAccess/CollectionPropertyAccessor.cs:20-33 | built exactly when there is a getter, a setter of any visibility, and a creatable container (a List<E> fitting an IList<E> interface, or a class with a default constructor); records which container |
| Metadata.NewNestedAccessor | ConfOxide/MemberAccess/NestedPropertyAccessor.cs:18-24 | built exactly when there is a public getter, a public setter and a default constructor; it embeds the nested type's own build |
| Metadata.Classify | ConfOxide/MemberAccess/TypeAccessor.cs:37-54 | a list is tried first, then a settings type, then a scalar; an unmatched property is rejected with its message; a fault of the tests or of an accessor constructor aborts |
| Metadata.ClassifyAsWritten | ConfOxide/MemberAccess/TypeAccessor.cs:48-52 | the scalar branch fails with MissingMethod, because the value accessor's constructor is internal; every other branch is as in Classify |
| Metadata.ErrorOf | ConfOxide/MemberAccess/TypeAccessor.cs:58-59 | Error is null exactly when no message was collected |
| Metadata.BuildTypeAccessor | ConfOxide/MemberAccess/TypeAccessor.cs:29-60 | the `CreateInstance` initialiser and then the loop of the static constructor compute exactly TypeAccessorOf, faults included |
| Metadata.TryGetJsonProperty | ConfOxide/MemberAccess/TypeAccessor.cs:19-21 | finds an accessor exactly when the name is a key of the JSON-name map |
| Metadata.FailureIsFinal | ConfOxide/MemberAccess/TypeAccessor.cs:36-55 | once a property faults, the later properties do not change the outcome |
| Metadata.TypeAccessorOf | ConfOxide/MemberAccess/TypeAccessor.cs:24-60 | the build of TypeAccessor<T>; its contract is stated by BuildFailures, KeyMapIndexes, CollectKeepsOrder and ErrorReportsRejections |
| Metadata.KeyMap | ConfOxide/MemberAccess/TypeAccessor.cs:57 | ToDictionary fails only with a duplicate key and maps names to positions of accessors; KeyMapIndexes states the rest |
| Metadata.KeyMapIndexes | ConfOxide/MemberAccess/TypeAccessor.cs:57 | ToDictionary succeeds exactly when the JSON names are distinct, and then maps each name to its accessor and nothing else |
| Metadata.TryGetJsonPropertyFinds | ConfOxide/MemberAccess/TypeAccessor.cs:19-21 | after a successful build, a lookup succeeds exactly for the JSON name of an accessor and answers that accessor |
| Metadata.BuildFailures | ConfOxide/MemberAccess/TypeAccessor.cs:24-57 | the build fails exactly when the class has no parameterless constructor (the `CreateInstance` initialiser, first), a property faults, or two accessors share a JSON name; on success it holds the collected accessors and Error |
| Metadata.CollectKeepsOrder | ConfOxide/MemberAccess/TypeAccessor.cs:34-56 | the accessors are those of the accepted properties, one each, in declaration order |
| Metadata.CollectCounts | ConfOxide/MemberAccess/TypeAccessor.cs:30-56 | every property is classified without a fault and lands in exactly one of the two lists |
| Metadata.CollectMessages | ConfOxide/MemberAccess/TypeAccessor.cs:30-54 | no message is empty, and an unsealed class has the sealed message first |
| Metadata.CollectNoMessages | ConfOxide/MemberAccess/TypeAccessor.cs:30-56 | no message is collected exactly when the class is sealed and every property is accepted |
| Metadata.PropertiesAtMostDeclared | ConfOxide/MemberAccess/TypeAccessor.cs:34-56 | a built type has at most as many accessors as declared properties |
| Metadata.ErrorReportsRejections | ConfOxide/MemberAccess/TypeAccessor.cs:30-59 | Error is null exactly for a sealed class whose properties are all accepted; otherwise it is non-empty and starts with the sealed message when the class is not sealed |
| Metadata.JoinStartsWithFirst | ConfOxide/MemberAccess/TypeAccessor.cs:58-59 | the newline join starts with its first message and is non-empty when that message is |
| Metadata.ListElementNotChecked | ConfOxide/MemberAccess/TypeAccessor.cs:37-42 | an IList<E> property gets a collection accessor whatever E is |
| Metadata.ListWinsOverSettingsType | ConfOxide/MemberAccess/TypeAccessor.cs:37-47 | a settings class that also implements IList<E> gets a collection accessor |
| Metadata.ScalarPropertyFailsAsWritten | ConfOxide/MemberAccess/TypeAccessor.cs:48-52 | as written, a plain `int` property aborts the build, while the corrected branch accepts it |
| Metadata.FirstWithKey | ConfOxide/MemberAccess/TypeAccessor.cs:72-73 | the linear search answers an item carrying the key, and nothing exactly when no item carries it |
| Metadata.TryGetValue | ConfOxide/MemberAccess/TypeAccessor.cs:69-74 | under KeyedCollection's invariant, a found accessor is in the collection and carries the key, and nothing is found exactly when no item carries it |
| Metadata.TryGetValueAgrees | ConfOxide/MemberAccess/TypeAccessor.cs:69-74 | the dictionary lookup and the linear search give the same answer |
| Semantics.DefaultField | ConfOxide/MemberAccess/ValuePropertyAccessor.cs:46 | a reset property holds its captured default, an empty list or a reset nested state, each of the property's kind |
| Semantics.DefaultState | ConfOxide/SettingsExtensions.cs:19-22 | the reset state has one field per accessor and fits the type when the type is instantiable |
| Semantics.AssignField | ConfOxide/MemberAccess/CollectionPropertyAccessor.cs:41-46 | the value one Copy leaves keeps the property's kind |
| Semantics.Assign | ConfOxide/SettingsExtensions.cs:26-29 | the state AssignFrom leaves fits the type |
| Semantics.SelfAssignClears | ConfOxide/MemberAccess/CollectionPropertyAccessor.cs:41-46 | assigning an instance from itself keeps its scalars and empties its lists, at every depth |
| Semantics.NestedCopyIgnoresSource | ConfOxide/MemberAccess/NestedPropertyAccessor.cs:35 | a nested Copy leaves the target's nested values with their lists emptied, whatever the source holds |
| Semantics.AssignWithoutNestedCopies | ConfOxide/SettingsExtensions.cs:26-29 | for a type without nested properties, AssignFrom a distinct source yields exactly the source's values |
| Semantics.SelfAssignKeepsScalars | ConfOxide/MemberAccess/CollectionPropertyAccessor.cs:42-45 | in a self-assignment, a scalar survives and a list becomes empty |
| Semantics.NestedCopyLosesSourceValue | ConfOxide/MemberAccess/NestedPropertyAccessor.cs:35 | for a concrete outer/inner type pair, AssignFrom leaves the target unchanged and different from the source |
| Instances.ListObj.Clear | ConfOxide/MemberAccess/CollectionPropertyAccessor.cs:50 | the list becomes empty |
| Instances.ListObj.Add | ConfOxide/MemberAccess/CollectionPropertyAccessor.cs:45 | the item is appended |
| Instances.InitialSlots | ConfOxide/SettingsBase.cs:23-32 | before the constructor body, every scalar holds default(T) and every list or nested property holds null |
| Instances.Settings.GetValue | ConfOxide/MemberAccess/TypedPropertyAccessor.cs:41 | the getter changes nothing and, in a constructed instance, answers an object of the accessor's kind |
| Instances.Settings.SetScalar | ConfOxide/MemberAccess/ValuePropertyAccessor.cs:22 | the setter changes exactly that property's value and keeps the instance valid |
| Instances.Settings.SetNested | ConfOxide/MemberAccess/NestedPropertyAccessor.cs:19-23 | the setter stores the new nested instance; the owned objects grow by exactly that instance's objects |
| ValuePropertyAccessor.Copy | ConfOxide/MemberAccess/ValuePropertyAccessor.cs:41-43 | the target's property takes the source's value, nothing else in the target changes, and a distinct source is unchanged |
| ValuePropertyAccessor.ResetValue | ConfOxide/MemberAccess/ValuePropertyAccessor.cs:46 | the property takes the captured default and nothing else changes |
| ValuePropertyAccessor.CompareValues | ConfOxide/MemberAccess/ValuePropertyAccessor.cs:49 | true exactly when the two values are equal |
| ValuePropertyAccessor.FromJson | ConfOxide/MemberAccess/ValuePropertyAccessor.cs:52-54 | when the codec does not build, its TypeInitialization fault comes first; a non-JValue token gives InvalidCast and a codec fault is passed on, all leaving the instance as it was; otherwise the property takes the decoded value |
| ValuePropertyAccessor.UpdateJsonProperty | ConfOxide/MemberAccess/ValuePropertyAccessor.cs:57-59 | fails exactly when the codec does not build, with its TypeInitialization fault; otherwise the JSON property keeps its name and takes the codec's encoding of the value |
| ValuePropertyAccessor.InitializeValue | ConfOxide/MemberAccess/ValuePropertyAccessor.cs:62 | a scalar property is already initialised |
| ValuePropertyAccessor.JsonRoundTrip | ConfOxide/MemberAccess/ValuePropertyAccessor.cs:52-59 | when the codec builds and reads back what it writes, UpdateJsonProperty succeeds and FromJson of its output restores the value |
| CollectionPropertyAccessor.DecodeItems | ConfOxide/MemberAccess/CollectionPropertyAccessor.cs:59-66 | never more values than elements, and all of them when no element faults; a non-empty array of a type without a codec decodes nothing and gives its TypeInitialization fault |
| CollectionPropertyAccessor.EncodeItems | ConfOxide/MemberAccess/CollectionPropertyAccessor.cs:74-76 | one token per element, each the codec's encoding of that element, in order |
| CollectionPropertyAccessor.InitializeValue | ConfOxide/MemberAccess/CollectionPropertyAccessor.cs:24-36 | the property holds a new, empty container of the recorded kind, and only that property changes |
| CollectionPropertyAccessor.ResetValue | ConfOxide/MemberAccess/CollectionPropertyAccessor.cs:49-51 | the same list is emptied and nothing else changes |
| CollectionPropertyAccessor.Copy | ConfOxide/MemberAccess/CollectionPropertyAccessor.cs:41-46 | the target's list takes the source's elements in order, or becomes empty when source and target are one instance; a distinct source is unchanged |
| CollectionPropertyAccessor.AddAll | ConfOxide/MemberAccess/CollectionPropertyAccessor.cs:44-45 | the elements of the source list are appended to the destination in order |
| CollectionPropertyAccessor.CompareValues | ConfOxide/MemberAccess/CollectionPropertyAccessor.cs:54-56 | true exactly when the two lists hold equal elements in the same order |
| CollectionPropertyAccessor.FromJson | ConfOxide/MemberAccess/CollectionPropertyAccessor.cs:59-66 | the list holds the elements decoded before the first fault, which is reported; a non-array token empties the list and gives InvalidCast |
| CollectionPropertyAccessor.AddDecoded | ConfOxide/MemberAccess/CollectionPropertyAccessor.cs:63-65 | the loop adds exactly the elements DecodeItems decodes and reports its fault |
| CollectionPropertyAccessor.UpdateJsonProperty | ConfOxide/MemberAccess/CollectionPropertyAccessor.cs:69-77 | the JSON property keeps its name; a non-empty list of a type without a codec leaves an empty array and gives its TypeInitialization fault; otherwise the property becomes an array of the encoded elements, in order, whatever it held before |
| CollectionPropertyAccessor.DecodeEncoded | ConfOxide/MemberAccess/CollectionPropertyAccessor.cs:59-77 | decoding the encoding of values the codec round-trips gives back those values without a fault |
| CollectionPropertyAccessor.JsonRoundTrip | ConfOxide/MemberAccess/CollectionPropertyAccessor.cs:59-77 | reading the array that UpdateJsonProperty writes restores the list |
| CollectionPropertyAccessor.FaultIsFinal | ConfOxide/MemberAccess/CollectionPropertyAccessor.cs:63-65 | after an element faults, later elements are not read |
| CollectionPropertyAccessor.DecodedArePrefix | ConfOxide/MemberAccess/CollectionPropertyAccessor.cs:63-65 | each decoded value is the codec's reading of the array element at the same position, and the codec builds |
| CollectionPropertyAccessor.NullEnumListRoundTrips | ConfOxide/MemberAccess/CollectionPropertyAccessor.cs:59-77 | a list of nullable enums without values is written and read back unchanged, whatever the runtime |
| CollectionPropertyAccessor.EnumListRoundTrips | ConfOxide/MemberAccess/CollectionPropertyAccessor.cs:59-77 | a list of enum values is written and read back unchanged when each name reads back and parses to its value |
| SettingsExtensions.EquivalentTo | ConfOxide/SettingsExtensions.cs:15-17 | true exactly when the two instances hold the same values at every depth |
| SettingsExtensions.CompareValues | ConfOxide/MemberAccess/IPropertyAccessor.cs:17 | each accessor's comparison holds exactly when the property's values are equal |
| SettingsExtensions.NestedCompareValues | ConfOxide/MemberAccess/NestedPropertyAccessor.cs:30 | true exactly when the two nested instances hold the same values |
| SettingsExtensions.ResetValues | ConfOxide/SettingsExtensions.cs:19-22 | the instance holds the default state afterwards and keeps its lists and nested instances |
| SettingsExtensions.ResetValue | ConfOxide/SettingsExtensions.cs:21 | only the property is reset, to its default |
| SettingsExtensions.NestedResetValue | ConfOxide/MemberAccess/NestedPropertyAccessor.cs:38 | the nested instance, still the same object, holds its default state, and nothing else changes |
| SettingsExtensions.AssignFrom | ConfOxide/SettingsExtensions.cs:26-29 | the target holds Assign of the old target and source values; a distinct source is unchanged; the same lists and nested objects remain |
| SettingsExtensions.Copy | ConfOxide/SettingsExtensions.cs:28 | one Copy changes only the k-th property, as AssignField says |
| SettingsExtensions.NestedCopy | ConfOxide/MemberAccess/NestedPropertyAccessor.cs:35 | the nested instance is assigned from itself, so it keeps its scalars and loses its lists, and the source is not read |
| SettingsExtensions.New | ConfOxide/SettingsBase.cs:23-37 | construction fails exactly when ConstructionFault reports a fault, and then with that fault; otherwise the instance is fresh, valid and holds the default state |
| SettingsExtensions.ConstructionFault | ConfOxide/SettingsBase.cs:27-35 | the exception `new T()` ends in; its contract is stated by New, FaultIffNotInstantiable and NoParameterlessConstructorNoInstance |
| SettingsExtensions.NoParameterlessConstructorNoInstance | ConfOxide/MemberAccess/TypeAccessor.cs:24 | a settings class without a parameterless constructor never constructs: the base constructor throws TypeInitialization(MissingConstructor) |
| SettingsExtensions.FaultIffNotInstantiable | ConfOxide/SettingsBase.cs:27-35 | construction faults exactly when the build failed, Error is non-empty, or a nested type is not constructible |
| SettingsExtensions.NestedFaultNone | ConfOxide/SettingsBase.cs:33-35 | the initialisation loop raises nothing exactly when every nested type it reaches is constructible |
| SettingsExtensions.NestedFaultIsFinal | ConfOxide/SettingsBase.cs:33-35 | the first failed nested construction stops the loop |
| SettingsExtensions.InitializeValue | ConfOxide/SettingsBase.cs:34 | each accessor initialises its own property, or raises its nested construction fault |
| SettingsExtensions.NestedInitializeValue | ConfOxide/MemberAccess/NestedPropertyAccessor.cs:27 | the property holds a fresh nested instance in its default state, or the nested construction's fault propagates |
| SettingsExtensions.NestedFromJson | ConfOxide/MemberAccess/NestedPropertyAccessor.cs:41-43 | a non-object token gives InvalidCast and leaves the instance unchanged; otherwise the nested instance, still the same object, holds what ReadJson reads |
| SettingsExtensions.LoadState | ConfOxide/MemberAccess/NestedPropertyAccessor.cs:42 | the instance takes the given values in place, keeping its lists and nested objects |
| SettingsExtensions.NestedUpdateJsonProperty | ConfOxide/MemberAccess/NestedPropertyAccessor.cs:46-52 | the name stays; an existing object is updated, and any other value is replaced by the nested instance's ToJson |
| SettingsExtensions.EquivalentToIsSymmetric | ConfOxide/SettingsExtensions.cs:15-17 | EquivalentTo is reflexive and symmetric |
| SettingsExtensions.ResetIsAsConstructed | ConfOxide/SettingsBase.cs:36 | a reset instance is equivalent to a newly constructed one |
| SettingsExtensions.AssignFromMakesEquivalent | ConfOxide/SettingsExtensions.cs:26-29 | for a type without nested properties, AssignFrom a distinct source makes the target equivalent to it |
| SettingsExtensions.ConstructedHasNoNull | ConfOxide/SettingsBase.cs:33-35 | in a constructed instance no list or nested property is null |
| SettingsExtensions.NestedJsonRoundTrip | ConfOxide/MemberAccess/NestedPropertyAccessor.cs:41-52 | when ReadJson restores what ToJson writes, reading the object written in place of a non-object restores the nested values |

## Left out

- Floating-point semantics: double and float values are opaque, so NaN comparison is not modelled.
- Object identity of JSON tokens: `JProperty` and `JArray` are values returned by the update operations rather than objects mutated in place.
- Static properties and indexers: `GetProperties` is taken to return the instance properties with their accessors' metadata.
- A type implementing `IList<E>` for several E: `GetInterface` throws on that ambiguity, and it is not modelled.
- A user setter that stores a shared object: the model requires the objects of distinct properties and instances to be disjoint.
- The `TargetInvocationException` wrapping of `Activator.CreateInstance`: accessor constructor faults are reported unwrapped.
- The thread safety of the static constructor.
- `ReadOnlyPropertyCollection` (ConfOxide/MemberAccess/TypeAccessor.cs:78-90): it only forwards to `PropertyCollection`.
- `TypeAccessor<T>.CreateInstance` (ConfOxide/MemberAccess/TypeAccessor.cs:24): its initialiser is modelled, as the first step of `Metadata.TypeAccessorOf`, failing without a parameterless constructor. The compiled delegate itself is not: `SettingsExtensions.New` stands for `new T()`, and nothing in the modelled files calls `CreateInstance`.
- `ReadJson`, `ToJson` and `UpdateJson` of a settings instance: their files are not part of this model, and they are given as `JsonHooks` functions of the values.
  - `LoadState` writes the values read back in place.
  - A fault inside `ReadJson` is not modelled.
- SettingsFileExtensions.cs (file I/O) is not part of this model.
- Attribute reflection: `JsonProperty`, `DataMember` and `DefaultValue` are fields of `PropertyInfo`.
- Cyclic nesting of settings types: a type's build embeds the builds of its nested types, so a type nesting itself cannot be described.
- Metadata.BuildTypeAccessor: builds with the corrected `Metadata.Classify`, not with `Metadata.ClassifyAsWritten`, so it and `TypeAccessorOf`, `New` and the instance operations give scalar properties the accessor the code evidently intends rather than the rejection the code produces.
- The class initialiser of `ScalarType<T>` for an enum: taken to build, so the reflection lookup of the JValue constructor it relies on is not modelled. The initialiser is taken to run at the codec's first use.
- Type names are as `TypeDesc` prints them, not full .NET assembly-qualified names.
- SettingsExtensions.NestedUpdateJsonProperty: the result is stated through the hooks only. Whether `UpdateJson` keeps unrelated keys is up to the hook.

## Findings

| source | as written | input that shows it | evidently intended | confidence | as-written member | corrected member |
|---|---|---|---|---|---|---|
| ConfOxide/MemberAccess/TypeAccessor.cs:48-52 | `Activator.CreateInstance(type, prop)` searches public constructors only, and ValuePropertyAccessor's constructor (ConfOxide/MemberAccess/ValuePropertyAccessor.cs:21) is internal | a sealed settings class with `public int Count { get; set; }` | the scalar property gets a ValuePropertyAccessor | high, not executed | Metadata.ClassifyAsWritten | Metadata.Classify |
