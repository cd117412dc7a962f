/**
 * The type descriptors the metadata build classifies, and the three
 * classification predicates of ConfOxide/MemberAccess/TypeExtensions.cs.
 *
 * A type is identified by its name: `SettingsBaseOf(n)` is the closed
 * generic `SettingsBase<n>`, and a declared type is that generic's own
 * argument when its name is `n`.
 */
module TypeExtensions {
  import opened Wrappers
  import opened Values

  /** The CLR primitive types (`Type.IsPrimitive`). */
  datatype PrimitiveKind =
    | Boolean | Byte | SByte | Int16 | UInt16 | Int32 | UInt32 | Int64 | UInt64
    | IntPtr | UIntPtr | Char | Double | Single

  /** The direct base class of a type. */
  datatype BaseRef =
    | SettingsBaseOf(argument: string)   // the closed generic SettingsBase<argument>
    | OtherBase(name: string)            // any other base: object, ValueType, Enum, a user class, another generic

  datatype SetterAccess = NoSetter | NonPublicSetter | PublicSetter

  datatype TypeDesc =
    | StringType
    | Primitive(kind: PrimitiveKind)
    | DecimalType
    | DateTimeType
    | DateTimeOffsetType
    | TimeSpanType
    | UriType
    | EnumType(name: string)
    | NullableOf(underlying: TypeDesc)   // Nullable<underlying>
    | ObjectType                         // System.Object, which has no base type
    | IListOf(element: TypeDesc)         // the interface IList<element> itself
    | Declared(decl: TypeDecl)           // any other class, struct or interface

  /**
   * A class, struct or interface as reflection sees it. `listElement` is the
   * argument of the IList<E> it implements, if any; `properties` is what
   * `GetProperties()` returns, in that order.
   */
  datatype TypeDecl = TypeDecl(
    name: string,
    isInterface: bool,
    isSealed: bool,
    baseType: Option<BaseRef>,
    listElement: Option<TypeDesc>,
    hasDefaultConstructor: bool,
    properties: seq<PropertyInfo>)

  /**
   * A public property with its attributes already resolved: the names given
   * by [JsonProperty] and [DataMember] (None when absent or null) and the
   * literal of [DefaultValue].
   */
  datatype PropertyInfo = PropertyInfo(
    name: string,
    propertyType: TypeDesc,
    hasPublicGetter: bool,
    setter: SetterAccess,
    jsonPropertyName: Option<string>,
    dataMemberName: Option<string>,
    defaultValue: Option<Value>)

  /** `Nullable.GetUnderlyingType(t) ?? t`: one level of nullability removed. */
  function Underlying(t: TypeDesc): TypeDesc {
    if t.NullableOf? then t.underlying else t
  }

  /** The `scalarTypes` set. */
  const ScalarTypes: set<TypeDesc> := {StringType, DateTimeType, DateTimeOffsetType, TimeSpanType, UriType}

  /** Whether a property of type `t` is stored as a single settings value. */
  function IsScalarType(t: TypeDesc): (r: bool)
    ensures !t.NullableOf? ==>
      (r <==> t.StringType? || t.Primitive? || t.DateTimeType? || t.DateTimeOffsetType? || t.TimeSpanType? || t.UriType?)
    ensures t.DecimalType? || t.EnumType? ==> !r
  {
    if t == StringType then true
    else
      var u := Underlying(t);
      if u.Primitive? then true
      else if u in ScalarTypes then true
      else false
  }

  /** `Type.BaseType`; None for object and for interfaces. */
  function BaseTypeOf(t: TypeDesc): (b: Option<BaseRef>)
    ensures b.Some? && b.value.SettingsBaseOf? ==> t.Declared?
  {
    match t
    case ObjectType => None
    case IListOf(_) => None
    case Declared(d) => if d.isInterface then None else d.baseType
    case StringType => Some(OtherBase("System.Object"))
    case UriType => Some(OtherBase("System.Object"))
    case EnumType(_) => Some(OtherBase("System.Enum"))
    case _ => Some(OtherBase("System.ValueType"))
  }

  /** `Type.ToString()`, as the unrecognized-type error message prints it. */
  function TypeName(t: TypeDesc): string {
    match t
    case StringType => "System.String"
    case Primitive(k) => "System." + PrimitiveName(k)
    case DecimalType => "System.Decimal"
    case DateTimeType => "System.DateTime"
    case DateTimeOffsetType => "System.DateTimeOffset"
    case TimeSpanType => "System.TimeSpan"
    case UriType => "System.Uri"
    case EnumType(n) => n
    case NullableOf(u) => "System.Nullable`1[" + TypeName(u) + "]"
    case ObjectType => "System.Object"
    case IListOf(e) => "System.Collections.Generic.IList`1[" + TypeName(e) + "]"
    case Declared(d) => d.name
  }

  function PrimitiveName(k: PrimitiveKind): string {
    match k
    case Boolean => "Boolean"
    case Byte => "Byte"
    case SByte => "SByte"
    case Int16 => "Int16"
    case UInt16 => "UInt16"
    case Int32 => "Int32"
    case UInt32 => "UInt32"
    case Int64 => "Int64"
    case UInt64 => "UInt64"
    case IntPtr => "IntPtr"
    case UIntPtr => "UIntPtr"
    case Char => "Char"
    case Double => "Double"
    case Single => "Single"
  }

  /**
   * Whether `t` derives directly from `SettingsBase<t>`. Reading the base
   * type of a type that has none (object, an interface) dereferences null.
   */
  function IsSettingsType(t: TypeDesc): (r: Result<bool, Fault>)
    ensures r.Failure? <==> BaseTypeOf(t).None?
    ensures r.Failure? ==> r.error == NullReference
    ensures r == Success(true) <==>
      t.Declared? && !t.decl.isInterface && t.decl.baseType == Some(SettingsBaseOf(t.decl.name))
  {
    match BaseTypeOf(t)
    case None => Failure(NullReference)
    case Some(b) => Success(b.SettingsBaseOf? && b.argument == TypeName(t))
  }

  /** Whether `Type.IsInterface` holds. */
  predicate IsInterface(t: TypeDesc) {
    t.IListOf? || (t.Declared? && t.decl.isInterface)
  }

  /** The E of IList<E> when `t` is or implements it; None otherwise. */
  function GetListElementType(t: TypeDesc): (r: Option<TypeDesc>)
    ensures t.IListOf? ==> r == Some(t.element)
    ensures t.Declared? ==> r == t.decl.listElement
    ensures r.None? <==> !t.IListOf? && !(t.Declared? && t.decl.listElement.Some?)
  {
    match t
    case IListOf(e) => Some(e)
    case Declared(d) => d.listElement
    case _ => None
  }

  // ---------------------------------------------------------------------
  // Properties of the predicates

  /** Strings are scalar before any unwrapping is tried. */
  lemma StringIsScalar()
    ensures IsScalarType(StringType)
  {
  }

  /** One level of nullability is transparent: Nullable<U> is scalar exactly when U is. */
  lemma NullableScalarIffUnderlying(u: TypeDesc)
    requires !u.NullableOf?
    ensures IsScalarType(NullableOf(u)) <==> IsScalarType(u)
  {
  }

  /** Neither decimal nor an enum, bare or nullable, is accepted as a scalar. */
  lemma DecimalAndEnumsAreNotScalar(enumName: string)
    ensures !IsScalarType(DecimalType) && !IsScalarType(NullableOf(DecimalType))
    ensures !IsScalarType(EnumType(enumName)) && !IsScalarType(NullableOf(EnumType(enumName)))
  {
  }

  /**
   * A class deriving from an intermediate generic base (`Derived : Base<Derived>`
   * with `Base<T> : SettingsBase<T>`) is not a settings type: only the direct
   * base counts.
   */
  lemma LayeredClassIsNotSettingsType(d: TypeDecl, intermediate: string)
    requires !d.isInterface && d.baseType == Some(OtherBase(intermediate))
    ensures IsSettingsType(Declared(d)) == Success(false)
  {
  }
}
