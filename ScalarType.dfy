/**
 * The scalar codec of ConfOxide/MemberAccess/ScalarType.cs: a scalar value to
 * a JSON value and back, and a loosely typed default literal to the scalar.
 */
module ScalarType {
  import opened Wrappers
  import opened Values
  import opened TypeExtensions
  import opened Json

  type Outcome = Result<Value, Fault>

  /**
   * The runtime library calls the codec makes. Each is a total function that
   * answers the value, or the exception the call throws: Argument for the
   * JToken conversions that do not apply and for a name Enum.Parse does not
   * know, BadFormat or Overflow for a parse, InvalidCast for a ChangeType
   * that does not apply.
   */
  datatype Runtime = Runtime(
    changeType: (Value, TypeDesc) -> Outcome,    // Convert.ChangeType(o, type, CultureInfo.InvariantCulture)
    castToken: (JToken, TypeDesc) -> Outcome,    // the explicit conversion (T)token
    parseEnum: (TypeDesc, string) -> Outcome,    // Enum.Parse(type, s, ignoreCase: true)
    enumToObject: (TypeDesc, Value) -> Outcome,  // Enum.ToObject(type, o)
    enumName: Value -> string,                   // ToString() of an enum value
    parseTimeSpan: string -> Outcome,            // TimeSpan.Parse(s, CultureInfo.InvariantCulture)
    parseDateTimeOffset: string -> Outcome,      // DateTimeOffset.Parse(s, CultureInfo.InvariantCulture)
    toText: Value -> string)                     // ToString() of a non-null object

  /** `default(T)`: zero for value types, null for references and for Nullable<U>. */
  function Default(t: TypeDesc): (v: Value)
    ensures v == Null <==>
      !(t.Primitive? || t.DecimalType? || t.DateTimeType? || t.DateTimeOffsetType? || t.TimeSpanType? || t.EnumType?)
  {
    match t
    case Primitive(Boolean) => Bool(false)
    case Primitive(Double) => Opaque(FloatKind, 0)
    case Primitive(Single) => Opaque(FloatKind, 0)
    case Primitive(_) => Int(0)
    case DecimalType => Opaque(DecimalKind, 0)
    case DateTimeType => Opaque(DateTimeKind, 0)
    case DateTimeOffsetType => Opaque(DateTimeOffsetKind, 0)
    case TimeSpanType => Opaque(TimeSpanKind, 0)
    case EnumType(n) => Opaque(EnumKind(n), 0)
    case _ => Null
  }

  /**
   * `ScalarTypeInfo.JsonConvertibleTypes`: the types JValue has no constructor
   * for, mapped to the type whose constructor is used instead.
   */
  function JsonConvertibleTypes(t: TypeDesc): (r: Option<TypeDesc>)
    ensures r.Some? ==> r.value in {Primitive(Int64), Primitive(UInt64), ObjectType}
  {
    match t
    case Primitive(Byte) => Some(Primitive(Int64))
    case Primitive(SByte) => Some(Primitive(Int64))
    case Primitive(Int16) => Some(Primitive(Int64))
    case Primitive(Int32) => Some(Primitive(Int64))
    case Primitive(UInt16) => Some(Primitive(UInt64))
    case Primitive(UInt32) => Some(Primitive(UInt64))
    case DecimalType => Some(ObjectType)
    case DateTimeOffsetType => Some(ObjectType)
    case _ => None
  }

  // ---------------------------------------------------------------------
  // The class initialiser

  /** A struct declared by the application: its base class is System.ValueType. */
  predicate IsStructDecl(d: TypeDecl) {
    d.baseType == Some(OtherBase("System.ValueType"))
  }

  /**
   * Whether the class initialiser of ScalarType<T> completes. `ToJson` needs a
   * JValue constructor that takes the (widened) value as it is or by reference,
   * and `FromJson`, outside enums, needs a conversion from JToken to T: one of
   * JToken's explicit conversions, or a reference conversion. Object and the
   * interfaces have both; IntPtr, UIntPtr and the application's own classes
   * and structs, settings classes included, lack one of them.
   */
  predicate CodecBuilds(t: TypeDesc) {
    match Underlying(t)
    case Primitive(k) => k != IntPtr && k != UIntPtr
    case Declared(d) => d.isInterface
    case _ => true
  }

  /**
   * The exception every use of ScalarType<T> raises when its initialiser
   * failed. For a value type, `Expression.New` of the JValue(object)
   * constructor rejects the unboxed argument; for a class, `Expression.Convert`
   * finds no conversion from JToken.
   */
  function CodecFault(t: TypeDesc): (f: Fault)
    ensures f.TypeInitialization?
  {
    var u := Underlying(t);
    if u.Primitive? || (u.Declared? && IsStructDecl(u.decl)) then TypeInitialization(ArgumentMismatch)
    else TypeInitialization(InvalidOperation(
      "No coercion operator is defined between types 'Newtonsoft.Json.Linq.JToken' and '" + TypeName(u) + "'."))
  }

  // ---------------------------------------------------------------------
  // The delegates
  //
  // `ToJson`, `FromJson` and `FromObject` are the delegates the initialiser
  // stores; they exist only when `CodecBuilds(t)`, which every caller checks
  // first and answers with `CodecFault(t)` otherwise.

  /**
   * `ScalarType<T>.ToJson`. The value of a Nullable<U> is unwrapped, widened
   * through the table, turned into its name when U is an enum, and handed to
   * the JValue constructor for `convertTo ?? U`; a Nullable<U> without a
   * value becomes a JSON null.
   */
  function ToJson(rt: Runtime, t: TypeDesc, v: Value): (j: JToken)
    ensures IsJValue(j)
    ensures j == JNull <==> t.NullableOf? && v == Null
    ensures j.JValue? ==> j.constructedFrom == JsonConvertibleTypes(Underlying(t)).GetOr(Underlying(t))
  {
    var u := Underlying(t);
    var inner := JValue(JsonConvertibleTypes(u).GetOr(u), if u.EnumType? then Text(rt.enumName(v)) else v);
    if !t.NullableOf? then inner         // underlyingType == typeof(T)
    else if v != Null then inner
    else JNull
  }

  /**
   * `ScalarType<T>.FromJson`. For an enum (or a nullable enum) a JSON null is
   * `default(T)` and anything else is the string form of the token parsed as
   * a member name, ignoring case; for every other T it is the token's
   * explicit conversion to T, which throws when the token does not fit.
   */
  function FromJson(rt: Runtime, t: TypeDesc, jv: JToken): Result<Value, Fault>
    requires IsJValue(jv)
  {
    var u := Underlying(t);
    if u.EnumType? then
      if jv.JNull? then Success(Default(t))
      else
        match rt.castToken(jv, StringType)
        case Success(Text(s)) => rt.parseEnum(u, s)
        case Success(_) => Failure(ArgumentNull)
        case Failure(f) => Failure(f)
    else rt.castToken(jv, t)
  }

  /**
   * `ScalarType<T>.FromObject`: an enum from a member name or from a number,
   * a TimeSpan or DateTimeOffset as itself or parsed from its string form,
   * anything else through Convert.ChangeType to the underlying type.
   */
  function FromObject(rt: Runtime, t: TypeDesc, o: Value): Result<Value, Fault> {
    var u := Underlying(t);
    if u.EnumType? then
      if o.Text? then rt.parseEnum(u, o.s)
      else rt.enumToObject(u, o)
    else if u == TimeSpanType then
      if o.Opaque? && o.kind == TimeSpanKind then Success(o)
      else if o == Null then Failure(NullReference)
      else rt.parseTimeSpan(rt.toText(o))
    else if u == DateTimeOffsetType then
      if o.Opaque? && o.kind == DateTimeOffsetKind then Success(o)
      else if o == Null then Failure(NullReference)
      else rt.parseDateTimeOffset(rt.toText(o))
    else rt.changeType(o, u)
  }

  /** The codec can be built for the type and reads back exactly the value it writes. */
  ghost predicate RoundTrips(rt: Runtime, t: TypeDesc, v: Value) {
    CodecBuilds(t) && FromJson(rt, t, ToJson(rt, t, v)) == Success(v)
  }

  // ---------------------------------------------------------------------
  // Properties of the codec

  /** A nullable scalar with a value serialises exactly as the underlying type would. */
  lemma NullableWithValueAsUnderlying(rt: Runtime, u: TypeDesc, v: Value)
    requires !u.NullableOf? && v != Null
    ensures CodecBuilds(NullableOf(u)) <==> CodecBuilds(u)
    ensures ToJson(rt, NullableOf(u), v) == ToJson(rt, u, v)
  {
  }

  /** byte, sbyte, short and int go through long; ushort and uint through ulong. */
  lemma IntegersAreWidened(rt: Runtime, k: PrimitiveKind, v: Value)
    ensures k in {Byte, SByte, Int16, Int32} ==> ToJson(rt, Primitive(k), v) == JValue(Primitive(Int64), v)
    ensures k in {UInt16, UInt32} ==> ToJson(rt, Primitive(k), v) == JValue(Primitive(UInt64), v)
    ensures k in {Int64, UInt64, Boolean, Char, Double, Single} ==> ToJson(rt, Primitive(k), v) == JValue(Primitive(k), v)
  {
  }

  /** A type the table maps to has a JValue constructor of its own: widening is done in one step. */
  lemma WideningIsFinal(t: TypeDesc)
    ensures JsonConvertibleTypes(t).Some? ==> JsonConvertibleTypes(JsonConvertibleTypes(t).value).None?
  {
  }

  /** decimal and DateTimeOffset values are boxed and given to JValue(object). */
  lemma DecimalAndOffsetAreBoxed(rt: Runtime, v: Value)
    ensures ToJson(rt, DecimalType, v) == JValue(ObjectType, v)
    ensures ToJson(rt, DateTimeOffsetType, v) == JValue(ObjectType, v)
  {
  }

  /** An enum value is written as its name. */
  lemma EnumWrittenAsName(rt: Runtime, n: string, v: Value)
    ensures ToJson(rt, EnumType(n), v) == JValue(EnumType(n), Text(rt.enumName(v)))
    ensures v != Null ==> ToJson(rt, NullableOf(EnumType(n)), v) == JValue(EnumType(n), Text(rt.enumName(v)))
  {
  }

  /** Reading an enum: null gives default(T); a string is parsed by name, ignoring case. */
  lemma EnumReadByName(rt: Runtime, t: TypeDesc, jv: JToken, s: string)
    requires Underlying(t).EnumType? && IsJValue(jv)
    ensures jv == JNull ==> FromJson(rt, t, jv) == Success(Default(t))
    ensures jv != JNull && rt.castToken(jv, StringType) == Success(Text(s)) ==>
      FromJson(rt, t, jv) == rt.parseEnum(Underlying(t), s)
    ensures jv != JNull && rt.castToken(jv, StringType).Failure? ==>
      FromJson(rt, t, jv) == Failure(rt.castToken(jv, StringType).error)
  {
  }

  /** Reading anything but an enum is the token's cast to T, failing when the cast does. */
  lemma NonEnumReadIsCast(rt: Runtime, t: TypeDesc, jv: JToken)
    requires CodecBuilds(t) && !Underlying(t).EnumType? && IsJValue(jv)
    ensures FromJson(rt, t, jv).Failure? <==> rt.castToken(jv, t).Failure?
    ensures FromJson(rt, t, jv) == rt.castToken(jv, t)
  {
  }

  /** A TimeSpan or DateTimeOffset default literal of the right type is taken as it is; otherwise its string form is parsed. */
  lemma TimeLiteralsParsed(rt: Runtime, t: TypeDesc, o: Value)
    requires Underlying(t) == TimeSpanType || Underlying(t) == DateTimeOffsetType
    ensures Underlying(t) == TimeSpanType && o.Opaque? && o.kind == TimeSpanKind ==> FromObject(rt, t, o) == Success(o)
    ensures Underlying(t) == DateTimeOffsetType && o.Opaque? && o.kind == DateTimeOffsetKind ==> FromObject(rt, t, o) == Success(o)
    ensures Underlying(t) == TimeSpanType && !(o.Opaque? && o.kind == TimeSpanKind) && o != Null ==>
      FromObject(rt, t, o) == rt.parseTimeSpan(rt.toText(o))
    ensures Underlying(t) == DateTimeOffsetType && !(o.Opaque? && o.kind == DateTimeOffsetKind) && o != Null ==>
      FromObject(rt, t, o) == rt.parseDateTimeOffset(rt.toText(o))
    ensures o == Null ==> FromObject(rt, t, o) == Failure(NullReference)
  {
  }

  /** An enum default literal is parsed by name when it is a string, and converted numerically otherwise. */
  lemma EnumLiteralsByNameOrNumber(rt: Runtime, t: TypeDesc, o: Value)
    requires Underlying(t).EnumType?
    ensures o.Text? ==> FromObject(rt, t, o) == rt.parseEnum(Underlying(t), o.s)
    ensures !o.Text? ==> FromObject(rt, t, o) == rt.enumToObject(Underlying(t), o)
  {
  }

  // ---------------------------------------------------------------------
  // Which codecs exist, and round trips

  /** Every scalar type has a codec, except IntPtr and UIntPtr. */
  lemma ScalarTypesHaveCodec(t: TypeDesc)
    requires IsScalarType(t)
    ensures CodecBuilds(t) <==> Underlying(t) != Primitive(IntPtr) && Underlying(t) != Primitive(UIntPtr)
  {
  }

  /**
   * A class or struct of the application, such as a settings class used as a
   * list element, has no codec: every use of it raises the initialiser's fault.
   */
  lemma DeclaredTypesHaveNoCodec(d: TypeDecl)
    requires !d.isInterface
    ensures !CodecBuilds(Declared(d)) && !CodecBuilds(NullableOf(Declared(d)))
    ensures CodecFault(Declared(d)).TypeInitialization?
  {
  }

  /** A nullable enum without a value is written as JSON null and read back as null. */
  lemma NullEnumRoundTrips(rt: Runtime, n: string)
    ensures RoundTrips(rt, NullableOf(EnumType(n)), Null)
  {
    assert ToJson(rt, NullableOf(EnumType(n)), Null) == JNull;
  }

  /**
   * An enum value is read back from its name when the string conversion of
   * that JSON value gives the name and Enum.Parse maps the name to the value.
   */
  lemma EnumRoundTrips(rt: Runtime, n: string, v: Value)
    requires rt.castToken(JValue(EnumType(n), Text(rt.enumName(v))), StringType) == Success(Text(rt.enumName(v)))
    requires rt.parseEnum(EnumType(n), rt.enumName(v)) == Success(v)
    ensures RoundTrips(rt, EnumType(n), v)
    ensures v != Null ==> RoundTrips(rt, NullableOf(EnumType(n)), v)
  {
    assert ToJson(rt, EnumType(n), v) == JValue(EnumType(n), Text(rt.enumName(v)));
  }
}
