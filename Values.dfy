/**
 * Runtime values held by scalar properties and list elements, and the
 * exceptions the modelled code can raise.
 */
module Values {

  /** Payloads with no arithmetic in the model: they are only stored and compared. */
  datatype OpaqueKind =
    | FloatKind                     // float and double
    | DecimalKind
    | DateTimeKind
    | DateTimeOffsetKind
    | TimeSpanKind
    | UriKind
    | EnumKind(enumType: string)

  datatype Value =
    | Null                          // a null reference, or a Nullable<U> without a value
    | Bool(b: bool)
    | Int(i: int)                   // every integral primitive type, and char
    | Text(s: string)
    | Opaque(kind: OpaqueKind, bits: int)
    | Ref(address: nat)             // a reference to an object of a non-scalar type

  /** The exceptions thrown by the modelled code or by the runtime calls it makes. */
  datatype Fault =
    | NullReference                 // a member was called on null
    | ArgumentNull                  // a reflection or expression-tree call got a null member
    | ArgumentMismatch              // an expression-tree call got an argument of the wrong type
    | MissingConstructor            // Expression.New on a type without a parameterless constructor
    | MissingMethod                 // Activator.CreateInstance found no public constructor for its arguments
    | InvalidCast                   // a C# cast to JValue, JArray or JObject, or a ChangeType, that does not apply
    | Argument                      // a JToken conversion that does not apply, or a name Enum.Parse does not know
    | BadFormat                     // a parse of a string that fails
    | Overflow                      // a conversion or parse whose result is out of range
    | DuplicateKey(key: string)     // ToDictionary met the same key twice
    | InvalidOperation(message: string)
    | TypeInitialization(inner: Fault)   // a static constructor threw
}
