/** The values the metadata-driven codec reads and produces: reader tokens,
    the boxed scalar a token carries, the object graph the typed decoder
    builds, the tree the untyped decoder builds, and the codec's errors. */
module JsonValues {
  import opened Wrappers
  import opened ClrTypes

  /** A floating-point value, kept as its IEEE-754 bit pattern: floating
      point is not interpreted by this model. */
  datatype Float = Float(bits: bv64)

  /** What `JsonReader.Read()` leaves in `Token` and `Value`. */
  datatype Token =
    | ObjectStart
    | PropertyName(name: string)
    | ObjectEnd
    | ArrayStart
    | ArrayEnd
    | Int(i: int)
    | Long(l: int)
    | Double(d: Float)
    | String(s: string)
    | Boolean(b: bool)
    | Null

  /** A boxed scalar: the reader's `Value`, or a value converted to one. */
  datatype Scalar = SInt(i: int) | SLong(l: int) | SDouble(d: Float) | SString(s: string) | SBool(b: bool)

  predicate IsScalarToken(tok: Token) {
    tok.Int? || tok.Long? || tok.Double? || tok.String? || tok.Boolean?
  }

  function ScalarOf(tok: Token): Scalar
    requires IsScalarToken(tok)
  {
    match tok
    case Int(i) => SInt(i)
    case Long(l) => SLong(l)
    case Double(d) => SDouble(d)
    case String(s) => SString(s)
    case Boolean(b) => SBool(b)
  }

  /** `reader.Value.GetType()`. */
  function JsonType(s: Scalar): TypeId {
    match s
    case SInt(_) => Prim(Int32)
    case SLong(_) => Prim(Int64)
    case SDouble(_) => Prim(Prim.Double)
    case SString(_) => Prim(Prim.String)
    case SBool(_) => Prim(Prim.Boolean)
  }

  /** `(string)reader.Value` where a property name is expected: the name of a
      `PropertyName` or the text of a `String`; other scalars fail the cast,
      and the structural tokens carry a null value. */
  function KeyOf(tok: Token): Result<Option<string>, JsonError> {
    match tok
    case PropertyName(name) => Success(Some(name))
    case String(s) => Success(Some(s))
    case Int(_) => Failure(InvalidCast)
    case Long(_) => Failure(InvalidCast)
    case Double(_) => Failure(InvalidCast)
    case Boolean(_) => Failure(InvalidCast)
    case _ => Success(None)
  }

  const Int32Min: int := -0x8000_0000
  const Int32Max: int := 0x7FFF_FFFF

  /** Foreign code that turns a scalar into a value of the target type: an
      importer delegate, an implicit conversion operator, or a floating-point
      coercion. Its result is kept symbolic. */
  datatype Conversion = CustomImporter | BaseImporter | ImplicitOperator | ToInt32 | ToSingle | ToDouble

  /** The objects the typed decoder returns. */
  datatype Val =
    | VNull
    | VScalar(scalar: Scalar)                                   // a boxed scalar
    | VEnum(enumType: TypeId, number: int)                      // Enum.ToObject
    | VConverted(via: Conversion, target: TypeId, source: Scalar)
    | VArray(elementType: TypeId, items: seq<Val>)              // Array.CreateInstance, then filled
    | VList(listType: TypeId, items: seq<Val>)                  // an IList instance, Add-ed to
    | VObject(objectType: TypeId, members: map<string, Val>, entries: map<string, Val>)
      // a created instance: members set through reflection, entries Add-ed
      // through IDictionary

  /** The tree the untyped decoder builds from `IJsonWrapper`s (`JsonData`);
      `JNone` is a wrapper whose type was never set. `None` stands for null. */
  datatype JsonNode =
    | JNone
    | JString(s: string)
    | JDouble(d: Float)
    | JInt(i: int)
    | JLong(l: int)
    | JBool(b: bool)
    | JArray(items: seq<Option<JsonNode>>)
    | JObject(props: seq<Prop>)

  /** One property of a `JObject`, in insertion order. */
  datatype Prop = Prop(key: string, value: Option<JsonNode>)

  /** The exceptions the codec raises (or lets through). */
  datatype JsonError =
    | UnexpectedEnd                                  // the text ended inside a value
    | NullReference                                  // a null Type or object was dereferenced
    | InvalidCast                                    // a cast in the code failed
    | IndexOutOfRange                                // GenericArguments[i] past the end
    | CannotAssign(value: Scalar, jsonType: TypeId, target: TypeId)
    | EnumArgument(value: Scalar, enumType: TypeId)  // Enum.ToObject refused the value
    | Overflow(value: Scalar)                        // Convert.ToInt32 out of range
    | CannotActAsArray(arrayType: TypeId)
    | NoSuchProperty(objectType: TypeId, name: string)
    | DuplicateKey(key: string)                      // Dictionary.Add of a present key
    | NullKey                                        // a null property name used as a dictionary key
    | NotWritable(member: string)                    // SetValue on a literal field or a property without setter
    | CreateFailed(createdType: TypeId)              // the instance could not be constructed
    | MaxDepthExceeded
}
