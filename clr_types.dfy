/** What the bridge and the codec learn about a `System.Type` through
    reflection. Reflection is a foreign call, so every answer the code asks of
    a type is recorded once in a `TypeInfo`, and a `TypeEnv` maps type handles
    to those answers. */
module ClrTypes {
  import opened Wrappers

  /** The primitive CLR types the code compares against by identity
      (`typeof(int)`, `typeof(long)`, ...). */
  datatype Prim = Int32 | Int64 | Int16 | Byte | SByte | UInt16 | UInt32 | UInt64 | Single | Double | Boolean | String

  /** A `System.Type` handle: a primitive type, or any other type by number. */
  datatype TypeId = Prim(prim: Prim) | Named(id: nat)

  /** How ILRuntime presents a type: an interpreted `ILRuntimeType`, an
      `ILRuntimeWrapperType` around a CLR type, or a plain CLR type. */
  datatype TypeKind =
    | Native
    | Interpreted
    | Wrapper(
        realType: TypeId,              // RealType
        typeForClr: TypeId,            // CLRType.TypeForCLR
        clrElementType: Option<TypeId>,   // CLRType.ElementType.ReflectionType
        genericArguments: seq<TypeId>)    // CLRType.GenericArguments[i].Value.ReflectionType

  /** A property as `GetProperties` reports it; an indexer has index parameters. */
  datatype PropertyInfo = PropertyInfo(name: string, indexParameters: seq<TypeId>, propertyType: TypeId, hasSetter: bool)

  /** A field as `GetFields` reports it. */
  datatype FieldInfo = FieldInfo(name: string, fieldType: TypeId, isPublic: bool, isLiteral: bool)

  datatype TypeInfo = TypeInfo(
    fullName: string,
    kind: TypeKind,
    baseType: Option<TypeId>,
    inheritanceDepth: nat,            // number of base types above this one
    isValueType: bool,
    isEnum: bool,
    enumUnderlying: Prim,             // GetEnumUnderlyingType(), for an enum
    isArray: bool,
    elementType: Option<TypeId>,      // GetElementType()
    isList: bool,                     // implements System.Collections.IList
    isDictionary: bool,               // implements System.Collections.IDictionary
    instantiable: bool,               // Activator.CreateInstance / ILType.Instantiate succeed
    assignableFrom: set<TypeId>,      // IsAssignableFrom, besides the type itself
    implicitFrom: set<TypeId>,        // parameter types of its implicit conversion operators
    properties: seq<PropertyInfo>,    // GetProperties(): public, inherited ones included
    declaredProperties: seq<PropertyInfo>,  // GetProperties(DeclaredOnly | every visibility)
    fields: seq<FieldInfo>)           // GetFields(Instance | Static | Public | NonPublic)

  type TypeEnv = map<TypeId, TypeInfo>

  /** `typeof(string)` and `typeof(int)`. */
  const StringType: TypeId := Prim(String)
  const Int32Type: TypeId := Prim(Int32)

  /** The answers for a handle reflection knows nothing about. */
  const Unknown: TypeInfo :=
    TypeInfo("", Native, None, 0, false, false, Int32, false, None, false, false, false, {}, {}, [], [], [])

  function Info(env: TypeEnv, t: TypeId): TypeInfo {
    if t in env then env[t] else Unknown
  }

  /** The CLR guarantees: base-type chains end (each base is shallower), and
      an array type has an element type. */
  ghost predicate WellFormed(env: TypeEnv) {
    && (forall t | t in env && env[t].baseType.Some? ::
          Info(env, env[t].baseType.value).inheritanceDepth < env[t].inheritanceDepth)
    && (forall t | t in env && env[t].isArray :: env[t].elementType.Some?)
  }

  lemma BaseIsShallower(env: TypeEnv, t: TypeId)
    requires WellFormed(env) && Info(env, t).baseType.Some?
    ensures Info(env, Info(env, t).baseType.value).inheritanceDepth < Info(env, t).inheritanceDepth
  {
  }

  /** `Type.IsValueType`; the primitive types are fixed by the CLR. */
  predicate IsValueType(env: TypeEnv, t: TypeId) {
    match t
    case Prim(p) => p != String
    case Named(_) => Info(env, t).isValueType
  }

  /** `target.IsAssignableFrom(source)`. */
  predicate IsAssignableFrom(env: TypeEnv, target: TypeId, source: TypeId) {
    target == source || source in Info(env, target).assignableFrom
  }

  /** `Type.GetField(name)`: a public field of that name. */
  predicate HasPublicField(env: TypeEnv, t: TypeId, name: string) {
    exists i | 0 <= i < |Info(env, t).fields| :: Info(env, t).fields[i].name == name && Info(env, t).fields[i].isPublic
  }

  /** The type `k` steps up the `BaseType` chain from `t` (`t` itself for 0). */
  function Ancestor(env: TypeEnv, t: TypeId, k: nat): Option<TypeId>
    requires WellFormed(env)
    decreases k
  {
    if k == 0 then Some(t)
    else match Info(env, t).baseType
      case None => None
      case Some(b) => Ancestor(env, b, k - 1)
  }

  /** `t`, or one of its base types, has the full name `name`. */
  predicate DerivesFromName(env: TypeEnv, t: TypeId, name: string)
    requires WellFormed(env)
    decreases Info(env, t).inheritanceDepth
  {
    || Info(env, t).fullName == name
    || match Info(env, t).baseType
       case None => false
       case Some(b) => BaseIsShallower(env, t); DerivesFromName(env, b, name)
  }

  /** `DerivesFromName` walks exactly the `BaseType` chain: it holds when and
      only when some ancestor carries the name. */
  lemma {:induction false} DerivesFromNameIsAncestorName(env: TypeEnv, t: TypeId, name: string)
    requires WellFormed(env)
    ensures DerivesFromName(env, t, name) <==>
            exists k: nat :: Ancestor(env, t, k).Some? && Info(env, Ancestor(env, t, k).value).fullName == name
    decreases Info(env, t).inheritanceDepth
  {
    if Info(env, t).fullName == name {
      var k: nat := 0;
      assert Ancestor(env, t, k) == Some(t);
      assert Ancestor(env, t, k).Some? && Info(env, Ancestor(env, t, k).value).fullName == name;
    } else {
      match Info(env, t).baseType
      case None =>
        forall k: nat | Ancestor(env, t, k).Some?
          ensures Info(env, Ancestor(env, t, k).value).fullName != name
        {
          assert k == 0;
        }
      case Some(b) =>
        BaseIsShallower(env, t);
        assert DerivesFromName(env, t, name) == DerivesFromName(env, b, name);
        DerivesFromNameIsAncestorName(env, b, name);
        AncestorNamedStep(env, t, b, name);
    }
  }

  /** Below a type without the name, the named ancestors are those of its base. */
  lemma AncestorNamedStep(env: TypeEnv, t: TypeId, b: TypeId, name: string)
    requires WellFormed(env) && Info(env, t).baseType == Some(b) && Info(env, t).fullName != name
    ensures (exists k: nat :: Ancestor(env, t, k).Some? && Info(env, Ancestor(env, t, k).value).fullName == name) <==>
            (exists k: nat :: Ancestor(env, b, k).Some? && Info(env, Ancestor(env, b, k).value).fullName == name)
  {
    if exists k: nat :: Ancestor(env, b, k).Some? && Info(env, Ancestor(env, b, k).value).fullName == name {
      var k: nat :| Ancestor(env, b, k).Some? && Info(env, Ancestor(env, b, k).value).fullName == name;
      var j: nat := k + 1;
      assert Ancestor(env, t, j) == Ancestor(env, b, k);
      assert Ancestor(env, t, j).Some? && Info(env, Ancestor(env, t, j).value).fullName == name;
    }
    if exists k: nat :: Ancestor(env, t, k).Some? && Info(env, Ancestor(env, t, k).value).fullName == name {
      var k: nat :| Ancestor(env, t, k).Some? && Info(env, Ancestor(env, t, k).value).fullName == name;
      assert k != 0;
      var j: nat := k - 1;
      assert Ancestor(env, t, k) == Ancestor(env, b, j);
      assert Ancestor(env, b, j).Some? && Info(env, Ancestor(env, b, j).value).fullName == name;
    }
  }
}
