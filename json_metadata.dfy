/** What the codec's metadata caches hold for a type, as functions of the
    reflection answers: the array shape used when a JSON array is read into a
    type, and the member table used when a JSON object is read into a type. */
module JsonMetadata {
  import opened Wrappers
  import opened ClrTypes
  import opened JsonValues

  /** `ArrayMetadata`: is the type an array, does it implement `IList`, and
      what does it hold. */
  datatype ArrayMetadata = ArrayMetadata(isArray: bool, isList: bool, elementType: Option<TypeId>)

  /** `PropertyMetadata`: a field or a property, its declared type, and
      whether reflection can set it (a property with a setter, a non-constant
      field). */
  datatype PropertyMetadata = PropertyMetadata(isField: bool, memberType: TypeId, writable: bool)

  /** `ObjectMetadata`: does the type implement `IDictionary`, the value type
      of its string indexer, and its members by name. */
  datatype ObjectMetadata = ObjectMetadata(isDictionary: bool, elementType: Option<TypeId>, properties: map<string, PropertyMetadata>)

  /** An indexer `this[key]` with one parameter of type `key`. */
  predicate IsIndexer(p: PropertyInfo, key: TypeId) {
    p.name == "Item" && |p.indexParameters| == 1 && p.indexParameters[0] == key
  }

  /** The type of the last one-parameter indexer keyed by `key`: the loops
      over the properties overwrite the element type at every such indexer. */
  function LastIndexer(props: seq<PropertyInfo>, key: TypeId): Option<TypeId> {
    if |props| == 0 then None
    else
      var last := props[|props| - 1];
      if IsIndexer(last, key) then Some(last.propertyType)
      else LastIndexer(props[..|props| - 1], key)
  }

  /** There is an indexer exactly when one is found, and the one found is the
      last: no indexer for `key` follows it. */
  lemma {:induction false} LastIndexerIsLast(props: seq<PropertyInfo>, key: TypeId)
    ensures LastIndexer(props, key).None? <==> forall i | 0 <= i < |props| :: !IsIndexer(props[i], key)
    ensures LastIndexer(props, key).Some? ==> exists i | 0 <= i < |props| ::
              && IsIndexer(props[i], key) && props[i].propertyType == LastIndexer(props, key).value
              && forall j | i < j < |props| :: !IsIndexer(props[j], key)
    decreases |props|
  {
    if |props| > 0 {
      var n := |props| - 1;
      var init := props[..n];
      if !IsIndexer(props[n], key) {
        LastIndexerIsLast(init, key);
        assert forall i | 0 <= i < n :: init[i] == props[i];
        if LastIndexer(init, key).Some? {
          var i :| 0 <= i < |init| && IsIndexer(init[i], key) && init[i].propertyType == LastIndexer(init, key).value
                   && forall j | i < j < |init| :: !IsIndexer(init[j], key);
          assert forall j | i < j < |props| :: !IsIndexer(props[j], key);
        }
      }
    }
  }

  /** The array metadata `AddArrayMetadata` computes, or the exception it
      throws. A wrapper type asks ILRuntime's own type: its element type when
      it is an array, else its first generic argument; any other type takes
      the last `int` indexer. */
  function ArrayMetadataOf(env: TypeEnv, t: TypeId): Result<ArrayMetadata, JsonError> {
    var info := Info(env, t);
    match info.kind
    case Wrapper(_, _, clrElementType, genericArguments) =>
      if info.isArray then
        if clrElementType.None? then Failure(NullReference)
        else Success(ArrayMetadata(true, info.isList, clrElementType))
      else if |genericArguments| == 0 then Failure(IndexOutOfRange)
      else Success(ArrayMetadata(false, info.isList, Some(genericArguments[0])))
    case _ =>
      Success(ArrayMetadata(info.isArray, info.isList, LastIndexer(info.properties, Int32Type)))
  }

  lemma ArrayMetadataShape(env: TypeEnv, t: TypeId)
    ensures ArrayMetadataOf(env, t).Success? ==>
              && ArrayMetadataOf(env, t).value.isArray == Info(env, t).isArray
              && ArrayMetadataOf(env, t).value.isList == Info(env, t).isList
    ensures !Info(env, t).kind.Wrapper? ==>
              && ArrayMetadataOf(env, t).Success?
              && ArrayMetadataOf(env, t).value.elementType == LastIndexer(Info(env, t).properties, Int32Type)
    ensures Info(env, t).kind.Wrapper? ==>
              (ArrayMetadataOf(env, t).Failure? <==>
                 if Info(env, t).isArray then Info(env, t).kind.clrElementType.None?
                 else |Info(env, t).kind.genericArguments| == 0)
  {
  }

  /** The properties each type up the `BaseType` chain declares, the type's
      own first. */
  function ChainProperties(env: TypeEnv, t: TypeId): (r: seq<PropertyInfo>)
    requires WellFormed(env)
    ensures Info(env, t).declaredProperties <= r
    decreases Info(env, t).inheritanceDepth
  {
    match Info(env, t).baseType
    case None => Info(env, t).declaredProperties
    case Some(b) =>
      BaseIsShallower(env, t);
      Info(env, t).declaredProperties + ChainProperties(env, b)
  }

  /** The property loop of `AddObjectMetadata`, from `acc` on: an indexer
      named `Item` with one `string` parameter sets the element type (for a
      wrapper, its second generic argument); other `Item`s are passed over;
      every other property is added, and a name already present throws. */
  function ScanProperties(env: TypeEnv, t: TypeId, props: seq<PropertyInfo>, acc: ObjectMetadata): Result<ObjectMetadata, JsonError>
    decreases |props|
  {
    if |props| == 0 then Success(acc)
    else
      var p := props[0];
      if p.name == "Item" then
        if IsIndexer(p, StringType) then
          match Info(env, t).kind
          case Wrapper(_, _, _, genericArguments) =>
            if |genericArguments| < 2 then Failure(IndexOutOfRange)
            else ScanProperties(env, t, props[1..], acc.(elementType := Some(genericArguments[1])))
          case _ =>
            ScanProperties(env, t, props[1..], acc.(elementType := Some(p.propertyType)))
        else ScanProperties(env, t, props[1..], acc)
      else if p.name in acc.properties then Failure(DuplicateKey(p.name))
      else
        var data := PropertyMetadata(false, p.propertyType, p.hasSetter);
        ScanProperties(env, t, props[1..], acc.(properties := acc.properties[p.name := data]))
  }

  /** The field loop of `AddObjectMetadata`: every field is added, and a name
      already present throws. */
  function ScanFields(fields: seq<FieldInfo>, acc: ObjectMetadata): Result<ObjectMetadata, JsonError>
    decreases |fields|
  {
    if |fields| == 0 then Success(acc)
    else
      var f := fields[0];
      if f.name in acc.properties then Failure(DuplicateKey(f.name))
      else
        var data := PropertyMetadata(true, f.fieldType, !f.isLiteral);
        ScanFields(fields[1..], acc.(properties := acc.properties[f.name := data]))
  }

  /** The object metadata `AddObjectMetadata` computes, or the exception it throws. */
  function ObjectMetadataOf(env: TypeEnv, t: TypeId): Result<ObjectMetadata, JsonError>
    requires WellFormed(env)
  {
    var start := ObjectMetadata(Info(env, t).isDictionary, None, map[]);
    var withProperties :- ScanProperties(env, t, ChainProperties(env, t), start);
    ScanFields(Info(env, t).fields, withProperties)
  }

  /** The names of the properties that become members (all but `Item`s). */
  function MemberNames(props: seq<PropertyInfo>): set<string>
    decreases |props|
  {
    if |props| == 0 then {}
    else (if props[0].name != "Item" then {props[0].name} else {}) + MemberNames(props[1..])
  }

  function FieldNames(fields: seq<FieldInfo>): set<string>
    decreases |fields|
  {
    if |fields| == 0 then {} else {fields[0].name} + FieldNames(fields[1..])
  }

  /** The element type the string indexers leave behind, starting from `from`. */
  function StringIndexerType(env: TypeEnv, t: TypeId, props: seq<PropertyInfo>, from: Option<TypeId>): Option<TypeId> {
    match LastIndexer(props, StringType)
    case None => from
    case Some(p) =>
      match Info(env, t).kind
      case Wrapper(_, _, _, genericArguments) => if |genericArguments| < 2 then None else Some(genericArguments[1])
      case _ => Some(p)
  }

  /** What one step of the property loop turns `acc` into, when it does not throw. */
  function ScanStep(env: TypeEnv, t: TypeId, p: PropertyInfo, acc: ObjectMetadata): ObjectMetadata {
    if p.name == "Item" then
      if IsIndexer(p, StringType) then
        match Info(env, t).kind
        case Wrapper(_, _, _, genericArguments) =>
          if |genericArguments| < 2 then acc else acc.(elementType := Some(genericArguments[1]))
        case _ => acc.(elementType := Some(p.propertyType))
      else acc
    else acc.(properties := acc.properties[p.name := PropertyMetadata(false, p.propertyType, p.hasSetter)])
  }

  lemma ScanPropertiesStep(env: TypeEnv, t: TypeId, props: seq<PropertyInfo>, acc: ObjectMetadata)
    requires |props| > 0 && ScanProperties(env, t, props, acc).Success?
    ensures ScanProperties(env, t, props, acc) == ScanProperties(env, t, props[1..], ScanStep(env, t, props[0], acc))
    ensures props[0].name != "Item" ==> props[0].name !in acc.properties
    ensures Info(env, t).kind.Wrapper? && IsIndexer(props[0], StringType) ==> |Info(env, t).kind.genericArguments| >= 2
  {
  }

  /** A successful property scan adds every non-`Item` property under its
      own name with its type and setter, and keeps what was there. */
  lemma {:induction false} ScanPropertiesAdds(env: TypeEnv, t: TypeId, props: seq<PropertyInfo>, acc: ObjectMetadata)
    requires ScanProperties(env, t, props, acc).Success?
    ensures var r := ScanProperties(env, t, props, acc).value;
      && r.isDictionary == acc.isDictionary
      && r.properties.Keys == acc.properties.Keys + MemberNames(props)
      && (forall k | k in acc.properties :: r.properties[k] == acc.properties[k])
      && (forall i | 0 <= i < |props| && props[i].name != "Item" ::
            props[i].name in r.properties && r.properties[props[i].name] == PropertyMetadata(false, props[i].propertyType, props[i].hasSetter))
    decreases |props|
  {
    if |props| > 0 {
      ScanPropertiesStep(env, t, props, acc);
      var rest := props[1..];
      ScanPropertiesAdds(env, t, rest, ScanStep(env, t, props[0], acc));
      forall i | 0 < i < |props| ensures props[i] == rest[i - 1] { }
    }
  }

  /** The property scan succeeds only when the member names are distinct and
      not yet in the table. */
  lemma {:induction false} ScanPropertiesDistinct(env: TypeEnv, t: TypeId, props: seq<PropertyInfo>, acc: ObjectMetadata)
    requires ScanProperties(env, t, props, acc).Success?
    ensures forall i | 0 <= i < |props| && props[i].name != "Item" :: props[i].name !in acc.properties
    ensures forall i, j | 0 <= i < j < |props| && props[i].name != "Item" :: props[i].name != props[j].name
    decreases |props|
  {
    if |props| > 0 {
      ScanPropertiesStep(env, t, props, acc);
      var rest := props[1..];
      var next := ScanStep(env, t, props[0], acc);
      ScanPropertiesDistinct(env, t, rest, next);
      forall i | 0 < i < |props| ensures props[i] == rest[i - 1] { }
      forall j | 0 < j < |props| && props[0].name != "Item" ensures props[0].name != props[j].name {
        assert props[0].name in next.properties;
        assert rest[j - 1] == props[j];
      }
    }
  }

  /** The element type the property scan leaves is the one the last string
      indexer gives. */
  lemma {:induction false} ScanPropertiesElementType(env: TypeEnv, t: TypeId, props: seq<PropertyInfo>, acc: ObjectMetadata)
    requires ScanProperties(env, t, props, acc).Success?
    ensures ScanProperties(env, t, props, acc).value.elementType == StringIndexerType(env, t, props, acc.elementType)
    decreases |props|
  {
    if |props| > 0 {
      ScanPropertiesStep(env, t, props, acc);
      var rest := props[1..];
      var next := ScanStep(env, t, props[0], acc);
      ScanPropertiesElementType(env, t, rest, next);
      assert props == [props[0]] + rest;
      LastIndexerOfCons(props[0], rest, StringType);
    }
  }

  /** Looking for the last indexer of `[p] + rest` finds `rest`'s, or `p`'s when
      `rest` has none. */
  lemma {:induction false} LastIndexerOfCons(p: PropertyInfo, rest: seq<PropertyInfo>, key: TypeId)
    ensures LastIndexer([p] + rest, key) ==
              if LastIndexer(rest, key).Some? then LastIndexer(rest, key)
              else if IsIndexer(p, key) then Some(p.propertyType) else None
    decreases |rest|
  {
    var s := [p] + rest;
    if |rest| > 0 {
      assert s[|s| - 1] == rest[|rest| - 1];
      assert s[..|s| - 1] == [p] + rest[..|rest| - 1];
      if !IsIndexer(rest[|rest| - 1], key) {
        LastIndexerOfCons(p, rest[..|rest| - 1], key);
      }
    } else {
      assert s[..|s| - 1] == [];
    }
  }

  /** A successful field scan adds every field under its name with its type
      and constness, and keeps what was there. */
  lemma {:induction false} ScanFieldsAdds(fields: seq<FieldInfo>, acc: ObjectMetadata)
    requires ScanFields(fields, acc).Success?
    ensures var r := ScanFields(fields, acc).value;
      && r.isDictionary == acc.isDictionary && r.elementType == acc.elementType
      && r.properties.Keys == acc.properties.Keys + FieldNames(fields)
      && (forall k | k in acc.properties :: r.properties[k] == acc.properties[k])
      && (forall i | 0 <= i < |fields| ::
            fields[i].name in r.properties && r.properties[fields[i].name] == PropertyMetadata(true, fields[i].fieldType, !fields[i].isLiteral))
    decreases |fields|
  {
    if |fields| > 0 {
      var f := fields[0];
      var rest := fields[1..];
      ScanFieldsAdds(rest, acc.(properties := acc.properties[f.name := PropertyMetadata(true, f.fieldType, !f.isLiteral)]));
      forall i | 0 < i < |fields| ensures fields[i] == rest[i - 1] { }
    }
  }

  /** The field scan succeeds only when the field names are distinct and not
      yet in the table. */
  lemma {:induction false} ScanFieldsDistinct(fields: seq<FieldInfo>, acc: ObjectMetadata)
    requires ScanFields(fields, acc).Success?
    ensures forall i | 0 <= i < |fields| :: fields[i].name !in acc.properties
    ensures forall i, j | 0 <= i < j < |fields| :: fields[i].name != fields[j].name
    decreases |fields|
  {
    if |fields| > 0 {
      var f := fields[0];
      var rest := fields[1..];
      var next := acc.(properties := acc.properties[f.name := PropertyMetadata(true, f.fieldType, !f.isLiteral)]);
      ScanFieldsDistinct(rest, next);
      forall i | 0 < i < |fields| ensures fields[i] == rest[i - 1] { }
    }
  }

  /** `AddObjectMetadata`'s table, when it is built, holds exactly the
      members of the base-type chain (indexers aside) and the fields, each
      under its own name with its own type; no two of them share a name. */
  lemma ObjectMetadataMembers(env: TypeEnv, t: TypeId)
    requires WellFormed(env) && ObjectMetadataOf(env, t).Success?
    ensures var r := ObjectMetadataOf(env, t).value;
      var props := ChainProperties(env, t);
      var fields := Info(env, t).fields;
      && r.isDictionary == Info(env, t).isDictionary
      && r.properties.Keys == MemberNames(props) + FieldNames(fields)
      && (forall i | 0 <= i < |props| && props[i].name != "Item" ::
            props[i].name in r.properties && r.properties[props[i].name] == PropertyMetadata(false, props[i].propertyType, props[i].hasSetter))
      && (forall i | 0 <= i < |fields| ::
            fields[i].name in r.properties && r.properties[fields[i].name] == PropertyMetadata(true, fields[i].fieldType, !fields[i].isLiteral))
      && (forall i | 0 <= i < |fields| :: fields[i].name !in MemberNames(props))
      && r.elementType == StringIndexerType(env, t, props, None)
  {
    var start := ObjectMetadata(Info(env, t).isDictionary, None, map[]);
    var props := ChainProperties(env, t);
    ScanPropertiesAdds(env, t, props, start);
    ScanPropertiesElementType(env, t, props, start);
    var mid := ScanProperties(env, t, props, start).value;
    ScanFieldsAdds(Info(env, t).fields, mid);
    ScanFieldsDistinct(Info(env, t).fields, mid);
  }

  /** Two members of the same name (a property redeclared down the chain)
      make `AddObjectMetadata` throw. */
  lemma DuplicateMemberThrows(env: TypeEnv, t: TypeId, i: nat, j: nat)
    requires WellFormed(env)
    requires i < j < |ChainProperties(env, t)|
    requires ChainProperties(env, t)[i].name != "Item"
    requires ChainProperties(env, t)[i].name == ChainProperties(env, t)[j].name
    ensures ObjectMetadataOf(env, t).Failure?
  {
    var start := ObjectMetadata(Info(env, t).isDictionary, None, map[]);
    if ScanProperties(env, t, ChainProperties(env, t), start).Success? {
      ScanPropertiesDistinct(env, t, ChainProperties(env, t), start);
    }
  }
}
