/** The codec's state and its imperative operations: the reader cursor, the
    writer, the two metadata caches, and the recursive `ReadValue` /
    `WriteValue` loops, each proved against the functions of `JsonMetadata`,
    `JsonDecode`, `JsonTree` and `JsonEncode`. */
module JsonMapping {
  import opened Wrappers
  import opened ClrTypes
  import opened JsonValues
  import opened JsonMetadata
  import opened JsonTree
  import opened JsonDecode
  import opened JsonEncode

  /** A `JsonReader` over an already tokenised text: `Read()` moves to the
      next token, and the current token is the one just read. */
  class JsonReader {
    const tokens: seq<Token>
    const skipNonMembers: bool
    var pos: nat

    constructor(tokens: seq<Token>, skipNonMembers: bool)
      ensures this.tokens == tokens && this.skipNonMembers == skipNonMembers && pos == 0
    {
      this.tokens := tokens;
      this.skipNonMembers := skipNonMembers;
      pos := 0;
    }

    /** The reader as the decoding functions see it. */
    function Input(): Input {
      JsonDecode.Input(tokens, skipNonMembers)
    }

    /** `Read()`: false when the text has ended (the decoder then throws). */
    method Read() returns (ok: bool)
      requires pos <= |tokens|
      modifies this
      ensures ok <==> old(pos) < |tokens|
      ensures pos == if ok then old(pos) + 1 else old(pos)
    {
      ok := pos < |tokens|;
      if ok {
        pos := pos + 1;
      }
    }
  }

  /** A `JsonWriter`: what it has been given, in order. */
  class JsonWriter {
    var written: seq<Written>

    constructor()
      ensures written == []
    {
      written := [];
    }

    method Write(w: Written)
      modifies this
      ensures written == old(written) + [w]
    {
      written := written + [w];
    }
  }

  /** The value of a decoding step, without the position it stops at. */
  function Value<T>(r: Result<(T, nat), JsonError>): (v: Result<T, JsonError>)
    ensures v.Success? <==> r.Success?
    ensures r.Success? ==> v.value == r.value.0
    ensures r.Failure? ==> v.error == r.error
  {
    if r.Success? then Success(r.value.0) else Failure(r.error)
  }

  /** `p` written before whatever `r` writes; a failure stays a failure. */
  function Prefixed(p: seq<Written>, r: Result<seq<Written>, JsonError>): (v: Result<seq<Written>, JsonError>)
    ensures v.Success? <==> r.Success?
    ensures r.Success? ==> v.value == p + r.value
    ensures r.Failure? ==> v == r
  {
    if r.Success? then Success(p + r.value) else r
  }

  lemma PrefixedNothing(r: Result<seq<Written>, JsonError>)
    ensures Prefixed([], r) == r
  {
    if r.Success? {
      assert [] + r.value == r.value;
    }
  }

  lemma PrefixedTwice(p: seq<Written>, q: seq<Written>, r: Result<seq<Written>, JsonError>)
    ensures Prefixed(p, Prefixed(q, r)) == Prefixed(p + q, r)
  {
    if r.Success? {
      assert p + (q + r.value) == (p + q) + r.value;
    }
  }

  /** One step of the `foreach` over an array's or a list's elements. */
  lemma EncodeSeqStep(x: Exporters, s: seq<Obj>, i: nat, priv: bool, depth: int, maxDepth: int)
    requires i < |s|
    ensures var head := Encode(x, s[i], priv, depth, maxDepth);
      EncodeSeq(x, s[i..], priv, depth, maxDepth) ==
      if head.Failure? then Failure(head.error) else Prefixed(head.value, EncodeSeq(x, s[i + 1..], priv, depth, maxDepth))
  {
    assert s[i..][0] == s[i] && s[i..][1..] == s[i + 1..];
  }

  /** One step of the `foreach` over a dictionary's entries. */
  lemma EncodeEntriesStep(x: Exporters, es: seq<Entry>, i: nat, priv: bool, depth: int, maxDepth: int)
    requires i < |es|
    ensures var head := EncodeEntry(x, es[i], priv, depth, maxDepth);
      EncodeEntries(x, es[i..], priv, depth, maxDepth) ==
      if head.Failure? then Failure(head.error) else Prefixed(head.value, EncodeEntries(x, es[i + 1..], priv, depth, maxDepth))
  {
    assert es[i..][0] == es[i] && es[i..][1..] == es[i + 1..];
  }

  /** One step of the `foreach` over `type_properties`. */
  lemma EncodeMembersStep(x: Exporters, ms: seq<Member>, i: nat, priv: bool, depth: int, maxDepth: int)
    requires i < |ms|
    ensures var head := EncodeMember(x, ms[i], priv, depth, maxDepth);
      EncodeMembers(x, ms[i..], priv, depth, maxDepth) ==
      if head.Failure? then Failure(head.error) else Prefixed(head.value, EncodeMembers(x, ms[i + 1..], priv, depth, maxDepth))
  {
    assert ms[i..][0] == ms[i] && ms[i..][1..] == ms[i + 1..];
  }

  /** A writing method did what `spec` says: on success it appended exactly
      the spec's output, on failure it failed the same way after appending
      part of it. */
  ghost predicate Agrees(r: Outcome<JsonError>, spec: Result<seq<Written>, JsonError>, before: seq<Written>, after: seq<Written>) {
    && before <= after
    && (spec.Success? ==> r == Pass && after == before + spec.value)
    && (spec.Failure? ==> r == Fail(spec.error))
  }

  /** The properties of `t` and of the types above it, for the base-type walk. */
  ghost function ChainFrom(env: TypeEnv, t: Option<TypeId>): seq<PropertyInfo>
    requires WellFormed(env)
  {
    if t.None? then [] else ChainProperties(env, t.value)
  }

  /** How far a base-type walk has left to go. */
  function WalkLeft(env: TypeEnv, t: Option<TypeId>): nat {
    if t.None? then 0 else Info(env, t.value).inheritanceDepth + 1
  }

  /** The mapper: reflection and ILRuntime as seen by the codec, the exporter
      tables, the nesting limit, and the two metadata caches. */
  class JsonMapper {
    const d: Decoder
    const exporters: Exporters
    const maxNestingDepth: int
    var arrayMetadata: map<TypeId, ArrayMetadata>
    var objectMetadata: map<TypeId, ObjectMetadata>

    /** Every cached entry is what the metadata functions compute for its type. */
    ghost predicate Valid()
      reads this
    {
      && WellFormed(d.env)
      && (forall t | t in arrayMetadata :: ArrayMetadataOf(d.env, t) == Success(arrayMetadata[t]))
      && (forall t | t in objectMetadata :: ObjectMetadataOf(d.env, t) == Success(objectMetadata[t]))
    }

    constructor(d: Decoder, exporters: Exporters, maxNestingDepth: int)
      requires WellFormed(d.env)
      ensures Valid()
      ensures this.d == d && this.exporters == exporters && this.maxNestingDepth == maxNestingDepth
      ensures arrayMetadata == map[] && objectMetadata == map[]
    {
      this.d := d;
      this.exporters := exporters;
      this.maxNestingDepth := maxNestingDepth;
      arrayMetadata := map[];
      objectMetadata := map[];
    }

    /** `AddArrayMetadata`: a cached type returns at once; otherwise the
        metadata is computed and stored, so a stored entry never changes. */
    method AddArrayMetadata(t: TypeId) returns (r: Outcome<JsonError>)
      requires Valid()
      modifies this
      ensures Valid() && objectMetadata == old(objectMetadata)
      ensures t in old(arrayMetadata) ==> r == Pass && arrayMetadata == old(arrayMetadata)
      ensures t !in old(arrayMetadata) && ArrayMetadataOf(d.env, t).Success? ==>
                r == Pass && arrayMetadata == old(arrayMetadata)[t := ArrayMetadataOf(d.env, t).value]
      ensures t !in old(arrayMetadata) && ArrayMetadataOf(d.env, t).Failure? ==>
                r == Fail(ArrayMetadataOf(d.env, t).error) && arrayMetadata == old(arrayMetadata)
    {
      if t in arrayMetadata {
        return Pass;
      }
      var data := ComputeArrayMetadata(t);
      if data.Failure? {
        return Fail(data.error);
      }
      arrayMetadata := arrayMetadata[t := data.value];
      return Pass;
    }

    /** The body of `AddArrayMetadata` before the insertion. */
    method ComputeArrayMetadata(t: TypeId) returns (r: Result<ArrayMetadata, JsonError>)
      ensures r == ArrayMetadataOf(d.env, t)
    {
      var info := Info(d.env, t);
      var data := ArrayMetadata(info.isArray, info.isList, None);
      match info.kind {
        case Wrapper(_, _, clrElementType, genericArguments) =>
          if data.isArray {
            if clrElementType.None? {
              return Failure(NullReference);
            }
            data := data.(elementType := clrElementType);
          } else {
            if |genericArguments| == 0 {
              return Failure(IndexOutOfRange);
            }
            data := data.(elementType := Some(genericArguments[0]));
          }
        case _ =>
          var elementType := LastIntIndexer(info.properties);
          data := data.(elementType := elementType);
      }
      return Success(data);
    }

    /** The loop over `GetProperties()`: every one-parameter `int` indexer
        named `Item` overwrites the element type. */
    static method LastIntIndexer(props: seq<PropertyInfo>) returns (r: Option<TypeId>)
      ensures r == LastIndexer(props, Int32Type)
    {
      r := None;
      var i := 0;
      while i < |props|
        invariant 0 <= i <= |props|
        invariant r == LastIndexer(props[..i], Int32Type)
      {
        var p := props[i];
        assert props[..i + 1][..i] == props[..i] && props[..i + 1][i] == p;
        if p.name == "Item" && |p.indexParameters| == 1 && p.indexParameters[0] == Int32Type {
          r := Some(p.propertyType);
        }
        i := i + 1;
      }
      assert props[..i] == props;
    }

    /** `AddObjectMetadata`: a cached type returns at once; otherwise the
        properties of the whole base-type chain, then the fields, fill the
        member table, and the result is stored. */
    method AddObjectMetadata(t: TypeId) returns (r: Outcome<JsonError>)
      requires Valid()
      modifies this
      ensures Valid() && arrayMetadata == old(arrayMetadata)
      ensures t in old(objectMetadata) ==> r == Pass && objectMetadata == old(objectMetadata)
      ensures t !in old(objectMetadata) && ObjectMetadataOf(d.env, t).Success? ==>
                r == Pass && objectMetadata == old(objectMetadata)[t := ObjectMetadataOf(d.env, t).value]
      ensures t !in old(objectMetadata) && ObjectMetadataOf(d.env, t).Failure? ==>
                r == Fail(ObjectMetadataOf(d.env, t).error) && objectMetadata == old(objectMetadata)
    {
      if t in objectMetadata {
        return Pass;
      }
      var data := ComputeObjectMetadata(t);
      if data.Failure? {
        return Fail(data.error);
      }
      objectMetadata := objectMetadata[t := data.value];
      return Pass;
    }

    /** The body of `AddObjectMetadata` before the insertion: the properties
        up the base chain, then the fields. */
    method ComputeObjectMetadata(t: TypeId) returns (r: Result<ObjectMetadata, JsonError>)
      requires WellFormed(d.env)
      ensures r == ObjectMetadataOf(d.env, t)
    {
      var info := Info(d.env, t);
      var props := CollectProperties(d.env, t);
      var start := ObjectMetadata(info.isDictionary, None, map[]);
      var withProperties := AddProperties(d.env, t, props, start);
      if withProperties.Failure? {
        return withProperties;
      }
      r := AddFields(info.fields, withProperties.value);
    }

    /** The properties of `t` and of every type up its `BaseType` chain. */
    static method CollectProperties(env: TypeEnv, t: TypeId) returns (props: seq<PropertyInfo>)
      requires WellFormed(env)
      ensures props == ChainProperties(env, t)
    {
      props := [];
      var startType: Option<TypeId> := Some(t);
      while startType.Some?
        invariant props + ChainFrom(env, startType) == ChainProperties(env, t)
        decreases WalkLeft(env, startType)
      {
        BaseIsShallowerOpt(env, startType.value);
        props := props + Info(env, startType.value).declaredProperties;
        startType := Info(env, startType.value).baseType;
      }
      assert props == props + ChainFrom(env, startType);
    }

    /** The property loop: string indexers named `Item` set the element
        type, other properties are added, a repeated name throws. */
    static method AddProperties(env: TypeEnv, t: TypeId, props: seq<PropertyInfo>, start: ObjectMetadata)
      returns (r: Result<ObjectMetadata, JsonError>)
      ensures r == ScanProperties(env, t, props, start)
    {
      var info := Info(env, t);
      var data := start;
      var i := 0;
      while i < |props|
        invariant 0 <= i <= |props|
        invariant ScanProperties(env, t, props[i..], data) == ScanProperties(env, t, props, start)
      {
        var p := props[i];
        assert props[i..][0] == p && props[i..][1..] == props[i + 1..];
        if p.name == "Item" {
          if |p.indexParameters| == 1 && p.indexParameters[0] == StringType {
            match info.kind {
              case Wrapper(_, _, _, genericArguments) =>
                if |genericArguments| < 2 {
                  return Failure(IndexOutOfRange);
                }
                data := data.(elementType := Some(genericArguments[1]));
              case _ =>
                data := data.(elementType := Some(p.propertyType));
            }
          }
        } else {
          if p.name in data.properties {
            return Failure(DuplicateKey(p.name));
          }
          data := data.(properties := data.properties[p.name := PropertyMetadata(false, p.propertyType, p.hasSetter)]);
        }
        i := i + 1;
      }
      assert props[i..] == [];
      return Success(data);
    }

    /** The field loop: every field is added, a repeated name throws. */
    static method AddFields(fields: seq<FieldInfo>, start: ObjectMetadata) returns (r: Result<ObjectMetadata, JsonError>)
      ensures r == ScanFields(fields, start)
    {
      var data := start;
      var i := 0;
      while i < |fields|
        invariant 0 <= i <= |fields|
        invariant ScanFields(fields[i..], data) == ScanFields(fields, start)
      {
        var f := fields[i];
        assert fields[i..][0] == f && fields[i..][1..] == fields[i + 1..];
        if f.name in data.properties {
          return Failure(DuplicateKey(f.name));
        }
        data := data.(properties := data.properties[f.name := PropertyMetadata(true, f.fieldType, !f.isLiteral)]);
        i := i + 1;
      }
      assert fields[i..] == [];
      return Success(data);
    }

    /** The typed `ReadValue(inst_type, reader)`: reads one value and leaves
        the reader just past it; the value, the error and the stopping place
        are those of `ReadTyped`. */
    method ReadValue(t: Option<TypeId>, reader: JsonReader) returns (r: Result<Val, JsonError>)
      requires Valid() && reader.pos <= |reader.tokens|
      modifies this, reader
      ensures Valid() && old(reader.pos) <= reader.pos <= |reader.tokens|
      ensures r == Value(ReadTyped(d, t, reader.Input(), old(reader.pos)))
      ensures r.Success? ==> reader.pos == ReadTyped(d, t, reader.Input(), old(reader.pos)).value.1
      decreases |reader.tokens| - reader.pos, 0
    {
      var ok := reader.Read();
      if !ok {
        return Failure(UnexpectedEnd);
      }
      var tok := reader.tokens[reader.pos - 1];
      if tok.ArrayEnd? {
        return Success(VNull);
      }
      if tok.Null? {
        if t.None? {
          return Failure(NullReference);
        }
        return Success(VNull);
      }
      if IsScalarToken(tok) {
        if t.None? {
          return Failure(NullReference);
        }
        r := ConvertScalar(d, t.value, ScalarOf(tok));
        return;
      }
      if tok.ArrayStart? {
        if t.None? {
          return Failure(NullReference);
        }
        r := ReadArrayValue(t.value, reader);
      } else if tok.ObjectStart? {
        if t.None? {
          return Failure(NullReference);
        }
        r := ReadObjectValue(t.value, reader);
      } else {
        r := Success(VNull);
      }
    }

    /** The array branch of `ReadValue`, just past `ArrayStart`: items are
        read until a null read off `ArrayEnd`, each one checked by ILRuntime
        and added; an array target then gets exactly the items read. */
    method ReadArrayValue(t: TypeId, reader: JsonReader) returns (r: Result<Val, JsonError>)
      requires Valid() && reader.pos <= |reader.tokens|
      modifies this, reader
      ensures Valid() && old(reader.pos) <= reader.pos <= |reader.tokens|
      ensures r == Value(ReadArray(d, t, reader.Input(), old(reader.pos)))
      ensures r.Success? ==> reader.pos == ReadArray(d, t, reader.Input(), old(reader.pos)).value.1
      decreases |reader.tokens| - reader.pos, 2
    {
      var added := AddArrayMetadata(t);
      if added.Fail? {
        return Failure(added.error);
      }
      var md := arrayMetadata[t];
      if !md.isArray && !md.isList {
        return Failure(CannotActAsArray(t));
      }
      if !md.isArray && !Info(d.env, t).instantiable {
        return Failure(CreateFailed(t));
      }
      var elem := if md.isArray then Info(d.env, t).elementType else md.elementType;
      assert elem == ElementTypeFor(d.env, t, md);
      var items := ReadItemsValue(elem, reader);
      if items.Failure? {
        return Failure(items.error);
      }
      var list := items.value;
      if !md.isArray {
        return Success(VList(t, list));
      }
      if elem.None? {
        return Failure(NullReference);
      }
      var instance := CreateArray(list);
      return Success(VArray(elem.value, instance[..]));
    }

    /** `Array.CreateInstance(elem_type, n)`, then `SetValue(list[i], i)` for
        every index. */
    static method CreateArray(list: seq<Val>) returns (instance: array<Val>)
      ensures fresh(instance) && instance[..] == list
    {
      instance := new Val[|list|];
      for i := 0 to |list|
        invariant instance[..i] == list[..i]
      {
        instance[i] := list[i];
      }
      assert instance[..] == instance[..|list|];
    }

    /** The `while (true)` loop of the array branch. */
    method ReadItemsValue(elem: Option<TypeId>, reader: JsonReader) returns (r: Result<seq<Val>, JsonError>)
      requires Valid() && reader.pos <= |reader.tokens|
      modifies this, reader
      ensures Valid() && old(reader.pos) <= reader.pos <= |reader.tokens|
      ensures r == Value(ReadItems(d, elem, reader.Input(), old(reader.pos), []))
      ensures r.Success? ==> reader.pos == ReadItems(d, elem, reader.Input(), old(reader.pos), []).value.1
      decreases |reader.tokens| - reader.pos, 1
    {
      ghost var inp := reader.Input();
      ghost var start := reader.pos;
      var list: seq<Val> := [];
      while true
        invariant Valid() && start <= reader.pos <= |reader.tokens|
        invariant ReadItems(d, elem, inp, reader.pos, list) == ReadItems(d, elem, inp, start, [])
        decreases |reader.tokens| - reader.pos
      {
        var item := ReadValue(elem, reader);
        if item.Failure? {
          return Failure(item.error);
        }
        if item.value.VNull? && reader.tokens[reader.pos - 1].ArrayEnd? {
          break;
        }
        var checked := Check(d, RealTypeOf(d.env, elem), item.value);
        if checked.Failure? {
          return Failure(checked.error);
        }
        list := list + [checked.value];
      }
      return Success(list);
    }

    /** The object branch of `ReadValue`, just past `ObjectStart`: the
        instance is created, then each name is a member, a dictionary entry,
        or skipped or refused. */
    method ReadObjectValue(t: TypeId, reader: JsonReader) returns (r: Result<Val, JsonError>)
      requires Valid() && reader.pos <= |reader.tokens|
      modifies this, reader
      ensures Valid() && old(reader.pos) <= reader.pos <= |reader.tokens|
      ensures r == Value(ReadObject(d, t, reader.Input(), old(reader.pos)))
      ensures r.Success? ==> reader.pos == ReadObject(d, t, reader.Input(), old(reader.pos)).value.1
      decreases |reader.tokens| - reader.pos, 1
    {
      var added := AddObjectMetadata(t);
      if added.Fail? {
        return Failure(added.error);
      }
      var md := objectMetadata[t];
      var created := CreatedType(d.env, t);
      if !Info(d.env, created).instantiable {
        return Failure(CreateFailed(created));
      }
      r := ReadMembersValue(t, md, created, reader);
    }

    /** The object loop: names are read until `ObjectEnd`, each handed to
        `ReadMember`; the instance is the created type with what was set. */
    method ReadMembersValue(t: TypeId, md: ObjectMetadata, created: TypeId, reader: JsonReader) returns (r: Result<Val, JsonError>)
      requires Valid() && reader.pos <= |reader.tokens|
      modifies this, reader
      ensures Valid() && old(reader.pos) <= reader.pos <= |reader.tokens|
      ensures r == Value(ReadMembers(d, t, md, created, reader.Input(), old(reader.pos), map[], map[]))
      ensures r.Success? ==> reader.pos == ReadMembers(d, t, md, created, reader.Input(), old(reader.pos), map[], map[]).value.1
      decreases |reader.tokens| - reader.pos, 0
    {
      ghost var inp := reader.Input();
      ghost var start := reader.pos;
      var members: map<string, Val> := map[];
      var entries: map<string, Val> := map[];
      while true
        invariant Valid() && start <= reader.pos <= |reader.tokens|
        invariant ReadMembers(d, t, md, created, inp, reader.pos, members, entries)
                  == ReadMembers(d, t, md, created, inp, start, map[], map[])
        decreases |reader.tokens| - reader.pos
      {
        var ok := reader.Read();
        if !ok {
          return Failure(UnexpectedEnd);
        }
        var tok := reader.tokens[reader.pos - 1];
        if tok.ObjectEnd? {
          break;
        }
        var key := KeyOf(tok);
        if key.Failure? {
          return Failure(key.error);
        }
        if key.value.None? {
          return Failure(NullKey);
        }
        var read := ReadMember(t, md, created, key.value.value, reader, members, entries);
        if read.Failure? {
          return Failure(read.error);
        }
        members, entries := read.value.0, read.value.1;
      }
      return Success(VObject(created, members, entries));
    }

    /** One name of the object loop, the reader just past its token: a
        member is read with its own type and set, a dictionary entry is read,
        checked and added, and any other name is skipped or refused. */
    method ReadMember(t: TypeId, md: ObjectMetadata, created: TypeId, property: string, reader: JsonReader,
                      members: map<string, Val>, entries: map<string, Val>)
      returns (r: Result<(map<string, Val>, map<string, Val>), JsonError>)
      requires Valid() && 0 < reader.pos <= |reader.tokens|
      requires !reader.tokens[reader.pos - 1].ObjectEnd? && KeyOf(reader.tokens[reader.pos - 1]) == Success(Some(property))
      modifies this, reader
      ensures Valid() && old(reader.pos) <= reader.pos <= |reader.tokens|
      ensures var spec := ReadMembers(d, t, md, created, reader.Input(), old(reader.pos) - 1, members, entries);
        && (r.Failure? ==> spec == Failure(r.error))
        && (r.Success? ==> ReadMembers(d, t, md, created, reader.Input(), reader.pos, r.value.0, r.value.1) == spec)
      decreases |reader.tokens| - reader.pos, 2
    {
      if property in md.properties {
        r := ReadProperty(t, md, created, property, reader, members, entries);
      } else if !md.isDictionary {
        r := SkipMember(t, md, created, property, reader, members, entries);
      } else {
        r := ReadEntry(t, md, created, property, reader, members, entries);
      }
    }

    /** A name of the member table: the value is read with the member's type
        and set, unless the member cannot be written. */
    method ReadProperty(t: TypeId, md: ObjectMetadata, created: TypeId, property: string, reader: JsonReader,
                      members: map<string, Val>, entries: map<string, Val>)
      returns (r: Result<(map<string, Val>, map<string, Val>), JsonError>)
      requires Valid() && 0 < reader.pos <= |reader.tokens|
      requires !reader.tokens[reader.pos - 1].ObjectEnd? && KeyOf(reader.tokens[reader.pos - 1]) == Success(Some(property))
      requires property in md.properties
      modifies this, reader
      ensures Valid() && old(reader.pos) <= reader.pos <= |reader.tokens|
      ensures var spec := ReadMembers(d, t, md, created, reader.Input(), old(reader.pos) - 1, members, entries);
        && (r.Failure? ==> spec == Failure(r.error))
        && (r.Success? ==> ReadMembers(d, t, md, created, reader.Input(), reader.pos, r.value.0, r.value.1) == spec)
      decreases |reader.tokens| - reader.pos, 1
    {
      var data := md.properties[property];
      var value := ReadValue(Some(data.memberType), reader);
      if value.Failure? {
        return Failure(value.error);
      }
      if !data.writable {
        return Failure(NotWritable(property));
      }
      return Success((members[property := value.value], entries));
    }

    /** A name that is neither a member nor a dictionary entry: refused, or
        its value skipped when `SkipNonMembers` is set. */
    method SkipMember(t: TypeId, md: ObjectMetadata, created: TypeId, property: string, reader: JsonReader,
                      members: map<string, Val>, entries: map<string, Val>)
      returns (r: Result<(map<string, Val>, map<string, Val>), JsonError>)
      requires Valid() && 0 < reader.pos <= |reader.tokens|
      requires !reader.tokens[reader.pos - 1].ObjectEnd? && KeyOf(reader.tokens[reader.pos - 1]) == Success(Some(property))
      requires property !in md.properties && !md.isDictionary
      modifies this, reader
      ensures Valid() && old(reader.pos) <= reader.pos <= |reader.tokens|
      ensures var spec := ReadMembers(d, t, md, created, reader.Input(), old(reader.pos) - 1, members, entries);
        && (r.Failure? ==> spec == Failure(r.error))
        && (r.Success? ==> ReadMembers(d, t, md, created, reader.Input(), reader.pos, r.value.0, r.value.1) == spec)
      decreases |reader.tokens| - reader.pos, 1
    {
      if !reader.skipNonMembers {
        return Failure(NoSuchProperty(t, property));
      }
      var skipped := ReadWrapper(reader);
      if skipped.Failure? {
        return Failure(skipped.error);
      }
      return Success((members, entries));
    }

    /** A name outside the member table of a dictionary: the value is read
        with the element type, checked, and added under a name not seen yet. */
    method ReadEntry(t: TypeId, md: ObjectMetadata, created: TypeId, property: string, reader: JsonReader,
                     members: map<string, Val>, entries: map<string, Val>)
      returns (r: Result<(map<string, Val>, map<string, Val>), JsonError>)
      requires Valid() && 0 < reader.pos <= |reader.tokens|
      requires !reader.tokens[reader.pos - 1].ObjectEnd? && KeyOf(reader.tokens[reader.pos - 1]) == Success(Some(property))
      requires property !in md.properties && md.isDictionary
      modifies this, reader
      ensures Valid() && old(reader.pos) <= reader.pos <= |reader.tokens|
      ensures var spec := ReadMembers(d, t, md, created, reader.Input(), old(reader.pos) - 1, members, entries);
        && (r.Failure? ==> spec == Failure(r.error))
        && (r.Success? ==> ReadMembers(d, t, md, created, reader.Input(), reader.pos, r.value.0, r.value.1) == spec)
      decreases |reader.tokens| - reader.pos, 1
    {
      var value := ReadValue(md.elementType, reader);
      if value.Failure? {
        return Failure(value.error);
      }
      var checked := Check(d, RealTypeOf(d.env, md.elementType), value.value);
      if checked.Failure? {
        return Failure(checked.error);
      }
      if property in entries {
        return Failure(DuplicateKey(property));
      }
      return Success((members, entries[property := checked.value]));
    }

    /** The untyped `ReadValue(factory, reader)`, building `JsonData`-like
        wrappers: the tree, the error and the stopping place are those of
        `ReadTree`. `ReadSkip` reads a value this way and drops it. */
    static method ReadWrapper(reader: JsonReader) returns (r: Result<Option<JsonNode>, JsonError>)
      requires reader.pos <= |reader.tokens|
      modifies reader
      ensures old(reader.pos) <= reader.pos <= |reader.tokens|
      ensures r == Value(ReadTree(reader.tokens, old(reader.pos)))
      ensures r.Success? ==> reader.pos == ReadTree(reader.tokens, old(reader.pos)).value.1
      decreases |reader.tokens| - reader.pos
    {
      var ok := reader.Read();
      if !ok {
        return Failure(UnexpectedEnd);
      }
      var ts := reader.tokens;
      var tok := ts[reader.pos - 1];
      match tok {
        case ArrayEnd => return Success(None);
        case Null => return Success(None);
        case String(s) => return Success(Some(JString(s)));
        case Double(x) => return Success(Some(JDouble(x)));
        case Int(i) => return Success(Some(JInt(i)));
        case Long(l) => return Success(Some(JLong(l)));
        case Boolean(b) => return Success(Some(JBool(b)));
        case ArrayStart =>
          ghost var start := reader.pos;
          var items: seq<Option<JsonNode>> := [];
          while true
            invariant start <= reader.pos <= |ts|
            invariant ReadTreeItems(ts, reader.pos, items) == ReadTreeItems(ts, start, [])
            decreases |ts| - reader.pos
          {
            var item := ReadWrapper(reader);
            if item.Failure? {
              return Failure(item.error);
            }
            if item.value.None? && ts[reader.pos - 1].ArrayEnd? {
              break;
            }
            items := items + [item.value];
          }
          return Success(Some(JArray(items)));
        case ObjectStart =>
          ghost var start := reader.pos;
          var props: seq<Prop> := [];
          while true
            invariant start <= reader.pos <= |ts|
            invariant ReadTreeProps(ts, reader.pos, props) == ReadTreeProps(ts, start, [])
            decreases |ts| - reader.pos
          {
            var ok := reader.Read();
            if !ok {
              return Failure(UnexpectedEnd);
            }
            if ts[reader.pos - 1].ObjectEnd? {
              break;
            }
            var key := KeyOf(ts[reader.pos - 1]);
            if key.Failure? {
              return Failure(key.error);
            }
            var value := ReadWrapper(reader);
            if value.Failure? {
              return Failure(value.error);
            }
            if key.value.None? {
              return Failure(NullKey);
            }
            props := Assign(props, key.value.value, value.value);
          }
          return Success(Some(JObject(props)));
        case PropertyName(_) => return Success(Some(JNone));
        case ObjectEnd => return Success(Some(JNone));
      }
    }

    /** `WriteValue(obj, writer, writer_is_private, depth)`: on success the
        writer has received exactly what `Encode` gives, after what it held;
        on failure the error is `Encode`'s and the writer has only had
        tokens appended. */
    method WriteValue(o: Obj, writer: JsonWriter, priv: bool, depth: int) returns (r: Outcome<JsonError>)
      modifies writer
      ensures Agrees(r, Encode(exporters, o, priv, depth, maxNestingDepth), old(writer.written), writer.written)
      decreases o, 1
    {
      if depth > maxNestingDepth {
        return Fail(if o.NullObj? then NullReference else MaxDepthExceeded);
      }
      r := Pass;
      match Dispatch(exporters, o) {
        case CNull => writer.Write(WNull);
        case CWrapper =>
          if priv {
            writer.Write(WRawText(o.wrapperJson.value));
          } else {
            writer.Write(WWrapper(o.wrapperJson.value));
          }
        case CString => writer.Write(WString(o.s));
        case CSingle => writer.Write(WSingle(o.f));
        case CDouble => writer.Write(WDouble(o.d));
        case CInt => writer.Write(WInt(o.i));
        case CBool => writer.Write(WBool(o.b));
        case CLong => writer.Write(WLong(o.l));
        case CArray => r := WriteArray(o.elements, writer, priv, depth + 1);
        case CList => r := WriteArray(o.items, writer, priv, depth + 1);
        case CDictionary => r := WriteDictionary(o.entries, writer, priv, depth + 1);
        case CCustom => writer.Write(WExported(true, ObjType(o), o));
        case CBase => writer.Write(WExported(false, ObjType(o), o));
        case CEnum =>
          match EnumTokenAsWritten(o.underlying, o.number) {
            case Success(w) => writer.Write(w);
            case Failure(e) => r := Fail(e);
          }
        case CObject => r := WriteObject(o.members, writer, priv, depth + 1);
      }
    }

    /** `WriteArrayStart`, the elements, `WriteArrayEnd`. */
    method WriteArray(items: seq<Obj>, writer: JsonWriter, priv: bool, depth: int) returns (r: Outcome<JsonError>)
      modifies writer
      ensures Agrees(r, Bracketed(WArrayStart, EncodeSeq(exporters, items, priv, depth, maxNestingDepth), WArrayEnd),
                     old(writer.written), writer.written)
      decreases items, 2
    {
      writer.Write(WArrayStart);
      r := WriteItems(items, writer, priv, depth);
      if r.Pass? {
        writer.Write(WArrayEnd);
      }
    }

    /** `WriteObjectStart`, the entries, `WriteObjectEnd`. */
    method WriteDictionary(entries: seq<Entry>, writer: JsonWriter, priv: bool, depth: int) returns (r: Outcome<JsonError>)
      modifies writer
      ensures Agrees(r, Bracketed(WObjectStart, EncodeEntries(exporters, entries, priv, depth, maxNestingDepth), WObjectEnd),
                     old(writer.written), writer.written)
      decreases entries, 2
    {
      writer.Write(WObjectStart);
      r := WriteEntries(entries, writer, priv, depth);
      if r.Pass? {
        writer.Write(WObjectEnd);
      }
    }

    /** `WriteObjectStart`, the members, `WriteObjectEnd`. */
    method WriteObject(members: seq<Member>, writer: JsonWriter, priv: bool, depth: int) returns (r: Outcome<JsonError>)
      modifies writer
      ensures Agrees(r, Bracketed(WObjectStart, EncodeMembers(exporters, members, priv, depth, maxNestingDepth), WObjectEnd),
                     old(writer.written), writer.written)
      decreases members, 2
    {
      writer.Write(WObjectStart);
      r := WriteMembers(members, writer, priv, depth);
      if r.Pass? {
        writer.Write(WObjectEnd);
      }
    }

    /** The `foreach` over an array's or a list's elements. */
    method WriteItems(items: seq<Obj>, writer: JsonWriter, priv: bool, depth: int) returns (r: Outcome<JsonError>)
      modifies writer
      ensures Agrees(r, EncodeSeq(exporters, items, priv, depth, maxNestingDepth), old(writer.written), writer.written)
      decreases items, 1
    {
      ghost var done: seq<Written> := [];
      var i := 0;
      assert items[0..] == items;
      PrefixedNothing(EncodeSeq(exporters, items, priv, depth, maxNestingDepth));
      while i < |items|
        invariant 0 <= i <= |items|
        invariant writer.written == old(writer.written) + done
        invariant Prefixed(done, EncodeSeq(exporters, items[i..], priv, depth, maxNestingDepth))
                  == EncodeSeq(exporters, items, priv, depth, maxNestingDepth)
      {
        r, done := WriteItem(items, i, writer, priv, depth, old(writer.written), done);
        if r.Fail? {
          return;
        }
        i := i + 1;
      }
      return Pass;
    }

    /** One pass of that `foreach`: the element at `i`, after `done` was
        written for the ones before it. */
    method WriteItem(items: seq<Obj>, i: nat, writer: JsonWriter, priv: bool, depth: int,
                     ghost base: seq<Written>, ghost done: seq<Written>)
      returns (r: Outcome<JsonError>, ghost done': seq<Written>)
      requires i < |items|
      requires writer.written == base + done
      modifies writer
      ensures old(writer.written) <= writer.written
      ensures writer.written == base + done'
      ensures r.Fail? ==> Prefixed(done, EncodeSeq(exporters, items[i..], priv, depth, maxNestingDepth)) == Failure(r.error)
      ensures r.Pass? ==> Prefixed(done', EncodeSeq(exporters, items[i + 1..], priv, depth, maxNestingDepth))
                          == Prefixed(done, EncodeSeq(exporters, items[i..], priv, depth, maxNestingDepth))
      decreases items, 0
    {
      EncodeSeqStep(exporters, items, i, priv, depth, maxNestingDepth);
      ghost var before := writer.written;
      r := WriteValue(items[i], writer, priv, depth);
      ghost var step := writer.written[|before|..];
      done' := done + step;
      assert writer.written == base + done';
      if r.Pass? {
        PrefixedTwice(done, step, EncodeSeq(exporters, items[i + 1..], priv, depth, maxNestingDepth));
      }
    }

    /** The `foreach` over a dictionary's entries. */
    method WriteEntries(entries: seq<Entry>, writer: JsonWriter, priv: bool, depth: int) returns (r: Outcome<JsonError>)
      modifies writer
      ensures Agrees(r, EncodeEntries(exporters, entries, priv, depth, maxNestingDepth), old(writer.written), writer.written)
      decreases entries, 1
    {
      ghost var done: seq<Written> := [];
      var i := 0;
      assert entries[0..] == entries;
      PrefixedNothing(EncodeEntries(exporters, entries, priv, depth, maxNestingDepth));
      while i < |entries|
        invariant 0 <= i <= |entries|
        invariant writer.written == old(writer.written) + done
        invariant Prefixed(done, EncodeEntries(exporters, entries[i..], priv, depth, maxNestingDepth))
                  == EncodeEntries(exporters, entries, priv, depth, maxNestingDepth)
      {
        r, done := WriteEntryAt(entries, i, writer, priv, depth, old(writer.written), done);
        if r.Fail? {
          return;
        }
        i := i + 1;
      }
      return Pass;
    }

    /** One pass of that `foreach`: the entry at `i`, after `done` was written
        for the ones before it. */
    method WriteEntryAt(entries: seq<Entry>, i: nat, writer: JsonWriter, priv: bool, depth: int,
                     ghost base: seq<Written>, ghost done: seq<Written>)
      returns (r: Outcome<JsonError>, ghost done': seq<Written>)
      requires i < |entries|
      requires writer.written == base + done
      modifies writer
      ensures old(writer.written) <= writer.written
      ensures writer.written == base + done'
      ensures r.Fail? ==> Prefixed(done, EncodeEntries(exporters, entries[i..], priv, depth, maxNestingDepth)) == Failure(r.error)
      ensures r.Pass? ==> Prefixed(done', EncodeEntries(exporters, entries[i + 1..], priv, depth, maxNestingDepth))
                          == Prefixed(done, EncodeEntries(exporters, entries[i..], priv, depth, maxNestingDepth))
      decreases entries, 0
    {
      EncodeEntriesStep(exporters, entries, i, priv, depth, maxNestingDepth);
      ghost var before := writer.written;
      r := WriteEntry(entries[i], writer, priv, depth);
      ghost var step := writer.written[|before|..];
      done' := done + step;
      assert writer.written == base + done';
      if r.Pass? {
        PrefixedTwice(done, step, EncodeEntries(exporters, entries[i + 1..], priv, depth, maxNestingDepth));
      }
    }

    /** One entry: `(string)entry.Key` as the property name, then the value. */
    method WriteEntry(e: Entry, writer: JsonWriter, priv: bool, depth: int) returns (r: Outcome<JsonError>)
      modifies writer
      ensures Agrees(r, EncodeEntry(exporters, e, priv, depth, maxNestingDepth), old(writer.written), writer.written)
      decreases e, 2
    {
      if !e.key.StringObj? {
        return Fail(InvalidCast);
      }
      writer.Write(WPropertyName(e.key.s));
      r := WriteValue(e.value, writer, priv, depth);
    }

    /** The `foreach` over `type_properties`. */
    method WriteMembers(members: seq<Member>, writer: JsonWriter, priv: bool, depth: int) returns (r: Outcome<JsonError>)
      modifies writer
      ensures Agrees(r, EncodeMembers(exporters, members, priv, depth, maxNestingDepth), old(writer.written), writer.written)
      decreases members, 1
    {
      ghost var done: seq<Written> := [];
      var i := 0;
      assert members[0..] == members;
      PrefixedNothing(EncodeMembers(exporters, members, priv, depth, maxNestingDepth));
      while i < |members|
        invariant 0 <= i <= |members|
        invariant writer.written == old(writer.written) + done
        invariant Prefixed(done, EncodeMembers(exporters, members[i..], priv, depth, maxNestingDepth))
                  == EncodeMembers(exporters, members, priv, depth, maxNestingDepth)
      {
        r, done := WriteMemberAt(members, i, writer, priv, depth, old(writer.written), done);
        if r.Fail? {
          return;
        }
        i := i + 1;
      }
      return Pass;
    }

    /** One pass of that `foreach`: the member at `i`, after `done` was written
        for the ones before it. */
    method WriteMemberAt(members: seq<Member>, i: nat, writer: JsonWriter, priv: bool, depth: int,
                     ghost base: seq<Written>, ghost done: seq<Written>)
      returns (r: Outcome<JsonError>, ghost done': seq<Written>)
      requires i < |members|
      requires writer.written == base + done
      modifies writer
      ensures old(writer.written) <= writer.written
      ensures writer.written == base + done'
      ensures r.Fail? ==> Prefixed(done, EncodeMembers(exporters, members[i..], priv, depth, maxNestingDepth)) == Failure(r.error)
      ensures r.Pass? ==> Prefixed(done', EncodeMembers(exporters, members[i + 1..], priv, depth, maxNestingDepth))
                          == Prefixed(done, EncodeMembers(exporters, members[i..], priv, depth, maxNestingDepth))
      decreases members, 0
    {
      EncodeMembersStep(exporters, members, i, priv, depth, maxNestingDepth);
      ghost var before := writer.written;
      r := WriteMember(members[i], writer, priv, depth);
      ghost var step := writer.written[|before|..];
      done' := done + step;
      assert writer.written == base + done';
      if r.Pass? {
        PrefixedTwice(done, step, EncodeMembers(exporters, members[i + 1..], priv, depth, maxNestingDepth));
      }
    }

    /** A field always, a property only when `CanRead`: its name, then its value. */
    method WriteMember(m: Member, writer: JsonWriter, priv: bool, depth: int) returns (r: Outcome<JsonError>)
      modifies writer
      ensures Agrees(r, EncodeMember(exporters, m, priv, depth, maxNestingDepth), old(writer.written), writer.written)
      decreases m, 2
    {
      if m.isField || m.canRead {
        writer.Write(WPropertyName(m.name));
        r := WriteValue(m.value, writer, priv, depth);
      } else {
        r := Pass;
      }
    }

    /** `ToJson(obj)`: a fresh private writer, written at depth 0. */
    method ToJson(o: Obj) returns (r: Result<seq<Written>, JsonError>)
      ensures r == Encode(exporters, o, true, 0, maxNestingDepth)
    {
      var writer := new JsonWriter();
      var outcome := WriteValue(o, writer, true, 0);
      if outcome.Fail? {
        return Failure(outcome.error);
      }
      ghost var spec := Encode(exporters, o, true, 0, maxNestingDepth);
      assert spec.Success? && writer.written == [] + spec.value;
      assert [] + spec.value == spec.value;
      return Success(writer.written);
    }
  }

  lemma BaseIsShallowerOpt(env: TypeEnv, t: TypeId)
    requires WellFormed(env)
    ensures WalkLeft(env, Info(env, t).baseType) < WalkLeft(env, Some(t))
    ensures ChainProperties(env, t) == Info(env, t).declaredProperties + ChainFrom(env, Info(env, t).baseType)
  {
    if Info(env, t).baseType.Some? {
      BaseIsShallower(env, t);
    }
  }
}
