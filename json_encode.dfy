/** The encoder: `WriteValue(obj, writer, writer_is_private, depth)` walks an
    object graph and appends JSON tokens to a writer. The graph is a value
    here: an object carries the answers to every runtime type test the
    encoder makes of it. */
module JsonEncode {
  import opened Wrappers
  import opened ClrTypes
  import opened JsonValues

  /** How `obj_type` is found for an object: an interpreted instance and a
      cross-binding adaptor report their interpreted type, anything else its
      own CLR type. */
  datatype Origin = Clr | IlInstance(ilType: TypeId) | Adaptor(ilType: TypeId)

  /** An object handed to the encoder. An `InstanceObj` answers the
      interface tests (`IJsonWrapper`, `IList`, `IDictionary`) and lists the
      members `type_properties` gives for its type, each with the value
      reflection reads from it. */
  datatype Obj =
    | NullObj
    | StringObj(s: string)
    | SingleObj(f: Float)
    | DoubleObj(d: Float)
    | IntObj(i: int)
    | BoolObj(b: bool)
    | LongObj(l: int)
    | ArrayObj(arrayType: TypeId, elements: seq<Obj>)
    | EnumObj(enumType: TypeId, underlying: Prim, number: int)
    | InstanceObj(
        origin: Origin,
        clrType: TypeId,
        wrapperJson: Option<string>,   // an IJsonWrapper, and the text its ToJson() gives
        isList: bool, items: seq<Obj>,
        isDictionary: bool, entries: seq<Entry>,
        members: seq<Member>)

  /** A `DictionaryEntry`. */
  datatype Entry = Entry(key: Obj, value: Obj)

  /** A `PropertyMetadata` of `type_properties` with the value read from the object. */
  datatype Member = Member(name: string, isField: bool, canRead: bool, value: Obj)

  /** What the writer receives. An exporter delegate and a wrapper's own
      `ToJson` are foreign code: their output is recorded by what produced it. */
  datatype Written =
    | WNull
    | WString(s: string)
    | WSingle(f: Float)
    | WDouble(d: Float)
    | WInt(i: int)
    | WBool(b: bool)
    | WLong(l: int)
    | WULong(u: nat)
    | WArrayStart | WArrayEnd
    | WObjectStart | WObjectEnd
    | WPropertyName(name: string)
    | WRawText(json: string)                         // text written around the writer
    | WWrapper(json: string)                         // a wrapper writing itself through the writer
    | WExported(custom: bool, exportedType: TypeId, value: Obj)

  /** The exporter tables, by type. */
  datatype Exporters = Exporters(custom: set<TypeId>, base: set<TypeId>)

  /** `obj_type`. */
  function ObjType(o: Obj): TypeId {
    match o
    case NullObj => Prim(Prim.String)
    case StringObj(_) => Prim(Prim.String)
    case SingleObj(_) => Prim(Single)
    case DoubleObj(_) => Prim(Prim.Double)
    case IntObj(_) => Int32Type
    case BoolObj(_) => Prim(Prim.Boolean)
    case LongObj(_) => Prim(Int64)
    case ArrayObj(t, _) => t
    case EnumObj(t, _, _) => t
    case InstanceObj(origin, clrType, _, _, _, _, _, _) =>
      match origin
      case Clr => clrType
      case IlInstance(t) => t
      case Adaptor(t) => t
  }

  /** The cases of `WriteValue`, in the order they are tried. */
  datatype Case =
    | CNull | CWrapper | CString | CSingle | CDouble | CInt | CBool | CLong
    | CArray | CList | CDictionary | CCustom | CBase | CEnum | CObject

  function CaseIndex(k: Case): nat {
    match k
    case CNull => 0
    case CWrapper => 1
    case CString => 2
    case CSingle => 3
    case CDouble => 4
    case CInt => 5
    case CBool => 6
    case CLong => 7
    case CArray => 8
    case CList => 9
    case CDictionary => 10
    case CCustom => 11
    case CBase => 12
    case CEnum => 13
    case CObject => 14
  }

  /** The test each case makes, asked on its own. */
  predicate Is(x: Exporters, o: Obj, k: Case) {
    match k
    case CNull => o.NullObj?
    case CWrapper => o.InstanceObj? && o.wrapperJson.Some?
    case CString => o.StringObj?
    case CSingle => o.SingleObj?
    case CDouble => o.DoubleObj?
    case CInt => o.IntObj?
    case CBool => o.BoolObj?
    case CLong => o.LongObj?
    case CArray => o.ArrayObj?
    case CList => o.InstanceObj? && o.isList
    case CDictionary => o.InstanceObj? && o.isDictionary
    case CCustom => !o.NullObj? && ObjType(o) in x.custom
    case CBase => !o.NullObj? && ObjType(o) in x.base
    case CEnum => o.EnumObj?
    case CObject => !o.NullObj?
  }

  /** The case `WriteValue` takes. */
  function Dispatch(x: Exporters, o: Obj): (k: Case)
    ensures k == CArray ==> o.ArrayObj?
    ensures k == CWrapper || k == CList || k == CDictionary || k == CObject ==> o.InstanceObj?
    ensures k == CEnum ==> o.EnumObj?
  {
    match o
    case NullObj => CNull
    case StringObj(_) => CString
    case SingleObj(_) => CSingle
    case DoubleObj(_) => CDouble
    case IntObj(_) => CInt
    case BoolObj(_) => CBool
    case LongObj(_) => CLong
    case ArrayObj(_, _) => CArray
    case EnumObj(t, _, _) =>
      if t in x.custom then CCustom else if t in x.base then CBase else CEnum
    case InstanceObj(_, _, wrapperJson, isList, _, isDictionary, _, _) =>
      if wrapperJson.Some? then CWrapper
      else if isList then CList
      else if isDictionary then CDictionary
      else if ObjType(o) in x.custom then CCustom
      else if ObjType(o) in x.base then CBase
      else CObject
  }

  /** `WriteValue` takes exactly the first case whose test holds. */
  lemma DispatchIsFirstMatch(x: Exporters, o: Obj, k: Case)
    ensures Dispatch(x, o) == k <==> Is(x, o, k) && forall k': Case | CaseIndex(k') < CaseIndex(k) :: !Is(x, o, k')
  {
    var r := Dispatch(x, o);
    assert Is(x, o, r);
    forall k': Case | CaseIndex(k') < CaseIndex(r) ensures !Is(x, o, k') {
    }
    if Is(x, o, k) && forall k': Case | CaseIndex(k') < CaseIndex(k) :: !Is(x, o, k') {
      assert CaseIndex(k) <= CaseIndex(r);
      assert CaseIndex(r) <= CaseIndex(k);
    }
  }

  /** Underlying types exported through `ulong`. */
  predicate WideUnderlying(p: Prim) {
    p == Int64 || p == UInt32 || p == UInt64
  }

  const TwoTo64: int := 0x1_0000_0000_0000_0000

  /** An enum as written: unboxing with `(ulong)obj` or `(int)obj` succeeds
      only when the boxed enum's underlying type is exactly that type, so
      every other underlying type makes the cast throw. */
  function EnumTokenAsWritten(underlying: Prim, number: int): Result<Written, JsonError> {
    if WideUnderlying(underlying) then
      if underlying == UInt64 then Success(WULong(number % TwoTo64)) else Failure(InvalidCast)
    else if underlying == Int32 then Success(WInt(number))
    else Failure(InvalidCast)
  }

  /** An enum declared over `long` (or over `byte`) cannot be exported. */
  lemma EnumAsWrittenThrows(number: int)
    ensures EnumTokenAsWritten(Int64, number) == Failure(InvalidCast)
    ensures EnumTokenAsWritten(Byte, number) == Failure(InvalidCast)
  {
  }

  /** An enum as evidently intended: its number, through `ulong` for the
      64-bit and unsigned 32-bit underlying types, through `int` otherwise. */
  function EnumToken(underlying: Prim, number: int): Written {
    if WideUnderlying(underlying) then WULong(number % TwoTo64) else WInt(number)
  }

  /** The corrected export keeps the number: an `int` as it is, a `ulong`
      in range and congruent to the number modulo 2^64. */
  lemma EnumTokenKeepsNumber(underlying: Prim, number: int)
    ensures var w := EnumToken(underlying, number);
      if WideUnderlying(underlying) then w.WULong? && 0 <= w.u < TwoTo64 && w.u % TwoTo64 == number % TwoTo64
      else w == WInt(number)
  {
  }

  /** The corrected export agrees with the code wherever the code's cast
      succeeds. */
  lemma EnumTokenAgreesWhereCastSucceeds(underlying: Prim, number: int)
    requires EnumTokenAsWritten(underlying, number).Success?
    ensures EnumTokenAsWritten(underlying, number).value == EnumToken(underlying, number)
  {
  }

  /** `(string)entry.Key`. */
  function KeyText(key: Obj): Result<string, JsonError> {
    if key.StringObj? then Success(key.s) else Failure(InvalidCast)
  }

  /** `WriteValue`: the depth check comes first (and names the object's
      type, so a null there throws), then the cases in order. Containers
      write their contents one level deeper. */
  function Encode(x: Exporters, o: Obj, priv: bool, depth: int, maxDepth: int): Result<seq<Written>, JsonError>
    decreases o, 1
  {
    if depth > maxDepth then Failure(if o.NullObj? then NullReference else MaxDepthExceeded)
    else
      match Dispatch(x, o)
      case CNull => Success([WNull])
      case CWrapper => Success([if priv then WRawText(o.wrapperJson.value) else WWrapper(o.wrapperJson.value)])
      case CString => Success([WString(o.s)])
      case CSingle => Success([WSingle(o.f)])
      case CDouble => Success([WDouble(o.d)])
      case CInt => Success([WInt(o.i)])
      case CBool => Success([WBool(o.b)])
      case CLong => Success([WLong(o.l)])
      case CArray => Bracketed(WArrayStart, EncodeSeq(x, o.elements, priv, depth + 1, maxDepth), WArrayEnd)
      case CList => Bracketed(WArrayStart, EncodeSeq(x, o.items, priv, depth + 1, maxDepth), WArrayEnd)
      case CDictionary => Bracketed(WObjectStart, EncodeEntries(x, o.entries, priv, depth + 1, maxDepth), WObjectEnd)
      case CCustom => Success([WExported(true, ObjType(o), o)])
      case CBase => Success([WExported(false, ObjType(o), o)])
      case CEnum =>
        var w :- EnumTokenAsWritten(o.underlying, o.number);
        Success([w])
      case CObject => Bracketed(WObjectStart, EncodeMembers(x, o.members, priv, depth + 1, maxDepth), WObjectEnd)
  }

  /** An enum no exporter claims is written as the corrected export would
      write it when it is declared over `int` or `ulong`, and throws on the
      cast for every other underlying type. */
  lemma EnumExport(x: Exporters, t: TypeId, underlying: Prim, number: int, priv: bool, depth: int, maxDepth: int)
    requires t !in x.custom && t !in x.base && depth <= maxDepth
    ensures var r := Encode(x, EnumObj(t, underlying, number), priv, depth, maxDepth);
      && (underlying == Int32 || underlying == UInt64 ==> r == Success([EnumToken(underlying, number)]))
      && (underlying != Int32 && underlying != UInt64 ==> r == Failure(InvalidCast))
  {
  }

  /** A container's contents between its start and end tokens; a failure
      inside is the container's failure. */
  function Bracketed(open: Written, body: Result<seq<Written>, JsonError>, close: Written): (r: Result<seq<Written>, JsonError>)
    ensures r.Success? <==> body.Success?
    ensures body.Success? ==> r.value == [open] + body.value + [close]
    ensures body.Failure? ==> r.error == body.error
  {
    var b :- body;
    Success([open] + b + [close])
  }

  function EncodeSeq(x: Exporters, s: seq<Obj>, priv: bool, depth: int, maxDepth: int): Result<seq<Written>, JsonError>
    decreases s, 0
  {
    if |s| == 0 then Success([])
    else
      var head :- Encode(x, s[0], priv, depth, maxDepth);
      var tail :- EncodeSeq(x, s[1..], priv, depth, maxDepth);
      Success(head + tail)
  }

  function EncodeEntries(x: Exporters, es: seq<Entry>, priv: bool, depth: int, maxDepth: int): Result<seq<Written>, JsonError>
    decreases es, 0
  {
    if |es| == 0 then Success([])
    else
      var head :- EncodeEntry(x, es[0], priv, depth, maxDepth);
      var tail :- EncodeEntries(x, es[1..], priv, depth, maxDepth);
      Success(head + tail)
  }

  /** One dictionary entry: its key cast to a string, then its value. */
  function EncodeEntry(x: Exporters, e: Entry, priv: bool, depth: int, maxDepth: int): Result<seq<Written>, JsonError>
    decreases e, 2
  {
    var key :- KeyText(e.key);
    var value :- Encode(x, e.value, priv, depth, maxDepth);
    Success([WPropertyName(key)] + value)
  }

  function EncodeMembers(x: Exporters, ms: seq<Member>, priv: bool, depth: int, maxDepth: int): Result<seq<Written>, JsonError>
    decreases ms, 0
  {
    if |ms| == 0 then Success([])
    else
      var head :- EncodeMember(x, ms[0], priv, depth, maxDepth);
      var tail :- EncodeMembers(x, ms[1..], priv, depth, maxDepth);
      Success(head + tail)
  }

  /** A field is always written; a property only when it can be read. */
  function EncodeMember(x: Exporters, m: Member, priv: bool, depth: int, maxDepth: int): Result<seq<Written>, JsonError>
    decreases m, 2
  {
    if !Visited(m) then Success([])
    else
      var value :- Encode(x, m.value, priv, depth, maxDepth);
      Success([WPropertyName(m.name)] + value)
  }

  predicate Visited(m: Member) {
    m.isField || m.canRead
  }

  function Max(a: int, b: int): int {
    if a < b then b else a
  }

  /** How many levels below `o` the encoder descends: 0 for a value with
      nothing written inside it, else one more than its deepest child. */
  function Height(x: Exporters, o: Obj): nat
    decreases o, 1
  {
    match Dispatch(x, o)
    case CArray => SeqHeight(x, o.elements)
    case CList => SeqHeight(x, o.items)
    case CDictionary => EntriesHeight(x, o.entries)
    case CObject => MembersHeight(x, o.members)
    case _ => 0
  }

  function SeqHeight(x: Exporters, s: seq<Obj>): nat
    decreases s, 0
  {
    if |s| == 0 then 0 else Max(1 + Height(x, s[0]), SeqHeight(x, s[1..]))
  }

  function EntriesHeight(x: Exporters, es: seq<Entry>): nat
    decreases es, 0
  {
    if |es| == 0 then 0 else Max(EntryHeight(x, es[0]), EntriesHeight(x, es[1..]))
  }

  function EntryHeight(x: Exporters, e: Entry): nat
    decreases e, 2
  {
    1 + Height(x, e.value)
  }

  function MembersHeight(x: Exporters, ms: seq<Member>): nat
    decreases ms, 0
  {
    if |ms| == 0 then 0 else Max(MemberHeight(x, ms[0]), MembersHeight(x, ms[1..]))
  }

  function MemberHeight(x: Exporters, m: Member): nat
    decreases m, 2
  {
    if Visited(m) then 1 + Height(x, m.value) else 0
  }

  /** Every cast the encoder makes succeeds: each dictionary key it reaches
      is a string, and each enum it reaches unboxes to the type it is cast
      to. */
  predicate CastsSucceed(x: Exporters, o: Obj)
    decreases o, 1
  {
    match Dispatch(x, o)
    case CEnum => EnumTokenAsWritten(o.underlying, o.number).Success?
    case CArray => SeqCastsSucceed(x, o.elements)
    case CList => SeqCastsSucceed(x, o.items)
    case CDictionary => EntriesCastsSucceed(x, o.entries)
    case CObject => MembersCastsSucceed(x, o.members)
    case _ => true
  }

  predicate SeqCastsSucceed(x: Exporters, s: seq<Obj>)
    decreases s, 0
  {
    |s| > 0 ==> CastsSucceed(x, s[0]) && SeqCastsSucceed(x, s[1..])
  }

  predicate EntriesCastsSucceed(x: Exporters, es: seq<Entry>)
    decreases es, 0
  {
    |es| > 0 ==> EntryCastsSucceed(x, es[0]) && EntriesCastsSucceed(x, es[1..])
  }

  predicate EntryCastsSucceed(x: Exporters, e: Entry)
    decreases e, 2
  {
    e.key.StringObj? && CastsSucceed(x, e.value)
  }

  predicate MembersCastsSucceed(x: Exporters, ms: seq<Member>)
    decreases ms, 0
  {
    |ms| > 0 ==> MemberCastsSucceed(x, ms[0]) && MembersCastsSucceed(x, ms[1..])
  }

  predicate MemberCastsSucceed(x: Exporters, m: Member)
    decreases m, 2
  {
    Visited(m) ==> CastsSucceed(x, m.value)
  }

  /** The depth guard: when every cast succeeds, encoding fails exactly when some
      value is reached deeper than `maxDepth`, that is when the starting depth
      plus the height exceeds it; the top level is depth 0 and each container
      adds one. */
  lemma {:induction false} DepthGuard(x: Exporters, o: Obj, priv: bool, depth: int, maxDepth: int)
    requires CastsSucceed(x, o)
    ensures Encode(x, o, priv, depth, maxDepth).Failure? <==> depth + Height(x, o) > maxDepth
    decreases o, 1
  {
    if depth <= maxDepth {
      match Dispatch(x, o)
      case CArray => SeqDepthGuard(x, o.elements, priv, depth + 1, maxDepth);
      case CList => SeqDepthGuard(x, o.items, priv, depth + 1, maxDepth);
      case CDictionary => EntriesDepthGuard(x, o.entries, priv, depth + 1, maxDepth);
      case CObject => MembersDepthGuard(x, o.members, priv, depth + 1, maxDepth);
      case _ =>
    }
  }

  lemma {:induction false} SeqDepthGuard(x: Exporters, s: seq<Obj>, priv: bool, depth: int, maxDepth: int)
    requires SeqCastsSucceed(x, s)
    ensures EncodeSeq(x, s, priv, depth, maxDepth).Failure? <==> |s| > 0 && depth - 1 + SeqHeight(x, s) > maxDepth
    decreases s, 0
  {
    if |s| > 0 {
      DepthGuard(x, s[0], priv, depth, maxDepth);
      SeqDepthGuard(x, s[1..], priv, depth, maxDepth);
    }
  }

  lemma {:induction false} EntriesDepthGuard(x: Exporters, es: seq<Entry>, priv: bool, depth: int, maxDepth: int)
    requires EntriesCastsSucceed(x, es)
    ensures EncodeEntries(x, es, priv, depth, maxDepth).Failure? <==> |es| > 0 && depth - 1 + EntriesHeight(x, es) > maxDepth
    decreases es, 0
  {
    if |es| > 0 {
      EntryDepthGuard(x, es[0], priv, depth, maxDepth);
      EntriesDepthGuard(x, es[1..], priv, depth, maxDepth);
    }
  }

  lemma {:induction false} EntryDepthGuard(x: Exporters, e: Entry, priv: bool, depth: int, maxDepth: int)
    requires EntryCastsSucceed(x, e)
    ensures EncodeEntry(x, e, priv, depth, maxDepth).Failure? <==> depth - 1 + EntryHeight(x, e) > maxDepth
    decreases e, 2
  {
    DepthGuard(x, e.value, priv, depth, maxDepth);
  }

  lemma {:induction false} MembersDepthGuard(x: Exporters, ms: seq<Member>, priv: bool, depth: int, maxDepth: int)
    requires MembersCastsSucceed(x, ms)
    ensures EncodeMembers(x, ms, priv, depth, maxDepth).Failure? <==> MembersHeight(x, ms) > 0 && depth - 1 + MembersHeight(x, ms) > maxDepth
    decreases ms, 0
  {
    if |ms| > 0 {
      MemberDepthGuard(x, ms[0], priv, depth, maxDepth);
      MembersDepthGuard(x, ms[1..], priv, depth, maxDepth);
    }
  }

  lemma {:induction false} MemberDepthGuard(x: Exporters, m: Member, priv: bool, depth: int, maxDepth: int)
    requires MemberCastsSucceed(x, m)
    ensures EncodeMember(x, m, priv, depth, maxDepth).Failure? <==> MemberHeight(x, m) > 0 && depth - 1 + MemberHeight(x, m) > maxDepth
    decreases m, 2
  {
    if Visited(m) {
      DepthGuard(x, m.value, priv, depth, maxDepth);
    }
  }

  /** A leaf past the limit throws even though nothing would be nested in
      it, and a null there dereferences the null to name its type. */
  lemma DepthCheckPrecedesLeaves(x: Exporters, maxDepth: int)
    ensures Encode(x, IntObj(0), false, maxDepth + 1, maxDepth) == Failure(MaxDepthExceeded)
    ensures Encode(x, NullObj, false, maxDepth + 1, maxDepth) == Failure(NullReference)
    ensures Encode(x, IntObj(0), false, maxDepth, maxDepth) == Success([WInt(0)])
  {
  }
}
