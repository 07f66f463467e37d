/** The typed decoder: `ReadValue(Type, reader)` turns the reader's tokens
    into an object of the requested type, through the scalar conversion
    ladder, the array metadata and the object metadata. The requested type is
    an `Option`: the element type of a list without an `int` indexer, or the
    value type of a dictionary without a `string` indexer, is null. */
module JsonDecode {
  import opened Wrappers
  import opened ClrTypes
  import opened JsonValues
  import opened JsonMetadata
  import opened JsonTree

  /** What decoding consults besides the tokens: reflection, the importer
      tables keyed by (JSON value type, target type), and ILRuntime's
      `CheckCLRTypes`, which is foreign code. */
  datatype Decoder = Decoder(
    env: TypeEnv,
    customImporters: set<(TypeId, TypeId)>,
    baseImporters: set<(TypeId, TypeId)>,
    checkClr: (TypeId, Val) -> Val)

  /** The reader: its tokens and its `SkipNonMembers` switch. */
  datatype Input = Input(tokens: seq<Token>, skipNonMembers: bool)

  /** The type a scalar is converted to: a wrapper's `TypeForCLR`, else the
      requested type itself. */
  function ScalarTarget(env: TypeEnv, t: TypeId): TypeId {
    match Info(env, t).kind
    case Wrapper(_, typeForClr, _, _) => typeForClr
    case _ => t
  }

  /** The type `CheckCLRTypes` is asked about: a wrapper's `RealType`. */
  function RealTypeOf(env: TypeEnv, t: Option<TypeId>): Option<TypeId> {
    match t
    case None => None
    case Some(e) =>
      match Info(env, e).kind
      case Wrapper(realType, _, _, _) => Some(realType)
      case _ => Some(e)
  }

  /** The type `Activator.CreateInstance` / `Instantiate` builds for an object. */
  function CreatedType(env: TypeEnv, t: TypeId): TypeId {
    match Info(env, t).kind
    case Wrapper(realType, _, _, _) => realType
    case _ => t
  }

  /** `rt.CheckCLRTypes(v)`: null passes through, anything else is handed to
      ILRuntime, which cannot be asked about a null type. */
  function Check(d: Decoder, rt: Option<TypeId>, v: Val): Result<Val, JsonError> {
    if v.VNull? then Success(VNull)
    else if rt.None? then Failure(NullReference)
    else Success(d.checkClr(rt.value, v))
  }

  /** The rungs of the scalar conversion ladder, in the order they are tried. */
  datatype Rung = AsIs | InterpretedEnum | Custom | Base | EnumObject | Implicit | Coercion | NoRung

  function RungIndex(k: Rung): nat {
    match k
    case AsIs => 0
    case InterpretedEnum => 1
    case Custom => 2
    case Base => 3
    case EnumObject => 4
    case Implicit => 5
    case Coercion => 6
    case NoRung => 7
  }

  predicate IsIntegral(t: TypeId) {
    t == Int32Type || t == Prim(Int64) || t == Prim(Int16) || t == Prim(Byte)
  }

  /** Whether a rung can take a value of JSON type `jt` to the conversion
      target `vt`, each test asked on its own. */
  predicate Applies(d: Decoder, vt: TypeId, jt: TypeId, k: Rung) {
    match k
    case AsIs => IsAssignableFrom(d.env, vt, jt)
    case InterpretedEnum => Info(d.env, vt).kind.Interpreted? && Info(d.env, vt).isEnum && IsIntegral(jt)
    case Custom => (jt, vt) in d.customImporters
    case Base => (jt, vt) in d.baseImporters
    case EnumObject => Info(d.env, vt).isEnum
    case Implicit => jt in Info(d.env, vt).implicitFrom
    case Coercion =>
      IsValueType(d.env, jt) && IsValueType(d.env, vt) && (vt == Int32Type || vt == Prim(Single) || vt == Prim(Prim.Double))
    case NoRung => true
  }

  /** The rung the ladder takes. */
  function RungOf(d: Decoder, vt: TypeId, jt: TypeId): Rung {
    if IsAssignableFrom(d.env, vt, jt) then AsIs
    else if Info(d.env, vt).kind.Interpreted? && Info(d.env, vt).isEnum && IsIntegral(jt) then InterpretedEnum
    else if (jt, vt) in d.customImporters then Custom
    else if (jt, vt) in d.baseImporters then Base
    else if Info(d.env, vt).isEnum then EnumObject
    else if jt in Info(d.env, vt).implicitFrom then Implicit
    else if IsValueType(d.env, jt) && IsValueType(d.env, vt) && (vt == Int32Type || vt == Prim(Single) || vt == Prim(Prim.Double)) then Coercion
    else NoRung
  }

  /** The ladder takes exactly the first rung that applies. */
  lemma RungOfIsFirstApplicable(d: Decoder, vt: TypeId, jt: TypeId, k: Rung)
    ensures RungOf(d, vt, jt) == k <==>
              Applies(d, vt, jt, k) && forall k': Rung | RungIndex(k') < RungIndex(k) :: !Applies(d, vt, jt, k')
  {
    var r := RungOf(d, vt, jt);
    assert Applies(d, vt, jt, r);
    forall k': Rung | RungIndex(k') < RungIndex(r) ensures !Applies(d, vt, jt, k') {
    }
    if Applies(d, vt, jt, k) && forall k': Rung | RungIndex(k') < RungIndex(k) :: !Applies(d, vt, jt, k') {
      assert RungIndex(k) <= RungIndex(r);
      assert RungIndex(r) <= RungIndex(k);
    }
  }

  /** The number of values of an enum's underlying integral type; 0 for a
      type no enum can be declared over. */
  function Modulus(p: Prim): nat {
    match p
    case SByte => 0x100
    case Byte => 0x100
    case Int16 => 0x1_0000
    case UInt16 => 0x1_0000
    case Int32 => 0x1_0000_0000
    case UInt32 => 0x1_0000_0000
    case Int64 => 0x1_0000_0000_0000_0000
    case UInt64 => 0x1_0000_0000_0000_0000
    case _ => 0
  }

  predicate IsSigned(p: Prim) {
    p == SByte || p == Int16 || p == Int32 || p == Int64
  }

  /** The least value of an integral type. */
  function MinOf(p: Prim): int {
    if IsSigned(p) then -(Modulus(p) / 2) else 0
  }

  /** Whether `n` is a value of the integral type `p`. */
  predicate InRange(p: Prim, n: int) {
    MinOf(p) <= n < MinOf(p) + Modulus(p)
  }

  /** `n` narrowed to `k` values: its residue modulo `k`, moved into
      [-k/2, k/2) when the type is signed. */
  function Narrow(k: nat, signed: bool, n: int): int
    requires k > 0
  {
    var m := n % k;
    if signed && m >= k / 2 then m - k else m
  }

  lemma NarrowKeepsResidue(k: nat, signed: bool, n: int)
    requires k > 0 && k % 2 == 0
    ensures var lo := if signed then -(k / 2) else 0;
      var r := Narrow(k, signed, n);
      lo <= r < lo + k && r % k == n % k && (lo <= n < lo + k ==> r == n)
  {
    var m := n % k;
    assert k == 2 * (k / 2);
    if signed && m >= k / 2 {
      ModOfMultiple(k, -1, m);
      assert Narrow(k, signed, n) % k == m;
    } else {
      ModOfMultiple(k, 0, m);
      assert Narrow(k, signed, n) % k == m;
    }
    var lo := if signed then -(k / 2) else 0;
    if lo <= n < lo + k {
      if n < 0 {
        ModOfMultiple(k, -1, n + k);
        assert m == n + k;
      } else {
        ModOfMultiple(k, 0, n);
        assert m == n;
      }
    }
  }

  /** A residue is determined by the remainder in [0, k). */
  lemma ModOfMultiple(k: nat, q: int, m: int)
    requires k > 0 && 0 <= m < k
    ensures (q * k + m) % k == m
  {
    var x := q * k + m;
    var d := x / k - q;
    assert x == (x / k) * k + x % k;
    assert d * k == m - x % k;
  }

  /** The number boxed into an enum over `p`: the low bits of `n`, read as
      signed or unsigned as `p` is, which is the unchecked narrowing the
      runtime performs. */
  function EnumNumber(p: Prim, n: int): int {
    if Modulus(p) == 0 then n else Narrow(Modulus(p), IsSigned(p), n)
  }

  /** The boxed number lies in the underlying type, is congruent to the given
      number modulo the type's size, and is the number itself when that
      already fits. */
  lemma {:induction false} EnumNumberTruncates(p: Prim, n: int)
    ensures Modulus(p) > 0 ==>
              && InRange(p, EnumNumber(p, n))
              && EnumNumber(p, n) % Modulus(p) == n % Modulus(p)
              && (InRange(p, n) ==> EnumNumber(p, n) == n)
  {
    if Modulus(p) > 0 {
      NarrowKeepsResidue(Modulus(p), IsSigned(p), n);
    }
  }

  /** The number `Enum.ToObject` is given: an integral value as it is, a
      `bool` as 1 or 0; a `double` and a string have none. */
  function ScalarNumber(s: Scalar): Option<int> {
    match s
    case SInt(i) => Some(i)
    case SLong(l) => Some(l)
    case SBool(b) => Some(if b then 1 else 0)
    case _ => None
  }

  /** `Enum.ToObject(vt, value)` for a runtime enum type declared over
      `underlying`: refuses a `double` or a string, and otherwise boxes the
      value's number narrowed to the underlying type. */
  function EnumToObject(vt: TypeId, underlying: Prim, s: Scalar): (r: Result<Val, JsonError>)
    ensures r.Failure? <==> s.SDouble? || s.SString?
    ensures r.Failure? ==> r.error == EnumArgument(s, vt)
    ensures r.Success? ==> r.value.VEnum? && r.value.enumType == vt
    ensures r.Success? && Modulus(underlying) > 0 ==>
              InRange(underlying, r.value.number) && r.value.number % Modulus(underlying) == ScalarNumber(s).value % Modulus(underlying)
  {
    match ScalarNumber(s)
    case Some(n) =>
      EnumNumberTruncates(underlying, n);
      Success(VEnum(vt, EnumNumber(underlying, n)))
    case None => Failure(EnumArgument(s, vt))
  }

  /** `Convert.ToInt32`, `(float)Convert.ToDouble`, `Convert.ToDouble` of a
      boxed value type. A `long` out of the 32-bit range overflows; a `bool`
      is 1 or 0; floating-point results stay symbolic. */
  function Coerce(vt: TypeId, s: Scalar): Result<Val, JsonError> {
    if vt == Int32Type then
      match s
      case SInt(i) => Success(VScalar(SInt(i)))
      case SLong(l) => if Int32Min <= l <= Int32Max then Success(VScalar(SInt(l))) else Failure(Overflow(s))
      case SBool(b) => Success(VScalar(SInt(if b then 1 else 0)))
      case _ => Success(VConverted(ToInt32, vt, s))
    else if vt == Prim(Single) then Success(VConverted(ToSingle, vt, s))
    else Success(VConverted(ToDouble, vt, s))
  }

  /** A scalar token read into `instType`: the rung taken decides the value;
      when no rung applies the error names the value, its JSON type and the
      requested type. `Enum.ToObject` refuses an ILRuntime enum type, which is
      not a runtime type. */
  function ConvertScalar(d: Decoder, instType: TypeId, s: Scalar): Result<Val, JsonError> {
    var vt := ScalarTarget(d.env, instType);
    match RungOf(d, vt, JsonType(s))
    case AsIs => Success(VScalar(s))
    case InterpretedEnum => Success(VScalar(s))
    case Custom => Success(VConverted(CustomImporter, vt, s))
    case Base => Success(VConverted(BaseImporter, vt, s))
    case EnumObject =>
      if Info(d.env, vt).kind.Interpreted? then Failure(EnumArgument(s, vt))
      else EnumToObject(vt, Info(d.env, vt).enumUnderlying, s)
    case Implicit => Success(VConverted(ImplicitOperator, vt, s))
    case Coercion => Coerce(vt, s)
    case NoRung => Failure(CannotAssign(s, JsonType(s), instType))
  }

  /** The conversion fails, naming the value, its JSON type and the
      requested type, exactly when no rung applies; an assignable value and an
      integral value for an interpreted enum are kept as they are. */
  lemma ConvertScalarFailsOnlyOffTheLadder(d: Decoder, instType: TypeId, s: Scalar)
    ensures ConvertScalar(d, instType, s) == Failure(CannotAssign(s, JsonType(s), instType)) <==>
              RungOf(d, ScalarTarget(d.env, instType), JsonType(s)) == NoRung
    ensures RungOf(d, ScalarTarget(d.env, instType), JsonType(s)) in {AsIs, InterpretedEnum} ==>
              ConvertScalar(d, instType, s) == Success(VScalar(s))
  {
  }

  /** An importer registered for the exact pair wins over an enum target, an
      implicit operator and the numeric coercions, and a custom importer wins
      over a base one. */
  lemma ImporterPrecedence(d: Decoder, instType: TypeId, s: Scalar)
    requires (JsonType(s), ScalarTarget(d.env, instType)) in d.customImporters
    requires !IsAssignableFrom(d.env, ScalarTarget(d.env, instType), JsonType(s))
    requires !Info(d.env, ScalarTarget(d.env, instType)).kind.Interpreted?
    ensures ConvertScalar(d, instType, s) == Success(VConverted(CustomImporter, ScalarTarget(d.env, instType), s))
  {
  }

  /** An ILRuntime enum takes an integral value as it is. Any other scalar
      that neither fits as-is nor has an importer reaches `Enum.ToObject`,
      which accepts only a runtime type and so refuses it. */
  lemma InterpretedEnumRefusesOtherScalars(d: Decoder, instType: TypeId, s: Scalar)
    requires Info(d.env, ScalarTarget(d.env, instType)).kind.Interpreted?
    requires Info(d.env, ScalarTarget(d.env, instType)).isEnum
    ensures var vt, jt := ScalarTarget(d.env, instType), JsonType(s);
      && (ConvertScalar(d, instType, s).Failure? <==>
            !IsAssignableFrom(d.env, vt, jt) && !IsIntegral(jt) && (jt, vt) !in d.customImporters && (jt, vt) !in d.baseImporters)
      && (ConvertScalar(d, instType, s).Failure? ==> ConvertScalar(d, instType, s).error == EnumArgument(s, vt))
      && (IsIntegral(jt) ==> ConvertScalar(d, instType, s) == Success(VScalar(s)))
  {
  }

  /** The typed `ReadValue`. `ArrayEnd` gives null (the end of an enclosing
      array); `Null` gives null for any type; a scalar goes through the
      ladder; arrays and objects are read through the metadata; a stray
      `PropertyName` or `ObjectEnd` gives the still-null instance. With no
      type at all, everything but those tokens dereferences it. */
  function ReadTyped(d: Decoder, t: Option<TypeId>, inp: Input, pos: nat): (r: Result<(Val, nat), JsonError>)
    requires WellFormed(d.env) && pos <= |inp.tokens|
    ensures r.Success? ==> pos < r.value.1 <= |inp.tokens|
    decreases |inp.tokens| - pos, 0
  {
    if pos == |inp.tokens| then Failure(UnexpectedEnd)
    else
      var tok := inp.tokens[pos];
      if tok.ArrayEnd? || tok.PropertyName? || tok.ObjectEnd? then Success((VNull, pos + 1))
      else if t.None? then Failure(NullReference)
      else if tok.Null? then Success((VNull, pos + 1))
      else if tok.ArrayStart? then ReadArray(d, t.value, inp, pos + 1)
      else if tok.ObjectStart? then ReadObject(d, t.value, inp, pos + 1)
      else
        var v :- ConvertScalar(d, t.value, ScalarOf(tok));
        Success((v, pos + 1))
  }

  /** The element type an array token is read with: `GetElementType()` for
      an array, the metadata's element type for a list. */
  function ElementTypeFor(env: TypeEnv, t: TypeId, md: ArrayMetadata): Option<TypeId> {
    if md.isArray then Info(env, t).elementType else md.elementType
  }

  /** An array token read into `t` (`pos` is just past `ArrayStart`): the
      type must be an array or a list; a list is created and filled, an array
      is created with exactly the items read. */
  function ReadArray(d: Decoder, t: TypeId, inp: Input, pos: nat): (r: Result<(Val, nat), JsonError>)
    requires WellFormed(d.env) && pos <= |inp.tokens|
    ensures r.Success? ==> pos < r.value.1 <= |inp.tokens|
    decreases |inp.tokens| - pos, 2
  {
    var md :- ArrayMetadataOf(d.env, t);
    if !md.isArray && !md.isList then Failure(CannotActAsArray(t))
    else if !md.isArray && !Info(d.env, t).instantiable then Failure(CreateFailed(t))
    else
      var elem := ElementTypeFor(d.env, t, md);
      var items :- ReadItems(d, elem, inp, pos, []);
      if !md.isArray then Success((VList(t, items.0), items.1))
      else if elem.None? then Failure(NullReference)
      else Success((VArray(elem.value, items.0), items.1))
  }

  /** The array loop, with `acc` read so far: a null read off an `ArrayEnd`
      ends it; every other item goes through `CheckCLRTypes` and is added. */
  function ReadItems(d: Decoder, elem: Option<TypeId>, inp: Input, pos: nat, acc: seq<Val>): (r: Result<(seq<Val>, nat), JsonError>)
    requires WellFormed(d.env) && pos <= |inp.tokens|
    ensures r.Success? ==> pos < r.value.1 <= |inp.tokens| && acc <= r.value.0
    decreases |inp.tokens| - pos, 1
  {
    var item :- ReadTyped(d, elem, inp, pos);
    if item.0.VNull? && inp.tokens[item.1 - 1].ArrayEnd? then Success((acc, item.1))
    else
      var v :- Check(d, RealTypeOf(d.env, elem), item.0);
      ReadItems(d, elem, inp, item.1, acc + [v])
  }

  /** An object token read into `t` (`pos` is just past `ObjectStart`): the
      instance is created (an interpreted type through the interpreter, a
      wrapper as its real type) and filled. */
  function ReadObject(d: Decoder, t: TypeId, inp: Input, pos: nat): (r: Result<(Val, nat), JsonError>)
    requires WellFormed(d.env) && pos <= |inp.tokens|
    ensures r.Success? ==> pos < r.value.1 <= |inp.tokens|
    decreases |inp.tokens| - pos, 2
  {
    var md :- ObjectMetadataOf(d.env, t);
    var created := CreatedType(d.env, t);
    if !Info(d.env, created).instantiable then Failure(CreateFailed(created))
    else ReadMembers(d, t, md, created, inp, pos, map[], map[])
  }

  /** The object loop: a known member is read with its own type and set; an
      unknown name is an entry of a dictionary, else skipped or refused as
      `SkipNonMembers` says. */
  function ReadMembers(d: Decoder, t: TypeId, md: ObjectMetadata, created: TypeId, inp: Input, pos: nat,
                       members: map<string, Val>, entries: map<string, Val>): (r: Result<(Val, nat), JsonError>)
    requires WellFormed(d.env) && pos <= |inp.tokens|
    ensures r.Success? ==> pos < r.value.1 <= |inp.tokens|
    decreases |inp.tokens| - pos, 1
  {
    if pos == |inp.tokens| then Failure(UnexpectedEnd)
    else if inp.tokens[pos].ObjectEnd? then Success((VObject(created, members, entries), pos + 1))
    else
      var key :- KeyOf(inp.tokens[pos]);
      if key.None? then Failure(NullKey)
      else
        var k := key.value;
        if k in md.properties then
          var pm := md.properties[k];
          var v :- ReadTyped(d, Some(pm.memberType), inp, pos + 1);
          if !pm.writable then Failure(NotWritable(k))
          else ReadMembers(d, t, md, created, inp, v.1, members[k := v.0], entries)
        else if !md.isDictionary then
          if !inp.skipNonMembers then Failure(NoSuchProperty(t, k))
          else
            var skipped :- ReadTree(inp.tokens, pos + 1);
            ReadMembers(d, t, md, created, inp, skipped.1, members, entries)
        else
          var v :- ReadTyped(d, md.elementType, inp, pos + 1);
          var checked :- Check(d, RealTypeOf(d.env, md.elementType), v.0);
          if k in entries then Failure(DuplicateKey(k))
          else ReadMembers(d, t, md, created, inp, v.1, members, entries[k := checked])
  }

  /** A `Null` token reads as null whatever the (non-null) requested type:
      there is no path that refuses null. */
  lemma NullReadsAsNull(d: Decoder, t: TypeId, inp: Input, pos: nat)
    requires WellFormed(d.env) && pos < |inp.tokens| && inp.tokens[pos] == Null
    ensures ReadTyped(d, Some(t), inp, pos) == Success((VNull, pos + 1))
  {
  }

  /** What an object read leaves: members only under names of the table,
      and entries only on a dictionary and only under names outside the
      table. */
  lemma {:induction false} ReadMembersShape(d: Decoder, t: TypeId, md: ObjectMetadata, created: TypeId, inp: Input, pos: nat,
                                            members: map<string, Val>, entries: map<string, Val>)
    requires WellFormed(d.env) && pos <= |inp.tokens|
    requires members.Keys <= md.properties.Keys && entries.Keys !! md.properties.Keys
    requires entries != map[] ==> md.isDictionary
    requires ReadMembers(d, t, md, created, inp, pos, members, entries).Success?
    ensures var v := ReadMembers(d, t, md, created, inp, pos, members, entries).value.0;
      && v.VObject? && v.objectType == created
      && members.Keys <= v.members.Keys <= md.properties.Keys
      && entries.Keys <= v.entries.Keys && v.entries.Keys !! md.properties.Keys
      && (v.entries != map[] ==> md.isDictionary)
    decreases |inp.tokens| - pos
  {
    if inp.tokens[pos].ObjectEnd? {
    } else {
      var k := KeyOf(inp.tokens[pos]).value.value;
      if k in md.properties {
        var v := ReadTyped(d, Some(md.properties[k].memberType), inp, pos + 1).value;
        ReadMembersShape(d, t, md, created, inp, v.1, members[k := v.0], entries);
      } else if !md.isDictionary {
        var skipped := ReadTree(inp.tokens, pos + 1).value;
        ReadMembersShape(d, t, md, created, inp, skipped.1, members, entries);
      } else {
        var v := ReadTyped(d, md.elementType, inp, pos + 1).value;
        var checked := Check(d, RealTypeOf(d.env, md.elementType), v.0).value;
        ReadMembersShape(d, t, md, created, inp, v.1, members, entries[k := checked]);
      }
    }
  }

  /** The tokens of a JSON array of scalars. */
  function ScalarTokens(xs: seq<Scalar>): (r: seq<Token>)
    ensures |r| == |xs|
    ensures forall i | 0 <= i < |xs| :: IsScalarToken(r[i]) && ScalarOf(r[i]) == xs[i]
  {
    seq(|xs|, i requires 0 <= i < |xs| =>
      match xs[i]
      case SInt(n) => Int(n)
      case SLong(n) => Long(n)
      case SDouble(f) => Token.Double(f)
      case SString(s) => Token.String(s)
      case SBool(b) => Token.Boolean(b))
  }

  /** Each scalar boxed and passed through `CheckCLRTypes` for `rt`, in order. */
  function CheckedAll(d: Decoder, rt: TypeId, xs: seq<Scalar>): (r: seq<Val>)
    ensures |r| == |xs|
    ensures forall i | 0 <= i < |xs| :: r[i] == d.checkClr(rt, VScalar(xs[i]))
  {
    seq(|xs|, i requires 0 <= i < |xs| => d.checkClr(rt, VScalar(xs[i])))
  }

  /** Reading scalars the element type takes as they are gives, in order,
      each one passed through `CheckCLRTypes`, and stops past `ArrayEnd`. */
  lemma {:induction false} ReadItemsOfScalars(d: Decoder, e: TypeId, rt: TypeId, inp: Input, pos: nat, acc: seq<Val>, xs: seq<Scalar>)
    requires WellFormed(d.env) && pos + |xs| < |inp.tokens|
    requires forall i | 0 <= i < |xs| :: inp.tokens[pos + i] == ScalarTokens(xs)[i]
    requires inp.tokens[pos + |xs|] == ArrayEnd
    requires forall i | 0 <= i < |xs| :: IsAssignableFrom(d.env, ScalarTarget(d.env, e), JsonType(xs[i]))
    requires RealTypeOf(d.env, Some(e)) == Some(rt)
    ensures ReadItems(d, Some(e), inp, pos, acc) == Success((acc + CheckedAll(d, rt, xs), pos + |xs| + 1))
    decreases |xs|
  {
    if |xs| == 0 {
      ReadItemsAtEnd(d, e, inp, pos, acc);
      assert acc + [] == acc;
    } else {
      var rest := xs[1..];
      var v := d.checkClr(rt, VScalar(xs[0]));
      ReadItemsScalarStep(d, e, rt, inp, pos, acc, xs);
      ScalarTokensShift(inp, pos, xs);
      AssignableShift(d, e, xs);
      assert inp.tokens[pos + 1 + |rest|] == ArrayEnd;
      ReadItemsOfScalars(d, e, rt, inp, pos + 1, acc + [v], rest);
      CheckedAllCons(d, rt, acc, xs);
    }
  }

  /** The first scalar of the run is read, checked and appended. */
  lemma ReadItemsScalarStep(d: Decoder, e: TypeId, rt: TypeId, inp: Input, pos: nat, acc: seq<Val>, xs: seq<Scalar>)
    requires WellFormed(d.env) && 0 < |xs| && pos + |xs| < |inp.tokens|
    requires inp.tokens[pos] == ScalarTokens(xs)[0]
    requires IsAssignableFrom(d.env, ScalarTarget(d.env, e), JsonType(xs[0]))
    requires RealTypeOf(d.env, Some(e)) == Some(rt)
    ensures ReadItems(d, Some(e), inp, pos, acc) == ReadItems(d, Some(e), inp, pos + 1, acc + [d.checkClr(rt, VScalar(xs[0]))])
  {
    assert ReadTyped(d, Some(e), inp, pos) == Success((VScalar(xs[0]), pos + 1));
  }

  /** `ArrayEnd` read as an item ends the array. */
  lemma ReadItemsAtEnd(d: Decoder, e: TypeId, inp: Input, pos: nat, acc: seq<Val>)
    requires WellFormed(d.env) && pos < |inp.tokens| && inp.tokens[pos] == ArrayEnd
    ensures ReadItems(d, Some(e), inp, pos, acc) == Success((acc, pos + 1))
  {
    assert ReadTyped(d, Some(e), inp, pos) == Success((VNull, pos + 1));
  }

  lemma AssignableShift(d: Decoder, e: TypeId, xs: seq<Scalar>)
    requires 0 < |xs|
    requires forall i | 0 <= i < |xs| :: IsAssignableFrom(d.env, ScalarTarget(d.env, e), JsonType(xs[i]))
    ensures forall i | 0 <= i < |xs| - 1 :: IsAssignableFrom(d.env, ScalarTarget(d.env, e), JsonType(xs[1..][i]))
  {
    forall i | 0 <= i < |xs| - 1 ensures IsAssignableFrom(d.env, ScalarTarget(d.env, e), JsonType(xs[1..][i])) {
      assert xs[1..][i] == xs[i + 1];
    }
  }

  lemma ScalarTokensShift(inp: Input, pos: nat, xs: seq<Scalar>)
    requires 0 < |xs| && pos + |xs| <= |inp.tokens|
    requires forall i | 0 <= i < |xs| :: inp.tokens[pos + i] == ScalarTokens(xs)[i]
    ensures forall i | 0 <= i < |xs| - 1 :: inp.tokens[pos + 1 + i] == ScalarTokens(xs[1..])[i]
  {
    forall i | 0 <= i < |xs| - 1 ensures inp.tokens[pos + 1 + i] == ScalarTokens(xs[1..])[i] {
      assert inp.tokens[pos + (i + 1)] == ScalarTokens(xs)[i + 1];
    }
  }

  lemma CheckedAllCons(d: Decoder, rt: TypeId, acc: seq<Val>, xs: seq<Scalar>)
    requires 0 < |xs|
    ensures acc + [d.checkClr(rt, VScalar(xs[0]))] + CheckedAll(d, rt, xs[1..]) == acc + CheckedAll(d, rt, xs)
  {
  }

  /** An array of scalars read into a plain array type gets exactly the items
      read, in read order, each passed through `CheckCLRTypes`, and the
      reader stops just past `ArrayEnd`. */
  lemma ArrayGetsItemsInOrder(d: Decoder, t: TypeId, e: TypeId, xs: seq<Scalar>, inp: Input, pos: nat)
    requires WellFormed(d.env)
    requires Info(d.env, t).kind.Native? && Info(d.env, t).isArray && Info(d.env, t).elementType == Some(e)
    requires Info(d.env, e).kind.Native?
    requires forall i | 0 <= i < |xs| :: IsAssignableFrom(d.env, e, JsonType(xs[i]))
    requires pos + |xs| + 1 < |inp.tokens| && inp.tokens[pos] == ArrayStart && inp.tokens[pos + 1 + |xs|] == ArrayEnd
    requires forall i | 0 <= i < |xs| :: inp.tokens[pos + 1 + i] == ScalarTokens(xs)[i]
    ensures ReadTyped(d, Some(t), inp, pos) == Success((VArray(e, CheckedAll(d, e, xs)), pos + |xs| + 2))
  {
    assert ScalarTarget(d.env, e) == e && RealTypeOf(d.env, Some(e)) == Some(e);
    ReadItemsOfScalars(d, e, e, inp, pos + 1, [], xs);
    var items := CheckedAll(d, e, xs);
    assert [] + items == items;
    var md := ArrayMetadata(true, Info(d.env, t).isList, LastIndexer(Info(d.env, t).properties, Int32Type));
    assert ArrayMetadataOf(d.env, t) == Success(md);
    assert ElementTypeFor(d.env, t, md) == Some(e);
    assert ReadArray(d, t, inp, pos + 1) == Success((VArray(e, items), pos + 1 + |xs| + 1));
  }

  /** Whatever the items, a JSON array read into an array type and into a
      creatable list type with the same element type gets the same items in
      the same order and ends at the same token: the array is built from
      exactly what the list would have been filled with. */
  lemma ArrayAndListReadAlike(d: Decoder, ta: TypeId, tl: TypeId, e: TypeId, inp: Input, pos: nat)
    requires WellFormed(d.env) && pos < |inp.tokens| && inp.tokens[pos] == ArrayStart
    requires ArrayMetadataOf(d.env, ta).Success? && ArrayMetadataOf(d.env, ta).value.isArray
    requires ArrayMetadataOf(d.env, tl).Success? && !ArrayMetadataOf(d.env, tl).value.isArray
    requires ArrayMetadataOf(d.env, tl).value.isList && Info(d.env, tl).instantiable
    requires ElementTypeFor(d.env, ta, ArrayMetadataOf(d.env, ta).value) == Some(e)
    requires ElementTypeFor(d.env, tl, ArrayMetadataOf(d.env, tl).value) == Some(e)
    ensures var ra := ReadTyped(d, Some(ta), inp, pos);
      var rl := ReadTyped(d, Some(tl), inp, pos);
      && (ra.Success? <==> rl.Success?)
      && (ra.Failure? ==> ra.error == rl.error)
      && (ra.Success? ==> && ra.value.0.VArray? && ra.value == (VArray(e, ra.value.0.items), rl.value.1)
                          && rl.value.0 == VList(tl, ra.value.0.items))
  {
  }

  /** A JSON array read into a type that is neither an array nor a list is refused. */
  lemma NonCollectionRefusesArray(d: Decoder, t: TypeId, inp: Input, pos: nat)
    requires WellFormed(d.env) && pos < |inp.tokens| && inp.tokens[pos] == ArrayStart
    requires !Info(d.env, t).isArray && !Info(d.env, t).isList && ArrayMetadataOf(d.env, t).Success?
    ensures ReadTyped(d, Some(t), inp, pos) == Failure(CannotActAsArray(t))
  {
  }
}
