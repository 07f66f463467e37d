/** `ILRComponent`: the Unity `MonoBehaviour` that stands in, inside the
    scene, for a script object living in the interpreter (an
    `IILRComponent`). It resolves and instantiates its script type once
    (`Init`), copies the values serialized in the editor into the script
    object's fields (`Awake`), forwards the lifecycle callbacks, and answers
    "which components of this game object run script type T" (`HandleGets`).
    The static hook state (`DType`, `frame`, `comps`, `MainDLL`) lives in
    `Statics`, and the `ILRManager` it calls is the `Manager` of `IlrManager`. */
module IlrComponent {
  import opened Wrappers
  import opened ClrTypes
  import opened IlrManager

  /** A byte, as C#'s `byte`. */
  type Byte = b: int | 0 <= b < 256

  // ---------------------------------------------------------------------
  // BitConverter: the little-endian reads of `BValue`
  // ---------------------------------------------------------------------

  function Pow256(n: nat): nat {
    if n == 0 then 1 else 256 * Pow256(n - 1)
  }

  /** The unsigned number that little-endian bytes spell. */
  function LittleEndian(bs: seq<Byte>): nat {
    if |bs| == 0 then 0 else bs[0] as nat + 256 * LittleEndian(bs[1..])
  }

  /** The writing side (`BitConverter.GetBytes`): the low `n` bytes of `u`,
      least significant first. */
  function LittleEndianBytes(u: nat, n: nat): (bs: seq<Byte>)
    ensures |bs| == n
  {
    if n == 0 then [] else [u % 256] + LittleEndianBytes(u / 256, n - 1)
  }

  /** `n` bytes read as a two's-complement number. */
  function Signed(u: nat, n: nat): int {
    if u >= Pow256(n) / 2 then u - Pow256(n) else u
  }

  /** `BitConverter.ToInt32(BValue, 0)`: the first four bytes. */
  function ToInt32(bs: seq<Byte>): int
    requires |bs| >= 4
  {
    Signed(LittleEndian(bs[..4]), 4)
  }

  /** `BitConverter.ToInt64(BValue, 0)`: the first eight bytes. */
  function ToInt64(bs: seq<Byte>): int
    requires |bs| >= 8
  {
    Signed(LittleEndian(bs[..8]), 8)
  }

  /** `BitConverter.GetBytes` of an `n`-byte signed value. */
  function GetBytes(v: int, n: nat): (bs: seq<Byte>)
    requires -(Pow256(n) / 2) <= v < Pow256(n) / 2
    ensures |bs| == n
  {
    LittleEndianBytes(if v < 0 then v + Pow256(n) else v, n)
  }

  lemma {:induction false} Pow256Positive(n: nat)
    ensures Pow256(n) >= 1
  {
    if n > 0 {
      Pow256Positive(n - 1);
    }
  }

  /** Writing `u` on `n` bytes and reading them back gives `u`. */
  lemma {:induction false} ReadsBackWritten(u: nat, n: nat)
    requires u < Pow256(n)
    ensures LittleEndian(LittleEndianBytes(u, n)) == u
  {
    if n > 0 {
      var q, m := u / 256, u % 256;
      assert u == 256 * q + m;
      assert q < Pow256(n - 1);
      ReadsBackWritten(q, n - 1);
      var bs := LittleEndianBytes(u, n);
      assert bs[1..] == LittleEndianBytes(q, n - 1);
      assert bs[0] as nat == m;
    }
  }

  /** Reading bytes and writing the number back gives the same bytes. */
  lemma {:induction false} WritesBackRead(bs: seq<Byte>)
    ensures LittleEndian(bs) < Pow256(|bs|)
    ensures LittleEndianBytes(LittleEndian(bs), |bs|) == bs
  {
    if |bs| > 0 {
      WritesBackRead(bs[1..]);
      var u := LittleEndian(bs);
      var rest := LittleEndian(bs[1..]);
      assert u == bs[0] as nat + 256 * rest;
      assert u % 256 == bs[0] as nat && u / 256 == rest;
    }
  }

  /** Any `n`-byte signed value survives `GetBytes` and the matching
      `ToIntNN`, whatever follows it in the buffer. */
  lemma SignedRoundTrip(v: int, n: nat, rest: seq<Byte>)
    requires n > 0 && -(Pow256(n) / 2) <= v < Pow256(n) / 2
    ensures (GetBytes(v, n) + rest)[..n] == GetBytes(v, n)
    ensures Signed(LittleEndian(GetBytes(v, n)), n) == v
  {
    assert (GetBytes(v, n) + rest)[..n] == GetBytes(v, n);
    assert Pow256(n) == 256 * Pow256(n - 1);
    Pow256Positive(n - 1);
    var u := if v < 0 then v + Pow256(n) else v;
    ReadsBackWritten(u, n);
  }

  /** `System.Int32` reads back exactly what was written in the first four
      bytes of `BValue`. */
  lemma Int32RoundTrip(v: int, rest: seq<Byte>)
    requires -0x8000_0000 <= v < 0x8000_0000
    ensures ToInt32(GetBytes(v, 4) + rest) == v
  {
    assert Pow256(4) == 0x1_0000_0000;
    SignedRoundTrip(v, 4, rest);
  }

  /** `System.Int64` reads back exactly what was written in the first eight
      bytes of `BValue`. */
  lemma Int64RoundTrip(v: int, rest: seq<Byte>)
    requires -0x8000_0000_0000_0000 <= v < 0x8000_0000_0000_0000
    ensures ToInt64(GetBytes(v, 8) + rest) == v
  {
    assert Pow256(8) == 0x1_0000_0000_0000_0000;
    SignedRoundTrip(v, 8, rest);
  }

  /** What `ToInt32` returns is an `int`: inside the 32-bit signed range. */
  lemma ToInt32InRange(bs: seq<Byte>)
    requires |bs| >= 4
    ensures -0x8000_0000 <= ToInt32(bs) < 0x8000_0000
    ensures GetBytes(ToInt32(bs), 4) == bs[..4]
  {
    assert Pow256(4) == 0x1_0000_0000;
    WritesBackRead(bs[..4]);
  }

  // ---------------------------------------------------------------------
  // Field records and the values hydration assigns
  // ---------------------------------------------------------------------

  const Int32Tag: string := "System.Int32"
  const Int64Tag: string := "System.Int64"
  const SingleTag: string := "System.Single"
  const DoubleTag: string := "System.Double"
  const BooleanTag: string := "System.Boolean"
  const Vector2Tag: string := "UnityEngine.Vector2"
  const Vector3Tag: string := "UnityEngine.Vector3"
  const Vector4Tag: string := "UnityEngine.Vector4"
  const ColorTag: string := "UnityEngine.Color"
  const StringTag: string := "System.String"

  /** `new byte[16]`: the largest struct stored, a `Vector4`, takes 16 bytes. */
  const EmptyBuffer: seq<Byte> := seq(16, _ => 0)

  /** A serialized `UnityEngine.Object` reference: none, another proxy, or
      any other asset. A destroyed object tests false in Unity. */
  datatype UnityRef =
    | NoRef
    | ComponentRef(component: Component)
    | AssetRef(asset: nat, alive: bool)

  /** What `FieldInfo.SetValue` stores. Floating-point values and the Unity
      structs are kept as their tag and raw bytes; a string is the UTF-8
      decoding of the whole buffer, kept as the bytes decoded. */
  datatype FieldValue =
    | IntValue(i: int)
    | LongValue(l: int)
    | BoolValue(b: bool)
    | Utf8Value(bytes: seq<Byte>)
    | OpaqueValue(tag: string, bytes: seq<Byte>)
    | ScriptValue(script: Behaviour?)
    | AssetValue(asset: nat)

  /** A `Field` record as `Awake` reads it. */
  datatype FieldData = FieldData(key: string, tag: string, oValue: UnityRef, bValue: seq<Byte>)

  /** The exceptions that end `Awake` early: `Type.GetField` on a null
      `Type`, a `BitConverter` read past the end of a short `BValue`, and
      `Fields.Clear()` on a null list. */
  datatype AwakeError = TypeIsNull | BufferTooShort(tag: string) | FieldsIsNull

  /** What one `Field` record does to the script object. */
  datatype Step = Skip | Assign(value: FieldValue) | Throw(error: AwakeError)

  /** The tags decoded from `BValue`; `None` for a tag naming a reference. */
  function ScalarStep(tag: string, bs: seq<Byte>): Option<Step> {
    if tag == Int32Tag then Some(if |bs| < 4 then Throw(BufferTooShort(tag)) else Assign(IntValue(ToInt32(bs))))
    else if tag == Int64Tag then Some(if |bs| < 8 then Throw(BufferTooShort(tag)) else Assign(LongValue(ToInt64(bs))))
    else if tag == SingleTag then Some(if |bs| < 4 then Throw(BufferTooShort(tag)) else Assign(OpaqueValue(tag, bs)))
    else if tag == DoubleTag then Some(if |bs| < 8 then Throw(BufferTooShort(tag)) else Assign(OpaqueValue(tag, bs)))
    else if tag == BooleanTag then Some(if |bs| < 1 then Throw(BufferTooShort(tag)) else Assign(BoolValue(bs[0] != 0)))
    else if tag == Vector2Tag || tag == Vector3Tag || tag == Vector4Tag || tag == ColorTag then Some(Assign(OpaqueValue(tag, bs)))
    else if tag == StringTag then Some(Assign(Utf8Value(bs)))
    else None
  }

  /** One record against the script type `t`. `resolved` is, for a record
      naming a proxy component, that component's `Object` when the names
      matched (the proxy is initialised first), and `None` when they did not. */
  function FieldStep(env: TypeEnv, t: Option<TypeId>, d: FieldData, resolved: Option<Behaviour?>): Step {
    if t.None? then Throw(TypeIsNull)
    else if !HasPublicField(env, t.value, d.key) then Skip
    else match ScalarStep(d.tag, d.bValue)
      case Some(s) => s
      case None =>
        match d.oValue
        case NoRef => Skip
        case AssetRef(asset, alive) => if alive then Assign(AssetValue(asset)) else Skip
        case ComponentRef(_) => if resolved.Some? then Assign(ScriptValue(resolved.value)) else Skip
  }

  /** The script object's fields after a run of records, and the exception
      that stopped the run, if any: records are applied in order, a later
      one overwrites an earlier one with the same key, and an exception
      keeps what was assigned before it. */
  datatype Hydration = Hydration(values: map<string, FieldValue>, error: Option<AwakeError>)

  function Hydrate(env: TypeEnv, t: Option<TypeId>, values: map<string, FieldValue>,
                   ds: seq<FieldData>, resolved: seq<Option<Behaviour?>>): Hydration
    requires |resolved| == |ds|
    decreases |ds|
  {
    if |ds| == 0 then Hydration(values, None)
    else match FieldStep(env, t, ds[0], resolved[0])
      case Skip => Hydrate(env, t, values, ds[1..], resolved[1..])
      case Assign(v) => Hydrate(env, t, values[ds[0].key := v], ds[1..], resolved[1..])
      case Throw(e) => Hydration(values, Some(e))
  }

  /** Whether a record throws: with a null `Type`, or on a buffer too short
      for its scalar tag. A record naming a proxy never throws. */
  predicate Throws(env: TypeEnv, t: Option<TypeId>, d: FieldData) {
    || t.None?
    || (HasPublicField(env, t.value, d.key) && ScalarStep(d.tag, d.bValue).Some? && ScalarStep(d.tag, d.bValue).value.Throw?)
  }

  /** Whether the loop over the records reaches record `i`: none before it throws. */
  predicate NoThrowBefore(env: TypeEnv, t: Option<TypeId>, ds: seq<FieldData>, i: nat)
    requires i <= |ds|
  {
    forall j | 0 <= j < i :: !Throws(env, t, ds[j])
  }

  /** Whether a throw does not depend on the proxy a record resolves to. */
  lemma ThrowsIsStepThrow(env: TypeEnv, t: Option<TypeId>, d: FieldData, r: Option<Behaviour?>)
    ensures FieldStep(env, t, d, r).Throw? <==> Throws(env, t, d)
  {
  }

  /** A run of records completes exactly when none of them throws. */
  lemma {:induction false} HydrateCompletes(env: TypeEnv, t: Option<TypeId>, values: map<string, FieldValue>,
                                            ds: seq<FieldData>, rs: seq<Option<Behaviour?>>)
    requires |rs| == |ds|
    ensures Hydrate(env, t, values, ds, rs).error.None? <==> NoThrowBefore(env, t, ds, |ds|)
    decreases |ds|
  {
    if |ds| > 0 {
      ThrowsIsStepThrow(env, t, ds[0], rs[0]);
      assert NoThrowBefore(env, t, ds, |ds|) <==> !Throws(env, t, ds[0]) && NoThrowBefore(env, t, ds[1..], |ds| - 1) by {
        if !Throws(env, t, ds[0]) && NoThrowBefore(env, t, ds[1..], |ds| - 1) {
          forall j | 0 <= j < |ds| ensures !Throws(env, t, ds[j]) {
            if j > 0 {
              assert ds[j] == ds[1..][j - 1];
            }
          }
        }
      }
      match FieldStep(env, t, ds[0], rs[0])
      case Skip => HydrateCompletes(env, t, values, ds[1..], rs[1..]);
      case Assign(v) => HydrateCompletes(env, t, values[ds[0].key := v], ds[1..], rs[1..]);
      case Throw(e) =>
    }
  }

  /** The effect of one step on the values. */
  function Apply(values: map<string, FieldValue>, key: string, s: Step): map<string, FieldValue> {
    if s.Assign? then values[key := s.value] else values
  }

  /** The run extended by one record: a stopped run stays stopped; otherwise
      the record's step is applied last. */
  lemma {:induction false} HydrateSnoc(env: TypeEnv, t: Option<TypeId>, values: map<string, FieldValue>,
                                       ds: seq<FieldData>, rs: seq<Option<Behaviour?>>, d: FieldData, r: Option<Behaviour?>)
    requires |rs| == |ds|
    ensures var h := Hydrate(env, t, values, ds, rs);
            var s := FieldStep(env, t, d, r);
            Hydrate(env, t, values, ds + [d], rs + [r]) ==
              if h.error.Some? then h
              else if s.Throw? then Hydration(h.values, Some(s.error))
              else Hydration(Apply(h.values, d.key, s), None)
    decreases |ds|
  {
    if |ds| == 0 {
      assert ([] + [d])[1..] == [] && ([] + [r])[1..] == [];
    } else {
      assert (ds + [d])[0] == ds[0] && (ds + [d])[1..] == ds[1..] + [d];
      assert (rs + [r])[0] == rs[0] && (rs + [r])[1..] == rs[1..] + [r];
      match FieldStep(env, t, ds[0], rs[0])
      case Skip => HydrateSnoc(env, t, values, ds[1..], rs[1..], d, r);
      case Assign(v) => HydrateSnoc(env, t, values[ds[0].key := v], ds[1..], rs[1..], d, r);
      case Throw(e) =>
    }
  }

  /** A record whose key the script type has no field for, or whose key
      appears in no record, leaves that key as it was: only the records'
      own keys are ever assigned. */
  lemma {:induction false} HydrateKeepsOtherKeys(env: TypeEnv, t: Option<TypeId>, values: map<string, FieldValue>,
                                                 ds: seq<FieldData>, rs: seq<Option<Behaviour?>>, k: string)
    requires |rs| == |ds|
    requires forall i | 0 <= i < |ds| :: ds[i].key != k
    ensures var h := Hydrate(env, t, values, ds, rs);
            (k in h.values <==> k in values) && (k in values ==> h.values[k] == values[k])
    decreases |ds|
  {
    if |ds| > 0 {
      assert ds[0].key != k;
      assert forall i | 0 <= i < |ds| - 1 :: ds[1..][i].key != k by {
        forall i | 0 <= i < |ds| - 1 ensures ds[1..][i].key != k {
          assert ds[1..][i] == ds[i + 1];
        }
      }
      match FieldStep(env, t, ds[0], rs[0])
      case Skip => HydrateKeepsOtherKeys(env, t, values, ds[1..], rs[1..], k);
      case Assign(v) => HydrateKeepsOtherKeys(env, t, values[ds[0].key := v], ds[1..], rs[1..], k);
      case Throw(e) =>
    }
  }

  /** The last record of a run that completes decides its key: a later
      record overwrites an earlier one. */
  lemma LastRecordWins(env: TypeEnv, t: Option<TypeId>, values: map<string, FieldValue>,
                       ds: seq<FieldData>, rs: seq<Option<Behaviour?>>, d: FieldData, r: Option<Behaviour?>)
    requires |rs| == |ds|
    requires Hydrate(env, t, values, ds, rs).error.None?
    requires FieldStep(env, t, d, r).Assign?
    ensures Hydrate(env, t, values, ds + [d], rs + [r]).error.None?
    ensures d.key in Hydrate(env, t, values, ds + [d], rs + [r]).values &&
            Hydrate(env, t, values, ds + [d], rs + [r]).values[d.key] == FieldStep(env, t, d, r).value
  {
    HydrateSnoc(env, t, values, ds, rs, d, r);
  }

  /** Without a script type, the first record throws and nothing is assigned. */
  lemma NoTypeAssignsNothing(env: TypeEnv, values: map<string, FieldValue>, ds: seq<FieldData>, rs: seq<Option<Behaviour?>>)
    requires |rs| == |ds| && |ds| > 0
    ensures Hydrate(env, None, values, ds, rs) == Hydration(values, Some(TypeIsNull))
  {
  }

  /** A record for a key the script type has no public field for is skipped,
      whatever its tag or buffer. */
  lemma UnknownKeySkipped(env: TypeEnv, t: TypeId, d: FieldData, r: Option<Behaviour?>)
    requires !HasPublicField(env, t, d.key)
    ensures FieldStep(env, Some(t), d, r) == Skip
  {
  }

  /** The tags read from the buffer: `System.Int32` from its first four
      bytes, `System.Int64` from its first eight, `System.Boolean` from its
      first, `System.String` from all of it; a buffer too short throws. */
  lemma {:induction false} ScalarTagsRead(env: TypeEnv, t: TypeId, d: FieldData, r: Option<Behaviour?>)
    requires HasPublicField(env, t, d.key)
    ensures d.tag == Int32Tag ==>
      FieldStep(env, Some(t), d, r) == if |d.bValue| < 4 then Throw(BufferTooShort(Int32Tag)) else Assign(IntValue(Signed(LittleEndian(d.bValue[..4]), 4)))
    ensures d.tag == Int64Tag ==>
      FieldStep(env, Some(t), d, r) == if |d.bValue| < 8 then Throw(BufferTooShort(Int64Tag)) else Assign(LongValue(Signed(LittleEndian(d.bValue[..8]), 8)))
    ensures d.tag == BooleanTag ==>
      FieldStep(env, Some(t), d, r) == if |d.bValue| < 1 then Throw(BufferTooShort(BooleanTag)) else Assign(BoolValue(d.bValue[0] != 0))
    ensures d.tag == StringTag ==> FieldStep(env, Some(t), d, r) == Assign(Utf8Value(d.bValue))
  {
    assert Int32Tag != Int64Tag && Int32Tag != BooleanTag && Int32Tag != StringTag;
    assert Int64Tag != SingleTag && Int64Tag != DoubleTag && Int64Tag != BooleanTag;
    assert BooleanTag != SingleTag && BooleanTag != DoubleTag;
    assert StringTag != SingleTag && StringTag != DoubleTag && StringTag != Vector2Tag && StringTag != Vector3Tag;
    assert StringTag != Vector4Tag && StringTag != ColorTag && StringTag != Int64Tag && StringTag != BooleanTag;
  }

  /** A record with any other tag assigns its reference: another asset as
      it is when it is alive, a proxy's `Object` when the proxy is alive and
      its `FullName` equals the tag (the condition under which `HydrateField`
      resolves it), and nothing for a missing, destroyed or mismatched
      reference. */
  lemma ReferenceTagsAssign(env: TypeEnv, t: TypeId, d: FieldData, r: Option<Behaviour?>)
    requires HasPublicField(env, t, d.key) && ScalarStep(d.tag, d.bValue).None?
    requires d.oValue.ComponentRef? ==>
               (r.Some? <==> d.oValue.component.alive && d.oValue.component.fullName == d.tag)
    ensures FieldStep(env, Some(t), d, r).Assign? <==>
              || (d.oValue.AssetRef? && d.oValue.alive)
              || (d.oValue.ComponentRef? && d.oValue.component.alive && d.oValue.component.fullName == d.tag)
    ensures d.oValue.AssetRef? && d.oValue.alive ==> FieldStep(env, Some(t), d, r) == Assign(AssetValue(d.oValue.asset))
    ensures d.oValue.ComponentRef? && r.Some? ==> FieldStep(env, Some(t), d, r) == Assign(ScriptValue(r.value))
  {
  }

  // ---------------------------------------------------------------------
  // Init: resolving and instantiating the script type
  // ---------------------------------------------------------------------

  /** What the host answers that the code only reads: the reflection
      answers, `Constants.SCRIPT_BUNDLE_MODE`, `Application.isPlaying`, and
      the types whose instance (in bundle mode, whose interpreted instance's
      `CLRInstance`) implements `IILRComponent`. */
  datatype Host = Host(env: TypeEnv, bundleMode: bool, isPlaying: bool, componentTypes: set<TypeId>)

  /** How `ILRManager.CreateInstance` and the casts after it end. */
  datatype Creation = Threw | NotAComponent | Created

  /** In bundle mode the new object is cast to `ILTypeInstance` and its
      `CLRInstance` read, so an object that is not interpreted throws; out
      of bundle mode an interpreted instance is no `IILRComponent`. A type
      that cannot be instantiated throws in `CreateInstance` itself. */
  function CreationOf(h: Host, t: TypeId): Creation {
    var made := CreateInstance<TypeId>(h.env, t, []);
    if !Info(h.env, t).instantiable then Threw
    else if h.bundleMode && made.Activated? then Threw
    else if !h.bundleMode && made.Instantiated? then NotAComponent
    else if t in h.componentTypes then Created
    else NotAComponent
  }

  /** The first type of the list whose `FullName` is `name`. */
  function FirstNamed(env: TypeEnv, ts: seq<TypeId>, name: string): Option<TypeId> {
    if |ts| == 0 then None
    else if Info(env, ts[0]).fullName == name then Some(ts[0])
    else FirstNamed(env, ts[1..], name)
  }

  lemma {:induction false} FirstNamedIsFirst(env: TypeEnv, ts: seq<TypeId>, name: string)
    ensures FirstNamed(env, ts, name).None? <==> forall i | 0 <= i < |ts| :: Info(env, ts[i]).fullName != name
    ensures FirstNamed(env, ts, name).Some? ==>
      exists i | 0 <= i < |ts| :: ts[i] == FirstNamed(env, ts, name).value && Info(env, ts[i]).fullName == name
                                  && forall j | 0 <= j < i :: Info(env, ts[j]).fullName != name
  {
    if |ts| > 0 {
      FirstNamedIsFirst(env, ts[1..], name);
      if Info(env, ts[0]).fullName != name {
        if FirstNamed(env, ts, name).Some? {
          var i :| 0 <= i < |ts| - 1 && ts[1..][i] == FirstNamed(env, ts, name).value && Info(env, ts[1..][i]).fullName == name
                   && forall j | 0 <= j < i :: Info(env, ts[1..][j]).fullName != name;
          assert forall j | 0 <= j < i + 1 :: Info(env, ts[j]).fullName != name by {
            forall j | 0 <= j < i + 1 ensures Info(env, ts[j]).fullName != name {
              if j > 0 {
                assert ts[j] == ts[1..][j - 1];
              }
            }
          }
          assert ts[i + 1] == ts[1..][i];
        } else {
          forall i | 0 <= i < |ts| ensures Info(env, ts[i]).fullName != name {
            if i > 0 {
              assert ts[i] == ts[1..][i - 1];
            }
          }
        }
      } else {
        assert ts[0] == FirstNamed(env, ts, name).value;
      }
    }
  }

  /** What `Init` reads: the statics, the component's own fields, and what
      `ILRManager.GetTypes()` would hand back (`None`: it throws). */
  datatype InitInput = InitInput(
    dType: Option<TypeId>, fullName: string, scriptType: Option<TypeId>, hasObject: bool,
    mainDll: Option<map<string, TypeId>>, listed: Option<seq<TypeId>>)

  /** What happens to `Object`. */
  datatype ObjectChange = Keep | Clear | New

  /** What a first `Init` decides: whether it succeeds (`InitOK`, else
      `enabled = false`), the new `Type` and `FullName`, and `Object`. */
  datatype InitEffect = InitEffect(ok: bool, scriptType: Option<TypeId>, fullName: string, obj: ObjectChange)

  /** The script type the static path resolves: in bundle mode the first
      listed type of that name (`Type` is left as it was when none
      matches), otherwise `MainDLL.GetType(FullName)`, null without a
      `MainDLL`. */
  function Resolve(h: Host, s: InitInput): Option<TypeId>
    requires h.bundleMode ==> s.listed.Some?
  {
    if h.bundleMode then
      var found := FirstNamed(h.env, s.listed.value, s.fullName);
      if found.Some? then found else s.scriptType
    else if s.mainDll.Some? && s.fullName in s.mainDll.value then Some(s.mainDll.value[s.fullName])
    else None
  }

  /** What `GetTypes()` hands back after an `Init` with input `s`: a first
      call that found no domain leaves an empty list behind. */
  function ListedAfter(h: Host, s: InitInput): (r: Option<seq<TypeId>>)
    ensures r.None? ==> s.listed.None?
    ensures s.listed.Some? ==> r == s.listed
    ensures r != s.listed <==> s.dType.None? && s.fullName != "" && h.bundleMode && s.listed.None?
  {
    if s.dType.None? && s.fullName != "" && h.bundleMode && s.listed.None? then Some([]) else s.listed
  }

  /** A queued proxy as `AfterHook` finds it. */
  datatype Queued = Queued(alive: bool, inited: bool, initOK: bool, enabled: bool,
                           fullName: string, scriptType: Option<TypeId>, obj: Behaviour?)
  {
    /** The drain initialises exactly the live proxies not yet `Inited`. */
    predicate Drains() { alive && !inited }
  }

  /** The input each queued proxy's `Init` sees when the queue `qs` is
      drained in order, starting from `DType` = `dType` and `GetTypes()`
      answering `listed`: the first `Init` consumes `DType`. */
  function DrainInputs(h: Host, qs: seq<Queued>, dType: Option<TypeId>,
                       mainDll: Option<map<string, TypeId>>, listed: Option<seq<TypeId>>): (r: seq<InitInput>)
    ensures |r| == |qs|
    ensures forall j | 0 <= j < |qs| ::
      r[j].fullName == qs[j].fullName && r[j].scriptType == qs[j].scriptType
      && r[j].hasObject == (qs[j].obj != null) && r[j].mainDll == mainDll
  {
    if |qs| == 0 then []
    else
      var s := InitInput(dType, qs[0].fullName, qs[0].scriptType, qs[0].obj != null, mainDll, listed);
      if qs[0].Drains() then [s] + DrainInputs(h, qs[1..], None, mainDll, ListedAfter(h, s))
      else [s] + DrainInputs(h, qs[1..], dType, mainDll, listed)
  }

  /** `DType` once the queue `qs` has been drained. */
  function DTypeAfter(qs: seq<Queued>, dType: Option<TypeId>): Option<TypeId>
  {
    if |qs| == 0 then dType else DTypeAfter(qs[1..], if qs[0].Drains() then None else dType)
  }

  /** The drain leaves `DType` pending exactly when it initialises nobody. */
  lemma {:induction false} DTypeAfterConsumed(qs: seq<Queued>, dType: Option<TypeId>)
    ensures DTypeAfter(qs, dType) == (if exists k | 0 <= k < |qs| :: qs[k].Drains() then None else dType)
  {
    if |qs| > 0 {
      var d := if qs[0].Drains() then None else dType;
      DTypeAfterConsumed(qs[1..], d);
      if exists k | 0 <= k < |qs| - 1 :: qs[1..][k].Drains() {
        var k :| 0 <= k < |qs| - 1 && qs[1..][k].Drains();
        assert qs[k + 1].Drains();
      }
      if exists k | 0 <= k < |qs| :: qs[k].Drains() {
        var k :| 0 <= k < |qs| && qs[k].Drains();
        if k > 0 {
          assert qs[1..][k - 1].Drains();
        }
      }
    }
  }

  /** A pending `DType` reaches the first proxy the drain initialises and no
      other: every later one sees `None`. */
  lemma DTypeGoesToFirstDrained(h: Host, qs: seq<Queued>, dType: Option<TypeId>,
                                mainDll: Option<map<string, TypeId>>, listed: Option<seq<TypeId>>, j: nat)
    requires j < |qs|
    ensures DrainInputs(h, qs, dType, mainDll, listed)[j].dType
              == (if exists k | 0 <= k < j :: qs[k].Drains() then None else dType)
  {
    var pre := qs[..j];
    if exists k | 0 <= k < j :: qs[k].Drains() {
      var k :| 0 <= k < j && qs[k].Drains();
      assert pre[k] == qs[k];
    }
    DrainInputDType(h, qs, dType, mainDll, listed, j);
    DTypeAfterConsumed(pre, dType);
  }

  /** The `DType` entry `j` sees is what the entries before it leave. */
  lemma {:induction false} DrainInputDType(h: Host, qs: seq<Queued>, dType: Option<TypeId>,
                                           mainDll: Option<map<string, TypeId>>, listed: Option<seq<TypeId>>, j: nat)
    requires j < |qs|
    ensures DrainInputs(h, qs, dType, mainDll, listed)[j].dType == DTypeAfter(qs[..j], dType)
    decreases j
  {
    if j > 0 {
      var s := InitInput(dType, qs[0].fullName, qs[0].scriptType, qs[0].obj != null, mainDll, listed);
      var d := if qs[0].Drains() then None else dType;
      var l := if qs[0].Drains() then ListedAfter(h, s) else listed;
      DrainInputsAt(h, qs, dType, mainDll, listed, j);
      DrainInputDType(h, qs[1..], d, mainDll, l, j - 1);
      DTypeAfterPrefix(qs, dType, j);
    }
  }

  /** Entry `j > 0` of the drain's inputs is entry `j - 1` of the rest of the
      queue, drained after the head. */
  lemma DrainInputsAt(h: Host, qs: seq<Queued>, dType: Option<TypeId>,
                      mainDll: Option<map<string, TypeId>>, listed: Option<seq<TypeId>>, j: nat)
    requires 0 < j < |qs|
    ensures var s := InitInput(dType, qs[0].fullName, qs[0].scriptType, qs[0].obj != null, mainDll, listed);
      DrainInputs(h, qs, dType, mainDll, listed)[j]
        == DrainInputs(h, qs[1..], if qs[0].Drains() then None else dType, mainDll,
                       if qs[0].Drains() then ListedAfter(h, s) else listed)[j - 1]
  {
  }

  /** `DTypeAfter` of a non-empty prefix steps over its head. */
  lemma DTypeAfterPrefix(qs: seq<Queued>, dType: Option<TypeId>, j: nat)
    requires 0 < j <= |qs|
    ensures DTypeAfter(qs[..j], dType) == DTypeAfter(qs[1..][..j - 1], if qs[0].Drains() then None else dType)
  {
    assert qs[..j][0] == qs[0] && qs[..j][1..] == qs[1..][..j - 1];
  }

  /** The first `Init`. With a pending `DType` (a component added from
      script), that type is instantiated. Otherwise the type is looked up by
      the serialized `FullName`; an empty name fails at once. `Object` must be
      non-null at the end; a type that resolves to null leaves `Object` as it
      was. */
  function InitSpec(h: Host, s: InitInput): InitEffect {
    if s.dType.Some? then
      var t := s.dType.value;
      match CreationOf(h, t)
      case Threw => InitEffect(false, s.scriptType, s.fullName, Keep)
      case NotAComponent => InitEffect(false, s.scriptType, s.fullName, Clear)
      case Created => InitEffect(true, Some(t), Info(h.env, t).fullName, New)
    else if s.fullName == "" then InitEffect(false, s.scriptType, s.fullName, Keep)
    else if h.bundleMode && s.listed.None? then InitEffect(false, s.scriptType, s.fullName, Keep)
    else NamedEffect(h, Resolve(h, s), s.fullName, s.hasObject)
  }

  /** The end of the static path, once the type `t` is known: a type
      that resolved to null keeps `Object`, and succeeds when there is one. */
  function NamedEffect(h: Host, t: Option<TypeId>, fullName: string, hasObject: bool): InitEffect {
    if t.None? then InitEffect(hasObject, t, fullName, Keep)
    else match CreationOf(h, t.value)
      case Threw => InitEffect(false, t, fullName, Keep)
      case NotAComponent => InitEffect(false, t, fullName, Clear)
      case Created => InitEffect(true, t, fullName, New)
  }

  /** A successful `Init` leaves a script object behind: a new one, or the
      one already there when no type resolved. */
  lemma InitOkHasObject(h: Host, s: InitInput)
    ensures InitSpec(h, s).ok ==> InitSpec(h, s).obj == New || (InitSpec(h, s).obj == Keep && s.hasObject)
    ensures InitSpec(h, s).obj == Clear ==> !InitSpec(h, s).ok
  {
  }

  /** A component added from script takes `DType`: it succeeds exactly when
      an `IILRComponent` was made, and then `Type` is `DType` and `FullName`
      its full name; on failure `Type` and `FullName` stay. */
  lemma DynamicPath(h: Host, s: InitInput)
    requires s.dType.Some?
    ensures InitSpec(h, s).ok <==> CreationOf(h, s.dType.value) == Created
    ensures InitSpec(h, s).ok ==> InitSpec(h, s).scriptType == s.dType && InitSpec(h, s).fullName == Info(h.env, s.dType.value).fullName
    ensures !InitSpec(h, s).ok ==> InitSpec(h, s).scriptType == s.scriptType && InitSpec(h, s).fullName == s.fullName
  {
  }

  /** Without `DType`, an empty `FullName` fails and changes nothing else;
      the static path never changes `FullName`. */
  lemma StaticPathKeepsName(h: Host, s: InitInput)
    requires s.dType.None?
    ensures InitSpec(h, s).fullName == s.fullName
    ensures s.fullName == "" ==> InitSpec(h, s) == InitEffect(false, s.scriptType, s.fullName, Keep)
  {
  }

  /** In bundle mode the type is the first listed one with the serialized
      name; with no such type, no earlier `Type` and no earlier `Object`,
      `Init` fails. */
  lemma BundleModeTakesFirstNamed(h: Host, s: InitInput, ts: seq<TypeId>)
    requires h.bundleMode && s.dType.None? && s.fullName != "" && s.listed == Some(ts)
    ensures (exists i | 0 <= i < |ts| :: Info(h.env, ts[i]).fullName == s.fullName) ==>
              InitSpec(h, s).scriptType == FirstNamed(h.env, ts, s.fullName)
    ensures (forall i | 0 <= i < |ts| :: Info(h.env, ts[i]).fullName != s.fullName) && s.scriptType.None? && !s.hasObject ==>
              !InitSpec(h, s).ok
  {
    FirstNamedIsFirst(h.env, ts, s.fullName);
  }

  // ---------------------------------------------------------------------
  // The objects
  // ---------------------------------------------------------------------

  /** The script object, an `IILRComponent`: the fields the proxy sets, the
      values hydration assigns, and how often each forwarded callback ran. */
  class Behaviour {
    var gameObject: Option<nat>
    var transform: Option<nat>
    var enabled: bool
    var values: map<string, FieldValue>
    var awakeCalls: nat
    var enableCalls: nat
    var disableCalls: nat
    var destroyCalls: nat

    constructor()
      ensures gameObject == None && transform == None && !enabled && values == map[]
      ensures awakeCalls == 0 && enableCalls == 0 && disableCalls == 0 && destroyCalls == 0
    {
      gameObject := None;
      transform := None;
      enabled := false;
      values := map[];
      awakeCalls := 0;
      enableCalls := 0;
      disableCalls := 0;
      destroyCalls := 0;
    }
  }

  /** How a queued proxy `c`, found as `q`, ends the drain given its `Init`
      input `e`: initialised and reflecting `InitSpec` if the drain reached
      it alive and not `Inited`, otherwise as it was. */
  predicate Settled(h: Host, c: Component, q: Queued, e: InitInput)
    reads c, c.obj
  {
    if q.Drains() then c.inited && c.alive && c.Reflects(InitSpec(h, e), q.obj, q.initOK, q.enabled)
    else c.Snapshot() == q
  }

  predicate AllSettled(h: Host, cs: seq<Component>, qs: seq<Queued>, ins: seq<InitInput>)
    requires |cs| == |qs| == |ins|
    reads set c | c in cs, set c | c in cs :: c.obj
  {
    forall j | 0 <= j < |cs| :: Settled(h, cs[j], qs[j], ins[j])
  }

  function QueuedOf(cs: seq<Component>): (qs: seq<Queued>)
    reads set c | c in cs
    ensures |qs| == |cs|
    ensures forall i | 0 <= i < |cs| :: qs[i] == cs[i].Snapshot()
  {
    if |cs| == 0 then [] else [cs[0].Snapshot()] + QueuedOf(cs[1..])
  }

  /** `ILRComponent.Field`: one serialized value. */
  class Field {
    var key: string
    var tag: string
    var oValue: UnityRef
    var bValue: seq<Byte>

    constructor(key: string, tag: string)
      ensures this.key == key && this.tag == tag && oValue == NoRef && bValue == EmptyBuffer
    {
      this.key := key;
      this.tag := tag;
      oValue := NoRef;
      bValue := EmptyBuffer;
    }

    /** `Reset()`: drops the reference and zeroes a fresh 16-byte buffer. */
    method Reset()
      modifies this
      ensures key == old(key) && tag == old(tag)
      ensures oValue == NoRef && bValue == EmptyBuffer && |bValue| == 16
    {
      oValue := NoRef;
      bValue := EmptyBuffer;
    }

    function Data(): FieldData
      reads this
    {
      FieldData(key, tag, oValue, bValue)
    }
  }

  function DataOf(fs: seq<Field>): (ds: seq<FieldData>)
    reads set f | f in fs
    ensures |ds| == |fs|
    ensures forall i | 0 <= i < |fs| :: ds[i] == fs[i].Data()
  {
    if |fs| == 0 then [] else [fs[0].Data()] + DataOf(fs[1..])
  }

  /** The static members of `ILRComponent` and the host answers. */
  class Statics {
    const host: Host
    const mgr: Manager
    var mainDll: Option<map<string, TypeId>>
    var dType: Option<TypeId>
    var frame: bool
    var comps: seq<Component>

    constructor(host: Host, mgr: Manager, mainDll: Option<map<string, TypeId>>)
      ensures this.host == host && this.mgr == mgr && this.mainDll == mainDll
      ensures dType == None && !frame && comps == []
    {
      this.host := host;
      this.mgr := mgr;
      this.mainDll := mainDll;
      dType := None;
      frame := false;
      comps := [];
    }

    /** `BeforeHook()`: from now on every constructed proxy is queued. */
    method BeforeHook()
      modifies this
      ensures frame
      ensures dType == old(dType) && comps == old(comps) && mainDll == old(mainDll)
    {
      frame := true;
    }

    /** Each queued proxy is queued once (its constructor appends itself)
        and owns its script object. */
    predicate Distinct()
      reads this, set c | c in comps
    {
      forall a, b | 0 <= a < b < |comps| ::
        comps[a] != comps[b] && (comps[a].obj == null || comps[a].obj != comps[b].obj)
    }

    /** `AfterHook()`: every queued proxy that is alive and not yet
        initialised is initialised, in queue order, each `Init` seeing the
        `DType` and the `GetTypes()` answer its predecessors left; then
        queuing stops and the queue is emptied. */
    method AfterHook() returns (ghost qs: seq<Queued>, ghost ins: seq<InitInput>)
      requires Distinct()
      modifies this, mgr, set c | c in comps, set c | c in comps && c.obj != null :: c.obj
      ensures !frame && comps == [] && mainDll == old(mainDll)
      ensures qs == old(QueuedOf(comps))
      ensures ins == DrainInputs(host, qs, old(dType), mainDll, old(mgr.Listed()))
      ensures |old(comps)| == |qs| == |ins|
      ensures AllSettled(host, old(comps), qs, ins)
      ensures dType == (if exists k | 0 <= k < |qs| :: qs[k].Drains() then None else old(dType))
    {
      qs := QueuedOf(comps);
      ins := DrainInputs(host, qs, dType, mainDll, mgr.Listed());
      assert qs[0..] == qs && ins[0..] == ins;
      Drain(qs, ins);
      DTypeAfterConsumed(qs, old(dType));
      EndFrame();
    }

    /** The end of `AfterHook`: queuing stops and the queue is emptied. */
    method EndFrame()
      modifies this`frame, this`comps
      ensures !frame && comps == []
    {
      frame := false;
      comps := [];
    }

    /** The state after the drain has handled the first `i` entries of
        the queue found as `qs`: those entries are settled, later ones
        untouched, and `DType` and `GetTypes()` stand as the remaining
        inputs say. */
    predicate DrainedTo(i: nat, qs: seq<Queued>, ins: seq<InitInput>)
      reads this, mgr, mgr.types, mgr.appDomain, set c | c in comps, set c | c in comps :: c.obj
    {
      && i <= |comps| == |qs| == |ins|
      && Distinct()
      && DrainInputs(host, qs[i..], dType, mainDll, mgr.Listed()) == ins[i..]
      && (forall k | i <= k < |comps| :: comps[k].Snapshot() == qs[k])
      && (forall j | 0 <= j < i :: Settled(host, comps[j], qs[j], ins[j]))
    }

    /** The loop of `AfterHook`. */
    method Drain(ghost qs: seq<Queued>, ghost ins: seq<InitInput>)
      requires DrainedTo(0, qs, ins)
      requires forall k | 0 <= k < |comps| :: comps[k].obj == qs[k].obj
      modifies this, mgr, set c | c in comps, set c | c in comps && c.obj != null :: c.obj
      ensures comps == old(comps) && frame == old(frame) && mainDll == old(mainDll)
      ensures AllSettled(host, comps, qs, ins)
      ensures dType == DTypeAfter(qs, old(dType))
    {
      var i := 0;
      while i < |comps|
        invariant 0 <= i <= |comps|
        invariant comps == old(comps) && frame == old(frame) && mainDll == old(mainDll)
        invariant DrainedTo(i, qs, ins)
        invariant forall k | i <= k < |comps| :: comps[k].obj == qs[k].obj
        invariant DTypeAfter(qs[i..], dType) == DTypeAfter(qs, old(dType))
      {
        InitQueued(i, qs, ins);
        i := i + 1;
      }
    }

    /** One turn of the loop in `AfterHook`: entry `i` is initialised
        exactly when it is alive and not yet `Inited`, and ends as its
        drain input says. */
    method InitQueued(i: nat, ghost qs: seq<Queued>, ghost ins: seq<InitInput>)
      requires i < |comps| && DrainedTo(i, qs, ins)
      modifies this, mgr, comps[i], comps[i].obj
      ensures comps == old(comps) && frame == old(frame) && mainDll == old(mainDll)
      ensures DrainedTo(i + 1, qs, ins)
      ensures forall k | i < k < |comps| :: comps[k].obj == old(comps[k].obj)
      ensures DTypeAfter(qs[i + 1..], dType) == DTypeAfter(qs[i..], old(dType))
    {
      var comp := comps[i];
      assert qs[i..][0] == qs[i] && qs[i..][1..] == qs[i + 1..];
      if comp.alive && !comp.inited {
        InitEntry(i, qs, ins);
      }
    }

    /** The `Init` of a queued entry the drain reaches alive and not
        `Inited`. */
    method InitEntry(i: nat, ghost qs: seq<Queued>, ghost ins: seq<InitInput>)
      requires i < |comps| && DrainedTo(i, qs, ins) && qs[i].Drains()
      modifies this, mgr, comps[i], comps[i].obj
      ensures comps == old(comps) && frame == old(frame) && mainDll == old(mainDll)
      ensures DrainedTo(i + 1, qs, ins)
      ensures forall k | i < k < |comps| :: comps[k].obj == old(comps[k].obj)
      ensures dType.None?
    {
      ghost var e := comps[i].InitInputOf(this);
      assert qs[i..][0] == qs[i] && qs[i..][1..] == qs[i + 1..];
      assert ins[i..][0] == ins[i] && ins[i..][1..] == ins[i + 1..];
      assert DrainInputs(host, qs[i..], dType, mainDll, mgr.Listed())
          == [e] + DrainInputs(host, qs[i + 1..], None, mainDll, ListedAfter(host, e));
      InitOne(comps[i], qs[i], e);
    }

    /** `Init` on a queued proxy, found as `q`, with input `e`. */
    method InitOne(c: Component, ghost q: Queued, ghost e: InitInput)
      requires c.Snapshot() == q && q.Drains() && e == c.InitInputOf(this)
      modifies this, mgr, c, c.obj
      ensures comps == old(comps) && frame == old(frame) && mainDll == old(mainDll)
      ensures Settled(host, c, q, e)
      ensures dType.None? && mgr.Listed() == ListedAfter(host, e)
      ensures c.obj == null || c.obj == q.obj || fresh(c.obj)
    {
      c.Init(this);
    }
  }

  /** `ILRComponent` itself. */
  class Component {
    const gameObject: nat
    const transform: nat
    var alive: bool            // the native object has not been destroyed
    var enabled: bool
    var fullName: string       // `FullName`; null and "" alike
    var inited: bool
    var initOK: bool
    var obj: Behaviour?        // `Object`
    var scriptType: Option<TypeId>   // `Type`
    var fields: Option<seq<Field>>   // `Fields`

    /** The constructor Unity runs: inside a hook frame the new proxy is queued. */
    constructor(statics: Statics, gameObject: nat, transform: nat, fullName: string, fields: seq<Field>)
      modifies statics
      ensures this.gameObject == gameObject && this.transform == transform && this.fullName == fullName
      ensures this.fields == Some(fields) && alive && enabled && !inited && !initOK && obj == null && scriptType == None
      ensures statics.comps == old(statics.comps) + (if old(statics.frame) then [this] else [])
      ensures statics.frame == old(statics.frame) && statics.dType == old(statics.dType) && statics.mainDll == old(statics.mainDll)
      ensures old(statics.Distinct()) ==> statics.Distinct()
    {
      this.gameObject := gameObject;
      this.transform := transform;
      this.fullName := fullName;
      this.fields := Some(fields);
      alive := true;
      enabled := true;
      inited := false;
      initOK := false;
      obj := null;
      scriptType := None;
      new;
      if statics.frame {
        statics.comps := statics.comps + [this];
      }
    }

    /** What `Init` would read now. */
    function InitInputOf(statics: Statics): InitInput
      reads this, statics, statics.mgr, statics.mgr.types, statics.mgr.appDomain
    {
      InitInput(statics.dType, fullName, scriptType, obj != null, statics.mainDll, statics.mgr.Listed())
    }

    function Snapshot(): Queued
      reads this
    {
      Queued(alive, inited, initOK, enabled, fullName, scriptType, obj)
    }

    /** Whether `Init` would ask `ILRManager.GetTypes()`. */
    predicate AsksForTypes(statics: Statics)
      reads this, statics
    {
      statics.dType.None? && fullName != "" && statics.host.bundleMode
    }

    /** The state a first `Init` leaves behind, given what it decided and
        the fields it started from. */
    /** The proxy's own fields as the `Init` effect `e` leaves them. */
    predicate InitState(e: InitEffect, oldObj: Behaviour?, oldInitOK: bool, oldEnabled: bool)
      reads this
    {
      && initOK == (e.ok || oldInitOK)
      && enabled == (e.ok && oldEnabled)
      && scriptType == e.scriptType && fullName == e.fullName
      && (e.obj == Keep ==> obj == oldObj)
      && (e.obj == Clear ==> obj == null)
      && (e.obj == New || e.ok ==> obj != null)
    }

    predicate Reflects(e: InitEffect, oldObj: Behaviour?, oldInitOK: bool, oldEnabled: bool)
      reads this, obj
    {
      && InitState(e, oldObj, oldInitOK, oldEnabled)
      && (e.obj == New ==> obj != null && obj.values == map[] && obj.awakeCalls == 0)
      && (e.ok ==> obj != null && obj.gameObject == Some(gameObject) && obj.transform == Some(transform))
    }

    /** `Init()`: runs once (`Inited` is set before any work, so a failed
        `Init` is never retried), follows `InitSpec`, clears a pending
        `DType` whatever happens, and on success hands the script object the
        proxy's `transform` and `gameObject`. */
    method Init(statics: Statics)
      modifies this, statics, statics.mgr, obj
      ensures inited && alive == old(alive) && fields == old(fields)
      ensures statics.frame == old(statics.frame) && statics.comps == old(statics.comps) && statics.mainDll == old(statics.mainDll)
      ensures old(obj) != null ==> old(obj).values == old(obj.values) && old(obj).awakeCalls == old(obj.awakeCalls)
      ensures old(inited) ==> unchanged(this) && unchanged(statics) && unchanged(statics.mgr)
      ensures old(statics.dType).None? ==> fullName == old(fullName)
      ensures !(!old(inited) && old(AsksForTypes(statics))) ==> unchanged(statics.mgr)
      ensures !old(inited) && old(AsksForTypes(statics)) ==>
                statics.mgr.types != null && statics.mgr.appDomain == old(statics.mgr.appDomain)
      ensures !old(inited) ==>
        var e := InitSpec(statics.host, old(InitInputOf(statics)));
        && Reflects(e, old(obj), old(initOK), old(enabled))
        && (e.obj == New ==> fresh(obj))
        && statics.dType == None
        && statics.mgr.Listed() == ListedAfter(statics.host, old(InitInputOf(statics)))
    {
      if inited {
        return;
      }
      inited := true;
      if statics.dType.Some? {
        InitFromType(statics);
      } else {
        InitFromName(statics);
      }
    }

    /** The path for a component added from script: `DType` is instantiated
        and cleared in the `finally`. */
    method InitFromType(statics: Statics)
      requires statics.dType.Some?
      modifies this, statics, obj
      ensures inited == old(inited) && alive == old(alive) && fields == old(fields)
      ensures statics.frame == old(statics.frame) && statics.comps == old(statics.comps) && statics.mainDll == old(statics.mainDll)
      ensures old(obj) != null ==> old(obj).values == old(obj.values) && old(obj).awakeCalls == old(obj.awakeCalls)
      ensures var e := InitSpec(statics.host, old(InitInputOf(statics)));
        && Reflects(e, old(obj), old(initOK), old(enabled))
        && (e.obj == New ==> fresh(obj))
        && statics.dType == None
    {
      var host := statics.host;
      var t := statics.dType.value;
      var made := CreationOf(host, t);
      statics.dType := None;
      if made == Threw {
        enabled := false;
        return;
      } else if made == NotAComponent {
        obj := null;
        enabled := false;
        return;
      }
      obj := new Behaviour();
      scriptType := Some(t);
      fullName := Info(host.env, t).fullName;
      obj.transform := Some(transform);
      obj.gameObject := Some(gameObject);
      initOK := true;
    }

    /** The path for a serialized component: the type is found by
        `FullName`. */
    method InitFromName(statics: Statics)
      requires statics.dType.None?
      modifies this, statics.mgr, obj
      ensures inited == old(inited) && alive == old(alive) && fields == old(fields)
      ensures old(obj) != null ==> old(obj).values == old(obj.values) && old(obj).awakeCalls == old(obj.awakeCalls)
      ensures !old(AsksForTypes(statics)) ==> unchanged(statics.mgr)
      ensures old(AsksForTypes(statics)) ==> statics.mgr.types != null && statics.mgr.appDomain == old(statics.mgr.appDomain)
      ensures var e := InitSpec(statics.host, old(InitInputOf(statics)));
        && Reflects(e, old(obj), old(initOK), old(enabled))
        && (e.obj == New ==> fresh(obj))
      ensures fullName == old(fullName)
      ensures statics.mgr.Listed() == ListedAfter(statics.host, old(InitInputOf(statics)))
    {
      if fullName == "" {
        enabled := false;
        return;
      }
      var listed := ResolveByName(statics);
      if !listed {
        enabled := false;
        return;
      }
      CreateResolved(statics.host);
    }

    /** The lookup by `FullName`: the first listed type of that name in
        bundle mode (`false` when `GetTypes()` throws), `MainDLL.GetType`
        otherwise. */
    method ResolveByName(statics: Statics) returns (listed: bool)
      requires statics.dType.None? && fullName != ""
      modifies this`scriptType, statics.mgr
      ensures listed <==> !(statics.host.bundleMode && old(statics.mgr.Listed()).None?)
      ensures listed ==> scriptType == Resolve(statics.host, old(InitInputOf(statics)))
      ensures !listed ==> scriptType == old(scriptType)
      ensures !old(AsksForTypes(statics)) ==> unchanged(statics.mgr)
      ensures old(AsksForTypes(statics)) ==> statics.mgr.types != null && statics.mgr.appDomain == old(statics.mgr.appDomain)
      ensures statics.mgr.Listed() == ListedAfter(statics.host, old(InitInputOf(statics)))
    {
      var host := statics.host;
      listed := true;
      if host.bundleMode {
        var types := statics.mgr.GetTypes();
        if types.Failure? {
          return false;
        }
        var found := FindNamed(host.env, types.value.items, fullName);
        if found.Some? {
          scriptType := found;
        }
      } else if statics.mainDll.Some? && fullName in statics.mainDll.value {
        scriptType := Some(statics.mainDll.value[fullName]);
      } else {
        scriptType := None;
      }
    }

    /** Instantiating the resolved type; `Object` must be non-null at the end. */
    method CreateResolved(h: Host)
      modifies this, obj
      ensures inited == old(inited) && alive == old(alive) && fields == old(fields)
      ensures old(obj) != null ==> old(obj).values == old(obj.values) && old(obj).awakeCalls == old(obj.awakeCalls)
      ensures var e := NamedEffect(h, old(scriptType), old(fullName), old(obj) != null);
        && Reflects(e, old(obj), old(initOK), old(enabled))
        && (e.obj == New ==> fresh(obj))
    {
      if scriptType.Some? {
        var made := CreationOf(h, scriptType.value);
        if made == Threw {
          enabled := false;
          return;
        } else if made == NotAComponent {
          obj := null;
        } else {
          obj := new Behaviour();
        }
      }
      if obj == null {
        enabled := false;
        return;
      }
      obj.transform := Some(transform);
      obj.gameObject := Some(gameObject);
      initOK := true;
    }

    /** The proxies the records reference, and their script objects. */
    function Referenced(): set<Component>
      reads this, if fields.Some? then set f | f in fields.value else {}
    {
      set d | d in Records() && d.oValue.ComponentRef? :: d.oValue.component
    }

    function ReferencedObjects(): set<Behaviour>
      reads this, if fields.Some? then set f | f in fields.value else {}, Referenced()
    {
      set c | c in Referenced() && c.obj != null :: c.obj
    }

    /** The records as `Awake` reads them. */
    function Records(): seq<FieldData>
      reads this, if fields.Some? then set f | f in fields.value else {}
    {
      if fields.None? then [] else DataOf(fields.value)
    }

    /** `Awake()`: `Init` if needed; nothing more unless it succeeded. Then the
        records are applied to the script object in order (a record naming
        another proxy initialises it first), the records are dropped in play
        mode, and the script's own `Awake` runs. An exception in the records
        ends `Awake` where it happens. Unity calls `Awake` before
        `OnDestroy`, the only place that clears `Object` after a successful
        `Init`. */
    method Awake(statics: Statics) returns (r: Outcome<AwakeError>, ghost resolved: seq<Option<Behaviour?>>)
      requires initOK ==> inited && obj != null
      modifies this, obj, statics, statics.mgr, Referenced(), ReferencedObjects()
      ensures inited && (fields == old(fields) || (initOK && r.Pass? && statics.host.isPlaying && fields == None))
      ensures !initOK ==> r.Pass? && fields == old(fields)
      ensures initOK ==> obj != null && (obj == old(obj) || fresh(obj))
      ensures initOK ==> (|resolved| == |old(Records())| &&
        var start := if old(obj) != null && obj == old(obj) then old(obj.values) else map[];
        var h := Hydrate(statics.host.env, scriptType, start, old(Records()), resolved);
        && obj.values == h.values
        && (h.error.Some? ==> r == Fail(h.error.value) && fields == old(fields))
        && (h.error.None? && old(fields).None? && statics.host.isPlaying ==> r == Fail(FieldsIsNull))
        && (r.Pass? ==> fields == (if statics.host.isPlaying then None else old(fields))))
      ensures initOK ==> forall i | 0 <= i < |resolved| && resolved[i].Some? ::
        old(Records())[i].oValue.ComponentRef? && old(Records())[i].oValue.component.inited
        && resolved[i].value == old(Records())[i].oValue.component.obj
      ensures initOK && (!old(inited) || old(statics.dType).None?) ==> forall i | 0 <= i < |resolved| ::
        resolved[i].Some? <==> NoThrowBefore(statics.host.env, scriptType, old(Records()), i)
                               && LinksProxy(statics.host.env, scriptType, old(Records())[i])
      ensures initOK ==> obj.awakeCalls == (if old(obj) != null && obj == old(obj) then old(obj.awakeCalls) else 0)
                                           + (if r.Pass? then 1 else 0)
      ensures !initOK ==> obj == null || (obj == old(obj) && obj.awakeCalls == old(obj.awakeCalls))
      ensures old(inited) ==>
        initOK == old(initOK) && obj == old(obj) && scriptType == old(scriptType)
        && fullName == old(fullName) && enabled == old(enabled)
      ensures !old(inited) ==>
        var e := InitSpec(statics.host, old(InitInputOf(statics)));
        InitState(e, old(obj), old(initOK), old(enabled)) && (e.obj == New ==> fresh(obj))
    {
      ghost var records := Records();
      if !inited {
        Init(statics);
        assert Records() == records;
      }
      r, resolved := AwakeInited(statics);
    }

    /** `Awake()` after `Init`. */
    method AwakeInited(statics: Statics) returns (r: Outcome<AwakeError>, ghost resolved: seq<Option<Behaviour?>>)
      requires inited && (initOK ==> obj != null)
      modifies this, obj, statics, statics.mgr, Referenced(), ReferencedObjects()
      ensures inited && initOK == old(initOK) && obj == old(obj) && scriptType == old(scriptType)
      ensures fullName == old(fullName) && enabled == old(enabled)
      ensures fields == old(fields) || (initOK && r.Pass? && statics.host.isPlaying && fields == None)
      ensures !initOK ==> r.Pass? && fields == old(fields)
      ensures initOK ==> (|resolved| == |old(Records())| &&
        var h := Hydrate(statics.host.env, scriptType, old(obj.values), old(Records()), resolved);
        && obj.values == h.values
        && (h.error.Some? ==> r == Fail(h.error.value) && fields == old(fields))
        && (h.error.None? && old(fields).None? && statics.host.isPlaying ==> r == Fail(FieldsIsNull))
        && (r.Pass? ==> fields == (if statics.host.isPlaying then None else old(fields))))
      ensures initOK ==> forall i | 0 <= i < |resolved| && resolved[i].Some? ::
        old(Records())[i].oValue.ComponentRef? && old(Records())[i].oValue.component.inited
        && resolved[i].value == old(Records())[i].oValue.component.obj
      ensures initOK && old(statics.dType).None? ==> forall i | 0 <= i < |resolved| ::
        resolved[i].Some? <==> NoThrowBefore(statics.host.env, scriptType, old(Records()), i)
                               && LinksProxy(statics.host.env, scriptType, old(Records())[i])
      ensures obj != null ==> obj.awakeCalls == old(obj.awakeCalls) + (if initOK && r.Pass? then 1 else 0)
    {
      if !initOK {
        return Pass, [];
      }
      if fields.Some? && |fields.value| > 0 {
        ghost var others: set<object> := Referenced() + ReferencedObjects();
        r, resolved := HydrateAll(statics, others);
        if r.Fail? {
          return;
        }
      } else {
        resolved := [];
      }
      if statics.host.isPlaying {
        if fields.None? {
          return Fail(FieldsIsNull), resolved;
        }
        fields := None;
      }
      obj.awakeCalls := obj.awakeCalls + 1;
      return Pass, resolved;
    }

    /** The loop over `Fields`. */
    method HydrateAll(statics: Statics, ghost others: set<object>) returns (r: Outcome<AwakeError>, ghost resolved: seq<Option<Behaviour?>>)
      requires inited && initOK && obj != null && fields.Some?
      requires forall d | d in Records() && d.oValue.ComponentRef? ::
        d.oValue.component in others && (d.oValue.component.obj == null || d.oValue.component.obj in others)
      modifies obj, statics, statics.mgr, others
      ensures obj == old(obj) && scriptType == old(scriptType) && fields == old(fields) && inited && initOK
        && fullName == old(fullName) && enabled == old(enabled)
      ensures |resolved| == |old(Records())|
      ensures var h := Hydrate(statics.host.env, scriptType, old(obj.values), old(Records()), resolved);
        && obj.values == h.values
        && (r.Fail? <==> h.error.Some?)
        && (r.Fail? ==> r.error == h.error.value)
      ensures forall i | 0 <= i < |resolved| && resolved[i].Some? ::
        old(Records())[i].oValue.ComponentRef? && old(Records())[i].oValue.component.inited
        && resolved[i].value == old(Records())[i].oValue.component.obj
      ensures old(statics.dType).None? ==> forall i | 0 <= i < |resolved| ::
        resolved[i].Some? <==> NoThrowBefore(statics.host.env, scriptType, old(Records()), i)
                               && LinksProxy(statics.host.env, scriptType, old(Records())[i])
      ensures obj.awakeCalls == old(obj.awakeCalls)
      ensures old(statics.dType).None? ==> statics.dType.None?
    {
      var ds := DataOf(fields.value);
      ghost var links := LinksOf(statics.host.env, scriptType, ds);
      ghost var start := obj.values;
      var n, stopped;
      ghost var run;
      n, stopped, run := HydrateRun(statics, ds, start, old(statics.dType).None?, links, others);
      resolved := FinishHydrate(statics.host.env, scriptType, start, ds, n, stopped, run, links, obj.values, old(statics.dType).None?);
      r := if stopped.Some? then Fail(stopped.value) else Pass;
    }

    /** The loop itself: records are applied in order until one throws. */
    method HydrateRun(statics: Statics, ds: seq<FieldData>, ghost start: map<string, FieldValue>,
                      ghost track: bool, ghost links: seq<bool>, ghost others: set<object>)
      returns (n: nat, stopped: Option<AwakeError>, ghost resolved: seq<Option<Behaviour?>>)
      requires inited && initOK && obj != null && start == obj.values && |links| == |ds|
      requires track ==> statics.dType.None? && forall j | 0 <= j < |ds| :: links[j] == LinksProxy(statics.host.env, scriptType, ds[j])
      requires forall j | 0 <= j < |ds| && ds[j].oValue.ComponentRef? ::
        var c := ds[j].oValue.component; c in others && (c.inited || c.obj == null || c.obj in others)
      modifies obj, statics, statics.mgr, others
      ensures n <= |ds| && |resolved| == n && (stopped.None? ==> n == |ds|)
      ensures obj == old(obj) && scriptType == old(scriptType) && fields == old(fields) && inited && initOK
        && fullName == old(fullName) && enabled == old(enabled)
      ensures Hydrate(statics.host.env, scriptType, start, ds[..n], resolved) == Hydration(obj.values, stopped)
      ensures forall j | 0 <= j < n && resolved[j].Some? ::
        ds[j].oValue.ComponentRef? && ds[j].oValue.component.inited && resolved[j].value == ds[j].oValue.component.obj
      ensures obj.awakeCalls == old(obj.awakeCalls)
      ensures old(statics.dType).None? ==> statics.dType.None?
      ensures track ==> forall j | 0 <= j < n :: resolved[j].Some? <==> links[j]
      ensures track ==> forall j | 0 <= j < |ds| :: links[j] == LinksProxy(statics.host.env, scriptType, ds[j])
      ensures stopped.None? ==> NoThrowBefore(statics.host.env, scriptType, ds, n)
      ensures stopped.Some? ==> 0 < n && NoThrowBefore(statics.host.env, scriptType, ds, n - 1) && Throws(statics.host.env, scriptType, ds[n - 1])
    {
      n := 0;
      stopped := None;
      ghost var done: set<Component> := {};
      resolved := [];
      assert ds[..0] == [];
      while n < |ds| && stopped.None?
        invariant 0 <= n <= |ds| && |resolved| == n
        invariant obj == old(obj) && scriptType == old(scriptType) && fields == old(fields) && inited && initOK
          && fullName == old(fullName) && enabled == old(enabled)
        invariant Hydrate(statics.host.env, scriptType, start, ds[..n], resolved) == Hydration(obj.values, stopped)
        invariant forall c | c in done :: c.inited
        invariant forall j | 0 <= j < n && resolved[j].Some? ::
          ds[j].oValue.ComponentRef? && ds[j].oValue.component in done && resolved[j].value == ds[j].oValue.component.obj
        invariant forall j | 0 <= j < |ds| && ds[j].oValue.ComponentRef? ::
          var c := ds[j].oValue.component; c in others && (c.inited || c.obj == null || c.obj in others)
        invariant obj.awakeCalls == old(obj.awakeCalls)
        invariant old(statics.dType).None? ==> statics.dType.None?
        invariant track ==> statics.dType.None?
        invariant track ==> forall j | 0 <= j < n :: resolved[j].Some? <==> links[j]
        invariant track ==> forall j | 0 <= j < |ds| :: links[j] == LinksProxy(statics.host.env, scriptType, ds[j])
        invariant stopped.None? ==> NoThrowBefore(statics.host.env, scriptType, ds, n)
        invariant stopped.Some? ==> 0 < n && NoThrowBefore(statics.host.env, scriptType, ds, n - 1) && Throws(statics.host.env, scriptType, ds[n - 1])
      {
        var step;
        step, resolved, done := HydrateNext(statics, ds, n, start, resolved, done, track, links, others);
        n := n + 1;
        if step.Throw? {
          stopped := Some(step.error);
        }
      }
    }

    /** One turn of the loop over `Fields`: record `i` extends the run. */
    method HydrateNext(statics: Statics, ds: seq<FieldData>, i: nat, ghost start: map<string, FieldValue>,
                       ghost resolved: seq<Option<Behaviour?>>, ghost done: set<Component>,
                       ghost track: bool, ghost links: seq<bool>, ghost others: set<object>)
      returns (step: Step, ghost resolved': seq<Option<Behaviour?>>, ghost done': set<Component>)
      requires inited && initOK && obj != null && i < |ds| && |resolved| == i && |links| == |ds|
      requires track ==> statics.dType.None? && forall j | 0 <= j < |ds| :: links[j] == LinksProxy(statics.host.env, scriptType, ds[j])
      requires Hydrate(statics.host.env, scriptType, start, ds[..i], resolved) == Hydration(obj.values, None)
      requires forall c | c in done :: c.inited
      requires forall j | 0 <= j < i && resolved[j].Some? ::
        ds[j].oValue.ComponentRef? && ds[j].oValue.component in done && resolved[j].value == ds[j].oValue.component.obj
      requires track ==> forall j | 0 <= j < i :: resolved[j].Some? <==> links[j]
      requires NoThrowBefore(statics.host.env, scriptType, ds, i)
      requires forall j | 0 <= j < |ds| && ds[j].oValue.ComponentRef? ::
        var c := ds[j].oValue.component; c in others && (c.inited || c.obj == null || c.obj in others)
      modifies obj, statics, statics.mgr, RefFrame(ds[i])
      ensures obj == old(obj) && scriptType == old(scriptType) && fields == old(fields) && inited && initOK
        && fullName == old(fullName) && enabled == old(enabled)
      ensures |resolved'| == i + 1
      ensures Hydrate(statics.host.env, scriptType, start, ds[..i + 1], resolved') ==
                Hydration(obj.values, if step.Throw? then Some(step.error) else None)
      ensures forall c | c in done' :: c.inited
      ensures forall j | 0 <= j < i + 1 && resolved'[j].Some? ::
        ds[j].oValue.ComponentRef? && ds[j].oValue.component in done' && resolved'[j].value == ds[j].oValue.component.obj
      ensures ds[i].oValue.ComponentRef? ==> ds[i].oValue.component.inited || unchanged(ds[i].oValue.component)
      ensures forall j | 0 <= j < |ds| && ds[j].oValue.ComponentRef? ::
        var c := ds[j].oValue.component; c in others && (c.inited || c.obj == null || c.obj in others)
      ensures resolved'[..i] == resolved
      ensures track ==> forall j | 0 <= j < i + 1 :: resolved'[j].Some? <==> links[j]
      ensures track ==> forall j | 0 <= j < |ds| :: links[j] == LinksProxy(statics.host.env, scriptType, ds[j])
      ensures step.Throw? <==> Throws(statics.host.env, scriptType, ds[i])
      ensures !step.Throw? ==> NoThrowBefore(statics.host.env, scriptType, ds, i + 1)
      ensures obj.awakeCalls == old(obj.awakeCalls)
      ensures old(statics.dType).None? ==> statics.dType.None?
      ensures ds[i].oValue.ComponentRef? ==> ds[i].oValue.component.alive == old(ds[i].oValue.component.alive)
      ensures ds[i].oValue.ComponentRef? && old(statics.dType).None? ==> ds[i].oValue.component.fullName == old(ds[i].oValue.component.fullName)
    {
      ghost var res;
      step, res := HydrateField(statics, ds[i], done);
      done' := if res.Some? then done + {ds[i].oValue.component} else done;
      HydrateSnoc(statics.host.env, scriptType, start, ds[..i], resolved, ds[i], res);
      ThrowsIsStepThrow(statics.host.env, scriptType, ds[i], res);
      assert ds[..i + 1] == ds[..i] + [ds[i]];
      resolved' := resolved + [res];
      assert resolved'[..i] == resolved;
      if track {
        forall j | 0 <= j < |ds| ensures links[j] == LinksProxy(statics.host.env, scriptType, ds[j]) {
          assert links[j] == old(LinksProxy(statics.host.env, scriptType, ds[j]));
        }
      }
    }

    /** One record. */
    method HydrateField(statics: Statics, d: FieldData, ghost done: set<Component>) returns (step: Step, ghost resolved: Option<Behaviour?>)
      requires inited && initOK && obj != null
      requires forall c | c in done :: c.inited
      modifies obj, statics, statics.mgr, RefFrame(d)
      ensures step == FieldStep(statics.host.env, scriptType, d, resolved)
      ensures obj == old(obj) && scriptType == old(scriptType) && fields == old(fields) && inited && initOK
        && fullName == old(fullName) && enabled == old(enabled)
      ensures obj.values == Apply(old(obj.values), d.key, step)
      ensures resolved.Some? ==> d.oValue.ComponentRef? && d.oValue.component.inited && resolved.value == d.oValue.component.obj
      ensures resolved.Some? <==> old(LinksProxy(statics.host.env, scriptType, d))
      ensures obj.awakeCalls == old(obj.awakeCalls)
      ensures old(statics.dType).None? ==> statics.dType.None?
      ensures d.oValue.ComponentRef? ==> d.oValue.component.alive == old(d.oValue.component.alive)
      ensures d.oValue.ComponentRef? && old(statics.dType).None? ==> d.oValue.component.fullName == old(d.oValue.component.fullName)
      ensures d.oValue.ComponentRef? && old(d.oValue.component.inited) ==> unchanged(d.oValue.component)
      ensures d.oValue.ComponentRef? ==> d.oValue.component.inited || unchanged(d.oValue.component)
      ensures forall c | c in done :: c.inited && c.obj == old(c.obj)
    {
      var env := statics.host.env;
      resolved := None;
      if scriptType.None? {
        return Throw(TypeIsNull), None;
      }
      if !HasPublicField(env, scriptType.value, d.key) {
        return Skip, None;
      }
      var scalar := ScalarStep(d.tag, d.bValue);
      if scalar.Some? {
        step := scalar.value;
      } else {
        match d.oValue
        case NoRef =>
          step := Skip;
        case AssetRef(asset, alive) =>
          step := if alive then Assign(AssetValue(asset)) else Skip;
        case ComponentRef(c) =>
          if c.alive && c.fullName == d.tag {
            if !c.inited {
              c.Init(statics);
            }
            step := Assign(ScriptValue(c.obj));
            resolved := Some(c.obj);
          } else {
            step := Skip;
          }
      }
      if step.Assign? {
        obj.values := obj.values[d.key := step.value];
      }
    }

    /** `OnEnable()`: the script object gets the proxy's `enabled` and runs
        its own `OnEnable`. */
    method OnEnable()
      modifies obj
      ensures obj != null ==> obj.enabled == enabled && obj.enableCalls == old(obj.enableCalls) + 1
      ensures obj != null ==> obj.values == old(obj.values) && obj.disableCalls == old(obj.disableCalls)
      ensures obj != null ==> obj.awakeCalls == old(obj.awakeCalls) && obj.destroyCalls == old(obj.destroyCalls)
      ensures obj != null ==> obj.gameObject == old(obj.gameObject) && obj.transform == old(obj.transform)
    {
      if obj != null {
        obj.enabled := enabled;
        obj.enableCalls := obj.enableCalls + 1;
      }
    }

    /** `OnDisable()`: the same, running the script's `OnDisable`. */
    method OnDisable()
      modifies obj
      ensures obj != null ==> obj.enabled == enabled && obj.disableCalls == old(obj.disableCalls) + 1
      ensures obj != null ==> obj.values == old(obj.values) && obj.enableCalls == old(obj.enableCalls)
      ensures obj != null ==> obj.awakeCalls == old(obj.awakeCalls) && obj.destroyCalls == old(obj.destroyCalls)
      ensures obj != null ==> obj.gameObject == old(obj.gameObject) && obj.transform == old(obj.transform)
    {
      if obj != null {
        obj.enabled := enabled;
        obj.disableCalls := obj.disableCalls + 1;
      }
    }

    /** `OnDestroy()`: the script's `OnDestroy` runs and the proxy lets go of it. */
    method OnDestroy()
      modifies this, obj
      ensures obj == null
      ensures old(obj) != null ==> old(obj).destroyCalls == old(obj.destroyCalls) + 1
      ensures inited == old(inited) && initOK == old(initOK) && scriptType == old(scriptType) && fields == old(fields)
    {
      if obj != null {
        obj.destroyCalls := obj.destroyCalls + 1;
      }
      obj := null;
    }
  }

  /** Whether a record links a proxy: the script type has a field of its
      key, its tag is not a scalar one, and it references a live proxy whose
      `FullName` is the tag. Such a record initialises the proxy and assigns
      its `Object`. */
  predicate LinksProxy(env: TypeEnv, t: Option<TypeId>, d: FieldData)
    reads if d.oValue.ComponentRef? then {d.oValue.component} else {}
  {
    && t.Some? && HasPublicField(env, t.value, d.key) && ScalarStep(d.tag, d.bValue).None?
    && d.oValue.ComponentRef? && d.oValue.component.alive && d.oValue.component.fullName == d.tag
  }

  /** Once the loop over the records ends, a record resolved a proxy exactly
      when the loop reached it and it links one: records after a throwing
      one are never reached. */
  lemma ResolvedFollowsLinks(env: TypeEnv, t: Option<TypeId>, ds: seq<FieldData>, resolved: seq<Option<Behaviour?>>,
                             links: seq<bool>, n: nat, stopped: bool)
    requires |resolved| == |ds| == |links| && n <= |ds|
    requires forall j | 0 <= j < n :: resolved[j].Some? <==> links[j]
    requires forall j | n <= j < |ds| :: resolved[j].None?
    requires !stopped ==> n == |ds| && NoThrowBefore(env, t, ds, n)
    requires stopped ==> 0 < n && NoThrowBefore(env, t, ds, n - 1) && Throws(env, t, ds[n - 1])
    ensures forall j | 0 <= j < |ds| :: resolved[j].Some? <==> NoThrowBefore(env, t, ds, j) && links[j]
  {
    forall j | 0 <= j < |ds| ensures resolved[j].Some? <==> NoThrowBefore(env, t, ds, j) && links[j] {
      if j >= n {
        assert !NoThrowBefore(env, t, ds, j) by {
          assert Throws(env, t, ds[n - 1]);
        }
      }
    }
  }

  /** Which records link a proxy, in the current state. */
  ghost function LinksOf(env: TypeEnv, t: Option<TypeId>, ds: seq<FieldData>): (r: seq<bool>)
    reads set d | d in ds && d.oValue.ComponentRef? :: d.oValue.component
    ensures |r| == |ds| && forall j | 0 <= j < |ds| :: r[j] == LinksProxy(env, t, ds[j])
  {
    if |ds| == 0 then [] else [LinksProxy(env, t, ds[0])] + LinksOf(env, t, ds[1..])
  }

  /** What applying a record may change besides the script object: a
      referenced proxy that is not yet initialised, and its script object. */
  function RefFrame(d: FieldData): set<object>
    reads if d.oValue.ComponentRef? then {d.oValue.component} else {}
  {
    if d.oValue.ComponentRef? && !d.oValue.component.inited then
      var c := d.oValue.component;
      if c.obj != null then {c, c.obj} else {c}
    else {}
  }

  /** The loop's run, padded with no resolution for the records after a
      throw, is the whole of `Hydrate` over every record, and resolves a proxy
      exactly where a reached record links one. */
  lemma FinishHydrate(env: TypeEnv, t: Option<TypeId>, start: map<string, FieldValue>, ds: seq<FieldData>,
                      n: nat, stopped: Option<AwakeError>, run: seq<Option<Behaviour?>>, links: seq<bool>,
                      values: map<string, FieldValue>, track: bool)
    returns (resolved: seq<Option<Behaviour?>>)
    requires n <= |ds| && |run| == n && |links| == |ds| && (stopped.None? ==> n == |ds|)
    requires Hydrate(env, t, start, ds[..n], run) == Hydration(values, stopped)
    requires track ==> forall j | 0 <= j < n :: run[j].Some? <==> links[j]
    requires stopped.None? ==> NoThrowBefore(env, t, ds, n)
    requires stopped.Some? ==> 0 < n && NoThrowBefore(env, t, ds, n - 1) && Throws(env, t, ds[n - 1])
    ensures |resolved| == |ds| && resolved[..n] == run
    ensures forall j | n <= j < |ds| :: resolved[j].None?
    ensures Hydrate(env, t, start, ds, resolved) == Hydration(values, stopped)
    ensures track ==> forall j | 0 <= j < |ds| :: resolved[j].Some? <==> NoThrowBefore(env, t, ds, j) && links[j]
  {
    resolved := run + seq(|ds| - n, _ => None);
    assert resolved[..n] == run;
    assert ds[..n] + ds[n..] == ds;
    if stopped.Some? {
      HydrateStaysStopped(env, t, start, ds[..n], run, ds[n..], seq(|ds| - n, _ => None));
    } else {
      assert ds[..n] == ds && resolved == run;
    }
    if track {
      ResolvedFollowsLinks(env, t, ds, resolved, links, n, stopped.Some?);
    }
  }

  /** Records after an exception change nothing: a stopped run stays stopped
      however it is extended. */
  lemma {:induction false} HydrateStaysStopped(env: TypeEnv, t: Option<TypeId>, values: map<string, FieldValue>,
                                               ds: seq<FieldData>, rs: seq<Option<Behaviour?>>,
                                               more: seq<FieldData>, moreRs: seq<Option<Behaviour?>>)
    requires |rs| == |ds| && |moreRs| == |more|
    requires Hydrate(env, t, values, ds, rs).error.Some?
    ensures Hydrate(env, t, values, ds + more, rs + moreRs) == Hydrate(env, t, values, ds, rs)
    decreases |ds|
  {
    assert |ds| > 0;
    assert (ds + more)[0] == ds[0] && (ds + more)[1..] == ds[1..] + more;
    assert (rs + moreRs)[0] == rs[0] && (rs + moreRs)[1..] == rs[1..] + moreRs;
    match FieldStep(env, t, ds[0], rs[0])
    case Skip => HydrateStaysStopped(env, t, values, ds[1..], rs[1..], more, moreRs);
    case Assign(v) => HydrateStaysStopped(env, t, values[ds[0].key := v], ds[1..], rs[1..], more, moreRs);
    case Throw(e) =>
  }

  /** The `foreach` over `GetTypes()` with its `break`. */
  method FindNamed(env: TypeEnv, ts: seq<TypeId>, name: string) returns (r: Option<TypeId>)
    ensures r == FirstNamed(env, ts, name)
  {
    var i := 0;
    while i < |ts|
      invariant 0 <= i <= |ts|
      invariant FirstNamed(env, ts[i..], name) == FirstNamed(env, ts, name)
    {
      assert ts[i..][0] == ts[i] && ts[i..][1..] == ts[i + 1..];
      if Info(env, ts[i]).fullName == name {
        return Some(ts[i]);
      }
      i := i + 1;
    }
    return None;
  }

  // ---------------------------------------------------------------------
  // HandleGets and the Get* queries
  // ---------------------------------------------------------------------

  /** Unity's component queries, which the model takes as given: the
      `ILRComponent`s on a game object and its parents
      (`GetComponentsInParent`), on the object itself (`GetComponents`), and
      on it and its children (`GetComponentsInChildren`). */
  datatype Scene = Scene(
    inParents: map<(nat, bool), seq<Component>>,
    onObject: map<nat, seq<Component>>,
    inChildren: map<(nat, bool), seq<Component>>)

  /** The query `depth` selects: -1 parents, 0 the object, anything else
      children; a query the scene has no answer for finds nothing. */
  function Queried(scene: Scene, go: nat, depth: int, includeInactive: bool): seq<Component> {
    if depth == -1 then (if (go, includeInactive) in scene.inParents then scene.inParents[(go, includeInactive)] else [])
    else if depth == 0 then (if go in scene.onObject then scene.onObject[go] else [])
    else if (go, includeInactive) in scene.inChildren then scene.inChildren[(go, includeInactive)] else []
  }

  /** Whether `HandleGets` keeps a component: it is alive, has a script type,
      and that type or one of its bases carries the queried name. */
  predicate Matches(env: TypeEnv, name: string, c: Component)
    requires WellFormed(env)
    reads c
  {
    c.alive && c.scriptType.Some? && DerivesFromName(env, c.scriptType.value, name)
  }

  /** The matching components, in query order. */
  function Selected(env: TypeEnv, name: string, coms: seq<Component>): seq<Component>
    requires WellFormed(env)
    reads set c | c in coms
  {
    if |coms| == 0 then []
    else (if Matches(env, name, coms[0]) then [coms[0]] else []) + Selected(env, name, coms[1..])
  }

  /** What `HandleGets` returns: null for a null game object or type,
      otherwise the matching components of the query. */
  function Found(env: TypeEnv, scene: Scene, go: Option<nat>, query: Option<TypeId>, depth: int, includeInactive: bool): Option<seq<Component>>
    requires WellFormed(env)
    reads if go.Some? then set c | c in Queried(scene, go.value, depth, includeInactive) else {}
  {
    if go.None? || query.None? then None
    else Some(Selected(env, Info(env, query.value).fullName, Queried(scene, go.value, depth, includeInactive)))
  }

  /** Selection keeps the query's order: it distributes over concatenation. */
  lemma {:induction false} SelectedAppend(env: TypeEnv, name: string, a: seq<Component>, b: seq<Component>)
    requires WellFormed(env)
    ensures Selected(env, name, a + b) == Selected(env, name, a) + Selected(env, name, b)
    decreases |a|
  {
    if |a| == 0 {
      assert a + b == b;
    } else {
      assert (a + b)[0] == a[0] && (a + b)[1..] == a[1..] + b;
      SelectedAppend(env, name, a[1..], b);
    }
  }

  /** Selection is a filter: every matching component is kept as often as
      the query lists it, and no other component is kept. */
  lemma {:induction false} SelectedIsFilter(env: TypeEnv, name: string, coms: seq<Component>, c: Component)
    requires WellFormed(env)
    ensures multiset(Selected(env, name, coms))[c] == if Matches(env, name, c) then multiset(coms)[c] else 0
    ensures c in Selected(env, name, coms) <==> c in coms && Matches(env, name, c)
  {
    if |coms| > 0 {
      SelectedIsFilter(env, name, coms[1..], c);
      assert coms == [coms[0]] + coms[1..];
      assert multiset(coms) == multiset([coms[0]]) + multiset(coms[1..]);
    }
  }

  /** The comparison and the `while (true)` walk up `BaseType` inside
      `HandleGets`: a hit on the type itself or on any base. */
  method DerivesFrom(env: TypeEnv, meta: TypeId, name: string) returns (hit: bool)
    requires WellFormed(env)
    ensures hit == DerivesFromName(env, meta, name)
  {
    if name == Info(env, meta).fullName {
      return true;
    }
    var p := meta;
    while true
      invariant Info(env, p).fullName != name
      invariant DerivesFromName(env, meta, name) == DerivesFromName(env, p, name)
      decreases Info(env, p).inheritanceDepth
    {
      var b := Info(env, p).baseType;
      if b.None? {
        return false;
      }
      BaseIsShallower(env, p);
      if Info(env, b.value).fullName == name {
        return true;
      }
      p := b.value;
    }
  }

  /** `HandleGets(go, type, depth, includeInactive)`. */
  method HandleGets(env: TypeEnv, scene: Scene, go: Option<nat>, query: Option<TypeId>, depth: int, includeInactive: bool)
    returns (r: Option<seq<Component>>)
    requires WellFormed(env)
    ensures r == Found(env, scene, go, query, depth, includeInactive)
  {
    if go.None? || query.None? {
      return None;
    }
    var coms := Queried(scene, go.value, depth, includeInactive);
    var name := Info(env, query.value).fullName;
    var rets: seq<Component> := [];
    var i := 0;
    while i < |coms|
      invariant 0 <= i <= |coms|
      invariant rets == Selected(env, name, coms[..i])
    {
      var com := coms[i];
      if com.alive && com.scriptType.Some? {
        var hit := DerivesFrom(env, com.scriptType.value, name);
        if hit {
          rets := rets + [com];
        }
      }
      SelectedAppend(env, name, coms[..i], [com]);
      assert coms[..i + 1] == coms[..i] + [com];
      assert [com][1..] == [];
      i := i + 1;
    }
    assert coms[..i] == coms;
    return Some(rets);
  }

  /** The exception `Get`, `GetInParent` and `GetInChildren` throw as written. */
  datatype GetError = NullReference

  /** The three single-result queries as written: `rets.Length` is read on
      whatever `HandleGets` returned, null included. */
  function FirstAsWritten(rets: Option<seq<Component>>): Result<Option<Component>, GetError> {
    if rets.None? then Failure(NullReference)
    else if |rets.value| > 0 then Success(Some(rets.value[0]))
    else Success(None)
  }

  /** As written, a null game object makes `Get` throw instead of returning
      null after `HandleGets` has logged the error. */
  lemma GetAsWrittenThrowsOnNullGameObject(env: TypeEnv, scene: Scene, query: Option<TypeId>, depth: int, includeInactive: bool)
    requires WellFormed(env)
    ensures FirstAsWritten(Found(env, scene, None, query, depth, includeInactive)) == Failure(NullReference)
  {
  }

  /** The single-result queries as intended: the first match, or null. */
  function First(rets: Option<seq<Component>>): Option<Component> {
    if rets.Some? && |rets.value| > 0 then Some(rets.value[0]) else None
  }

  /** `First` is null exactly when there is no first match, is the first
      match otherwise, and agrees with the code as written wherever that
      does not throw. */
  lemma FirstIsHead(rets: Option<seq<Component>>)
    ensures First(rets).None? <==> rets.None? || |rets.value| == 0
    ensures First(rets).Some? ==> First(rets).value == rets.value[0]
    ensures FirstAsWritten(rets).Success? <==> rets.Some?
    ensures FirstAsWritten(rets).Success? ==> FirstAsWritten(rets).value == First(rets)
  {
  }

  /** `GetInParent(go, type)`. */
  method GetInParent(env: TypeEnv, scene: Scene, go: Option<nat>, query: Option<TypeId>) returns (r: Option<Component>)
    requires WellFormed(env)
    ensures r == First(Found(env, scene, go, query, -1, false))
  {
    var rets := HandleGets(env, scene, go, query, -1, false);
    r := First(rets);
  }

  /** `Get(go, type)`. */
  method Get(env: TypeEnv, scene: Scene, go: Option<nat>, query: Option<TypeId>) returns (r: Option<Component>)
    requires WellFormed(env)
    ensures r == First(Found(env, scene, go, query, 0, false))
  {
    var rets := HandleGets(env, scene, go, query, 0, false);
    r := First(rets);
  }

  /** `GetInChildren(go, type, includeInactive)`. */
  method GetInChildren(env: TypeEnv, scene: Scene, go: Option<nat>, query: Option<TypeId>, includeInactive: bool) returns (r: Option<Component>)
    requires WellFormed(env)
    ensures r == First(Found(env, scene, go, query, 1, includeInactive))
  {
    var rets := HandleGets(env, scene, go, query, 1, includeInactive);
    r := First(rets);
  }

  /** `GetsInParent(go, type, includeInactive)`. */
  method GetsInParent(env: TypeEnv, scene: Scene, go: Option<nat>, query: Option<TypeId>, includeInactive: bool) returns (r: Option<seq<Component>>)
    requires WellFormed(env)
    ensures r == Found(env, scene, go, query, -1, includeInactive)
  {
    r := HandleGets(env, scene, go, query, -1, includeInactive);
  }

  /** `Gets(go, type)`. */
  method Gets(env: TypeEnv, scene: Scene, go: Option<nat>, query: Option<TypeId>) returns (r: Option<seq<Component>>)
    requires WellFormed(env)
    ensures r == Found(env, scene, go, query, 0, false)
  {
    r := HandleGets(env, scene, go, query, 0, false);
  }

  /** `GetsInChildren(go, type, includeInactive)`. */
  method GetsInChildren(env: TypeEnv, scene: Scene, go: Option<nat>, query: Option<TypeId>, includeInactive: bool) returns (r: Option<seq<Component>>)
    requires WellFormed(env)
    ensures r == Found(env, scene, go, query, 1, includeInactive)
  {
    r := HandleGets(env, scene, go, query, 1, includeInactive);
  }
}
