# ILRuntime bridge: a Dafny model

This project models the core of the ILRuntime bridge of the EP.U3D runtime and proves properties of the model. The bridge lets a Unity `MonoBehaviour` placeholder, `ILRComponent`, carry a script class that lives either in the natively compiled assembly or in an interpreted ILRuntime assembly. The model has three parts.

- **`ILRComponent`** (`ilr_component.dfy`, module `IlrComponent`): the proxy object.
  - `Component`, `Statics`, `Field` and `Behaviour` are classes whose fields the methods update in place.
  - `Init` is a one-shot state machine over `Inited`, `InitOK`, `enabled`, `Object`, `Type`, `FullName` and the static `DType`.
  - `BeforeHook`/`AfterHook` implement the load-batching protocol: a static `frame` flag and a pending `comps` list.
  - `Awake` hydrates the script object's fields from the serialized `Field` records, forcing `Init` on any proxy it references.
  - `HandleGets` and the six `Get*` wrappers select components by type name, including base types.
  - Each method is proved against a specification function: `InitSpec` for `Init`, `Hydrate` for `Awake`, `Found` for `HandleGets`.
  - The byte reads of `BitConverter` are modelled as little-endian, with their round trips proved.
- **`JsonMapper`**, the metadata-driven JSON codec:
  - `json_values.dfy` defines tokens, values and errors.
  - `json_metadata.dfy` computes the array and object metadata.
  - `json_decode.dfy` is the typed decoder, including the conversion ladder for scalars.
  - `json_tree.dfy` is the untyped token-to-tree decoder.
  - `json_encode.dfy` is the depth-bounded encoder, including its fixed dispatch order.
  - `json_mapper.dfy` holds the `JsonMapper` class. Its metadata caches are maps that the `Add*Metadata` methods fill at most once per type. Its `ReadValue`, `ReadWrapper` and `WriteValue` methods consume a reader cursor and append to a writer, proved equal to the functions above.
- **`ILRManager`** (`ilr_manager.dfy`, module `IlrManager`):
  - a `Manager` class holding the static state (`AppDomain`, the two file streams and the memoised `types` list);
  - `Initialize`, which chooses the assembly path and the symbol path;
  - `Close`;
  - `GetTypes`, which builds the list once and returns the same list object afterwards;
  - the three-way `CreateInstance` dispatch.

Reflection is an oracle. `clr_types.dfy` maps each `System.Type` to the answers the code asks of it: its full name, base type, kind (native, interpreted, or wrapper), whether it is an array or a list, its properties and fields, whether it is a value type, and an enum's underlying integral type. `WellFormed` requires that base chains are finite.

Some behaviours of the code that the model keeps:
- `InitOK` is set at the end of `Init`, before any field is hydrated. A proxy whose hydration throws therefore still counts as initialised.
- `Awake` catches nothing per field. An exception in one record, such as `Type.GetField` on a null `Type`, ends `Awake` at that record.
- A `Field` record holds one key, one type tag, one object reference and one 16-byte buffer. `Awake` reads the buffer only for the scalar tags it lists; every other tag is taken as a reference.
- `Close` leaves the `types` list as it is, so `GetTypes` after `Close` returns the list built before.
- The lifecycle forwarders run whenever `Object` is non-null, whether or not initialisation succeeded.
- An enum is written through the unboxing cast the code makes, which throws for most underlying types; see Findings.
- An ILRuntime enum read from a `bool`, a `double` or a string with no importer for it throws: the value reaches `Enum.ToObject`, which accepts only runtime types. A runtime enum read from a number keeps only the bits its underlying type holds.

## Model

| member | source | states |
|---|---|---|
| IlrComponent.ReadsBackWritten | Runtime/ILRComponent.cs:196-205 | Reading back the little-endian bytes written for an unsigned number gives that number. |
| IlrComponent.WritesBackRead | Runtime/ILRComponent.cs:196-205 | Any byte string reads as a number below 256^n, and writing that number back gives the same bytes. |
| IlrComponent.SignedRoundTrip | Runtime/ILRComponent.cs:196-205 | The two's-complement bytes of a signed value read back as that value, whatever bytes follow. |
| IlrComponent.Int32RoundTrip | Runtime/ILRComponent.cs:196-200 | `BitConverter.ToInt32` over the first 4 of 16 bytes inverts the 4-byte encoding of any 32-bit value; the other 12 bytes do not matter. |
| IlrComponent.Int64RoundTrip | Runtime/ILRComponent.cs:201-205 | `BitConverter.ToInt64` over the first 8 bytes inverts the 8-byte encoding of any 64-bit value. |
| IlrComponent.ToInt32InRange | Runtime/ILRComponent.cs:198 | `ToInt32` is a signed 32-bit value and determines the first 4 bytes exactly. |
| IlrComponent.HydrateSnoc | Runtime/ILRComponent.cs:189-266 | Hydration runs record by record in list order. One more record applies that record's step to the values so far, unless an exception has already ended the loop. |
| IlrComponent.HydrateStaysStopped | Runtime/ILRComponent.cs:189-266 | Once a record throws, later records change neither the values nor the error. |
| IlrComponent.HydrateKeepsOtherKeys | Runtime/ILRComponent.cs:191-265 | A member that no record names keeps its value. |
| IlrComponent.LastRecordWins | Runtime/ILRComponent.cs:191-265 | A record that assigns determines its member's value after it, whatever earlier records wrote. |
| IlrComponent.NoTypeAssignsNothing | Runtime/ILRComponent.cs:194 | With a null `Type`, the first record throws on `Type.GetField` and nothing is assigned. |
| IlrComponent.UnknownKeySkipped | Runtime/ILRComponent.cs:194-195 | A record whose key names no field of the type is skipped, whatever its tag and payload. |
| IlrComponent.ScalarTagsRead | Runtime/ILRComponent.cs:196-245 | `System.Int32` reads bytes 0..4 and `System.Int64` bytes 0..8, both signed little-endian. `System.Boolean` is byte 0 != 0. `System.String` decodes the whole 16-byte buffer. |
| IlrComponent.ReferenceTagsAssign | Runtime/ILRComponent.cs:246-264 | A non-scalar tag on an existing field assigns exactly when the reference is a live asset, or a live proxy whose `FullName` equals the tag, which is when `HydrateField` resolves it. A live asset is assigned as-is; a proxy contributes its `Object`. |
| IlrComponent.FirstNamedIsFirst | Runtime/ILRComponent.cs:138-148 | The bundle-mode lookup yields the first listed type carrying the name, and none exactly when no type carries it. |
| IlrComponent.FindNamed | Runtime/ILRComponent.cs:141-148 | The `foreach` with `break` returns that first named type. |
| IlrComponent.InitOkHasObject | Runtime/ILRComponent.cs:166-182 | `Init` succeeds only with an `Object`: a new one, or the one already there. Clearing `Object` always means failure. |
| IlrComponent.DynamicPath | Runtime/ILRComponent.cs:95-128 | With a pending `DType`, `Init` succeeds exactly when the instance is created and is a component. Then `Type` becomes `DType` and `FullName` its full name; on failure both are kept. |
| IlrComponent.StaticPathKeepsName | Runtime/ILRComponent.cs:131-178 | The name path never changes `FullName`. An empty `FullName` fails at once and changes nothing else. |
| IlrComponent.BundleModeTakesFirstNamed | Runtime/ILRComponent.cs:138-171 | In bundle mode the type resolved is the first listed type with the stored name. If none matches and there was no `Type` and no `Object`, `Init` fails. |
| IlrComponent.Behaviour.constructor | Runtime/ILRComponent.cs:21-38 | A fresh script object has no transform or game object, no field values and no lifecycle calls. |
| IlrComponent.Field.constructor | Runtime/ILRComponent.cs:43-48 | A new record has no reference and a zeroed 16-byte buffer. |
| IlrComponent.Field.Reset | Runtime/ILRComponent.cs:50-54 | `Reset` clears the reference and installs a fresh zeroed 16-byte buffer, keeping key and tag. |
| IlrComponent.Statics.constructor | Runtime/ILRComponent.cs:66-69 | The statics start with no `DType`, `frame` false and an empty `comps`. |
| IlrComponent.Statics.BeforeHook | Runtime/ILRComponent.cs:71-74 | `BeforeHook` sets `frame` and changes nothing else. |
| IlrComponent.Statics.AfterHook | Runtime/ILRComponent.cs:76-88 | Each queued proxy that is alive and not yet `Inited` ends `Inited` and in the state `InitSpec` gives for its `DrainInputs` input, so the `Init`s see, in queue order, the `DType` and the `GetTypes` answer their predecessors left. Every other entry is exactly as it was. `DType` is cleared exactly when some entry is initialised. Afterwards `frame` is false and `comps` is empty. |
| IlrComponent.Statics.InitQueued | Runtime/ILRComponent.cs:82-83 | One iteration of the drain: `Init` exactly when the entry is alive and not `Inited`, otherwise nothing changes. The drain state advances by one entry. |
| IlrComponent.Statics.Drain | Runtime/ILRComponent.cs:78-84 | The loop settles every queued entry as its `DrainInputs` input says and leaves `DType` as `DTypeAfter` the queue. |
| IlrComponent.Statics.InitEntry | Runtime/ILRComponent.cs:83 | The `Init` of an entry that is alive and not `Inited` settles it and consumes the pending `DType`; the other entries are untouched. |
| IlrComponent.Statics.InitOne | Runtime/ILRComponent.cs:83 | `Init` on a queued proxy leaves it in the state `InitSpec` gives for its input, with `DType` cleared and `GetTypes` answering `ListedAfter` that input. |
| IlrComponent.Statics.EndFrame | Runtime/ILRComponent.cs:86-87 | Queuing stops and the queue is emptied. |
| IlrComponent.DrainInputs | Runtime/ILRComponent.cs:78-84 | Each entry's `Init` input carries that entry's own `FullName`, `Type` and `Object` and the statics' `MainDLL`. |
| IlrComponent.DTypeGoesToFirstDrained | Runtime/ILRComponent.cs:78-84 | A pending `DType` reaches the first entry the drain initialises; every later entry sees none. |
| IlrComponent.DrainInputDType | Runtime/ILRComponent.cs:78-84 | The `DType` an entry's `Init` sees is `DTypeAfter` the entries before it. |
| IlrComponent.DTypeAfterConsumed | Runtime/ILRComponent.cs:78-84 | After the drain `DType` is null exactly when some entry was initialised, and otherwise as it was. |
| IlrComponent.ListedAfter | Runtime/ILRManager.cs:77-89 | After an `Init`, `GetTypes` answers as before, except that the first call without a domain leaves an empty list, and only an `Init` that asks for types makes that call. |
| IlrComponent.Component.constructor | Runtime/ILRComponent.cs:70 | A new proxy is appended to `comps` exactly when `frame` is set, so the queue keeps each proxy once. It starts neither `Inited` nor `InitOK`, with no `Object` and no `Type`. |
| IlrComponent.Component.Init | Runtime/ILRComponent.cs:91-183 | A second call changes nothing, so a failed `Init` is never retried. The first call sets `Inited` and leaves the state `InitSpec` gives: `InitOK` on success, otherwise `enabled` false. It clears `DType` whatever happens. On success it hands the script object its `transform` and `gameObject`. |
| IlrComponent.Component.InitFromType | Runtime/ILRComponent.cs:95-128 | The dynamic path leaves the state `InitSpec` gives for a pending `DType`, and `DType` null. |
| IlrComponent.Component.InitFromName | Runtime/ILRComponent.cs:131-182 | The name path leaves the state `InitSpec` gives. It asks `GetTypes` only in bundle mode with a non-empty name. |
| IlrComponent.Component.ResolveByName | Runtime/ILRComponent.cs:138-153 | In bundle mode `Type` becomes the first listed type with the name, or stays as it was; otherwise it is `MainDLL`'s type of that name or null. It fails only when `GetTypes` throws. |
| IlrComponent.Component.CreateResolved | Runtime/ILRComponent.cs:154-182 | With `Type` resolved, instantiation and the null check leave the state `NamedEffect` gives. |
| IlrComponent.Component.Awake | Runtime/ILRComponent.cs:185-273 | `Init` runs first if needed. On a first `Init`, the proxy's `InitOK`, `enabled`, `Type`, `FullName` and `Object` end as `InitSpec` gives them. An already `Inited` proxy keeps them all. Without `InitOK` nothing more happens: `Fields` is kept and the script's `Awake` is not called. Otherwise the script's values are exactly `Hydrate` of the records in order. A record's proxy is `Init`-ed and its `Object` used exactly when no earlier record threw and the record names an existing field with a non-scalar tag and references a live proxy whose `FullName` equals the tag. A throwing record ends `Awake` with `Fields` kept and no script `Awake`. Otherwise the script's `Awake` runs once, and in play mode `Fields` is dropped. |
| IlrComponent.Component.AwakeInited | Runtime/ILRComponent.cs:188-272 | The part of `Awake` after `Init`, with the same outcome, proxy resolution and script `Awake` count. `InitOK`, `Object`, `Type`, `FullName` and `enabled` are unchanged. |
| IlrComponent.Component.HydrateAll | Runtime/ILRComponent.cs:189-266 | The record loop leaves the script's values equal to `Hydrate` of the records, and its error is `Hydrate`'s error. A record resolves a proxy exactly when no earlier record threw and it links a live proxy of the tag's name. |
| IlrComponent.Component.HydrateRun | Runtime/ILRComponent.cs:191-265 | The `for` loop over the records: it stops just past the first throwing record or at the end, with the values `Hydrate` gives for the records it ran. |
| IlrComponent.FinishHydrate | Runtime/ILRComponent.cs:191-265 | The records the loop ran over, with no resolution for the records after a throw, give `Hydrate` over all the records the same values and error. A proxy is resolved exactly where a reached record links one. |
| IlrComponent.ResolvedFollowsLinks | Runtime/ILRComponent.cs:191-265 | When the loop ends, a record has resolved a proxy exactly when the loop reached it and it links one; records after a throwing one are never reached. |
| IlrComponent.Component.HydrateNext | Runtime/ILRComponent.cs:193-265 | One loop iteration extends the `Hydrate` prefix by one record. |
| IlrComponent.Component.HydrateField | Runtime/ILRComponent.cs:194-264 | One record applies `FieldStep` to the script's values. A referenced proxy is resolved exactly when the tag is not scalar, the field exists and the proxy's name equals the tag. That proxy is then `Init`-ed and its `Object` used. |
| IlrComponent.Component.OnEnable | Runtime/ILRComponent.cs:280-287 | With an `Object`, it copies `enabled` and forwards one `OnEnable`; the field values, the other callback counts, `transform` and `gameObject` are untouched. |
| IlrComponent.Component.OnDisable | Runtime/ILRComponent.cs:289-296 | With an `Object`, it copies `enabled` and forwards one `OnDisable`; the field values, the other callback counts, `transform` and `gameObject` are untouched. |
| IlrComponent.Component.OnDestroy | Runtime/ILRComponent.cs:313-317 | Forwards one `OnDestroy` and nulls `Object`; the `Init` state is kept. |
| IlrComponent.SelectedAppend | Runtime/ILRComponent.cs:418-451 | Selection keeps query order: it distributes over concatenation. |
| IlrComponent.SelectedIsFilter | Runtime/ILRComponent.cs:418-451 | Each matching component is returned as often as the query lists it, and nothing else is returned. Matching means alive, with a `Type` whose own or some base type's full name is the queried one. |
| IlrComponent.DerivesFrom | Runtime/ILRComponent.cs:424-449 | The `while (true)` walk up `BaseType` hits exactly when the type or some ancestor carries the name. |
| ClrTypes.DerivesFromNameIsAncestorName | Runtime/ILRComponent.cs:424-449 | Deriving from a name means some k-th ancestor (k ≥ 0) of the type carries it. |
| IlrComponent.HandleGets | Runtime/ILRComponent.cs:393-453 | Null for a null game object or type. Otherwise it returns the matching components of the depth-selected query, in query order. |
| IlrComponent.GetInParent | Runtime/ILRComponent.cs:339-350 | The first match of the parent query, or none. This is the corrected behaviour; see Findings. |
| IlrComponent.Get | Runtime/ILRComponent.cs:352-363 | The first match on the object itself, or none. This is the corrected behaviour; see Findings. |
| IlrComponent.GetInChildren | Runtime/ILRComponent.cs:365-376 | The first match of the children query, or none. This is the corrected behaviour; see Findings. |
| IlrComponent.GetsInParent | Runtime/ILRComponent.cs:378-381 | `HandleGets` at depth -1, passing `includeInactive`. |
| IlrComponent.Gets | Runtime/ILRComponent.cs:383-386 | `HandleGets` at depth 0. `GetComponents` takes no `includeInactive` argument there, so the flag has no effect. |
| IlrComponent.GetsInChildren | Runtime/ILRComponent.cs:388-391 | `HandleGets` at depth 1, passing `includeInactive`. |
| IlrComponent.GetAsWrittenThrowsOnNullGameObject | Runtime/ILRComponent.cs:339-350 | As written, `Get*` with a null game object dereferences the null `HandleGets` result. |
| IlrComponent.FirstIsHead | Runtime/ILRComponent.cs:339-376 | The corrected `Get*` return the head of the result, or none when it is null or empty. It agrees with the code wherever the code does not throw. |
| JsonMetadata.LastIndexerIsLast | Runtime/JSON/JsonMapper.cs:55-67 | The element type is that of the last public `Item[int]` indexer, and none when there is no such indexer. |
| JsonMetadata.ArrayMetadataShape | Runtime/JSON/JsonMapper.cs:28-80 | `IsArray` and `IsList` are the type's own flags. A wrapper type's element type is its CLR element type for arrays and its first generic argument otherwise; any other type takes it from the last `int` indexer. |
| JsonMetadata.ChainProperties | Runtime/JSON/JsonMapper.cs:96-102 | The collected properties begin with the type's own declared ones (the base chain follows). |
| JsonMetadata.ScanPropertiesAdds | Runtime/JSON/JsonMapper.cs:105-128 | Every non-`Item` property is added under its name, as a property with its type. |
| JsonMetadata.ScanPropertiesDistinct | Runtime/JSON/JsonMapper.cs:105-128 | A successful scan saw distinct non-`Item` names, none already present. |
| JsonMetadata.ScanPropertiesElementType | Runtime/JSON/JsonMapper.cs:109-124 | The element type comes from the last `Item[string]` indexer: a wrapper's second generic argument, else the indexer's type. |
| JsonMetadata.ScanFieldsAdds | Runtime/JSON/JsonMapper.cs:131-143 | Every field is added under its name, as a field with its type. |
| JsonMetadata.ScanFieldsDistinct | Runtime/JSON/JsonMapper.cs:131-143 | A successful scan saw distinct field names, none clashing with a property. |
| JsonMetadata.ObjectMetadataMembers | Runtime/JSON/JsonMapper.cs:82-158 | The members are exactly the non-`Item` properties of the type and its bases plus its fields. `IsDictionary` is the `IDictionary` test. |
| JsonMetadata.DuplicateMemberThrows | Runtime/JSON/JsonMapper.cs:127 | Two properties of one name along the base chain make `Properties.Add` throw. |
| JsonDecode.RungOfIsFirstApplicable | Runtime/JSON/JsonMapper.cs:184-251 | The scalar conversion taken is the first applicable step of the ladder: as-is, then the interpreted enum from an integral value, then the custom importer, the base importer, `Enum.ToObject`, the implicit operator, and finally the value-type coercion. |
| JsonDecode.ConvertScalarFailsOnlyOffTheLadder | Runtime/JSON/JsonMapper.cs:184-256 | A scalar fails, naming value, source type and target type, exactly when no step applies. The first two steps return the value itself. |
| JsonDecode.ImporterPrecedence | Runtime/JSON/JsonMapper.cs:204-213 | A custom importer for the exact pair wins over everything after it. |
| JsonDecode.EnumToObject | Runtime/JSON/JsonMapper.cs:226-227 | For a runtime enum type, `Enum.ToObject` refuses exactly a `double` or a string, naming value and enum type. An integral value, or a `bool` as 1 or 0, becomes a member of the target enum whose number is in the range of the enum's underlying type and congruent to the given number modulo the type's size. |
| JsonDecode.EnumNumberTruncates | Runtime/JSON/JsonMapper.cs:226-227 | The number boxed into an enum lies in the underlying type's range, keeps its residue modulo the type's size, and is unchanged when it already fits. |
| JsonDecode.InterpretedEnumRefusesOtherScalars | Runtime/JSON/JsonMapper.cs:195-227 | For an ILRuntime enum target, an integral value is kept as it is. Any other scalar fails, with `Enum.ToObject`'s argument error, exactly when it is not assignable and has no importer, because `Enum.ToObject` accepts only a runtime type. |
| JsonDecode.ReadTyped | Runtime/JSON/JsonMapper.cs:161-377 | A successful typed read consumes at least one token and stays inside the input. |
| JsonDecode.ReadItems | Runtime/JSON/JsonMapper.cs:285-295 | The element loop only appends to the items read so far. |
| JsonDecode.NullReadsAsNull | Runtime/JSON/JsonMapper.cs:168-182 | A `Null` token reads as null for every target type, so the error at line 179 cannot happen. |
| JsonDecode.NonCollectionRefusesArray | Runtime/JSON/JsonMapper.cs:261-269 | An array token into a type that is neither array nor list is an error. |
| JsonDecode.ReadItemsOfScalars | Runtime/JSON/JsonMapper.cs:285-295 | Assignable scalars up to `ArrayEnd` are read, in order, each passed through `CheckCLRTypes`. |
| JsonDecode.ArrayGetsItemsInOrder | Runtime/JSON/JsonMapper.cs:261-306 | An array of assignable scalars read into a native array type gets exactly the elements read, in read order, each through `CheckCLRTypes`, with the read count as its length. |
| JsonDecode.ArrayAndListReadAlike | Runtime/JSON/JsonMapper.cs:261-306 | For any items, an array type and a creatable list type with the same element type read the same JSON array alike. They succeed or fail together, with the same error. They get the same items in the same order and stop at the same token. |
| JsonDecode.ReadMembersShape | Runtime/JSON/JsonMapper.cs:321-373 | Known keys go to members first. Unknown keys become dictionary entries only on dictionary targets. |
| JsonTree.ReadTree | Runtime/JSON/JsonMapper.cs:379-452 | A successful untyped read consumes at least one token and stays inside the input. |
| JsonTree.AssignKeys | Runtime/JSON/JsonMapper.cs:446-447 | Setting a property adds its key. A present key keeps the length; a new key is appended. |
| JsonTree.AssignLookup | Runtime/JSON/JsonMapper.cs:446-447 | After setting a property, that key maps to the new value and every other key is unchanged. |
| JsonTree.AssignDistinct | Runtime/JSON/JsonMapper.cs:446-447 | Setting a property on an object whose keys are distinct leaves them distinct. |
| JsonTree.ReadTreeSerialize | Runtime/JSON/JsonMapper.cs:379-452 | Reading back the tokens of any tree with distinct keys gives that tree and stops right after it. |
| JsonTree.AssignInPlace | Runtime/JSON/JsonMapper.cs:446-447 | Setting a key that is already present replaces the value at its first position and leaves every other entry in place. |
| JsonTree.RepeatedKeyOverwrites | Runtime/JSON/JsonMapper.cs:437-448 | In any object being read, a property name already read overwrites that entry's value in place, and the loop goes on after the new value. |
| JsonTree.NullItemKept | Runtime/JSON/JsonMapper.cs:424-431 | At any position in an array, a `Null` is appended as an element and the loop goes on, while an `ArrayEnd` ends the array with the elements read so far. |
| JsonEncode.Dispatch | Runtime/JSON/JsonMapper.cs:464-597 | The array, container and enum cases are reached only by objects of that shape. |
| JsonEncode.DispatchIsFirstMatch | Runtime/JSON/JsonMapper.cs:464-597 | `WriteValue` takes exactly the first case whose test holds, in the order: null, `IJsonWrapper`, string, float, double, int, bool, long, array, `IList`, `IDictionary`, custom exporter, base exporter, enum, object. |
| JsonEncode.Bracketed | Runtime/JSON/JsonMapper.cs:517-552 | Containers write one start and one end token around their contents, and fail exactly when the contents fail. |
| JsonEncode.EnumAsWrittenThrows | Runtime/JSON/JsonMapper.cs:585-597 | As written, enums over `long` or `byte` throw on the unboxing cast. |
| JsonEncode.EnumTokenKeepsNumber | Runtime/JSON/JsonMapper.cs:585-597 | The corrected enum export keeps the number: as `int`, or as a `ulong` congruent to it modulo 2^64. |
| JsonEncode.EnumTokenAgreesWhereCastSucceeds | Runtime/JSON/JsonMapper.cs:585-597 | The corrected enum export agrees with the code wherever the code's cast succeeds. |
| JsonEncode.EnumExport | Runtime/JSON/JsonMapper.cs:585-597 | An enum that no exporter claims is written as the corrected export when it is declared over `int` or `ulong`, and throws `InvalidCastException` for every other underlying type. |
| JsonEncode.DepthGuard | Runtime/JSON/JsonMapper.cs:458-462 | When every dictionary key reached is a string and every enum reached is declared over `int` or `ulong`, so that no cast throws, encoding fails exactly when some value is reached at a depth greater than `max_nesting_depth`. The top level is depth 0 and each element, entry value or member is one deeper. |
| JsonEncode.SeqDepthGuard | Runtime/JSON/JsonMapper.cs:521-522 | The same for the elements of an array or list. |
| JsonEncode.EntriesDepthGuard | Runtime/JSON/JsonMapper.cs:542-547 | The same for the values of a dictionary. |
| JsonEncode.EntryDepthGuard | Runtime/JSON/JsonMapper.cs:544-546 | The same for one dictionary entry. |
| JsonEncode.MembersDepthGuard | Runtime/JSON/JsonMapper.cs:605-624 | The same for the members of an object, counting only fields and readable properties. |
| JsonEncode.MemberDepthGuard | Runtime/JSON/JsonMapper.cs:607-622 | The same for one member. |
| JsonEncode.DepthCheckPrecedesLeaves | Runtime/JSON/JsonMapper.cs:458-468 | The depth check comes before every case, leaves included. |
| JsonMapping.JsonReader.Read | Runtime/JSON/JsonMapper.cs:163 | `reader.Read()` advances the cursor by one token, and fails at the end of the input. |
| JsonMapping.JsonWriter.Write | Runtime/JSON/JsonMapper.cs:466 | The writer appends one token. |
| JsonMapping.JsonMapper.AddArrayMetadata | Runtime/JSON/JsonMapper.cs:28-80 | A cached type returns at once and the cache is unchanged. Otherwise the computed metadata is stored, or the error is raised with the cache unchanged. The object cache is never touched. |
| JsonMapping.JsonMapper.ComputeArrayMetadata | Runtime/JSON/JsonMapper.cs:33-67 | The metadata built is `ArrayMetadataOf` the type. |
| JsonMapping.JsonMapper.LastIntIndexer | Runtime/JSON/JsonMapper.cs:55-67 | The indexer loop returns the type of the last `Item[int]`. |
| JsonMapping.JsonMapper.AddObjectMetadata | Runtime/JSON/JsonMapper.cs:82-158 | A cached type returns at once and the cache is unchanged. Otherwise the computed metadata is stored, or the error is raised with the cache unchanged. The array cache is never touched. |
| JsonMapping.JsonMapper.ComputeObjectMetadata | Runtime/JSON/JsonMapper.cs:87-145 | The metadata built is `ObjectMetadataOf` the type. |
| JsonMapping.JsonMapper.CollectProperties | Runtime/JSON/JsonMapper.cs:96-102 | The base-chain loop collects `ChainProperties`. |
| JsonMapping.JsonMapper.AddProperties | Runtime/JSON/JsonMapper.cs:105-129 | The property loop computes `ScanProperties`. |
| JsonMapping.JsonMapper.AddFields | Runtime/JSON/JsonMapper.cs:131-143 | The field loop computes `ScanFields`. |
| JsonMapping.JsonMapper.ReadValue | Runtime/JSON/JsonMapper.cs:161-377 | The typed read returns exactly `ReadTyped`'s value or error, and leaves the cursor where `ReadTyped` stops. |
| JsonMapping.JsonMapper.ReadArrayValue | Runtime/JSON/JsonMapper.cs:261-307 | The array branch returns `ReadArray`'s result and stops where it stops. |
| JsonMapping.JsonMapper.CreateArray | Runtime/JSON/JsonMapper.cs:297-304 | The new array holds exactly the list's items, in order. |
| JsonMapping.JsonMapper.ReadItemsValue | Runtime/JSON/JsonMapper.cs:285-295 | The `while (true)` element loop returns `ReadItems`' result. |
| JsonMapping.JsonMapper.ReadObjectValue | Runtime/JSON/JsonMapper.cs:308-374 | The object branch returns `ReadObject`'s result. |
| JsonMapping.JsonMapper.ReadMembersValue | Runtime/JSON/JsonMapper.cs:321-373 | The member loop returns `ReadMembers`' result. |
| JsonMapping.JsonMapper.ReadMember | Runtime/JSON/JsonMapper.cs:328-372 | One key is handled as `ReadMembers` handles it. |
| JsonMapping.JsonMapper.ReadProperty | Runtime/JSON/JsonMapper.cs:330-346 | A known key reads its member's value into the member. |
| JsonMapping.JsonMapper.SkipMember | Runtime/JSON/JsonMapper.cs:350-363 | On a non-dictionary target, an unknown key is an error without `SkipNonMembers` and skipped with it. |
| JsonMapping.JsonMapper.ReadEntry | Runtime/JSON/JsonMapper.cs:366-371 | On a dictionary target, an unknown key becomes an entry; a repeated one makes `Add` throw. |
| JsonMapping.JsonMapper.ReadWrapper | Runtime/JSON/JsonMapper.cs:379-452 | The untyped read returns exactly `ReadTree`'s tree or error, and stops where it stops. |
| JsonMapping.JsonMapper.WriteValue | Runtime/JSON/JsonMapper.cs:454-627 | On success the writer gets exactly `Encode`'s output after what it held. On failure the error is `Encode`'s, including the `InvalidCastException` of an enum whose underlying type is not the one it is cast to. |
| JsonMapping.JsonMapper.WriteArray | Runtime/JSON/JsonMapper.cs:517-537 | An array or list is written as `[`, its elements, `]`. |
| JsonMapping.JsonMapper.WriteDictionary | Runtime/JSON/JsonMapper.cs:539-552 | A dictionary is written as `{`, its entries, `}`. |
| JsonMapping.JsonMapper.WriteObject | Runtime/JSON/JsonMapper.cs:604-626 | An object is written as one start/end pair around its members, in `type_properties` order. |
| JsonMapping.JsonMapper.WriteItems | Runtime/JSON/JsonMapper.cs:521-522 | The element loop writes `EncodeSeq`. |
| JsonMapping.JsonMapper.WriteItem | Runtime/JSON/JsonMapper.cs:522 | One element extends the written prefix of `EncodeSeq`. |
| JsonMapping.JsonMapper.WriteEntries | Runtime/JSON/JsonMapper.cs:542-547 | The entry loop writes `EncodeEntries`. |
| JsonMapping.JsonMapper.WriteEntryAt | Runtime/JSON/JsonMapper.cs:542-547 | One entry extends the written prefix of `EncodeEntries`. |
| JsonMapping.JsonMapper.WriteEntry | Runtime/JSON/JsonMapper.cs:544-546 | An entry writes its key cast to a string, then its value one level deeper. |
| JsonMapping.JsonMapper.WriteMembers | Runtime/JSON/JsonMapper.cs:605-624 | The member loop writes `EncodeMembers`. |
| JsonMapping.JsonMapper.WriteMemberAt | Runtime/JSON/JsonMapper.cs:605-624 | One member extends the written prefix of `EncodeMembers`. |
| JsonMapping.JsonMapper.WriteMember | Runtime/JSON/JsonMapper.cs:607-622 | A field is always written and a property only when it can be read, each as its name and then its value. |
| JsonMapping.JsonMapper.ToJson | Runtime/JSON/JsonMapper.cs:642-649 | `ToJson` is `Encode` of the object at depth 0 with a private writer, the enum cast as written included: it fails exactly where `Encode` fails and otherwise returns `Encode`'s tokens. |
| IlrManager.ReflectionTypes | Runtime/ILRManager.cs:81-86 | One reflection type per loaded type, in enumeration order. |
| IlrManager.ReflectionTypesAppend | Runtime/ILRManager.cs:83-86 | Each loop step appends the next loaded type's reflection type. |
| IlrManager.AssemblyPath | Runtime/ILRManager.cs:30 | A non-empty `path` is used as-is, else the bundle directory + `"main"` + the bundle extension. |
| IlrManager.CreateInstance | Runtime/ILRManager.cs:96-112 | Interpreted types are instantiated by the interpreter, exactly those. Wrapper types construct their `RealType`; any other type constructs itself. The arguments are passed through. |
| IlrManager.AppDomain.constructor | Runtime/ILRManager.cs:32 | A new domain has loaded no types. |
| IlrManager.AppDomain.LoadAssembly | Runtime/ILRManager.cs:37-42 | After `LoadAssembly` the domain's loaded types are the assembly's. |
| IlrManager.FileStream.Close | Runtime/ILRManager.cs:58-67 | Closing a stream leaves it closed. |
| IlrManager.TypeList.Add | Runtime/ILRManager.cs:85 | `Add` appends one type. |
| IlrManager.Manager.constructor | Runtime/ILRManager.cs:24-26 | The manager starts with no domain, no streams and no type list. |
| IlrManager.Manager.Initialize | Runtime/ILRManager.cs:28-53 | A fresh domain is always installed. It holds the assembly's types on success and no types when the assembly is missing. The assembly is opened from `AssemblyPath`, failing exactly when it is missing. Symbols are opened only when `dll + ".pdb"` exists. The hooks are registered once on success, and `types` is untouched. |
| IlrManager.Manager.Close | Runtime/ILRManager.cs:55-69 | `AppDomain` is nulled and the streams the two fields hold are closed. The fields and `types` are kept. |
| IlrManager.Manager.GetTypes | Runtime/ILRManager.cs:77-89 | The list is built only when `types` is null, and every later call returns that same object unchanged. It is built from the domain in order; with no domain the call throws and leaves an empty list for good. |

## Left out

- Floating-point values. `System.Single`/`System.Double` fields and `Vector2/3/4`/`Color` records, decoded with `ByteToStruct`, are opaque tagged byte strings. On the JSON side, floats are opaque bit patterns, and the `float`/`double` coercions are symbolic results.
- UTF-8 decoding, and the bytes `BitConverter` reads for types not listed above. A string field holds the raw 16-byte buffer.
- Reflection, `Activator.CreateInstance`, `ILType.Instantiate`, `CheckCLRTypes`, importer and exporter delegates, and `GetConvOp`. These are foreign calls. They appear as oracle fields of the type environment, of the decoder and of the exporter tables, and their results are symbolic values.
- `FieldInfo.SetValue` is modelled as always storing the value. The type mismatches it can throw on are not modelled.
- A `Field` whose `BValue` is null is not modelled. A buffer too short for the `BitConverter` read its tag asks for makes `Awake` throw (`BufferTooShort`). `ByteToStruct` is taken to give an opaque value for a buffer of any length.
- Logging, including `Helper.Log`, `Helper.LogError` and `Constants.RELEASE_MODE`.
- The forwarders `Start`, `Update`, `LateUpdate`, `FixedUpdate`, `OnTriggerEnter/Exit` and `OnCollisionEnter/Exit`. They only call the same method on `Object` and touch no state.
- `FilePath`. The code never reads it.
- The `ILRComponent` statics are one `Statics` object passed to the methods explicitly, not ambient globals. Unity's component queries and the "is this object alive" test are taken as given: a `Scene` of query results, and an `alive` flag.
- IlrComponent.Component.Awake: requires that `InitOK` implies `Object` is non-null. Unity never calls `Awake` after `OnDestroy`, the only place that nulls `Object` after a successful `Init`.
- IlrComponent.Component.Awake: does not restate, after hydration, that the script object holds the proxy's `transform` and `gameObject`. `Init` states it. A referenced proxy that shares the same script object would overwrite them during its own `Init`.
- Exception kinds are merged in two places. A null target type at an array or object start is reported as `NullReference`, where the code throws `ArgumentNullException` from the metadata caches' `ContainsKey(null)`. A wrapper with no generic arguments is reported as `IndexOutOfRange`, where the code dereferences the null `GenericArguments`.
- Static members are decoded like instance members. The metadata collects `BindingFlags.Static` properties and fields, and `SetValue` writes them to storage shared by every instance. The model stores them in each decoded object's own member map.
- IlrComponent.Statics.AfterHook: the loop re-reads the length of `comps` as the source does. `Init` constructs no components in the model, so the contract does not cover entries appended during the drain. It requires that each queued proxy appears once and that no two share a script object. The constructor keeps the first, and `Init` only installs fresh script objects.
- Asset-hook registration is a counter. `PdbReaderProvider`, the file streams' contents and the reading done by `AppDomain.LoadAssembly` are not modelled beyond the loaded type list and the open/closed state. `UnityMainThreadID` and the `afterInit` callback are foreign and are also not modelled.
- `RegisterCLRRedirection` and `JsonToObject`/`JsonToObject2`/`JsonToObject3` are not modelled. They work on the interpreter stack through raw pointers.
- The locks around the metadata caches and around `static_writer` are not modelled. They serve concurrency, and the model is single-threaded.
- The `isformat` pretty-printing branch of `ToJson` is not modelled. It only changes the whitespace the writer emits.
- The public `ToObject`/`ToWrapper` overloads and `ToJson(obj, writer)` are not modelled separately. They forward to the `ReadValue`/`WriteValue` members above.
- The JSON text reader's grammar checks are not modelled. The reader is a token sequence with a cursor, and reading past the end is an error.
- `ReadSkip` and `AddTypeProperties` belong to the base class. Base-class code is not part of this model. `ReadSkip` is modelled as one untyped read whose result is dropped. `type_properties` is taken as the member list an object carries.
- Cross-references between proxies are modelled as given. A proxy referenced by a record is initialised through `Init`, whose own termination does not depend on hydration. Cycles through `Awake` do not arise in the code.

## Findings

| source | as written | input that shows it | evidently intended | confidence | as-written member | corrected member |
|---|---|---|---|---|---|---|
| Runtime/JSON/JsonMapper.cs:585-597 | An enum is unboxed with `(ulong)obj` when its underlying type is `long`, `uint` or `ulong`, and with `(int)obj` otherwise. Unboxing succeeds only for the exact underlying type. | Any enum declared `: long`, `: uint`, `: byte` or `: short` throws `InvalidCastException` on export. | Write the enum's number: as `ulong` for the wide underlying types and as `int` for the others. | not executed | JsonEncode.EnumExport | JsonEncode.EnumTokenKeepsNumber |
| Runtime/ILRComponent.cs:339-376 | `GetInParent`, `Get` and `GetInChildren` read `rets.Length` on the result of `HandleGets`. `HandleGets` returns null for a null game object or type (lines 395-404). | `Get(null, typeof(X))` throws `NullReferenceException` instead of returning null. | Return null when `HandleGets` does, and otherwise the first element or null. | not executed | IlrComponent.GetAsWrittenThrowsOnNullGameObject | IlrComponent.FirstIsHead |
