# GMP protobuf bridge — a Dafny model

This project models the protobuf bridge of the GenericMessagePlugin (GMP),
`Plugins/GMP/Source/GMP/Private/GMPProtoSerializer.cpp`. The bridge converts
Unreal reflected structs (`UScriptStruct` instances, described by their
`FProperty` lists) to and from upb protobuf messages. It has these parts:

- **Descriptor registry.** `FPreGenerator` collects serialized
  `FileDescriptorProto`s and orders them so that dependencies come first.
  `FGMPDefPool` wraps a upb `DefPool` and maps struct names to message
  definitions. A static map of pools is indexed by a byte.
- **Message-value views.** `AsVariant` / `FromVariant` translate between a
  raw `upb_MessageValue` and the typed variant. `FProtoReader` reads a field
  of a message (or an element of a repeated field, or a loose value), and
  `FProtoWriter` writes one.
- **Visitors.** One visitor per property class (bool, enum, numerics, byte,
  string, name, text, soft object, struct, array, set, map). A dispatcher
  runs a property against a reader (`ReadFromPB`) or a writer (`WriteToPB`).
- **Entry points.** `UStructToProtoImpl` fills a fresh message from a struct
  and encodes it. `UStructFromProtoImpl` decodes bytes into a fresh message
  and reads the struct back. The one-of holder accessors are `AsValueImpl`
  and `IterateKeyValueImpl`.

The model follows the code as written, including the places where it does
not do what its names suggest. Those behaviours are stated as lemmas in
`behaviours.dfy`:

- A scalar property bound to a plain (non-repeated) field is never decoded.
  The dispatcher hands the scalar visitors the reader itself, and they
  ignore readers.
- Element reads from a repeated field all read element 0. The element reader
  is re-indexed by the dispatcher's own counter.
- Struct elements of an array are not read.
- A scalar array of n > 0 elements is written as n − 1 uninitialised
  elements (the model fills them with the field's default). The element
  writer resizes the array to its index, and the indexed setter then fails
  its bounds check.
- The result of `UStructFromProtoImpl` is always false. The visitors' field
  counters are never incremented.
- The editor's round-trip check (`CompareScriptStruct` after writing and
  reading a default-initialised struct) fails for a struct holding an empty
  byte array, which reads back as `[0]`.

## Structure

| file | module | contents |
|---|---|---|
| `kinds.dfy` | `Kinds` | field C types, the message-value variant, `EqualType`/`EqualField`, `AsVariant`/`FromVariant`, integer truncations |
| `store.dfy` | `Store` | arena contents: a sequence of messages whose slots hold a scalar, an array or a map table |
| `reader.dfy` | `Reader` | `FProtoReader` as pure functions over the arena contents |
| `writer.dfy` | `Writer` | `FProtoWriter` (a class over a shared `Arena` object), each setter specified by a function |
| `upb.dfy` | `Upb` | the upb `DefPool` surface the bridge uses |
| `pregen.dfy` | `PreGen` | `FPreGenerator` and its dependency ordering |
| `defpool.dfy` | `DefPools` | `FGMPDefPool` and the static pool map |
| `native.dfy` | `Native` | reflected properties, native values, and the engine/upb services as a record of functions |
| `coerce.dfy` | `Coerce` | what each scalar visitor writes and reads |
| `visit.dfy` | `Visit` | the visitors and the dispatcher as functions (the specification) |
| `visitors.dfy` | `Visitors` | the visitors with the loops of the source, proved equal to `Visit` |
| `serializer.dfy` | `Serializer` | the entry points and the one-of accessors |
| `behaviours.dfy` | `Behaviours` | consequences of the code as written |

**Engine and upb services.** Services the bridge calls but that are not part
of this model are the fields of the `Native.Foreign` record. They include:

- UTF-8 conversion, `ToBool`, enum lookup by name, `LexFromString` and
  `LexToString`, float-to-integer casts, soft-object paths and `ImportText`;
- `upb_Encode` and `upb_Decode`.

Every theorem holds for every choice of these functions.

**Property-class dispatch.** `GMP::Serializer::Traits::ForeachProp` picks a
visitor for a property class. It is not part of this model. Each
`Native.PropKind` stands for the visitor the property class selects.

In the table below, every source path is
`Plugins/GMP/Source/GMP/Private/GMPProtoSerializer.cpp`.

## Model

| member | source | states |
|---|---|---|
| Kinds.ToI32 | Plugins/GMP/Source/GMP/Private/GMPProtoSerializer.cpp:1141-1142 | the int32 cast keeps the low 32 bits and is the identity on int32 values |
| Kinds.ToI64 | Plugins/GMP/Source/GMP/Private/GMPProtoSerializer.cpp:1193 | the int64 cast keeps the low 64 bits and is the identity on int64 values |
| Kinds.ToU32 | Plugins/GMP/Source/GMP/Private/GMPProtoSerializer.cpp:1203 | the uint32 cast is the identity on values in 0..2^32-1 |
| Kinds.ToU64 | Plugins/GMP/Source/GMP/Private/GMPProtoSerializer.cpp:1188 | the uint64 cast is the identity on values in 0..2^64-1 |
| Kinds.AltOf | Plugins/GMP/Source/GMP/Private/GMPProtoSerializer.cpp:672-681 | a variant has a scalar alternative exactly when it is neither monostate nor a container |
| Kinds.EqualType | Plugins/GMP/Source/GMP/Private/GMPProtoSerializer.cpp:264-335 | a C type always matches its own alternative; a match implies the same storage layout; bool, float and double match only their own C type |
| Kinds.EqualTypeTable | Plugins/GMP/Source/GMP/Private/GMPProtoSerializer.cpp:264-335 | the exact C types each alternative accepts: int32 and uint32 accept each other, int64 and uint64 likewise, the enum alternative accepts enum and int32, the string view accepts string and bytes, bool/float/double only themselves; int32 and uint32 do not accept enum |
| Kinds.EqualField | Plugins/GMP/Source/GMP/Private/GMPProtoSerializer.cpp:264-350 | monostate and string views match no field (upb's `IsPrimitive` excludes string and bytes); a matching scalar field is primitive with the alternative's layout, and a primitive field of the alternative's own type matches; message, map and array handles match message, map and repeated fields exactly |
| Kinds.AsVariant | Plugins/GMP/Source/GMP/Private/GMPProtoSerializer.cpp:353-378 | a map field yields a map, a repeated field an array, and a scalar field the alternative its C type selects, keeping an already matching scalar unchanged |
| Kinds.FromVariant | Plugins/GMP/Source/GMP/Private/GMPProtoSerializer.cpp:380-399 | a variant is accepted exactly when it is not a message and its alternative fits the field; an accepted variant is stored as is, and monostate or a message is refused |
| Kinds.FromVariantThenAsVariant | Plugins/GMP/Source/GMP/Private/GMPProtoSerializer.cpp:353-399 | round trip: a variant `FromVariant` accepts for a scalar field reads back through `AsVariant` with the same bits |
| Kinds.AsVariantThenFromVariant | Plugins/GMP/Source/GMP/Private/GMPProtoSerializer.cpp:353-399 | a value read from a scalar field is accepted back exactly when the field is primitive and not an enum (so string and bytes values are refused) |
| Store.NewMsg | Plugins/GMP/Source/GMP/Private/GMPProtoSerializer.cpp:937 | `upb_Message_New` adds one empty, live message and leaves every existing message unchanged |
| Store.SetSlot | Plugins/GMP/Source/GMP/Private/GMPProtoSerializer.cpp:770 | setting a field of a live message stores the slot there and changes no other field or message |
| Store.UpsertMap | Plugins/GMP/Source/GMP/Private/GMPProtoSerializer.cpp:868 | inserting into a map table is a map update: the new table maps the key to the value and agrees with the old one elsewhere |
| Store.UpsertKeys | Plugins/GMP/Source/GMP/Private/GMPProtoSerializer.cpp:868 | the keys after an insertion are the old keys plus the new one; an existing key keeps the size; a new key is appended |
| Store.UpsertDistinct | Plugins/GMP/Source/GMP/Private/GMPProtoSerializer.cpp:868 | insertion keeps the keys of a map table distinct |
| Store.Resized | Plugins/GMP/Source/GMP/Private/GMPProtoSerializer.cpp:895 | a resized array has the requested size, keeps the elements below it, and fills new positions with the fill value (the field default where the writer resizes, the property default where `FScriptArrayHelper::Resize` at line 1584 does) |
| Store.ResizeArray | Plugins/GMP/Source/GMP/Private/GMPProtoSerializer.cpp:892-896 | `upb_Message_ResizeArrayUninitialized` resizes only the named array field of the message |
| Store.SetElement | Plugins/GMP/Source/GMP/Private/GMPProtoSerializer.cpp:775 | writing element i of an array changes exactly that element when it exists, and nothing otherwise |
| Store.MapInsert | Plugins/GMP/Source/GMP/Private/GMPProtoSerializer.cpp:868 | `upb_Map_Insert` updates the field's map at the key and changes nothing else |
| Reader.ArrayElm | Plugins/GMP/Source/GMP/Private/GMPProtoSerializer.cpp:599-605 | an element reader is bound to the same message and field, with element index i |
| Reader.GetFieldNum | Plugins/GMP/Source/GMP/Private/GMPProtoSerializer.cpp:457-472 | a value is produced exactly when the C type fits the requested type and the index is unset or in bounds; an element read yields that element |
| Reader.AsNumber | Plugins/GMP/Source/GMP/Private/GMPProtoSerializer.cpp:481-516 | a numeric field is read through its own alternative; an enum reads as int32 0 (its int32 read fails the type check); a non-numeric field yields monostate |
| Reader.GetFieldStr | Plugins/GMP/Source/GMP/Private/GMPProtoSerializer.cpp:539-562 | a string field yields its stored string or default, or the indexed element; an out-of-bounds index or a non-string field (bytes included) yields an empty view |
| Reader.GetFieldBytes | Plugins/GMP/Source/GMP/Private/GMPProtoSerializer.cpp:564-582 | reads exactly what `GetFieldStr` reads, because it has the same `IsString()` guard; so a bytes field always reads as empty |
| Reader.GetSubMessage | Plugins/GMP/Source/GMP/Private/GMPProtoSerializer.cpp:687-702 | a message field yields its stored sub-message (null when unset); a non-message field or an out-of-bounds index yields null; for an in-bounds element it yields the element's message, where the source returns the element slot's address (see Left out) |
| Reader.DispatchFieldValue | Plugins/GMP/Source/GMP/Private/GMPProtoSerializer.cpp:623-685 | the reader itself is returned exactly for an unindexed container; a loose value yields itself; an element yields its value by C type, with message and bytes elements as monostate and enum elements as 0 |
| Writer.StoreAtBase | Plugins/GMP/Source/GMP/Private/GMPProtoSerializer.cpp:892-901 | an indexed store goes to the base of the array (element 0) that `ArrayElmData()` returns, and touches only that field |
| Writer.SetNum | Plugins/GMP/Source/GMP/Private/GMPProtoSerializer.cpp:758-780 | a loose value is replaced; a message field is set when its C type fits; an element is set only when its index is in bounds; a refused write changes nothing |
| Writer.SetStr | Plugins/GMP/Source/GMP/Private/GMPProtoSerializer.cpp:782-803 | accepted exactly for a string field whose index is unset or in bounds; an accepted unindexed write stores the string in the field, an accepted element write stores it at the base of the array; a refused write changes nothing |
| Writer.SetBytes | Plugins/GMP/Source/GMP/Private/GMPProtoSerializer.cpp:805-826 | accepted exactly for a bytes field, with no bounds check on the index; an accepted unindexed write stores the bytes in the field, an element write stores them at the base of the array; a refused write changes nothing |
| Writer.SetMessage | Plugins/GMP/Source/GMP/Private/GMPProtoSerializer.cpp:828-844 | accepted exactly for a message field; an unindexed field then holds the sub-message |
| Writer.ElementWriter | Plugins/GMP/Source/GMP/Private/GMPProtoSerializer.cpp:846-850 | the element writer is bound to element i of the same message, and the array has been resized to i elements |
| Writer.InsertEntry | Plugins/GMP/Source/GMP/Private/GMPProtoSerializer.cpp:852-860 | accepted exactly for a map field; the map is then updated at the entry message's key (stored or default) with its value (stored or default); a refused insert changes nothing |
| Writer.InsertPair | Plugins/GMP/Source/GMP/Private/GMPProtoSerializer.cpp:861-872 | accepted exactly for a map field whose key and value definitions accept the two variants; then the map is updated at the key |
| Writer.Arena.NewMessage | Plugins/GMP/Source/GMP/Private/GMPProtoSerializer.cpp:937 | allocates a new message in the arena, as `NewMsg` |
| Writer.ProtoWriter.OnMessage | Plugins/GMP/Source/GMP/Private/GMPProtoSerializer.cpp:737-741 | a writer bound to a message and a field |
| Writer.ProtoWriter.OnDefault | Plugins/GMP/Source/GMP/Private/GMPProtoSerializer.cpp:747-751 | a loose writer holding the field's default as its variant |
| Writer.ProtoWriter.SetFieldNum | Plugins/GMP/Source/GMP/Private/GMPProtoSerializer.cpp:758-780 | the held variant, the arena and the result are those `SetNum` specifies |
| Writer.ProtoWriter.SetFieldStr | Plugins/GMP/Source/GMP/Private/GMPProtoSerializer.cpp:782-803 | the held variant, the arena and the result are those `SetStr` specifies |
| Writer.ProtoWriter.SetFieldBytes | Plugins/GMP/Source/GMP/Private/GMPProtoSerializer.cpp:805-826 | the held variant, the arena and the result are those `SetBytes` specifies |
| Writer.ProtoWriter.SetFieldMessage | Plugins/GMP/Source/GMP/Private/GMPProtoSerializer.cpp:828-844 | the arena and the result are those `SetMessage` specifies |
| Writer.ProtoWriter.ArrayElm | Plugins/GMP/Source/GMP/Private/GMPProtoSerializer.cpp:846-850 | returns a fresh writer and leaves the arena as `ElementWriter` specifies |
| Writer.ProtoWriter.InsertFieldMapEntry | Plugins/GMP/Source/GMP/Private/GMPProtoSerializer.cpp:852-860 | the result and the arena are those `InsertEntry` specifies |
| Writer.ProtoWriter.InsertFieldMapPair | Plugins/GMP/Source/GMP/Private/GMPProtoSerializer.cpp:861-872 | the result and the arena are those `InsertPair` specifies |
| Writer.SetNumThenGetNum | Plugins/GMP/Source/GMP/Private/GMPProtoSerializer.cpp:457-472 | write then read: a numeric set on an unindexed field succeeds exactly when the type fits, and the same value then reads back |
| Writer.SetNumThenDispatchLoose | Plugins/GMP/Source/GMP/Private/GMPProtoSerializer.cpp:669-682 | a value set into a loose writer is what the dispatcher yields for it |
| Writer.ElementWriteRefused | Plugins/GMP/Source/GMP/Private/GMPProtoSerializer.cpp:773 | after `ArrayElm(i)`, a numeric or string write to the element is refused, because the array holds only i elements |
| Writer.ElementBytesLandsAtBase | Plugins/GMP/Source/GMP/Private/GMPProtoSerializer.cpp:819-822 | a bytes write through element writer i > 0 lands on element 0 |
| Writer.SetStrThenGetFieldStr | Plugins/GMP/Source/GMP/Private/GMPProtoSerializer.cpp:546-549 | write then read: an unindexed string write succeeds exactly on a string field, and `GetFieldStr` then reads the written bytes |
| Writer.SetBytesThenGetFieldBytes | Plugins/GMP/Source/GMP/Private/GMPProtoSerializer.cpp:564-582 | an unindexed bytes write stores the bytes in the field, yet `GetFieldBytes` reads them back as empty |
| Writer.StringPairsRefused | Plugins/GMP/Source/GMP/Private/GMPProtoSerializer.cpp:861-872 | no pair is ever inserted into a map with string or bytes keys, since `FromVariant` refuses string variants |
| Upb.FindIn | Plugins/GMP/Source/GMP/Private/GMPProtoSerializer.cpp:150 | `FindMessageByName` over the pool's files finds a message exactly when one has that full name |
| Upb.FindInFirst | Plugins/GMP/Source/GMP/Private/GMPProtoSerializer.cpp:150 | the message found comes from the first file holding a message of that name |
| Upb.FindMessage | Plugins/GMP/Source/GMP/Private/GMPProtoSerializer.cpp:150 | within one file, a message is found exactly when one has that full name, and it is the first such message |
| Upb.FindFieldByNumber | Plugins/GMP/Source/GMP/Private/GMPProtoSerializer.cpp:1917 | a field is found exactly when one has that number, and it is a field of the message |
| Upb.DefPool.AddProto | Plugins/GMP/Source/GMP/Private/GMPProtoSerializer.cpp:142 | an accepted file proto is appended to the pool as a file definition; a refused one leaves the pool unchanged |
| PreGen.PreAdd | Plugins/GMP/Source/GMP/Private/GMPProtoSerializer.cpp:35-52 | a parsed proto not seen before is recorded with its name, buffer and dependencies; otherwise nothing changes; the tables stay consistent |
| PreGen.PreAddAll | Plugins/GMP/Source/GMP/Private/GMPProtoSerializer.cpp:66-69 | re-adding every descriptor keeps the tables consistent |
| PreGen.PreAddIdempotent | Plugins/GMP/Source/GMP/Private/GMPProtoSerializer.cpp:38 | the same parsed object offered a second time is refused and changes nothing |
| PreGen.ReparseReappends | Plugins/GMP/Source/GMP/Private/GMPProtoSerializer.cpp:37-49 | a buffer queued again is parsed into a new object, which is recorded again and appends its imports to the name's dependencies a second time |
| PreGen.AddProtoImpl | Plugins/GMP/Source/GMP/Private/GMPProtoSerializer.cpp:84-96 | the name ends up in the list, after all its dependencies, without duplicates; a name already present changes nothing |
| PreGen.OrderAll | Plugins/GMP/Source/GMP/Private/GMPProtoSerializer.cpp:71-75 | the ordered list holds every known proto exactly once, each after its dependencies |
| PreGen.Lookup | Plugins/GMP/Source/GMP/Private/GMPProtoSerializer.cpp:76-80 | maps each ordered name to its proto |
| PreGen.PreGenerator.PreAddProtoDesc | Plugins/GMP/Source/GMP/Private/GMPProtoSerializer.cpp:32-33 | appends the buffer to the descriptors and changes no table |
| PreGen.PreGenerator.PreAddProto | Plugins/GMP/Source/GMP/Private/GMPProtoSerializer.cpp:35-52 | updates the tables and returns the result as `PreAdd` specifies |
| PreGen.PreGenerator.Reset | Plugins/GMP/Source/GMP/Private/GMPProtoSerializer.cpp:54-62 | empties the descriptors and every table |
| PreGen.PreGenerator.GenerateProtoList | Plugins/GMP/Source/GMP/Private/GMPProtoSerializer.cpp:64-82 | re-adds every descriptor, then returns each known proto once, dependencies first |
| PreGen.PreGenerator.ReAddAll | Plugins/GMP/Source/GMP/Private/GMPProtoSerializer.cpp:66-69 | the tables become `PreAddAll` of the descriptors |
| PreGen.PreGenerator.FillDefPool | Plugins/GMP/Source/GMP/Private/GMPProtoSerializer.cpp:98-111 | the tables become `PreAddAll` of the descriptors; the returned list holds every recorded file once, dependencies first; the returned definitions are those of the listed files the pool accepts when offered them in order (`Offered`), the pool gains exactly these, and the output map records each accepted file's descriptor bytes under its name (`Recorded`); an empty pool accepts the whole list |
| PreGen.OfferAll | Plugins/GMP/Source/GMP/Private/GMPProtoSerializer.cpp:102-109 | the loop of `FillDefPool`: the definitions, the pool and the output map are those `Offered` and `Recorded` specify |
| PreGen.OfferNext | Plugins/GMP/Source/GMP/Private/GMPProtoSerializer.cpp:104-108 | one turn of that loop: the file is appended to the accepted files exactly when the pool accepts it (`Upb.AcceptsIn`), and only then is its definition added to the pool and the result and its descriptor bytes recorded under its name |
| PreGen.Recorded | Plugins/GMP/Source/GMP/Private/GMPProtoSerializer.cpp:107 | every recorded file's name is in the output map, and names not recorded keep their old entry |
| PreGen.AllOffered | Plugins/GMP/Source/GMP/Private/GMPProtoSerializer.cpp:98-111 | a dependencies-first list without repeated names, whose imports are all recorded, is accepted in full by an empty pool |
| DefPools.NameMapLast | Plugins/GMP/Source/GMP/Private/GMPProtoSerializer.cpp:162-185 | the short-name cache is keyed by `FName`, that is by the ASCII-folded name: a key is present exactly when some top-level message's name folds to it, and it holds the last such message |
| DefPools.NameMapMergesCase | Plugins/GMP/Source/GMP/Private/GMPProtoSerializer.cpp:182 | two top-level messages whose names differ only in case share one entry, held by the later one or a message after it |
| DefPools.GmpDefPool.AddProto | Plugins/GMP/Source/GMP/Private/GMPProtoSerializer.cpp:139-145 | an accepted file is added to the pool and its top-level messages become findable by name; a refused one changes nothing |
| DefPools.GmpDefPool.MapProtoName | Plugins/GMP/Source/GMP/Private/GMPProtoSerializer.cpp:162-185 | adds the file's top-level messages to the cache under their `FName` keys, a later message replacing an earlier one of the same name up to case; a missing file changes nothing |
| DefPools.GmpDefPool.FindMessageByStruct | Plugins/GMP/Source/GMP/Private/GMPProtoSerializer.cpp:146-160 | a proto-defined struct is looked up by its full name; a native struct first in the cache by its `FName` key (ignoring case), then in the pool by its exact name |
| DefPools.GmpDefPool.CachedIgnoresCase | Plugins/GMP/Source/GMP/Private/GMPProtoSerializer.cpp:154 | native struct names that differ only in case find the same cached message |
| DefPools.LoadAll | Plugins/GMP/Source/GMP/Private/GMPProtoSerializer.cpp:208-212 | loading a dependency-ordered list into an empty pool adds every file, in order |
| DefPools.Registry.ResetDefPool | Plugins/GMP/Source/GMP/Private/GMPProtoSerializer.cpp:194-199 | the slot holds a new empty pool |
| DefPools.Registry.GetDefPool | Plugins/GMP/Source/GMP/Private/GMPProtoSerializer.cpp:200-216 | an existing pool is returned unchanged; a missing one is created, and in the editor it is loaded with the generated list |
| DefPools.Registry.ClearProtos | Plugins/GMP/Source/GMP/Private/GMPProtoSerializer.cpp:238-241 | removes every pool |
| DefPools.Registry.AddProto | Plugins/GMP/Source/GMP/Private/GMPProtoSerializer.cpp:223-228 | the result is true exactly when the buffer parsed and pool 0 accepts the file (a new name whose imports are loaded), in which case pool 0 gains it; otherwise pool 0 is unchanged; pool 0 exists afterwards |
| DefPools.Registry.AddProtos | Plugins/GMP/Source/GMP/Private/GMPProtoSerializer.cpp:230-237 | pool 0 keeps its files as a prefix, and the result is true exactly when at least one file was added |
| DefPools.Registry.FindMessageByStruct | Plugins/GMP/Source/GMP/Private/GMPProtoSerializer.cpp:218-221 | the lookup is pool 0's |
| Native.Wrap | Plugins/GMP/Source/GMP/Private/GMPProtoSerializer.cpp:1226 | storing an integer in a narrower property keeps it modulo the width, in range, and is the identity on values in range |
| Native.DefaultFields | Plugins/GMP/Source/GMP/Private/GMPProtoSerializer.cpp:2649-2650 | a default-initialised struct has one slot list per property, of the property's static array dimension |
| Native.FindProp | Plugins/GMP/Source/GMP/Private/GMPProtoSerializer.cpp:919 | `FindPropertyByName` finds the first property whose name equals the field name as an `FName` (up to ASCII case), or none exactly when no property does |
| Native.FindPropIgnoresCase | Plugins/GMP/Source/GMP/Private/GMPProtoSerializer.cpp:998 | field names that differ only in ASCII case find the same property |
| Native.SameNameFolded | Plugins/GMP/Source/GMP/Private/GMPProtoSerializer.cpp:138 | two names are the same `FName` exactly when their ASCII-folded keys are equal |
| Coerce.NumericArg | Plugins/GMP/Source/GMP/Private/GMPProtoSerializer.cpp:1250-1256 | integer types narrower than 32 bits are widened to int32 without change |
| Coerce.GenericNumericArg | Plugins/GMP/Source/GMP/Private/GMPProtoSerializer.cpp:1164-1210 | an enum-carrying number is written as int32; a narrow integer without an enum is not written |
| Coerce.LeafWrite | Plugins/GMP/Source/GMP/Private/GMPProtoSerializer.cpp:1114-1451 | the setter each scalar visitor calls: bool as bool, enum and byte as int32, string/name/text as UTF-8, other classes nothing; numeric arguments are never strings |
| Coerce.IntCast | Plugins/GMP/Source/GMP/Private/GMPProtoSerializer.cpp:1226 | a converted integer lies in the target range and equals the source value when it fits |
| Coerce.LeafRead | Plugins/GMP/Source/GMP/Private/GMPProtoSerializer.cpp:1096-1451 | monostate and unknown classes leave the property alone; bool stores `Val != 0`; enum names go through `GetValueByNameString`; strings, names and texts take the UTF-8 text |
| Coerce.ByteReadRange | Plugins/GMP/Source/GMP/Private/GMPProtoSerializer.cpp:1323-1355 | a byte property only ever receives a value in 0..255 or keeps its value; out-of-range integers are refused; a bool stores 1 or 0 |
| Coerce.EnumWriteThenRead | Plugins/GMP/Source/GMP/Private/GMPProtoSerializer.cpp:1138-1150 | round trip: an enum value of at most 32 bits written as int32 reads back unchanged |
| Coerce.NumericWriteThenRead | Plugins/GMP/Source/GMP/Private/GMPProtoSerializer.cpp:1250-1263 | round trip: any in-range integer property value written by the numeric visitor reads back unchanged |
| Coerce.BoolWriteThenRead | Plugins/GMP/Source/GMP/Private/GMPProtoSerializer.cpp:1118-1130 | round trip for bool properties |
| Coerce.TextWriteThenRead | Plugins/GMP/Source/GMP/Private/GMPProtoSerializer.cpp:1361-1411 | round trip for string, name and text properties whenever UTF-8 decoding inverts encoding |
| Visit.BytesOf | Plugins/GMP/Source/GMP/Private/GMPProtoSerializer.cpp:1546 | the raw bytes of a byte array have one byte per element |
| Visit.ReadFromPB | Plugins/GMP/Source/GMP/Private/GMPProtoSerializer.cpp:1735-1752 | a read never changes the number of slots of a property |
| Visit.ReadItems | Plugins/GMP/Source/GMP/Private/GMPProtoSerializer.cpp:1739-1746 | the per-slot element reads keep the number of slots |
| Visit.VisitAt | Plugins/GMP/Source/GMP/Private/GMPProtoSerializer.cpp:1738 | a visit of slot i keeps the number of slots |
| Visit.ElemReads | Plugins/GMP/Source/GMP/Private/GMPProtoSerializer.cpp:1585-1588 | the element reads of an array keep its length |
| Visitors.WriteToPB | Plugins/GMP/Source/GMP/Private/GMPProtoSerializer.cpp:1725-1732 | the writer's variant and the arena end as `Visit.WriteToPB` specifies: properties with a static dimension above 1 are skipped |
| Visitors.WriteVisit | Plugins/GMP/Source/GMP/Private/GMPProtoSerializer.cpp:1114-1519 | the property's visitor's write, as `Visit.WriteVisit` |
| Visitors.ArrayWrite | Plugins/GMP/Source/GMP/Private/GMPProtoSerializer.cpp:1536-1563 | the array loop computes `Visit.ArrayWrite`: raw bytes, element-wise writes, or the first element |
| Visitors.SetWrite | Plugins/GMP/Source/GMP/Private/GMPProtoSerializer.cpp:1602-1618 | the set loop writes each valid slot through its element writer, as `Visit.SetElemsWrite` |
| Visitors.PropToMap | Plugins/GMP/Source/GMP/Private/GMPProtoSerializer.cpp:1649-1671 | the map loop writes each valid pair and inserts it, as `Visit.PairsWrite` |
| Visitors.StructToMessage | Plugins/GMP/Source/GMP/Private/GMPProtoSerializer.cpp:1456-1486 | a new sub-message is filled from the struct and stored, as `Visit.StructToMessage` |
| Visitors.PropToField | Plugins/GMP/Source/GMP/Private/GMPProtoSerializer.cpp:912-931 | the field loop writes each field from the property of the same name, as `Visit.PropsToFields` |
| Visitors.WriteField | Plugins/GMP/Source/GMP/Private/GMPProtoSerializer.cpp:918-929 | one turn of the field loop: the field is written from the property whose name matches it up to ASCII case, and the store is unchanged when no property matches, as `Visit.FieldWrite` |
| Visitors.ReadFromPB | Plugins/GMP/Source/GMP/Private/GMPProtoSerializer.cpp:1735-1752 | the dispatcher's read loop computes `Visit.ReadFromPB` |
| Visitors.VisitAt | Plugins/GMP/Source/GMP/Private/GMPProtoSerializer.cpp:1738 | the visit of one slot, as `Visit.VisitAt` |
| Visitors.ReadVisit | Plugins/GMP/Source/GMP/Private/GMPProtoSerializer.cpp:1096-1717 | the property's visitor's read, as `Visit.ReadVisit` |
| Visitors.ReadContainer | Plugins/GMP/Source/GMP/Private/GMPProtoSerializer.cpp:1564-1717 | the array, set and map visitors' read: only a reader is visited, and a scalar leaves the property as it was |
| Visitors.ArrayRead | Plugins/GMP/Source/GMP/Private/GMPProtoSerializer.cpp:1566-1596 | the array read loop computes `Visit.ArrayRead` |
| Visitors.SetRead | Plugins/GMP/Source/GMP/Private/GMPProtoSerializer.cpp:1621-1644 | the set read loop computes `Visit.SetRead` |
| Visitors.MapToProp | Plugins/GMP/Source/GMP/Private/GMPProtoSerializer.cpp:1682-1708 | the map iteration computes `Visit.MapRead` |
| Visitors.MessageToStruct | Plugins/GMP/Source/GMP/Private/GMPProtoSerializer.cpp:1487-1512 | the struct read computes `Visit.MessageToStruct` |
| Visitors.FieldToProp | Plugins/GMP/Source/GMP/Private/GMPProtoSerializer.cpp:993-1009 | the field loop reads each field into the property of the same name, as `Visit.FieldsToProps` |
| Visitors.ReadField | Plugins/GMP/Source/GMP/Private/GMPProtoSerializer.cpp:997-1007 | one turn of the field loop: the property whose name matches the field up to ASCII case is read from that field, and the struct is unchanged when none matches, as `Visit.FieldRead` |
| Serializer.ToProto | Plugins/GMP/Source/GMP/Private/GMPProtoSerializer.cpp:933-966 | false with no bytes when the struct has no message or the encoder fails; otherwise true with the encoding of the filled message |
| Serializer.FromProto | Plugins/GMP/Source/GMP/Private/GMPProtoSerializer.cpp:1011-1029 | always false; the struct is unchanged without a message or on a decode failure, and otherwise is read field by field from the decoded message |
| Serializer.UStructToProtoImpl | Plugins/GMP/Source/GMP/Private/GMPProtoSerializer.cpp:933-966 | finds the struct's message in the pool and returns what `ToProto` specifies |
| Serializer.UStructFromProtoImpl | Plugins/GMP/Source/GMP/Private/GMPProtoSerializer.cpp:1011-1029 | finds the struct's message in the pool and returns what `FromProto` specifies |
| Serializer.AsValueImpl | Plugins/GMP/Source/GMP/Private/GMPProtoSerializer.cpp:1874-1899 | true exactly for a valid holder with flags 0 read into a struct property, which is then read by the struct visitor through the holder's reader (the parent field bound to the cloned sub-message; see Left out); otherwise the output is untouched |
| Serializer.IterateKeyValueImpl | Plugins/GMP/Source/GMP/Private/GMPProtoSerializer.cpp:1901-1929 | always returns `INDEX_NONE` and leaves the key alone; the field numbered `Idx`, when it exists, is read into the output holder from the sub-message the holder's reader yields (see Left out) |
| Behaviours.ScalarFieldNotDecoded | Plugins/GMP/Source/GMP/Private/GMPProtoSerializer.cpp:627-631 | a scalar property read from a plain message field keeps its value |
| Behaviours.MonoItemsKeepSlots | Plugins/GMP/Source/GMP/Private/GMPProtoSerializer.cpp:1739-1746 | element reads of a repeated message or bytes field leave every slot unchanged |
| Behaviours.RepeatedMessageFieldNotRead | Plugins/GMP/Source/GMP/Private/GMPProtoSerializer.cpp:1739-1746 | a non-array property read from a repeated message or bytes field (maps included) keeps its value |
| Behaviours.ReadItemsByElements | Plugins/GMP/Source/GMP/Private/GMPProtoSerializer.cpp:1744 | the element reads depend only on the element readers |
| Behaviours.ElementReadIgnoresIndex | Plugins/GMP/Source/GMP/Private/GMPProtoSerializer.cpp:1741-1744 | reading element i of a repeated field into a non-container property reads what element 0 gives |
| Behaviours.ElemReadsFromZero | Plugins/GMP/Source/GMP/Private/GMPProtoSerializer.cpp:1585-1588 | every element of an array of scalars is read from wire element 0 |
| Behaviours.ArrayReadsElementZero | Plugins/GMP/Source/GMP/Private/GMPProtoSerializer.cpp:1580-1588 | an array read from a repeated field gets the wire size, and every element is read from wire element 0 |
| Behaviours.StructArrayElementsNotRead | Plugins/GMP/Source/GMP/Private/GMPProtoSerializer.cpp:1580-1588 | an array of structs read from a repeated message field is only resized |
| Behaviours.LeafElementWriteRefused | Plugins/GMP/Source/GMP/Private/GMPProtoSerializer.cpp:1553-1554 | a scalar written through an element writer leaves the arena as the element writer left it |
| Behaviours.ElemsWriteDefaults | Plugins/GMP/Source/GMP/Private/GMPProtoSerializer.cpp:1551-1555 | the element loop leaves the repeated field holding n − 1 uninitialised elements (the field default in the model) |
| Behaviours.ScalarArrayWrittenAsDefaults | Plugins/GMP/Source/GMP/Private/GMPProtoSerializer.cpp:1548-1556 | a non-empty scalar array written to a repeated field arrives as n − 1 uninitialised elements (the field default in the model) |
| Behaviours.SetElemReadsAppend | Plugins/GMP/Source/GMP/Private/GMPProtoSerializer.cpp:1629-1633 | the set read loop keeps the slots it starts with and appends one element per wire element, in order |
| Behaviours.SetReadOnePerElement | Plugins/GMP/Source/GMP/Private/GMPProtoSerializer.cpp:1621-1644 | a set read from a repeated field is the old slots followed by one element per wire element |
| Behaviours.PairReadsAppend | Plugins/GMP/Source/GMP/Private/GMPProtoSerializer.cpp:1697-1704 | the map read loop appends one pair per wire entry, in entry order |
| Behaviours.MapReadOnePairPerEntry | Plugins/GMP/Source/GMP/Private/GMPProtoSerializer.cpp:1682-1708 | a map read from a map field has exactly one pair per wire entry, each read from that entry's key and value |
| Behaviours.LooseLeafWrite | Plugins/GMP/Source/GMP/Private/GMPProtoSerializer.cpp:747-751 | a scalar written through a loose writer replaces its held value by the setter argument and leaves the arena alone |
| Behaviours.ScalarPairWritten | Plugins/GMP/Source/GMP/Private/GMPProtoSerializer.cpp:1657-1667 | with scalar keys and values, each valid pair is offered to `InsertFieldMapPair` as its key and value arguments, and an accepted pair updates the map at that key |
| Behaviours.LeafSetNotStored | Plugins/GMP/Source/GMP/Private/GMPProtoSerializer.cpp:1602-1618 | a set of scalars written to a repeated field stores none of its elements: every element afterwards is an old one or the field default |
| Behaviours.MessageMapValueStaysNull | Plugins/GMP/Source/GMP/Private/GMPProtoSerializer.cpp:1662-1664 | the value writer of a message-typed map value holds a null message; attaching the sub-message stores nothing and the pair is never inserted |
| Behaviours.UnsetSubMessageIsNull | Plugins/GMP/Source/GMP/Private/GMPProtoSerializer.cpp:1493 | an unset message field reads as a null sub-message, whose fields the struct read then reads from an empty message |
| Behaviours.HolderRebindsParentField | Plugins/GMP/Source/GMP/Private/GMPProtoSerializer.cpp:1493-1498 | a one-of holder pairs the parent field with the cloned sub-message; when that sub-message has no field of the parent's number, `AsValueImpl` reads the struct from the null message and `IterateKeyValueImpl` reads from it too, where a direct read of the field reads the sub-message |
| Behaviours.ScalarFieldsKeep | Plugins/GMP/Source/GMP/Private/GMPProtoSerializer.cpp:993-1009 | a struct of scalar properties read from plain fields is unchanged |
| Behaviours.ScalarStructNotDecoded | Plugins/GMP/Source/GMP/Private/GMPProtoSerializer.cpp:1011-1029 | decoding into a struct of scalar properties returns false and changes nothing |
| Behaviours.EditorCheckFailsOnByteArray | Plugins/GMP/Source/GMP/Private/GMPProtoSerializer.cpp:2647-2659 | the editor's round trip of a default struct holding an empty byte array reads back `[0]`, so the comparison fails |

## Left out

- The upb codec (`upb_Encode`, `upb_Decode`), descriptor parsing
  (`ParseProto`, `ParseProtoSet`) and the upb `DefPool`'s symbol checks are
  foreign code. They are the `encode`/`decode` functions of `Native.Foreign`
  and the `Accepts` predicate of `Upb.DefPool`. `Accepts` checks only that
  the file name is new and that every import is loaded; upb's other checks,
  such as a conflict between symbol names of two files, are not modelled.
- Nested message types are not modelled; only top-level messages are named
  in a file.
- Engine services are functions of `Native.Foreign`: text conversion,
  `ImportText`, enum lookup by name, float arithmetic and casts, soft-object
  paths, and PIE renaming.
- Floating-point values are opaque (`Fp`).
- The property-class dispatch `ForeachProp` is not part of this model. Each
  property carries the visitor kind it selects.
- Address arithmetic is abstracted: each visit receives its property's own
  storage. This covers `ContainerPtrToValuePtr`, `GetRawPtr`,
  `GetElementPtr`, and the reader's `ArrayElmData` offset of `lg2 * Idx`.
  Element reads still go to element 0 through the dispatcher's index, which
  the model keeps.
- Map reads store values at the upb iterator position (`GetKeyPtr(Iter)`).
  This is not modelled: each wire entry is appended as a new pair.
- The order of upb map iteration is modelled as insertion order.
- The set helper's free list and rehash are not modelled: a set is a sparse
  sequence of slots.
- Arenas are a single shared `Arena` object. The element writer of `ArrayElm`
  is built without an arena in the source. A separate arena, or its
  lifetime, is not modelled.
- The holder arena of the one-of value is likewise not modelled separately.
  Its `upb_Message_DeepClone` is modelled as sharing the cloned message
  together with the arena contents.
- `GMP_CHECK`, `check`, `ensure` and `ensureAlways` are modelled as
  non-fatal: a failed `ensure` takes the branch the code takes afterwards.
  Logging is left out.
- Uninitialised memory is modelled as zero or the field default. This covers
  `T Ret;` and `upb_Message_ResizeArrayUninitialized`.
- Native values are immutable data: a read returns the property's new value
  instead of updating its storage in place, so aliasing between properties
  is not modelled.
- The Blueprint thunks and `ReigsterProtoDesc` (lines 1789-1870) are left
  out. They only forward to the modelled entry points.
- The editor proto generator and asset tooling (lines 1931-2763) are left
  out, except the round-trip check stated by
  `Behaviours.EditorCheckFailsOnByteArray`.
- The `FArchive` and raw-buffer overloads of `UStructToProtoImpl` and
  `UStructFromProtoImpl` are folded into one entry point each. A `TArray`
  holds the encoded bytes.
- Visit.ReadFromPB: its own contract states only that the number of slots is
  kept. What it computes is pinned by `Visitors.ReadFromPB` and by the
  lemmas in `Behaviours`.
- Visit.ReadItems, Visit.VisitAt, Visit.ElemReads: the same as
  `Visit.ReadFromPB`.
- The upb field-descriptor surface (`FFieldDefPtr`) is modelled by
  `Kinds.FieldDef` with two stated choices. `IsPrimitive` follows upb: a
  field is primitive when it is neither string/bytes nor a message. An
  element descriptor from `GetElementDef(i)` keeps every property of the
  field, the `repeated` label included, and differs only in its index
  (`Reader.ElementDef`).
- GetSubMessage: for an in-bounds element (lines 696-698) the source returns
  the address of the element's slot in the array, cast to a message
  pointer. The model returns the element's message. No visitor reaches
  this case: the dispatcher recurses only into unindexed readers
  (`Reader.DispatchFieldValue`), and message elements dispatch as monostate.
- SetMessage: on a writer holding a null message the source dereferences
  the null pointer (line 834) and crashes. The model stores nothing, since
  `Store.SetSlot` on a handle that is not live changes nothing. The
  reachable case is below.
- PropToMap: for a map whose value type is a message, the value writer
  holds the field's default, a null message (lines 1664 and 747-751).
  Writing the struct value then dereferences null in `SetFieldMessage` and
  crashes. The model stores nothing and never inserts the pair
  (`Behaviours.MessageMapValueStaysNull`). The same applies to
  Visit.PairsWrite.
- MessageToStruct: when the message field is unset, `GetSubMessage` yields
  null (line 1493) and the struct is read through the null message. A
  property that dispatches to a leaf never touches it: an unindexed
  container reader is handed to the scalar visitors as is (lines 623-628),
  and they ignore readers (lines 1102-1105). A property bound to a message,
  repeated or map field reads through the null pointer (`GetSubMessage` at
  line 693, `ArraySize` at lines 593-597, `GetSubMap`) and crashes. The
  model reads the null message as empty, so such a property receives what
  the field defaults give (`Behaviours.UnsetSubMessageIsNull`).
- AsValueImpl: the holder's reader pairs the parent field's definition with
  the cloned sub-message (lines 1497-1498), so the struct visitor's read at
  line 1889, through `GetSubMessage` at line 1493, applies the parent
  field's slot to a message of another layout. The model substitutes a
  lookup of the parent field's number inside the sub-message; when there is
  none, the struct is read from the null message
  (`Behaviours.HolderRebindsParentField`). IterateKeyValueImpl has the same
  reader at line 1919 and the same substitute.
- AddProtoImpl: on a dependency cycle the source recurses without bound
  (lines 86-95). The model requires an acyclic, closed dependency table (a
  ghost rank) and does not model the cycle.
- FindProp: `FName` names compare without regard to case. The model folds
  ASCII letters only; case folding of other characters is not modelled.
- MapProtoName: the cache keys are `FName`s. The model folds ASCII letters
  only (`Native.Folded`); case folding of other characters is not modelled.
  The same holds for FindMessageByStruct and NameMapLast.
- PreAdd: the pre-generator's name-keyed tables (`ProtoMap`, `ProtoDeps`,
  lines 27 and 30) and the `Results.Contains` test (line 86) use `FString`
  keys, which compare without regard to case. The model compares these
  names exactly, so two files whose names differ only in case are two
  entries here and one there. The same holds for PreAddAll, AddProtoImpl,
  OrderAll and GenerateProtoList.
- AddProto: a buffer that fails to parse is passed to upb's `AddProto` as a
  null file proto (lines 226-227 and 142), whose handling is not part of
  this model. `GmpDefPool.AddProto` takes it to be refused, with nothing
  added.
