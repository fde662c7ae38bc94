/**
 * What the visitors and the value dispatcher do, as functions: the write
 * side threads the arena contents through every setter a property causes
 * and yields the writer's new held value; the read side yields a property's
 * new slots. `Visitors` implements each of these with the loops of the
 * source and is proved to compute exactly them.
 *
 * Termination follows the property tree: a container's element property
 * and a struct's properties are smaller than the container and the struct.
 */
module Visit {
  import opened Kinds
  import opened Store
  import opened Reader
  import opened Writer
  import opened Upb
  import opened Native
  import opened Coerce

  /** The value a `const void*` to a property's storage designates: its first slot. */
  function FirstSlot(slots: seq<NValue>, p: Prop): NValue
  {
    if |slots| > 0 then slots[0] else Default(p)
  }

  /** `IsA<FByteProperty>() || IsA<FInt8Property>()`. */
  predicate ByteOrInt8(p: Prop)
  {
    p.kind.PByte? || p.kind == PNumeric(Int(I8)) || (p.kind.PGenericNumeric? && p.kind.nk == Int(I8))
  }

  /** The raw bytes of an array of byte or int8 elements. */
  function BytesOf(elems: seq<NValue>): (b: seq<Byte>)
    ensures |b| == |elems|
  {
    if elems == [] then [] else [Wrap(U8, IntOf(elems[0])) as Byte] + BytesOf(elems[1..])
  }

  function Clamp(n: nat, dim: nat): nat { if n < dim then n else dim }

  function ElemsOf(v: NValue): seq<NValue> { if v.NArray? then v.elems else [] }
  function SlotsOf(v: NValue): seq<Option<NValue>> { if v.NSet? then v.slots else [] }
  function PairsOf(v: NValue): seq<Option<(NValue, NValue)>> { if v.NMap? then v.pairs else [] }

  // ---------------------------------------------------------------------
  // Write side.

  /** `TValueDispatcher::Write`: a property with a static array dimension above 1 is skipped. */
  function WriteToPB(sc: Schema, fx: Foreign, r: ProtoReader, st: Store, p: Prop, v: NValue): (Value, Store)
    decreases p, 9
  {
    if p.arrayDim <= 1 then WriteVisit(sc, fx, r, st, p, v) else (r.var_, st)
  }

  /** `TValueVisitor<P>::WriteVisit`. */
  function WriteVisit(sc: Schema, fx: Foreign, r: ProtoReader, st: Store, p: Prop, v: NValue): (Value, Store)
    decreases p, 8
  {
    match p.kind
    case PStruct(def) => StructToMessage(sc, fx, r, st, def, v)
    case PArray(_) => ArrayWrite(sc, fx, r, st, p, ElemsOf(v))
    case PSet(_) =>
      if IsArray(r) then (r.var_, SetElemsWrite(sc, fx, r, st, p, SlotsOf(v), 0, CountSome(SlotsOf(v))))
      else (r.var_, st)
    case PMap(_, _) =>
      if IsMapField(r) then (r.var_, PairsWrite(sc, fx, r, st, p, PairsOf(v), 0, CountSome(PairsOf(v))))
      else (r.var_, st)
    case _ =>
      match LeafWrite(fx, p.kind, v)
      case ArgNum(x) => var w := SetNum(r, st, x); (w.var_, w.st)
      case ArgText(s) => var w := SetStr(r, st, s); (w.var_, w.st)
      case ArgNone => (r.var_, st)
  }

  /**
   * The array visitor's write: a bytes field takes the raw bytes of a byte
   * or int8 array; a repeated field is written element by element through
   * the writer's `ArrayElm(i)`; any other field takes the first element.
   */
  function ArrayWrite(sc: Schema, fx: Foreign, r: ProtoReader, st: Store, p: Prop, elems: seq<NValue>): (Value, Store)
    requires p.kind.PArray?
    decreases p, 7
  {
    if IsBytes(r) && ByteOrInt8(p.kind.inner) then
      var w := SetBytes(r, st, BytesOf(elems)); (w.var_, w.st)
    else if IsArray(r) then (r.var_, ElemsWrite(sc, fx, r, st, p, elems, 0))
    else if |elems| > 0 then WriteToPB(sc, fx, r, st, p.kind.inner, elems[0])
    else (r.var_, st)
  }

  /** Elements `i..` of an array, each through the element writer `ArrayElm(i)`. */
  function ElemsWrite(sc: Schema, fx: Foreign, r: ProtoReader, st: Store, p: Prop, elems: seq<NValue>, i: nat): Store
    requires p.kind.PArray?
    decreases p, 6, |elems| - i
  {
    if i >= |elems| then st
    else
      var (e, st1) := ElementWriter(r, st, i);
      ElemsWrite(sc, fx, r, WriteToPB(sc, fx, e, st1, p.kind.inner, elems[i]).1, p, elems, i + 1)
  }

  /**
   * The set visitor's write, from slot `i` up to (not including) `n`, the
   * number of valid elements: each valid slot is written through the
   * element writer of its slot index, invalid slots are skipped.
   */
  function SetElemsWrite(sc: Schema, fx: Foreign, r: ProtoReader, st: Store, p: Prop, slots: seq<Option<NValue>>, i: nat, n: nat): Store
    requires p.kind.PSet? && n <= |slots|
    decreases p, 5, n - i
  {
    if i >= n then st
    else
      var st' := if slots[i].Some? then
          var (e, st1) := ElementWriter(r, st, i);
          WriteToPB(sc, fx, e, st1, p.kind.elem, slots[i].value).1
        else st;
      SetElemsWrite(sc, fx, r, st', p, slots, i + 1, n)
  }

  /**
   * `PropToMap`, from slot `i` up to `n`, the number of valid pairs: each
   * valid pair's key and value are written into writers holding the entry
   * fields' defaults, and the two held values are offered to
   * `InsertFieldMapPair`.
   */
  function PairsWrite(sc: Schema, fx: Foreign, r: ProtoReader, st: Store, p: Prop, pairs: seq<Option<(NValue, NValue)>>, i: nat, n: nat): Store
    requires p.kind.PMap? && IsMapField(r) && n <= |pairs|
    decreases p, 4, n - i
  {
    if i >= n then st
    else
      var st' := if pairs[i].Some? then
          var kd := r.fd.entry.key;
          var vd := r.fd.entry.val;
          var (kv, st1) := WriteToPB(sc, fx, OnValue(kd.default, kd), st, p.kind.key, pairs[i].value.0);
          var (vv, st2) := WriteToPB(sc, fx, OnValue(vd.default, vd), st1, p.kind.val, pairs[i].value.1);
          InsertPair(r, st2, kv, vv).st
        else st;
      PairsWrite(sc, fx, r, st', p, pairs, i + 1, n)
  }

  /**
   * `StructToMessage`: for a message field, a new sub-message of the
   * field's type (for a one-of holder with a value, of the held field's
   * type) is filled from the struct and stored in the field. A one-of
   * holder's own reflected properties are declared outside this model, so
   * `FieldSlots` gives each of them its default value when the holder is
   * written.
   */
  function StructToMessage(sc: Schema, fx: Foreign, r: ProtoReader, st: Store, def: StructDef, v: NValue): (Value, Store)
    decreases def, 9
  {
    if !IsMessage(r) then (r.var_, st)
    else if def.isOneOf && !(v.NOneOf? && v.box.Some?) then (r.var_, st)
    else
      var sub := if def.isOneOf then SubDef(sc, v.box.value.reader.fd) else SubDef(sc, r.fd);
      var (st1, h) := NewMsg(st);
      var st2 := PropsToFields(sc, fx, sub.fields, h, st1, def, v, 0);
      (r.var_, SetMessage(r, st2, h).st)
  }

  /**
   * `PropToField(MsgDef, ...)` from field `j` on: each field of the message
   * definition is written from the struct property of the same name, if
   * any; fields without one are skipped.
   */
  function PropsToFields(sc: Schema, fx: Foreign, fields: seq<FieldDef>, h: Handle, st: Store, def: StructDef, v: NValue, j: nat): Store
    decreases def, 8, |fields| - j + 1
  {
    if j >= |fields| then st
    else PropsToFields(sc, fx, fields, h, FieldWrite(sc, fx, fields[j], h, st, def, v), def, v, j + 1)
  }

  /** Field `f` of the message at `h`, written from the struct property of the same name, if any. */
  function FieldWrite(sc: Schema, fx: Foreign, f: FieldDef, h: Handle, st: Store, def: StructDef, v: NValue): Store
    decreases def, 8, 0
  {
    match FindProp(def.props, f.name)
    case None => st
    case Some(k) =>
      var q := def.props[k];
      WriteToPB(sc, fx, OnMessage(h, f), st, q, FirstSlot(FieldSlots(v, q, k), q)).1
  }

  // ---------------------------------------------------------------------
  // Read side.

  /**
   * `TValueDispatcher::Read`: a repeated field read into a property that is
   * neither an array nor a set fills up to `ArrayDim` slots from elements
   * `0..`; otherwise the dispatched value goes to slot 0.
   */
  function ReadFromPB(sc: Schema, fx: Foreign, r: ProtoReader, st: Store, p: Prop, slots: seq<NValue>): (out: seq<NValue>)
    ensures |out| == |slots|
    decreases p, 9
  {
    if IsArray(r) && !p.kind.PArray? && !p.kind.PSet? then
      ReadItems(sc, fx, r, st, p, slots, 0, Clamp(ArraySize(r, st), p.arrayDim))
    else VisitAt(sc, fx, DispatchFieldValue(r, st), st, p, slots, 0)
  }

  function ReadItems(sc: Schema, fx: Foreign, r: ProtoReader, st: Store, p: Prop, slots: seq<NValue>, i: nat, n: nat): (out: seq<NValue>)
    ensures |out| == |slots|
    decreases p, 8, n - i
  {
    if i >= n then slots
    else ReadItems(sc, fx, r, st, p, VisitAt(sc, fx, DispatchFieldValue(ArrayElm(r, i), st), st, p, slots, i), i + 1, n)
  }

  /** The visit of slot `i` with a dispatched value. */
  function VisitAt(sc: Schema, fx: Foreign, d: Dispatched, st: Store, p: Prop, slots: seq<NValue>, i: nat): (out: seq<NValue>)
    ensures |out| == |slots|
    decreases p, 7
  {
    if i < |slots| then slots[i := ReadVisit(sc, fx, d, st, p, slots[i])] else slots
  }

  /** `TValueVisitor<P>::ReadVisit`: containers and structs recurse into a reader; leaves take scalars. */
  function ReadVisit(sc: Schema, fx: Foreign, d: Dispatched, st: Store, p: Prop, cur: NValue): NValue
    decreases p, 6
  {
    match p.kind
    case PStruct(def) =>
      if d.Recurse? then MessageToStruct(sc, fx, d.reader, st, def, cur)
      else if d.v.VStr? then fx.importText(def, fx.fromUtf8(d.v.s), cur)
      else cur
    case PArray(_) => if d.Recurse? then ArrayRead(sc, fx, d.reader, st, p, cur) else cur
    case PSet(_) => if d.Recurse? then SetRead(sc, fx, d.reader, st, p, cur) else cur
    case PMap(_, _) => if d.Recurse? then MapRead(sc, fx, d.reader, st, p, cur) else cur
    case _ => if d.Leaf? then LeafRead(fx, p.kind, d.v, cur) else cur
  }

  /**
   * The array visitor's read: a repeated field resizes the array to the
   * wire size and reads each element through `ArrayElm(i)`; any other field
   * resizes it to one element read from the field itself. The raw-bytes
   * branch is guarded by the array property itself being a byte or int8
   * property, which an array property never is, so bytes fields take the
   * one-element path.
   */
  function ArrayRead(sc: Schema, fx: Foreign, r: ProtoReader, st: Store, p: Prop, cur: NValue): NValue
    requires p.kind.PArray?
    decreases p, 5
  {
    var inner := p.kind.inner;
    if IsArray(r) then NArray(ElemReads(sc, fx, r, st, p, Resized(ElemsOf(cur), ArraySize(r, st), Default(inner)), 0))
    else NArray(ReadFromPB(sc, fx, r, st, inner, [Resized(ElemsOf(cur), 1, Default(inner))[0]]))
  }

  function ElemReads(sc: Schema, fx: Foreign, r: ProtoReader, st: Store, p: Prop, elems: seq<NValue>, i: nat): (out: seq<NValue>)
    requires p.kind.PArray?
    ensures |out| == |elems|
    decreases p, 4, |elems| - i
  {
    if i >= |elems| then elems
    else ElemReads(sc, fx, r, st, p, elems[i := ReadFromPB(sc, fx, ArrayElm(r, i), st, p.kind.inner, [elems[i]])[0]], i + 1)
  }

  /**
   * The set visitor's read: from a repeated field, one new element per
   * wire element is appended (the set is not emptied first); from any other
   * field the set is emptied and receives one element.
   */
  function SetRead(sc: Schema, fx: Foreign, r: ProtoReader, st: Store, p: Prop, cur: NValue): NValue
    requires p.kind.PSet?
    decreases p, 3
  {
    var elem := p.kind.elem;
    if IsArray(r) then NSet(SetElemReads(sc, fx, r, st, p, SlotsOf(cur), 0, ArraySize(r, st)))
    else NSet([Some(ReadFromPB(sc, fx, r, st, elem, [Default(elem)])[0])])
  }

  /** The set element read from wire element `i`: a default element read through `ArrayElm(i)`. */
  function SetElemAt(sc: Schema, fx: Foreign, r: ProtoReader, st: Store, p: Prop, i: nat): NValue
    requires p.kind.PSet?
    decreases p, 2, 0
  {
    ReadFromPB(sc, fx, ArrayElm(r, i), st, p.kind.elem, [Default(p.kind.elem)])[0]
  }

  function SetElemReads(sc: Schema, fx: Foreign, r: ProtoReader, st: Store, p: Prop, acc: seq<Option<NValue>>, i: nat, n: nat): (out: seq<Option<NValue>>)
    requires p.kind.PSet?
    decreases p, 2, n - i + 1
  {
    if i >= n then acc
    else SetElemReads(sc, fx, r, st, p, acc + [Some(SetElemAt(sc, fx, r, st, p, i))], i + 1, n)
  }

  /**
   * `MapToProp`: the map is emptied, then each wire entry adds a pair whose
   * key and value are read from readers on the entry's key and value.
   */
  function MapRead(sc: Schema, fx: Foreign, r: ProtoReader, st: Store, p: Prop, cur: NValue): NValue
    requires p.kind.PMap?
    decreases p, 1
  {
    if !IsMapField(r) then cur
    else NMap(PairReads(sc, fx, r.fd.entry, st, p, GetSubMap(r, st), [], 0))
  }

  /** The pair read from one wire entry: default key and value read through readers on the entry's key and value. */
  function PairAt(sc: Schema, fx: Foreign, entry: MapEntry, st: Store, p: Prop, kv: (Value, Value)): (NValue, NValue)
    requires p.kind.PMap? && entry.MapOf?
    decreases p, 0, 0
  {
    (ReadFromPB(sc, fx, OnValue(kv.0, entry.key), st, p.kind.key, [Default(p.kind.key)])[0],
     ReadFromPB(sc, fx, OnValue(kv.1, entry.val), st, p.kind.val, [Default(p.kind.val)])[0])
  }

  function PairReads(sc: Schema, fx: Foreign, entry: MapEntry, st: Store, p: Prop, es: Entries, acc: seq<Option<(NValue, NValue)>>, i: nat): seq<Option<(NValue, NValue)>>
    requires p.kind.PMap? && entry.MapOf?
    decreases p, 0, |es| - i + 1
  {
    if i >= |es| then acc
    else PairReads(sc, fx, entry, st, p, es, acc + [Some(PairAt(sc, fx, entry, st, p, es[i]))], i + 1)
  }

  /**
   * `MessageToStruct`: for a message field, a one-of holder receives a
   * clone of the sub-message with flags 0; any other struct is read field
   * by field from the sub-message.
   */
  function MessageToStruct(sc: Schema, fx: Foreign, r: ProtoReader, st: Store, def: StructDef, cur: NValue): NValue
    decreases def, 9
  {
    if !IsMessage(r) then cur
    else
      var h := GetSubMessage(r, st);
      if def.isOneOf then NOneOf(Some(OneOfBox(ProtoReader(r.fd, VMsg(h)), st, 0)))
      else FieldsToProps(sc, fx, SubDef(sc, r.fd).fields, h, st, def, cur, 0)
  }

  /**
   * `FieldToProp(MsgDef, ...)` from field `j` on: each field of the message
   * definition is read into the struct property of the same name, if any.
   */
  function FieldsToProps(sc: Schema, fx: Foreign, fields: seq<FieldDef>, h: Handle, st: Store, def: StructDef, cur: NValue, j: nat): NValue
    decreases def, 8, |fields| - j + 1
  {
    if j >= |fields| then cur
    else FieldsToProps(sc, fx, fields, h, st, def, FieldRead(sc, fx, fields[j], h, st, def, cur), j + 1)
  }

  /** The struct property named like field `f`, if any, read from that field of the message at `h`. */
  function FieldRead(sc: Schema, fx: Foreign, f: FieldDef, h: Handle, st: Store, def: StructDef, cur: NValue): NValue
    decreases def, 8, 0
  {
    match FindProp(def.props, f.name)
    case None => cur
    case Some(k) =>
      var q := def.props[k];
      WithField(cur, k, ReadFromPB(sc, fx, OnMessage(h, f), st, q, FieldSlots(cur, q, k)))
  }
}
