/**
 * The entry points: a struct to wire bytes (`UStructToProtoImpl`), wire
 * bytes into a struct (`UStructFromProtoImpl`), and the one-of holder's
 * accessors (`AsValueImpl`, `IterateKeyValueImpl`). The pool lookup is
 * `GmpDefPool.FindMessageByStruct`; the codec is the foreign `encode` and
 * `decode`; a fresh arena holds only the root message.
 */
module Serializer {
  import opened Kinds
  import opened Store
  import opened Reader
  import opened Writer
  import opened Upb
  import opened Native
  import opened DefPools
  import V = Visit
  import Visitors

  /** The handle of the first message allocated in a fresh arena. */
  const Root: Handle := At(0)

  /** The arena contents after the root message is filled from the struct. */
  function Filled(sc: Schema, fx: Foreign, md: MessageDef, def: StructDef, v: NValue): Store
  {
    V.PropsToFields(sc, fx, md.fields, Root, [map[]], def, v, 0)
  }

  /**
   * What `UStructToProtoImpl` returns and writes to its buffer: false and no
   * bytes when the struct has no message definition or the encoder fails;
   * otherwise true and the encoding of the filled message. Fields without
   * a property of the same name, and writes the setters refuse, do not
   * make it fail.
   */
  function ToProto(sc: Schema, fx: Foreign, md: Option<MessageDef>, def: StructDef, v: NValue): (r: (bool, seq<Byte>))
    ensures md.None? ==> r == (false, [])
    ensures md.Some? ==> (r.0 <==> fx.encode(Filled(sc, fx, md.value, def, v), Root, md.value).Some?)
    ensures md.Some? && r.0 ==> r.1 == fx.encode(Filled(sc, fx, md.value, def, v), Root, md.value).value
    ensures !r.0 ==> r.1 == []
  {
    match md
    case None => (false, [])
    case Some(m) =>
      match fx.encode(Filled(sc, fx, m, def, v), Root, m)
      case None => (false, [])
      case Some(b) => (true, b)
  }

  /**
   * What `UStructFromProtoImpl` returns and leaves in the struct: without a
   * message definition or when the decoder fails, false and the struct as
   * it was; otherwise the struct is read field by field from the decoded
   * message, and the result is still false, because the count of fields
   * read that decides it is never incremented.
   */
  function FromProto(sc: Schema, fx: Foreign, md: Option<MessageDef>, def: StructDef, bytes: seq<Byte>, cur: NValue): (r: (bool, NValue))
    ensures !r.0
    ensures md.None? ==> r.1 == cur
    ensures md.Some? && fx.decode(bytes, md.value, [map[]], Root).None? ==> r.1 == cur
    ensures md.Some? && fx.decode(bytes, md.value, [map[]], Root).Some? ==>
      r.1 == V.FieldsToProps(sc, fx, md.value.fields, Root, fx.decode(bytes, md.value, [map[]], Root).value, def, cur, 0)
  {
    match md
    case None => (false, cur)
    case Some(m) =>
      match fx.decode(bytes, m, [map[]], Root)
      case None => (false, cur)
      case Some(st) => (false, V.FieldsToProps(sc, fx, m.fields, Root, st, def, cur, 0))
  }

  /** `UStructToProtoImpl(TArray<uint8>&, ...)`. */
  method UStructToProtoImpl(sc: Schema, fx: Foreign, pool: GmpDefPool, def: StructDef, v: NValue) returns (ok: bool, out: seq<Byte>)
    ensures (ok, out) == ToProto(sc, fx, pool.FindMessageByStruct(StructRef(def.name, def.protoFullName)), def, v)
  {
    var md := pool.FindMessageByStruct(StructRef(def.name, def.protoFullName));
    if md.None? {
      return false, [];
    }
    var arena := new Arena([]);
    var h := arena.NewMessage();
    Visitors.PropToField(sc, fx, md.value.fields, h, arena, def, v);
    var enc := fx.encode(arena.st, h, md.value);
    if enc.None? {
      return false, [];
    }
    return true, enc.value;
  }

  /** `UStructFromProtoImpl(TArrayView<const uint8>, ...)`: the result and the struct's new value. */
  method UStructFromProtoImpl(sc: Schema, fx: Foreign, pool: GmpDefPool, def: StructDef, bytes: seq<Byte>, cur: NValue) returns (ok: bool, out: NValue)
    ensures (ok, out) == FromProto(sc, fx, pool.FindMessageByStruct(StructRef(def.name, def.protoFullName)), def, bytes, cur)
  {
    var md := pool.FindMessageByStruct(StructRef(def.name, def.protoFullName));
    if md.None? {
      return false, cur;
    }
    var arena := new Arena([]);
    var h := arena.NewMessage();
    var dec := fx.decode(bytes, md.value, arena.st, h);
    if dec.None? {
      return false, cur;
    }
    out := Visitors.FieldToProp(sc, fx, md.value.fields, h, dec.value, def, cur);
    // The result is whether the count of fields read is non-zero, and no visitor increments it.
    ok := false;
  }

  /**
   * `AsValueImpl`: a valid holder with flags 0 read into a struct property
   * runs the struct visitor's read with the holder's reader; anything else
   * returns false and leaves the output alone. The holder's reader is bound
   * to the cloned sub-message itself, so the visitor reads the field's
   * number inside it.
   */
  function AsValueImpl(sc: Schema, fx: Foreign, holder: NValue, p: Prop, cur: NValue): (r: (bool, NValue))
    ensures r.0 <==> holder.NOneOf? && holder.box.Some? && holder.box.value.flags == 0 && p.kind.PStruct?
    ensures !r.0 ==> r.1 == cur
    ensures r.0 ==>
      var b := holder.box.value;
      r.1 == V.MessageToStruct(sc, fx, b.reader, b.st, p.kind.def, cur)
  {
    if !(holder.NOneOf? && holder.box.Some?) then (false, cur)
    else
      var b := holder.box.value;
      if b.flags == 0 && p.kind.PStruct? then (true, V.MessageToStruct(sc, fx, b.reader, b.st, p.kind.def, cur))
      else (false, cur)
  }

  /**
   * `IterateKeyValueImpl`: always returns `INDEX_NONE` and never sets the
   * key. A valid holder with flags 0 whose field's message type has a field
   * numbered `idx` reads that field, from the sub-message of the holder's
   * reader, into the output holder; otherwise the output is left alone.
   */
  function IterateKeyValueImpl(sc: Schema, fx: Foreign, oneOf: StructDef, holder: NValue, idx: int, key: string, out: NValue): (r: (int, string, NValue))
    ensures r.0 == -1 && r.1 == key
    ensures !(holder.NOneOf? && holder.box.Some? && holder.box.value.flags == 0) ==> r.2 == out
    ensures holder.NOneOf? && holder.box.Some? && holder.box.value.flags == 0 ==>
      var b := holder.box.value;
      match FindFieldByNumber(SubDef(sc, b.reader.fd).fields, idx)
      case None => r.2 == out
      case Some(f) =>
        r.2 == V.ReadFromPB(sc, fx, OnMessage(GetSubMessage(b.reader, b.st), f), b.st, OneOfProp(oneOf), [out])[0]
  {
    if !(holder.NOneOf? && holder.box.Some? && holder.box.value.flags == 0) then (-1, key, out)
    else
      var b := holder.box.value;
      match FindFieldByNumber(SubDef(sc, b.reader.fd).fields, idx)
      case None => (-1, key, out)
      case Some(f) =>
        (-1, key, V.ReadFromPB(sc, fx, OnMessage(GetSubMessage(b.reader, b.st), f), b.st, OneOfProp(oneOf), [out])[0])
  }

  /** `TClass2Prop<FGMPValueOneOf>::GetProperty()`: a single struct property of the holder's type. */
  function OneOfProp(oneOf: StructDef): Prop
  {
    Prop("", 1, PStruct(oneOf))
  }
}
