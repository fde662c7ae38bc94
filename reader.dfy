/**
 * `FProtoReader`: a field descriptor bound to a tagged value. When the value
 * is a message handle the reader addresses field `fd` of that message (or,
 * when `fd.arrayIdx >= 0`, one element of it); otherwise it holds a loose
 * scalar such as a decoded map key. Every accessor is type-checked against
 * the descriptor's C type and reads through the arena contents `st`.
 */
module Reader {
  import opened Kinds
  import opened Store

  datatype ProtoReader = ProtoReader(fd: FieldDef, var_: Value)

  /** `FProtoReader(const upb_Message*, FFieldDefPtr)`. */
  function OnMessage(h: Handle, fd: FieldDef): ProtoReader { ProtoReader(fd, VMsg(h)) }

  /** `FProtoReader(upb_MessageValue, FFieldDefPtr)`. */
  function OnValue(mv: Value, fd: FieldDef): ProtoReader { ProtoReader(fd, AsVariant(mv, fd)) }

  predicate IsContainer(r: ProtoReader) { r.var_.VMsg? || r.var_.VMap? || r.var_.VArr? }

  /** `GetMsg`: the held message; any other alternative is modelled as a null message. */
  function GetMsg(r: ProtoReader): Handle { if r.var_.VMsg? then r.var_.msg else Null }

  predicate IsEnum(r: ProtoReader) { r.fd.ctype == CEnum }
  predicate IsBool(r: ProtoReader) { r.fd.ctype == CBool }
  predicate IsFloat(r: ProtoReader) { r.fd.ctype == CFloat }
  predicate IsDouble(r: ProtoReader) { r.fd.ctype == CDouble }
  predicate IsInt(r: ProtoReader) { r.fd.ctype == CInt32 }
  predicate IsUint(r: ProtoReader) { r.fd.ctype == CUInt32 }
  predicate IsInt64(r: ProtoReader) { r.fd.ctype == CInt64 }
  predicate IsUint64(r: ProtoReader) { r.fd.ctype == CUInt64 }
  predicate IsBytes(r: ProtoReader) { r.fd.ctype == CBytes }
  predicate IsStr(r: ProtoReader) { r.fd.ctype == CString }
  predicate IsArray(r: ProtoReader) { r.fd.repeated }
  predicate IsMessage(r: ProtoReader) { IsSubMessage(r.fd) }
  predicate IsMapField(r: ProtoReader) { IsMap(r.fd) }

  predicate IsNumber(r: ProtoReader)
  {
    IsBool(r) || IsFloat(r) || IsDouble(r) || IsInt(r) || IsUint(r) || IsInt64(r) || IsUint64(r) || IsEnum(r)
  }

  /** `ArraySize`: the size of the field's array in the held message; 0 for a non-repeated field or an absent array. */
  function ArraySize(r: ProtoReader, st: Store): nat
  {
    if IsArray(r) then |ArrayOf(st, GetMsg(r), r.fd.number)| else 0
  }

  /** `FieldDef.GetElementDef(i)`: the same field bound to element `i`. */
  function ElementDef(fd: FieldDef, i: nat): FieldDef { fd.(arrayIdx := i) }

  /** `ArrayElm(i)`: a reader on element `i` of the same message's field. */
  function ArrayElm(r: ProtoReader, i: nat): (e: ProtoReader)
    ensures e.fd.arrayIdx == i && e.fd.number == r.fd.number && e.fd.ctype == r.fd.ctype
    ensures e.fd.repeated == r.fd.repeated && GetMsg(e) == GetMsg(r) && IsContainer(e)
  {
    ProtoReader(ElementDef(r.fd, i), VMsg(GetMsg(r)))
  }

  /** The value a T-typed out-parameter receives when the reader's check fails (`T Ret{}`/uninitialised): zero. */
  function Zero(a: Alt): Value
  {
    match a
    case ABool => VBool(false)
    case AFloat => VFloat(FpFromInt(0, true))
    case ADouble => VDouble(FpFromInt(0, false))
    case AInt32 | AEnum => VI32(0)
    case AUInt32 => VU32(0)
    case AInt64 => VI64(0)
    case AUInt64 => VU64(0)
    case AStr => VStr([])
  }

  /** The stored value of an unindexed scalar field, or the declared default when it is unset. */
  function StoredOrDefault(st: Store, h: Handle, fd: FieldDef): Value
  {
    match Field(st, h, fd.number)
    case Some(One(v)) => v
    case _ => fd.default
  }

  /**
   * `GetFieldNum<T>(Out)`: `None` when the C type is not compatible with `T`
   * or the element index is out of bounds (`Out` is left alone); otherwise
   * the stored value (or default) of the field, or the indexed element, read
   * as `T`.
   */
  function GetFieldNum(r: ProtoReader, st: Store, a: Alt): (o: Option<Value>)
    ensures o.Some? <==> EqualType(a, r.fd.ctype) && (r.fd.arrayIdx < 0 || r.fd.arrayIdx < ArraySize(r, st))
    ensures o.Some? && r.fd.arrayIdx >= 0 ==>
      o.value == ReadMember(ArrayOf(st, GetMsg(r), r.fd.number)[r.fd.arrayIdx], OwnType(a))
  {
    if !EqualType(a, r.fd.ctype) then None
    else if r.fd.arrayIdx < 0 then Some(ReadMember(StoredOrDefault(st, GetMsg(r), r.fd), OwnType(a)))
    else if r.fd.arrayIdx < ArraySize(r, st) then
      Some(ReadMember(ArrayOf(st, GetMsg(r), r.fd.number)[r.fd.arrayIdx], OwnType(a)))
    else None
  }

  /** `T GetFieldNum<T>()`: as above, with the uninitialised result modelled as zero. */
  function GetNum(r: ProtoReader, st: Store, a: Alt): Value
  {
    match GetFieldNum(r, st, a)
    case Some(v) => v
    case None => Zero(a)
  }

  /** `AsNumber`: the field read through the alternative its C type selects; enums read as int32; monostate otherwise. */
  function AsNumber(r: ProtoReader, st: Store): (v: Value)
    ensures IsEnum(r) ==> v == VI32(0)
    ensures !IsNumber(r) ==> v == Mono
    ensures IsNumber(r) && !IsEnum(r) ==> v == GetNum(r, st, OwnType2Alt(r.fd.ctype))
  {
    if IsBool(r) then GetNum(r, st, ABool)
    else if IsFloat(r) then GetNum(r, st, AFloat)
    else if IsDouble(r) then GetNum(r, st, ADouble)
    else if IsInt(r) then GetNum(r, st, AInt32)
    else if IsUint(r) then GetNum(r, st, AUInt32)
    else if IsInt64(r) then GetNum(r, st, AInt64)
    else if IsUint64(r) then GetNum(r, st, AUInt64)
    else if IsEnum(r) then GetNum(r, st, AInt32)
    else Mono
  }

  /**
   * `GetFieldStr<T>()`: for a string field, the stored string (or the
   * default), or the indexed element when it is in bounds; an empty view in
   * every other case, including bytes fields.
   */
  function GetFieldStr(r: ProtoReader, st: Store): (s: seq<Byte>)
    ensures !IsStr(r) ==> s == []
    ensures IsStr(r) && r.fd.arrayIdx < 0 ==> s == StrMember(StoredOrDefault(st, GetMsg(r), r.fd))
    ensures IsStr(r) && 0 <= r.fd.arrayIdx < ArraySize(r, st) ==> s == StrMember(ArrayOf(st, GetMsg(r), r.fd.number)[r.fd.arrayIdx])
    ensures IsStr(r) && r.fd.arrayIdx >= ArraySize(r, st) ==> s == []
  {
    if !IsStr(r) then []
    else if r.fd.arrayIdx < 0 then StrMember(StoredOrDefault(st, GetMsg(r), r.fd))
    else if r.fd.arrayIdx < ArraySize(r, st) then
      var arr := ArrayOf(st, GetMsg(r), r.fd.number);
      if r.fd.arrayIdx < |arr| then StrMember(arr[r.fd.arrayIdx]) else []
    else []
  }

  /** `GetFieldBytes`: guarded by `IsString()` like `GetFieldStr`, so a bytes-typed field reads as empty. */
  function GetFieldBytes(r: ProtoReader, st: Store): (s: seq<Byte>)
    ensures IsBytes(r) ==> s == []
    ensures s == GetFieldStr(r, st)
  {
    if !IsStr(r) then []
    else if r.fd.arrayIdx < 0 then StrMember(StoredOrDefault(st, GetMsg(r), r.fd))
    else if r.fd.arrayIdx < ArraySize(r, st) then
      var arr := ArrayOf(st, GetMsg(r), r.fd.number);
      if r.fd.arrayIdx < |arr| then StrMember(arr[r.fd.arrayIdx]) else []
    else []
  }

  /** `GetSubMessage`: the sub-message of a message field (null when unset), or the indexed element's message. */
  function GetSubMessage(r: ProtoReader, st: Store): (h: Handle)
    ensures !IsMessage(r) ==> h == Null
    ensures IsMessage(r) && r.fd.arrayIdx < 0 ==> h == MsgMember(StoredOrDefault(st, GetMsg(r), r.fd))
    ensures IsMessage(r) && 0 <= r.fd.arrayIdx < ArraySize(r, st) ==> h == MsgMember(ArrayOf(st, GetMsg(r), r.fd.number)[r.fd.arrayIdx])
    ensures IsMessage(r) && r.fd.arrayIdx >= ArraySize(r, st) ==> h == Null
  {
    if !IsMessage(r) then Null
    else if r.fd.arrayIdx < 0 then MsgMember(StoredOrDefault(st, GetMsg(r), r.fd))
    else if r.fd.arrayIdx < ArraySize(r, st) then MsgMember(ArrayOf(st, GetMsg(r), r.fd.number)[r.fd.arrayIdx])
    else Null
  }

  /** `GetSubMap`: the entries of the map field in the held message. */
  function GetSubMap(r: ProtoReader, st: Store): Entries
  {
    TableOf(st, GetMsg(r), r.fd.number)
  }

  /** `TValueType<StringView, const FProtoReader*>`: a leaf scalar (or monostate) or the reader itself. */
  datatype Dispatched = Leaf(v: Value) | Recurse(reader: ProtoReader)

  /**
   * `DispatchFieldValue`: a reader over a message recurses when it is not
   * bound to an element; an element reader yields its element by C type
   * (strings as a view, enums through the int32 path, message and bytes
   * elements as monostate); a loose value yields itself.
   */
  function DispatchFieldValue(r: ProtoReader, st: Store): (d: Dispatched)
    ensures d.Recurse? <==> IsContainer(r) && r.fd.arrayIdx < 0
    ensures d.Recurse? ==> d.reader == r
    ensures !IsContainer(r) ==> d == Leaf(r.var_)
    ensures IsContainer(r) && r.fd.arrayIdx >= 0 && (r.fd.ctype == CMessage || r.fd.ctype == CBytes) ==> d == Leaf(Mono)
    ensures IsContainer(r) && r.fd.arrayIdx >= 0 && r.fd.ctype == CEnum ==> d == Leaf(VI32(0))
    ensures IsContainer(r) && 0 <= r.fd.arrayIdx < ArraySize(r, st) && IsPrimitive(r.fd) && r.fd.ctype != CEnum ==>
      d == Leaf(ReadMember(ArrayOf(st, GetMsg(r), r.fd.number)[r.fd.arrayIdx], r.fd.ctype))
  {
    if IsContainer(r) then
      if r.fd.arrayIdx < 0 then Recurse(r)
      else if IsStr(r) then Leaf(VStr(GetFieldStr(r, st)))
      else if IsBool(r) then Leaf(GetNum(r, st, ABool))
      else if IsFloat(r) then Leaf(GetNum(r, st, AFloat))
      else if IsDouble(r) then Leaf(GetNum(r, st, ADouble))
      else if IsInt(r) then Leaf(GetNum(r, st, AInt32))
      else if IsUint(r) then Leaf(GetNum(r, st, AUInt32))
      else if IsInt64(r) then Leaf(GetNum(r, st, AInt64))
      else if IsUint64(r) then Leaf(GetNum(r, st, AUInt64))
      else if IsEnum(r) then Leaf(GetNum(r, st, AInt32))
      else Leaf(Mono)
    else
      Leaf(r.var_)
  }
}
