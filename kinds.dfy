/**
 * The wire-side vocabulary of the serializer: upb's C types, field
 * descriptors, the tagged value `FMessageVariant`, the compatibility table
 * `TBaseFieldInfo<T>` and the two conversions between a raw
 * `upb_MessageValue` and the tagged value (`AsVariant`, `FromVariant`).
 */
module Kinds {

  datatype Option<+T> = None | Some(value: T)

  type Byte = b: int | 0 <= b < 0x100
  type I32 = x: int | -0x8000_0000 <= x < 0x8000_0000
  type U32 = x: int | 0 <= x < 0x1_0000_0000
  type I64 = x: int | -0x8000_0000_0000_0000 <= x < 0x8000_0000_0000_0000
  type U64 = x: int | 0 <= x < 0x1_0000_0000_0000_0000

  const TWO32: int := 0x1_0000_0000
  const TWO64: int := 0x1_0000_0000_0000_0000

  /** `(uint32)x`: the low 32 bits of `x`. */
  function ToU32(x: int): (r: U32)
    ensures 0 <= x < TWO32 ==> r == x
  {
    x % TWO32
  }

  /** `(int32)x`: the low 32 bits of `x`, read as two's complement. */
  function ToI32(x: int): (r: I32)
    ensures ToU32(r) == ToU32(x)
    ensures -0x8000_0000 <= x < 0x8000_0000 ==> r == x
  {
    var m := x % TWO32;
    if m < 0x8000_0000 then m else m - TWO32
  }

  /** `(uint64)x`. */
  function ToU64(x: int): (r: U64)
    ensures 0 <= x < TWO64 ==> r == x
  {
    x % TWO64
  }

  /** `(int64)x`. */
  function ToI64(x: int): (r: I64)
    ensures ToU64(r) == ToU64(x)
    ensures -0x8000_0000_0000_0000 <= x < 0x8000_0000_0000_0000 ==> r == x
  {
    var m := x % TWO64;
    if m < 0x8000_0000_0000_0000 then m else m - TWO64
  }

  /**
   * Floating-point values are opaque: a literal token, the conversion of an
   * integer, or the rounding of another value to single (`single`) or double
   * precision.
   */
  datatype Fp = FpTok(id: nat) | FpFromInt(n: int, single: bool) | FpRound(x: Fp, single: bool)

  /** `upb_CType`. */
  datatype CType =
    | CBool | CFloat | CInt32 | CUInt32 | CEnum | CMessage
    | CDouble | CInt64 | CUInt64 | CString | CBytes

  /** A pointer into an arena: null or the index of a message. */
  datatype Handle = Null | At(index: nat)

  /**
   * A field descriptor (`FFieldDefPtr`): name, number, C type, repeated
   * label, map entry, declared default, the element index the descriptor is
   * bound to (negative for the field itself) and, for message-typed fields,
   * the full name of the sub-message type.
   */
  datatype FieldDef = FieldDef(
    name: string,
    number: int,
    ctype: CType,
    repeated: bool,
    entry: MapEntry,
    default: Value,
    arrayIdx: int,
    subType: string)

  /** The key and value descriptors of a map field's entry message. */
  datatype MapEntry = NotMap | MapOf(key: FieldDef, val: FieldDef)

  /**
   * `FMessageVariant`: monostate, the seven numeric alternatives, a string
   * view, and message, array and map handles. An array or map handle names
   * the message and field number that own it.
   */
  datatype Value =
    | Mono
    | VBool(b: bool)
    | VI32(i: I32)
    | VU32(u: U32)
    | VI64(l: I64)
    | VU64(ul: U64)
    | VFloat(f: Fp)
    | VDouble(d: Fp)
    | VStr(s: seq<Byte>)
    | VMsg(msg: Handle)
    | VArr(arrOwner: Handle, arrField: int)
    | VMap(mapOwner: Handle, mapField: int)
  {
    predicate IsScalar() { !Mono? && !VMsg? && !VArr? && !VMap? }
  }

  predicate IsSubMessage(fd: FieldDef) { fd.ctype == CMessage }
  predicate IsMap(fd: FieldDef) { fd.entry.MapOf? }
  predicate IsString(fd: FieldDef) { fd.ctype == CString || fd.ctype == CBytes }

  /** upb's notion of a primitive field: neither string/bytes nor a message. */
  predicate IsPrimitive(fd: FieldDef) { !IsString(fd) && !IsSubMessage(fd) }

  /** The C++ types for which `TBaseFieldInfo<T>` has `EqualType`. */
  datatype Alt = ABool | AFloat | ADouble | AInt32 | AUInt32 | AInt64 | AUInt64 | AEnum | AStr

  /** The scalar alternative a tagged value holds, if any. */
  function AltOf(v: Value): (r: Option<Alt>)
    ensures r.Some? <==> v.IsScalar()
  {
    match v
    case VBool(_) => Some(ABool)
    case VFloat(_) => Some(AFloat)
    case VDouble(_) => Some(ADouble)
    case VI32(_) => Some(AInt32)
    case VU32(_) => Some(AUInt32)
    case VI64(_) => Some(AInt64)
    case VU64(_) => Some(AUInt64)
    case VStr(_) => Some(AStr)
    case _ => None
  }

  /** `TBaseFieldInfo<T>::CType`. */
  function OwnType(a: Alt): CType
  {
    match a
    case ABool => CBool
    case AFloat => CFloat
    case ADouble => CDouble
    case AInt32 => CInt32
    case AUInt32 => CUInt32
    case AInt64 => CInt64
    case AUInt64 => CUInt64
    case AEnum => CEnum
    case AStr => CString
  }

  /** `TBaseFieldInfo<T>::CompactType`. */
  function CompactType(a: Alt): CType
  {
    match a
    case ABool => CBool
    case AFloat => CFloat
    case ADouble => CDouble
    case AInt32 => CUInt32
    case AUInt32 => CInt32
    case AInt64 => CUInt64
    case AUInt64 => CInt64
    case AEnum => CInt32
    case AStr => CBytes
  }

  /** How a C type is laid out in a `upb_MessageValue`: width in bytes and whether it is floating point. */
  datatype Layout = Layout(width: nat, floating: bool)

  function CLayout(c: CType): Layout
  {
    match c
    case CBool => Layout(1, false)
    case CFloat => Layout(4, true)
    case CInt32 | CUInt32 | CEnum => Layout(4, false)
    case CDouble => Layout(8, true)
    case CInt64 | CUInt64 => Layout(8, false)
    case CString | CBytes => Layout(16, false)
    case CMessage => Layout(8, false)
  }

  function AltLayout(a: Alt): Layout
  {
    match a
    case ABool => Layout(1, false)
    case AFloat => Layout(4, true)
    case AInt32 | AUInt32 | AEnum => Layout(4, false)
    case ADouble => Layout(8, true)
    case AInt64 | AUInt64 => Layout(8, false)
    case AStr => Layout(16, false)
  }

  /**
   * `TBaseFieldInfo<T>::EqualType`: a C type is compatible with `T` when it
   * is `T`'s own type or its compact partner. Every compatible C type shares
   * `T`'s layout, so reading one through the other only reinterprets bits;
   * bool, float and double accept only themselves.
   */
  function EqualType(a: Alt, c: CType): (r: bool)
    ensures c == OwnType(a) ==> r
    ensures r ==> CLayout(c) == AltLayout(a)
    ensures r && (a == ABool || a == AFloat || a == ADouble) ==> c == OwnType(a)
  {
    c == OwnType(a) || c == CompactType(a)
  }

  /** The exact C types each `TBaseFieldInfo<T>::EqualType` accepts. */
  lemma EqualTypeTable(c: CType)
    ensures EqualType(ABool, c) <==> c == CBool
    ensures EqualType(AFloat, c) <==> c == CFloat
    ensures EqualType(ADouble, c) <==> c == CDouble
    ensures EqualType(AInt32, c) <==> c == CInt32 || c == CUInt32
    ensures EqualType(AUInt32, c) <==> c == CUInt32 || c == CInt32
    ensures EqualType(AInt64, c) <==> c == CInt64 || c == CUInt64
    ensures EqualType(AUInt64, c) <==> c == CUInt64 || c == CInt64
    ensures EqualType(AEnum, c) <==> c == CEnum || c == CInt32
    ensures EqualType(AStr, c) <==> c == CString || c == CBytes
    ensures !EqualType(AInt32, CEnum) && !EqualType(AUInt32, CEnum)
  {
  }

  /**
   * `TBaseFieldInfo<T>::EqualField` for the alternative held by `v`. Scalar
   * alternatives also demand upb's `IsPrimitive`, which excludes string and
   * bytes fields, so a string view never matches a field.
   */
  function EqualField(v: Value, fd: FieldDef): (r: bool)
    ensures v.Mono? ==> !r
    ensures v.VStr? ==> !r
    ensures r && v.IsScalar() ==> IsPrimitive(fd) && CLayout(fd.ctype) == AltLayout(AltOf(v).value)
    ensures v.IsScalar() && !v.VStr? && IsPrimitive(fd) && fd.ctype == OwnType(AltOf(v).value) ==> r
    ensures v.VMsg? ==> (r <==> IsSubMessage(fd))
    ensures v.VMap? ==> (r <==> IsMap(fd))
    ensures v.VArr? ==> (r <==> fd.repeated)
  {
    match v
    case VMsg(_) => IsSubMessage(fd)
    case VMap(_, _) => IsMap(fd)
    case VArr(_, _) => fd.repeated
    case Mono => false
    case _ => IsPrimitive(fd) && EqualType(AltOf(v).value, fd.ctype)
  }

  // ---------------------------------------------------------------------
  // upb_MessageValue: a C union. It is modelled by the member last written
  // (a Value); reading another member of the same width reinterprets the
  // bits, reading an unrelated member yields a zero value.

  function BoolMember(mv: Value): bool { if mv.VBool? then mv.b else false }
  function FloatMember(mv: Value): Fp { if mv.VFloat? then mv.f else FpFromInt(0, true) }
  function DoubleMember(mv: Value): Fp { if mv.VDouble? then mv.d else FpFromInt(0, false) }

  function Int32Member(mv: Value): I32
  {
    match mv
    case VI32(i) => i
    case VU32(u) => ToI32(u)
    case _ => 0
  }

  function UInt32Member(mv: Value): U32
  {
    match mv
    case VU32(u) => u
    case VI32(i) => ToU32(i)
    case _ => 0
  }

  function Int64Member(mv: Value): I64
  {
    match mv
    case VI64(l) => l
    case VU64(ul) => ToI64(ul)
    case _ => 0
  }

  function UInt64Member(mv: Value): U64
  {
    match mv
    case VU64(ul) => ul
    case VI64(l) => ToU64(l)
    case _ => 0
  }

  function StrMember(mv: Value): seq<Byte> { if mv.VStr? then mv.s else [] }
  function MsgMember(mv: Value): Handle { if mv.VMsg? then mv.msg else Null }
  function ArrMember(mv: Value): Value { if mv.VArr? then mv else VArr(Null, 0) }
  function MapMember(mv: Value): Value { if mv.VMap? then mv else VMap(Null, 0) }

  /** The member of a union that a C type selects, as a tagged value (the `switch` of `AsVariant`). */
  function ReadMember(mv: Value, c: CType): Value
  {
    match c
    case CBool => VBool(BoolMember(mv))
    case CFloat => VFloat(FloatMember(mv))
    case CEnum | CInt32 => VI32(Int32Member(mv))
    case CUInt32 => VU32(UInt32Member(mv))
    case CDouble => VDouble(DoubleMember(mv))
    case CInt64 => VI64(Int64Member(mv))
    case CUInt64 => VU64(UInt64Member(mv))
    case CString | CBytes => VStr(StrMember(mv))
    case CMessage => VMsg(MsgMember(mv))
  }

  /**
   * `AsVariant`: a map handle for a map field, otherwise an array handle for
   * a repeated field, otherwise the member selected by the C type (enums
   * read as int32, string and bytes as a string view, messages as a message
   * handle).
   */
  function AsVariant(mv: Value, fd: FieldDef): (r: Value)
    ensures IsMap(fd) ==> r.VMap?
    ensures !IsMap(fd) && fd.repeated ==> r.VArr?
    ensures !IsMap(fd) && !fd.repeated ==>
      (match fd.ctype
       case CBool => r.VBool?
       case CFloat => r.VFloat?
       case CDouble => r.VDouble?
       case CEnum | CInt32 => r.VI32?
       case CUInt32 => r.VU32?
       case CInt64 => r.VI64?
       case CUInt64 => r.VU64?
       case CString | CBytes => r.VStr?
       case CMessage => r.VMsg?)
    ensures mv.IsScalar() && !IsMap(fd) && !fd.repeated && fd.ctype != CMessage && AltOf(mv) == Some(OwnType2Alt(fd.ctype)) ==> r == mv
  {
    if IsMap(fd) then MapMember(mv)
    else if fd.repeated then ArrMember(mv)
    else ReadMember(mv, fd.ctype)
  }

  /** The alternative `AsVariant` produces for a scalar C type. */
  function OwnType2Alt(c: CType): Alt
  {
    match c
    case CBool => ABool
    case CFloat => AFloat
    case CDouble => ADouble
    case CEnum | CInt32 => AInt32
    case CUInt32 => AUInt32
    case CInt64 => AInt64
    case CUInt64 => AUInt64
    case _ => AStr
  }

  /**
   * `FromVariant`: stores the alternative held by `v` into the union `out`
   * and reports whether that alternative satisfies `EqualField`; monostate
   * and a message handle leave `out` untouched and report false.
   */
  function FromVariant(out: Value, fd: FieldDef, v: Value): (r: (Value, bool))
    ensures v.Mono? || v.VMsg? ==> r == (out, false)
    ensures r.1 <==> !v.VMsg? && EqualField(v, fd)
    ensures r.1 ==> r.0 == v
  {
    match v
    case Mono => (out, false)
    case VMsg(_) => (out, false)
    case _ => (v, EqualField(v, fd))
  }

  /** Two tagged values carry the same bits: equal, or integers of one width with equal low bits. */
  predicate SameBits(x: Value, y: Value)
  {
    x == y
    || (x.VI32? && y.VU32? && ToU32(x.i) == y.u)
    || (x.VU32? && y.VI32? && x.u == ToU32(y.i))
    || (x.VI64? && y.VU64? && ToU64(x.l) == y.ul)
    || (x.VU64? && y.VI64? && x.ul == ToU64(y.l))
  }

  /**
   * What `FromVariant` accepts, `AsVariant` reads back with the same bits:
   * an accepted scalar stored into the union and read through the field's
   * own C type yields the value or its same-width reinterpretation.
   */
  lemma FromVariantThenAsVariant(out: Value, fd: FieldDef, v: Value)
    requires FromVariant(out, fd, v).1
    requires !IsMap(fd) && !fd.repeated
    ensures SameBits(AsVariant(FromVariant(out, fd, v).0, fd), v)
  {
    var mv := FromVariant(out, fd, v).0;
    assert mv == v;
    match v
    case VI32(i) =>
      if fd.ctype == CUInt32 { assert AsVariant(mv, fd) == VU32(ToU32(i)); }
    case VU32(u) =>
      if fd.ctype == CInt32 { assert ToU32(ToI32(u)) == u; }
    case VI64(l) =>
      if fd.ctype == CUInt64 { assert AsVariant(mv, fd) == VU64(ToU64(l)); }
    case VU64(ul) =>
      if fd.ctype == CInt64 { assert ToU64(ToI64(ul)) == ul; }
    case _ =>
  }

  /**
   * The converse direction: whatever `AsVariant` reads out of a scalar,
   * non-repeated field is accepted again by `FromVariant` exactly when the
   * field is primitive and not an enum. Enum fields read as int32, and the
   * int32 alternative is not compatible with the enum C type; string and
   * bytes fields are never primitive.
   */
  lemma AsVariantThenFromVariant(out: Value, mv: Value, fd: FieldDef)
    requires !IsMap(fd) && !fd.repeated && fd.ctype != CMessage
    ensures FromVariant(out, fd, AsVariant(mv, fd)).1 <==> IsPrimitive(fd) && fd.ctype != CEnum
  {
    var v := AsVariant(mv, fd);
    assert AltOf(v) == Some(OwnType2Alt(fd.ctype));
    if fd.ctype == CEnum {
      assert !EqualType(AInt32, CEnum);
    }
  }
}
