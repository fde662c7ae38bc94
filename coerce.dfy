/**
 * The scalar visitors (`TValueVisitor<P>` for the leaf property classes):
 * what a property's value becomes on the wire, and what a dispatched wire
 * value does to a property. Container and struct visitors are in `Visit`.
 */
module Coerce {
  import opened Kinds
  import opened Native

  /** What a leaf visitor asks of the writer: `SetFieldNum`, `SetFieldStr`, or nothing. */
  datatype LeafArg = ArgNum(v: Value) | ArgText(s: seq<Byte>) | ArgNone

  /** Properties served by a scalar visitor (or by none). */
  predicate IsLeaf(k: PropKind) { !k.PStruct? && !k.PArray? && !k.PSet? && !k.PMap? }

  /** The integer a native value holds (a bool as 0 or 1); other shapes read as 0. */
  function IntOf(v: NValue): int
  {
    match v
    case NInt(i) => i
    case NBool(b) => if b then 1 else 0
    case _ => 0
  }

  function FpOf(v: NValue, single: bool): Fp { if v.NFp? then v.f else FpFromInt(0, single) }

  function TextOf(v: NValue): string { if v.NText? then v.s else [] }

  /**
   * The value `TNumericValueVisitor<P>` writes: integer types narrower than
   * 32 bits are widened to int32, every other type is written as itself.
   */
  function NumericArg(nk: NumKind, v: NValue): (a: Value)
    ensures nk.Int? && Narrow(nk.ik) && InRange(nk.ik, IntOf(v)) ==> a == VI32(IntOf(v))
  {
    match nk
    case Float => VFloat(FpOf(v, true))
    case Double => VDouble(FpOf(v, false))
    case Int(ik) =>
      match ik
      case I64 => VI64(ToI64(IntOf(v)))
      case U32 => VU32(ToU32(IntOf(v)))
      case U64 => VU64(ToU64(IntOf(v)))
      case _ => VI32(ToI32(IntOf(v)))
  }

  /**
   * The value the `FNumericProperty` visitor writes: an enum-carrying
   * integer as int32, float and double as themselves, uint64, int64, int32
   * and uint32 as their own types; any other numeric type is not written.
   */
  function GenericNumericArg(nk: NumKind, intEnum: Option<nat>, v: NValue): (a: LeafArg)
    ensures intEnum.Some? ==> a == ArgNum(VI32(ToI32(ToI64(IntOf(v)))))
    ensures intEnum.None? && nk.Int? && Narrow(nk.ik) ==> a == ArgNone
  {
    if intEnum.Some? then ArgNum(VI32(ToI32(ToI64(IntOf(v)))))
    else match nk
      case Float => ArgNum(VFloat(FpOf(v, true)))
      case Double => ArgNum(VDouble(FpOf(v, false)))
      case Int(ik) =>
        match ik
        case U64 => ArgNum(VU64(ToU64(IntOf(v))))
        case I64 => ArgNum(VI64(ToI64(IntOf(v))))
        case I32 => ArgNum(VI32(ToI32(ToI64(IntOf(v)))))
        case U32 => ArgNum(VU32(ToU32(ToU64(IntOf(v)))))
        case _ => ArgNone
  }

  /** `WriteVisit` of a scalar visitor: the setter call it makes. */
  function LeafWrite(fx: Foreign, k: PropKind, v: NValue): (a: LeafArg)
    requires IsLeaf(k)
    ensures a.ArgNum? ==> a.v.IsScalar() && !a.v.VStr?
    ensures k == PBool ==> a == ArgNum(VBool(v.NBool? && v.b))
    ensures k.PEnum? ==> a == ArgNum(VI32(ToI32(ToI64(IntOf(v)))))
    ensures k.PByte? ==> a == ArgNum(VI32(ToI32(IntOf(v))))
    ensures k == PStr || k == PName || k == PText ==> a == ArgText(fx.utf8(TextOf(v)))
    ensures k == POther ==> a == ArgNone
  {
    match k
    case PBool => ArgNum(VBool(v.NBool? && v.b))
    case PEnum(_, _) => ArgNum(VI32(ToI32(ToI64(IntOf(v)))))
    case PGenericNumeric(nk, e) => GenericNumericArg(nk, e, v)
    case PNumeric(nk) => ArgNum(NumericArg(nk, v))
    case PByte(_) => ArgNum(VI32(ToI32(IntOf(v))))
    case PStr | PName | PText => ArgText(fx.utf8(TextOf(v)))
    case PSoftObject => ArgText(fx.utf8(fx.objectPath(TextOf(v))))
    case POther => ArgNone
  }

  // ---------------------------------------------------------------------
  // Read side. A dispatched leaf is a `Value`: a string view (`VStr`),
  // monostate (`Mono`) or an arithmetic alternative.

  predicate Arith(x: Value) { x.IsScalar() && !x.VStr? }

  predicate IsFp(x: Value) { x.VFloat? || x.VDouble? }

  /** An integral arithmetic alternative (bool included) as an integer. */
  function IntVal(x: Value): int
  {
    match x
    case VBool(b) => if b then 1 else 0
    case VI32(i) => i
    case VU32(u) => u
    case VI64(l) => l
    case VU64(ul) => ul
    case _ => 0
  }

  function FpVal(x: Value): Fp
  {
    match x
    case VFloat(f) => f
    case VDouble(d) => d
    case _ => FpFromInt(0, false)
  }

  /** The implicit conversion of an arithmetic value to an integer type. */
  function IntCast(fx: Foreign, x: Value, ik: IntKind): (r: int)
    ensures InRange(ik, r)
    ensures !IsFp(x) && InRange(ik, IntVal(x)) ==> r == IntVal(x)
  {
    if IsFp(x) then Wrap(ik, fx.fpToInt(FpVal(x), ik)) else Wrap(ik, IntVal(x))
  }

  /** The conversion of an arithmetic value to float (`single`) or double; float to double is exact. */
  function FpCast(x: Value, single: bool): Fp
  {
    match x
    case VFloat(f) => f
    case VDouble(d) => if single then FpRound(d, true) else d
    case _ => FpFromInt(IntVal(x), single)
  }

  /** `Val != 0`. */
  function NonZero(fx: Foreign, x: Value): bool
  {
    if IsFp(x) then fx.fpNonZero(FpVal(x)) else IntVal(x) != 0
  }

  /** Text read into a numeric property (`LexFromString` / `SetNumericPropertyValueFromString`). */
  function LexNum(fx: Foreign, nk: NumKind, text: string): NValue
  {
    match nk
    case Int(ik) => NInt(Wrap(ik, fx.lexInt(ik, text)))
    case Float => NFp(fx.lexFp(true, text))
    case Double => NFp(fx.lexFp(false, text))
  }

  /** An arithmetic value stored through `SetIntPropertyValue(Value, (int64)Val)` or the floating setter. */
  function SetThroughInt64(fx: Foreign, nk: NumKind, x: Value): NValue
  {
    match nk
    case Int(ik) => NInt(Wrap(ik, IntCast(fx, x, I64)))
    case Float => NFp(FpCast(x, true))
    case Double => NFp(FpCast(x, false))
  }

  /**
   * The byte visitor: a bool is stored as 1 or 0; any other arithmetic
   * value only when it lies in 0..255; text is an enum name (stored only
   * when its value lies in 0..255) or a number.
   */
  function ByteRead(fx: Foreign, byteEnum: Option<nat>, x: Value, cur: NValue): NValue
  {
    if x.VBool? then NInt(if x.b then 1 else 0)
    else if x.VStr? then
      if byteEnum.Some? then
        var e := ToI64(fx.valueByName(byteEnum.value, x.s));
        if 0 <= e <= 255 then NInt(e) else cur
      else NInt(Wrap(U8, fx.lexInt(U8, fx.fromUtf8(x.s))))
    else if IsFp(x) then
      if fx.fpByteRange(FpVal(x)) then NInt(Wrap(U8, fx.fpToInt(FpVal(x), U8))) else cur
    else if Arith(x) then
      if 0 <= IntVal(x) <= 255 then NInt(IntVal(x)) else cur
    else cur
  }

  /**
   * `ReadVisit` of a scalar visitor on a dispatched leaf: what the property
   * holds afterwards. Overloads a visitor does not define (monostate, and
   * arithmetic values for name, text and soft-object properties) leave it
   * unchanged.
   */
  function LeafRead(fx: Foreign, k: PropKind, x: Value, cur: NValue): (r: NValue)
    requires IsLeaf(k)
    ensures x.Mono? ==> r == cur
    ensures k == POther ==> r == cur
    ensures k == PBool && Arith(x) ==> r == NBool(NonZero(fx, x))
    ensures k.PEnum? && x.VStr? ==> r == NInt(Wrap(k.underlying, ToI64(fx.valueByName(k.enumId, x.s))))
    ensures (k == PStr || k == PName || k == PText) && x.VStr? ==> r == NText(fx.fromUtf8(x.s))
  {
    if !x.IsScalar() then cur
    else match k
      case PBool =>
        if x.VStr? then NBool(fx.toBool(x.s)) else NBool(NonZero(fx, x))
      case PEnum(u, e) =>
        if x.VStr? then NInt(Wrap(u, ToI64(fx.valueByName(e, x.s))))
        else NInt(Wrap(u, IntCast(fx, x, I64)))
      case PGenericNumeric(nk, e) =>
        if x.VStr? then
          if e.Some? && nk.Int? then NInt(Wrap(nk.ik, ToI64(fx.valueByName(e.value, x.s))))
          else LexNum(fx, nk, fx.fromUtf8(x.s))
        else SetThroughInt64(fx, nk, x)
      case PNumeric(nk) =>
        if x.VStr? then LexNum(fx, nk, fx.fromUtf8(x.s))
        else
          (match nk
           case Int(ik) => NInt(IntCast(fx, x, ik))
           case Float => NFp(FpCast(x, true))
           case Double => NFp(FpCast(x, false)))
      case PByte(e) => ByteRead(fx, e, x, cur)
      case PStr => if x.VStr? then NText(fx.fromUtf8(x.s)) else NText(fx.lexToString(x))
      case PName | PText => if x.VStr? then NText(fx.fromUtf8(x.s)) else cur
      case PSoftObject => if x.VStr? then NText(fx.softPath(fx.fromUtf8(x.s))) else cur
      case POther => cur
  }

  // ---------------------------------------------------------------------
  // Properties of the scalar visitors.

  /**
   * A byte property only ever receives a value in 0..255: every read either
   * stores such a value or leaves the property as it was. An integral value
   * outside that range is refused; a bool is stored as 1 or 0.
   */
  lemma ByteReadRange(fx: Foreign, e: Option<nat>, x: Value, cur: NValue)
    ensures var r := LeafRead(fx, PByte(e), x, cur);
      r == cur || (r.NInt? && 0 <= r.i <= 255)
    ensures Arith(x) && !IsFp(x) && !x.VBool? ==>
      LeafRead(fx, PByte(e), x, cur) == (if 0 <= IntVal(x) <= 255 then NInt(IntVal(x)) else cur)
    ensures x.VBool? ==> LeafRead(fx, PByte(e), x, cur) == NInt(if x.b then 1 else 0)
  {
  }

  /**
   * An enum is written as the int32 truncation of its underlying value, and
   * an arithmetic value read into it is stored through int64 in the
   * underlying width; for an underlying type of at most 32 bits the value
   * written reads back unchanged.
   */
  lemma EnumWriteThenRead(fx: Foreign, u: IntKind, id: nat, x: int)
    requires InRange(u, x) && Width(u) <= TWO32
    ensures LeafWrite(fx, PEnum(u, id), NInt(x)) == ArgNum(VI32(ToI32(x)))
    ensures LeafRead(fx, PEnum(u, id), VI32(ToI32(x)), NInt(0)) == NInt(x)
  {
    assert ToI64(x) == x;
    assert IntCast(fx, VI32(ToI32(x)), I64) == ToI32(x);
    WrapOfInt32(u, x);
  }

  /** Truncating an in-range value of at most 32 bits to int32 and wrapping it back gives the value. */
  lemma WrapOfInt32(u: IntKind, x: int)
    requires InRange(u, x) && Width(u) <= TWO32
    ensures Wrap(u, ToI32(x)) == x
  {
    var w := ToI32(x);
    assert (w - x) % TWO32 == 0 by {
      assert ToU32(w) == ToU32(x);
    }
    var r := Wrap(u, w);
    assert (r - w) % Width(u) == 0;
    MultipleOfNarrower(w - x, u);
    assert (r - x) % Width(u) == 0 by {
      var m := Width(u) as int;
      assert r - w == ((r - w) / m) * m;
      assert w - x == ((w - x) / m) * m;
      assert r - x == ((r - w) / m + (w - x) / m) * m;
    }
    WrapUnique(u, r, x);
  }

  /** A multiple of 2^32 is a multiple of every integer width up to 32 bits. */
  lemma MultipleOfNarrower(d: int, u: IntKind)
    requires d % TWO32 == 0 && Width(u) <= TWO32
    ensures d % Width(u) == 0
  {
    var q := d / TWO32;
    assert d == q * TWO32;
    if Width(u) == 0x100 {
      assert d == (q * 0x100_0000) * 0x100;
    } else if Width(u) == 0x1_0000 {
      assert d == (q * 0x1_0000) * 0x1_0000;
    }
  }

  /** Two in-range integers congruent modulo the width are equal. */
  lemma WrapUnique(k: IntKind, a: int, b: int)
    requires InRange(k, a) && InRange(k, b) && (a - b) % Width(k) == 0
    ensures a == b
  {
    var d := a - b;
    assert -(Width(k) as int) < d < Width(k);
    assert d == (d / Width(k)) * Width(k);
  }

  /**
   * Integer properties narrower than 32 bits are written widened to int32,
   * and every integer property's value, written through its own visitor,
   * reads back unchanged through the same visitor.
   */
  lemma NumericWriteThenRead(fx: Foreign, ik: IntKind, x: int)
    requires InRange(ik, x)
    ensures Narrow(ik) ==> LeafWrite(fx, PNumeric(Int(ik)), NInt(x)) == ArgNum(VI32(x))
    ensures LeafWrite(fx, PNumeric(Int(ik)), NInt(x)).ArgNum?
    ensures LeafRead(fx, PNumeric(Int(ik)), LeafWrite(fx, PNumeric(Int(ik)), NInt(x)).v, NInt(0)) == NInt(x)
  {
  }

  /**
   * A bool is written as a bool; a bool read back, or any arithmetic value,
   * is stored as whether it is non-zero.
   */
  lemma BoolWriteThenRead(fx: Foreign, b: bool)
    ensures LeafWrite(fx, PBool, NBool(b)) == ArgNum(VBool(b))
    ensures LeafRead(fx, PBool, VBool(b), NBool(false)) == NBool(b)
  {
  }

  /** Text properties round-trip when the UTF-8 conversions do. */
  lemma TextWriteThenRead(fx: Foreign, k: PropKind, s: string)
    requires k == PStr || k == PName || k == PText
    requires fx.fromUtf8(fx.utf8(s)) == s
    ensures LeafRead(fx, k, VStr(LeafWrite(fx, k, NText(s)).s), NText([])) == NText(s)
  {
  }
}
