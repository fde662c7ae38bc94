/**
 * The native side of the bridge: reflected properties, the values stored in
 * them, and the engine and upb services the visitors call but that are not
 * part of this model (text conversion, enum lookup by name, float casts,
 * the wire codec), gathered in one record of total functions.
 *
 * A property's kind is the visitor that the property-class dispatch selects
 * for it. That dispatch (`ForeachProp`) is not part of this model; each kind
 * below stands for the specialised visitor of the same name.
 */
module Native {
  import opened Kinds
  import opened Store
  import opened Reader
  import opened Upb

  /** The integer widths of reflected numeric properties. */
  datatype IntKind = I8 | I16 | I32 | I64 | U8 | U16 | U32 | U64

  /** A numeric property's C++ type. */
  datatype NumKind = Int(ik: IntKind) | Float | Double

  function Lo(k: IntKind): int
  {
    match k
    case I8 => -0x80
    case I16 => -0x8000
    case I32 => -0x8000_0000
    case I64 => -0x8000_0000_0000_0000
    case _ => 0
  }

  function Width(k: IntKind): nat
  {
    match k
    case I8 | U8 => 0x100
    case I16 | U16 => 0x1_0000
    case I32 | U32 => 0x1_0000_0000
    case I64 | U64 => 0x1_0000_0000_0000_0000
  }

  predicate InRange(k: IntKind, x: int) { Lo(k) <= x < Lo(k) + Width(k) }

  /** The C++ conversion of an integer to an integer type of kind `k`: the value modulo the width, in range. */
  function Wrap(k: IntKind, x: int): (r: int)
    ensures InRange(k, r)
    ensures (r - x) % Width(k) == 0
    ensures InRange(k, x) ==> r == x
  {
    var m := (x - Lo(k)) % Width(k);
    assert InRange(k, x) ==> x - Lo(k) == m;
    m + Lo(k)
  }

  /** Integer kinds narrower than 32 bits. */
  predicate Narrow(k: IntKind) { k == I8 || k == I16 || k == U8 || k == U16 }

  /** The visitor a reflected property is served by. */
  datatype PropKind =
    | PBool
      /** `FEnumProperty`: an enum with an integer underlying property. */
    | PEnum(underlying: IntKind, enumId: nat)
      /** `TValueVisitor<FNumericProperty>`: a numeric property, possibly carrying an enum. */
    | PGenericNumeric(nk: NumKind, intEnum: Option<nat>)
      /** `TNumericValueVisitor<P>`: the float, double and integer properties other than byte. */
    | PNumeric(nk: NumKind)
      /** `FByteProperty`, possibly a `TEnumAsByte`. */
    | PByte(byteEnum: Option<nat>)
    | PStr
    | PName
    | PText
    | PSoftObject
    | PStruct(def: StructDef)
    | PArray(inner: Prop)
    | PSet(elem: Prop)
    | PMap(key: Prop, val: Prop)
      /** A property class without a specialised visitor: never written or read. */
    | POther

  /** A reflected property: name, static array dimension and kind. */
  datatype Prop = Prop(name: string, arrayDim: nat, kind: PropKind)

  /**
   * A reflected struct: its name, the proto message it was generated from
   * (if any), its properties in declaration order, and whether it is the
   * one-of holder `FGMPValueOneOf`.
   */
  datatype StructDef = StructDef(name: string, protoFullName: Option<string>, props: seq<Prop>, isOneOf: bool)

  /**
   * The one-of holder's shared value (`FPBValueHolder`): a reader whose
   * held message is a deep clone, kept with the contents of the arena the
   * clone lives in, and the holder's flags.
   */
  datatype OneOfBox = OneOfBox(reader: ProtoReader, st: Store, flags: int)

  /**
   * A native value. A struct holds, per property in declaration order, its
   * `arrayDim` slots; sets and maps are sparse arrays whose invalid slots
   * are `None`.
   */
  datatype NValue =
    | NBool(b: bool)
    | NInt(i: int)
    | NFp(f: Fp)
    | NText(s: string)
    | NStruct(fields: seq<seq<NValue>>)
    | NArray(elems: seq<NValue>)
    | NSet(slots: seq<Option<NValue>>)
    | NMap(pairs: seq<Option<(NValue, NValue)>>)
    | NOneOf(box: Option<OneOfBox>)
    | NOpaque

  /** The value a freshly initialised property holds. */
  function Default(p: Prop): NValue
    decreases p, 0
  {
    match p.kind
    case PBool => NBool(false)
    case PEnum(_, _) | PByte(_) => NInt(0)
    case PGenericNumeric(nk, _) => NumDefault(nk)
    case PNumeric(nk) => NumDefault(nk)
    case PStr | PName | PText | PSoftObject => NText([])
    case PStruct(def) => if def.isOneOf then NOneOf(None) else NStruct(DefaultFields(def, def.props))
    case PArray(_) => NArray([])
    case PSet(_) => NSet([])
    case PMap(_, _) => NMap([])
    case POther => NOpaque
  }

  function NumDefault(nk: NumKind): NValue
  {
    match nk
    case Int(_) => NInt(0)
    case Float => NFp(FpFromInt(0, true))
    case Double => NFp(FpFromInt(0, false))
  }

  /** The default slots of each of `props`, a suffix of the struct's properties. */
  function DefaultFields(def: StructDef, props: seq<Prop>): (r: seq<seq<NValue>>)
    requires forall q :: q in props ==> q in def.props
    ensures |r| == |props|
    ensures forall i :: 0 <= i < |props| ==> |r[i]| == props[i].arrayDim
    decreases def, |props|
  {
    if props == [] then []
    else
      assert props[0] in def.props;
      [Fill(Default(props[0]), props[0].arrayDim)] + DefaultFields(def, props[1..])
  }

  /** The default instance of a struct. */
  function DefaultStruct(def: StructDef): NValue
  {
    NStruct(DefaultFields(def, def.props))
  }

  /** ASCII upper case to lower case; every other character is kept. */
  function Lower(c: char): char
  {
    if 'A' <= c <= 'Z' then (c as int + 32) as char else c
  }

  /** `FName` equality: the same characters up to ASCII case. */
  predicate SameName(a: string, b: string)
  {
    |a| == |b| && forall i :: 0 <= i < |a| ==> Lower(a[i]) == Lower(b[i])
  }

  /** The key an `FName` compares by: the characters in ASCII lower case. */
  function Folded(s: string): (r: string)
    ensures |r| == |s| && forall i :: 0 <= i < |s| ==> r[i] == Lower(s[i])
  {
    seq(|s|, i requires 0 <= i < |s| => Lower(s[i]))
  }

  /** Two names are the same `FName` exactly when their folded keys are equal. */
  lemma SameNameFolded(a: string, b: string)
    ensures SameName(a, b) <==> Folded(a) == Folded(b)
  {
    if Folded(a) == Folded(b) {
      assert |a| == |b|;
      forall i | 0 <= i < |a| ensures Lower(a[i]) == Lower(b[i]) {
        assert Folded(a)[i] == Folded(b)[i];
      }
    }
  }

  /** `FindPropertyByName`: the index of the first property whose name equals `name` as an `FName`. */
  function FindProp(props: seq<Prop>, name: string): (r: Option<nat>)
    ensures r.Some? ==> r.value < |props| && SameName(props[r.value].name, name)
    ensures r.Some? ==> forall j :: 0 <= j < r.value ==> !SameName(props[j].name, name)
    ensures r.None? <==> forall j :: 0 <= j < |props| ==> !SameName(props[j].name, name)
  {
    if props == [] then None
    else if SameName(props[0].name, name) then Some(0)
    else match FindProp(props[1..], name)
      case Some(k) => Some(k + 1)
      case None => None
  }

  /** Names that differ only in ASCII case find the same property. */
  lemma {:induction false} FindPropIgnoresCase(props: seq<Prop>, a: string, b: string)
    requires SameName(a, b)
    ensures FindProp(props, a) == FindProp(props, b)
  {
    if props != [] {
      assert SameName(props[0].name, a) <==> SameName(props[0].name, b);
      FindPropIgnoresCase(props[1..], a, b);
    }
  }

  /** The slots of property `k` of a struct value; a value of another shape reads as the property's default. */
  function FieldSlots(v: NValue, p: Prop, k: nat): seq<NValue>
  {
    if v.NStruct? && k < |v.fields| then v.fields[k] else Fill(Default(p), p.arrayDim)
  }

  /** `v` with the slots of property `k` replaced; a value of another shape is left alone. */
  function WithField(v: NValue, k: nat, slots: seq<NValue>): (r: NValue)
    ensures v.NStruct? && k < |v.fields| ==> r == NStruct(v.fields[k := slots])
  {
    if v.NStruct? && k < |v.fields| then NStruct(v.fields[k := slots]) else v
  }

  /** A native set or map's `Num()`: the number of valid slots. */
  function CountSome<T>(s: seq<Option<T>>): (n: nat)
    ensures n <= |s|
  {
    if s == [] then 0 else CountSome(s[..|s| - 1]) + (if s[|s| - 1].Some? then 1 else 0)
  }

  /**
   * Engine and upb services the visitors call, as total functions. Results
   * are normalised to the property's range where they are stored.
   */
  datatype Foreign = Foreign(
    /** An `FString` as a UTF-8 view. */
    utf8: string -> seq<Byte>,
    /** A view as an `FString`, `FName` or `FText`. */
    fromUtf8: seq<Byte> -> string,
    /** `FCStringAnsi::ToBool`. */
    toBool: seq<Byte> -> bool,
    /** `UEnum::GetValueByNameString` of the enum with the id (`INDEX_NONE` when absent). */
    valueByName: (nat, seq<Byte>) -> int,
    /** `LexFromString` / `SetNumericPropertyValueFromString` into an integer. */
    lexInt: (IntKind, string) -> int,
    /** `LexFromString` / `SetNumericPropertyValueFromString` into a float (`true`) or double. */
    lexFp: (bool, string) -> Fp,
    /** `LexToString` of an arithmetic value. */
    lexToString: Value -> string,
    /** The conversion of a floating-point value to an integer type. */
    fpToInt: (Fp, IntKind) -> int,
    /** `Val != 0` of a floating-point value. */
    fpNonZero: Fp -> bool,
    /** `Val >= 0 && Val <= 255` of a floating-point value. */
    fpByteRange: Fp -> bool,
    /** `GetPathNameSafe` of the object a soft path resolves to. */
    objectPath: string -> string,
    /** `FSoftObjectPath::SetPath`, with the PIE package renaming an editor world applies. */
    softPath: string -> string,
    /** `ImportText` of a struct from text. */
    importText: (StructDef, string, NValue) -> NValue,
    /** `upb_Encode` of a message. */
    encode: (Store, Handle, MessageDef) -> Option<seq<Byte>>,
    /** `upb_Decode` into a message: the new arena contents. */
    decode: (seq<Byte>, MessageDef, Store, Handle) -> Option<Store>)

  /** The message definitions of the pool, by full name (`MessageSubdef`). */
  type Schema = map<string, MessageDef>

  /** `FieldDef.MessageSubdef()`: the definition of a message field's type; an unknown one has no fields. */
  function SubDef(sc: Schema, fd: FieldDef): MessageDef
  {
    if fd.subType in sc then sc[fd.subType] else MessageDef(fd.subType, fd.subType, [])
  }
}
