/**
 * `FProtoWriter`: a reader that may also change what it addresses. On a
 * loose value (a map key or value being assembled) a write replaces the
 * held value; on a message it writes the field's slot, or an element of the
 * field's array, in the arena.
 *
 * Each setter is specified by a function over (reader, arena contents) that
 * returns the new held value, the new contents and the setter's result; the
 * class methods are proved to change exactly that and no more.
 */
module Writer {
  import opened Kinds
  import opened Store
  import opened Reader

  /** The outcome of a setter: the held value, the arena contents, the returned flag. */
  datatype Written = Written(var_: Value, st: Store, ok: bool)

  /** The argument of `SetFieldNum<T>`: a value of one of the arithmetic alternatives. */
  predicate NumArg(v: Value) { v.IsScalar() && !v.VStr? }

  function ArgAlt(v: Value): Alt
    requires NumArg(v)
  {
    AltOf(v).value
  }

  /**
   * The writer's `ArrayElmData()` for element `idx`: the array is resized to
   * `idx` (new elements are uninitialised, modelled as the field default)
   * and the returned pointer is the array's base, so the stored value lands
   * in element 0 when there is one.
   */
  function StoreAtBase(st: Store, r: ProtoReader, v: Value): (st': Store)
    requires r.fd.arrayIdx >= 0
    ensures Live(st, GetMsg(r)) ==>
      ArrayOf(st', GetMsg(r), r.fd.number) ==
        var a := Resized(ArrayOf(st, GetMsg(r), r.fd.number), r.fd.arrayIdx, r.fd.default);
        if r.fd.arrayIdx > 0 then a[0 := v] else a
    ensures OnlySlot(st, st', GetMsg(r), r.fd.number) && |st'| == |st|
  {
    var st1 := ResizeArray(st, GetMsg(r), r.fd.number, r.fd.arrayIdx, r.fd.default);
    SetElement(st1, GetMsg(r), r.fd.number, 0, v)
  }

  /**
   * `SetFieldNum<T>`: a loose value is replaced; a message field of a C type
   * compatible with `T` is written (an element only when its index is below
   * the array size); anything else is refused and nothing changes.
   */
  function SetNum(r: ProtoReader, st: Store, v: Value): (w: Written)
    requires NumArg(v)
    ensures !IsContainer(r) ==> w == Written(v, st, true)
    ensures IsContainer(r) ==> w.var_ == r.var_
    ensures IsContainer(r) ==>
      (w.ok <==> EqualType(ArgAlt(v), r.fd.ctype) && (r.fd.arrayIdx < 0 || r.fd.arrayIdx < ArraySize(r, st)))
    ensures !w.ok ==> w.st == st
    ensures OnlySlot(st, w.st, GetMsg(r), r.fd.number) && |w.st| == |st|
  {
    if !IsContainer(r) then Written(v, st, true)
    else if !EqualType(ArgAlt(v), r.fd.ctype) then Written(r.var_, st, false)
    else if r.fd.arrayIdx < 0 then Written(r.var_, SetSlot(st, GetMsg(r), r.fd.number, One(v)), true)
    else if r.fd.arrayIdx < ArraySize(r, st) then Written(r.var_, StoreAtBase(st, r, v), true)
    else Written(r.var_, st, false)
  }

  /** `SetFieldStr`: as `SetFieldNum`, for string fields only. */
  function SetStr(r: ProtoReader, st: Store, s: seq<Byte>): (w: Written)
    ensures !IsContainer(r) ==> w == Written(VStr(s), st, true)
    ensures IsContainer(r) ==> w.var_ == r.var_
    ensures IsContainer(r) ==> (w.ok <==> IsStr(r) && (r.fd.arrayIdx < 0 || r.fd.arrayIdx < ArraySize(r, st)))
    ensures !w.ok ==> w.st == st
    ensures IsContainer(r) && w.ok && r.fd.arrayIdx < 0 && Live(st, GetMsg(r)) ==>
      Field(w.st, GetMsg(r), r.fd.number) == Some(One(VStr(s)))
    ensures IsContainer(r) && w.ok && r.fd.arrayIdx >= 0 ==> w.st == StoreAtBase(st, r, VStr(s))
    ensures OnlySlot(st, w.st, GetMsg(r), r.fd.number) && |w.st| == |st|
  {
    if !IsContainer(r) then Written(VStr(s), st, true)
    else if !IsStr(r) then Written(r.var_, st, false)
    else if r.fd.arrayIdx < 0 then Written(r.var_, SetSlot(st, GetMsg(r), r.fd.number, One(VStr(s))), true)
    else if r.fd.arrayIdx < ArraySize(r, st) then Written(r.var_, StoreAtBase(st, r, VStr(s)), true)
    else Written(r.var_, st, false)
  }

  /** `SetFieldBytes`: for bytes fields; an element write has no bounds check. */
  function SetBytes(r: ProtoReader, st: Store, s: seq<Byte>): (w: Written)
    ensures !IsContainer(r) ==> w == Written(VStr(s), st, true)
    ensures IsContainer(r) ==> w.var_ == r.var_ && (w.ok <==> IsBytes(r))
    ensures !w.ok ==> w.st == st
    ensures IsContainer(r) && w.ok && r.fd.arrayIdx < 0 && Live(st, GetMsg(r)) ==>
      Field(w.st, GetMsg(r), r.fd.number) == Some(One(VStr(s)))
    ensures IsContainer(r) && w.ok && r.fd.arrayIdx >= 0 ==> w.st == StoreAtBase(st, r, VStr(s))
    ensures OnlySlot(st, w.st, GetMsg(r), r.fd.number) && |w.st| == |st|
  {
    if !IsContainer(r) then Written(VStr(s), st, true)
    else if !IsBytes(r) then Written(r.var_, st, false)
    else if r.fd.arrayIdx < 0 then Written(r.var_, SetSlot(st, GetMsg(r), r.fd.number, One(VStr(s))), true)
    else Written(r.var_, StoreAtBase(st, r, VStr(s)), true)
  }

  /** `SetFieldMessage`: for message fields, whatever the held value; no bounds check on elements. */
  function SetMessage(r: ProtoReader, st: Store, sub: Handle): (w: Written)
    ensures w.var_ == r.var_ && (w.ok <==> IsMessage(r))
    ensures !w.ok ==> w.st == st
    ensures IsMessage(r) && r.fd.arrayIdx < 0 && Live(st, GetMsg(r)) ==>
      Field(w.st, GetMsg(r), r.fd.number) == Some(One(VMsg(sub)))
    ensures OnlySlot(st, w.st, GetMsg(r), r.fd.number) && |w.st| == |st|
  {
    if !IsMessage(r) then Written(r.var_, st, false)
    else if r.fd.arrayIdx < 0 then Written(r.var_, SetSlot(st, GetMsg(r), r.fd.number, One(VMsg(sub))), true)
    else Written(r.var_, StoreAtBase(st, r, VMsg(sub)), true)
  }

  /** The writer's `ArrayElm(i)`: resizes the field's array to `i`, then addresses element `i`. */
  function ElementWriter(r: ProtoReader, st: Store, i: nat): (res: (ProtoReader, Store))
    ensures res.0 == ProtoReader(ElementDef(r.fd, i), VMsg(GetMsg(r)))
    ensures Live(st, GetMsg(r)) ==> ArrayOf(res.1, GetMsg(r), r.fd.number) == Resized(ArrayOf(st, GetMsg(r), r.fd.number), i, r.fd.default)
    ensures OnlySlot(st, res.1, GetMsg(r), r.fd.number) && |res.1| == |st|
  {
    (ProtoReader(ElementDef(r.fd, i), VMsg(GetMsg(r))), ResizeArray(st, GetMsg(r), r.fd.number, i, r.fd.default))
  }

  /** `InsertFieldMapEntry`: copies the key and value of an entry message into the map field. */
  function InsertEntry(r: ProtoReader, st: Store, entry: Handle): (w: Written)
    ensures w.var_ == r.var_ && (w.ok <==> IsMapField(r))
    ensures !w.ok ==> w.st == st
    ensures w.ok && Live(st, GetMsg(r)) ==>
      AsMap(TableOf(w.st, GetMsg(r), r.fd.number)) ==
        AsMap(TableOf(st, GetMsg(r), r.fd.number))[StoredOrDefault(st, entry, r.fd.entry.key) := StoredOrDefault(st, entry, r.fd.entry.val)]
    ensures OnlySlot(st, w.st, GetMsg(r), r.fd.number) && |w.st| == |st|
  {
    if !IsMapField(r) then Written(r.var_, st, false)
    else
      var k := StoredOrDefault(st, entry, r.fd.entry.key);
      var v := StoredOrDefault(st, entry, r.fd.entry.val);
      Written(r.var_, MapInsert(st, GetMsg(r), r.fd.number, k, v), true)
  }

  /**
   * `InsertFieldMapPair`: when both variants convert to the entry's key and
   * value types the pair is inserted and the result is true, whatever the
   * insert reports; otherwise nothing is inserted.
   */
  function InsertPair(r: ProtoReader, st: Store, key: Value, val: Value): (w: Written)
    ensures w.var_ == r.var_
    ensures w.ok <==> IsMapField(r) && !key.VMsg? && EqualField(key, r.fd.entry.key) && !val.VMsg? && EqualField(val, r.fd.entry.val)
    ensures !w.ok ==> w.st == st
    ensures w.ok && Live(st, GetMsg(r)) ==> AsMap(TableOf(w.st, GetMsg(r), r.fd.number)) == AsMap(TableOf(st, GetMsg(r), r.fd.number))[key := val]
    ensures OnlySlot(st, w.st, GetMsg(r), r.fd.number) && |w.st| == |st|
  {
    if !IsMapField(r) then Written(r.var_, st, false)
    else
      var (k, kOk) := FromVariant(Mono, r.fd.entry.key, key);
      var (v, vOk) := FromVariant(Mono, r.fd.entry.val, val);
      if kOk && vOk then Written(r.var_, MapInsert(st, GetMsg(r), r.fd.number, k, v), true)
      else Written(r.var_, st, false)
  }

  /** The arena the writers allocate in, holding the contents of every message. */
  class Arena {
    var st: Store

    constructor (st0: Store)
      ensures st == st0
    {
      st := st0;
    }

    /** `upb_Message_New` in this arena. */
    method NewMessage() returns (h: Handle)
      modifies this
      ensures (st, h) == NewMsg(old(st))
    {
      h := At(|st|);
      st := st + [map[]];
    }
  }

  class ProtoWriter {
    const fd: FieldDef
    var var_: Value
    const arena: Arena

    function Reader(): ProtoReader
      reads this
    {
      ProtoReader(fd, var_)
    }

    /** `FProtoWriter(upb_Message*, FFieldDefPtr, upb_Arena*)`. */
    constructor OnMessage(h: Handle, f: FieldDef, a: Arena)
      ensures fd == f && var_ == VMsg(h) && arena == a
    {
      fd := f;
      var_ := VMsg(h);
      arena := a;
    }

    /** `FProtoWriter(FFieldDefPtr, upb_Arena*)`: holds the field's default value. */
    constructor OnDefault(f: FieldDef, a: Arena)
      ensures fd == f && var_ == AsVariant(f.default, f) && arena == a
    {
      fd := f;
      var_ := AsVariant(f.default, f);
      arena := a;
    }

    method SetFieldNum(v: Value) returns (ok: bool)
      requires NumArg(v)
      modifies this, arena
      ensures Written(var_, arena.st, ok) == SetNum(old(Reader()), old(arena.st), v)
    {
      var r := Reader();
      if !IsContainer(r) {
        var_ := v;
        return true;
      }
      ok := false;
      if EqualType(ArgAlt(v), fd.ctype) {
        if fd.arrayIdx < 0 {
          arena.st := SetSlot(arena.st, GetMsg(r), fd.number, One(v));
          ok := true;
        } else if fd.arrayIdx < ArraySize(r, arena.st) {
          arena.st := StoreAtBase(arena.st, r, v);
          ok := true;
        }
      }
    }

    method SetFieldStr(s: seq<Byte>) returns (ok: bool)
      modifies this, arena
      ensures Written(var_, arena.st, ok) == SetStr(old(Reader()), old(arena.st), s)
    {
      var r := Reader();
      if !IsContainer(r) {
        var_ := VStr(s);
        return true;
      }
      ok := false;
      if IsStr(r) {
        if fd.arrayIdx < 0 {
          arena.st := SetSlot(arena.st, GetMsg(r), fd.number, One(VStr(s)));
          ok := true;
        } else if fd.arrayIdx < ArraySize(r, arena.st) {
          arena.st := StoreAtBase(arena.st, r, VStr(s));
          ok := true;
        }
      }
    }

    method SetFieldBytes(s: seq<Byte>) returns (ok: bool)
      modifies this, arena
      ensures Written(var_, arena.st, ok) == SetBytes(old(Reader()), old(arena.st), s)
    {
      var r := Reader();
      if !IsContainer(r) {
        var_ := VStr(s);
        return true;
      }
      ok := IsBytes(r);
      if ok {
        if fd.arrayIdx < 0 {
          arena.st := SetSlot(arena.st, GetMsg(r), fd.number, One(VStr(s)));
        } else {
          arena.st := StoreAtBase(arena.st, r, VStr(s));
        }
      }
    }

    method SetFieldMessage(sub: Handle) returns (ok: bool)
      modifies arena
      ensures Written(var_, arena.st, ok) == SetMessage(Reader(), old(arena.st), sub)
    {
      var r := Reader();
      ok := IsMessage(r);
      if ok {
        if fd.arrayIdx < 0 {
          arena.st := SetSlot(arena.st, GetMsg(r), fd.number, One(VMsg(sub)));
        } else {
          arena.st := StoreAtBase(arena.st, r, VMsg(sub));
        }
      }
    }

    /** The writer's `ArrayElm(i)`: a new writer on element `i`, after resizing the array to `i`. */
    method ArrayElm(i: nat) returns (e: ProtoWriter)
      modifies arena
      ensures fresh(e) && e.arena == arena
      ensures (e.Reader(), arena.st) == ElementWriter(Reader(), old(arena.st), i)
    {
      var r := Reader();
      arena.st := ResizeArray(arena.st, GetMsg(r), fd.number, i, fd.default);
      e := new ProtoWriter.OnMessage(GetMsg(r), ElementDef(fd, i), arena);
    }

    method InsertFieldMapEntry(entry: Handle) returns (ok: bool)
      modifies arena
      ensures Written(var_, arena.st, ok) == InsertEntry(Reader(), old(arena.st), entry)
    {
      var r := Reader();
      ok := IsMapField(r);
      if ok {
        var k := StoredOrDefault(arena.st, entry, fd.entry.key);
        var v := StoredOrDefault(arena.st, entry, fd.entry.val);
        arena.st := MapInsert(arena.st, GetMsg(r), fd.number, k, v);
      }
    }

    method InsertFieldMapPair(key: Value, val: Value) returns (ok: bool)
      modifies arena
      ensures Written(var_, arena.st, ok) == InsertPair(Reader(), old(arena.st), key, val)
    {
      var r := Reader();
      ok := false;
      if IsMapField(r) {
        var (k, kOk) := FromVariant(Mono, fd.entry.key, key);
        var (v, vOk) := FromVariant(Mono, fd.entry.val, val);
        if kOk && vOk {
          arena.st := MapInsert(arena.st, GetMsg(r), fd.number, k, v);
          ok := true;
        }
      }
    }
  }

  /** Reading a value back through its own alternative yields it unchanged. */
  lemma ReadOwnMember(v: Value)
    requires NumArg(v)
    ensures ReadMember(v, OwnType(ArgAlt(v))) == v
  {
  }

  /**
   * An unindexed `SetFieldNum` on a live message succeeds exactly when the
   * C type accepts `T`, and `GetFieldNum<T>` then reads the written value.
   */
  lemma SetNumThenGetNum(r: ProtoReader, st: Store, v: Value)
    requires NumArg(v) && r.var_.VMsg? && Live(st, r.var_.msg) && r.fd.arrayIdx < 0
    ensures SetNum(r, st, v).ok <==> EqualType(ArgAlt(v), r.fd.ctype)
    ensures SetNum(r, st, v).ok ==> GetFieldNum(r, SetNum(r, st, v).st, ArgAlt(v)) == Some(v)
  {
    if SetNum(r, st, v).ok {
      var st' := SetNum(r, st, v).st;
      assert Field(st', r.var_.msg, r.fd.number) == Some(One(v));
      ReadOwnMember(v);
    }
  }

  /**
   * On a loose value `SetFieldNum` replaces the held value, which the
   * dispatcher then yields unchanged.
   */
  lemma SetNumThenDispatchLoose(r: ProtoReader, st: Store, v: Value)
    requires NumArg(v) && !IsContainer(r)
    ensures var w := SetNum(r, st, v); w.ok && DispatchFieldValue(ProtoReader(r.fd, w.var_), w.st) == Leaf(v)
  {
  }

  /**
   * The element writer from `ArrayElm(i)` addresses index `i` of an array that
   * now has exactly `i` elements, so every numeric or string write through it
   * is refused and leaves the arena as the resize left it.
   */
  lemma ElementWriteRefused(r: ProtoReader, st: Store, i: nat, v: Value, s: seq<Byte>)
    requires r.var_.VMsg? && Live(st, r.var_.msg) && r.fd.repeated && NumArg(v)
    ensures var (e, st1) := ElementWriter(r, st, i);
      && ArraySize(e, st1) == i
      && !SetNum(e, st1, v).ok && SetNum(e, st1, v).st == st1
      && !SetStr(e, st1, s).ok && SetStr(e, st1, s).st == st1
  {
    var (e, st1) := ElementWriter(r, st, i);
    assert GetMsg(e) == r.var_.msg;
    assert ArraySize(e, st1) == |Resized(ArrayOf(st, r.var_.msg, r.fd.number), i, r.fd.default)|;
  }

  /**
   * A bytes write through the element writer of `ArrayElm(i)`, for `i > 0`,
   * succeeds but stores into element 0 of an array of `i` elements; element
   * `i` is never written.
   */
  lemma ElementBytesLandsAtBase(r: ProtoReader, st: Store, i: nat, s: seq<Byte>)
    requires r.var_.VMsg? && Live(st, r.var_.msg) && r.fd.repeated && r.fd.ctype == CBytes && i > 0
    ensures var (e, st1) := ElementWriter(r, st, i);
      var w := SetBytes(e, st1, s);
      var arr := ArrayOf(w.st, r.var_.msg, r.fd.number);
      && w.ok && |arr| == i && arr[0] == VStr(s)
  {
    var (e, st1) := ElementWriter(r, st, i);
    assert GetMsg(e) == r.var_.msg && e.fd.number == r.fd.number && e.fd.default == r.fd.default;
  }

  /**
   * An unindexed `SetFieldStr` on a live message succeeds exactly on a
   * string field, and `GetFieldStr` then reads the written bytes.
   */
  lemma SetStrThenGetFieldStr(r: ProtoReader, st: Store, s: seq<Byte>)
    requires r.var_.VMsg? && Live(st, r.var_.msg) && r.fd.arrayIdx < 0
    ensures SetStr(r, st, s).ok <==> IsStr(r)
    ensures SetStr(r, st, s).ok ==> GetFieldStr(r, SetStr(r, st, s).st) == s
  {
    if SetStr(r, st, s).ok {
      assert StoredOrDefault(SetStr(r, st, s).st, r.var_.msg, r.fd) == VStr(s);
    }
  }

  /**
   * An unindexed `SetFieldBytes` on a live bytes field stores the bytes in
   * the field's slot, yet `GetFieldBytes` reads them back as empty.
   */
  lemma SetBytesThenGetFieldBytes(r: ProtoReader, st: Store, s: seq<Byte>)
    requires r.var_.VMsg? && Live(st, r.var_.msg) && r.fd.arrayIdx < 0 && r.fd.ctype == CBytes
    ensures var w := SetBytes(r, st, s);
      && w.ok && Field(w.st, r.var_.msg, r.fd.number) == Some(One(VStr(s)))
      && GetFieldBytes(r, w.st) == []
  {
  }

  /**
   * `InsertFieldMapPair` never inserts a string key or value: a string is
   * not a primitive field in upb's sense, so the conversion is refused.
   */
  lemma StringPairsRefused(r: ProtoReader, st: Store, key: Value, val: Value)
    requires IsMapField(r)
    requires (IsString(r.fd.entry.key) && !r.fd.entry.key.repeated && !IsMap(r.fd.entry.key))
          || (IsString(r.fd.entry.val) && !r.fd.entry.val.repeated && !IsMap(r.fd.entry.val))
    ensures !InsertPair(r, st, key, val).ok && InsertPair(r, st, key, val).st == st
  {
  }
}
