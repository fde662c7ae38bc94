/**
 * What the visitors do to whole properties, proved from their definitions:
 * which wire data a read never reaches, which writes are refused, and the
 * editor's write-then-read comparison on generated structs.
 */
module Behaviours {
  import opened Kinds
  import opened Store
  import opened Reader
  import opened Writer
  import opened Upb
  import opened Native
  import opened Coerce
  import opened Visit
  import Serializer

  // ---------------------------------------------------------------------
  // Reads.

  /**
   * A top-level reader over a message dispatches to itself, and the scalar
   * visitors ignore readers: a scalar property bound to a singular field is
   * never read.
   */
  lemma ScalarFieldNotDecoded(sc: Schema, fx: Foreign, h: Handle, f: FieldDef, st: Store, p: Prop, slots: seq<NValue>)
    requires IsLeaf(p.kind) && !f.repeated && f.arrayIdx < 0
    ensures ReadFromPB(sc, fx, OnMessage(h, f), st, p, slots) == slots
  {
    var r := OnMessage(h, f);
    assert DispatchFieldValue(r, st) == Recurse(r);
    if |slots| > 0 {
      assert ReadVisit(sc, fx, Recurse(r), st, p, slots[0]) == slots[0];
      assert slots[0 := slots[0]] == slots;
    }
  }

  /**
   * Every element of a repeated message or bytes field dispatches as
   * monostate, which no visitor stores: reading such elements into the
   * slots of a property leaves them as they were.
   */
  lemma {:induction false} MonoItemsKeepSlots(sc: Schema, fx: Foreign, r: ProtoReader, st: Store, p: Prop, slots: seq<NValue>, i: nat, n: nat)
    requires IsContainer(r) && (r.fd.ctype == CMessage || r.fd.ctype == CBytes)
    ensures ReadItems(sc, fx, r, st, p, slots, i, n) == slots
    decreases n - i
  {
    if i < n {
      assert DispatchFieldValue(ArrayElm(r, i), st) == Leaf(Mono);
      assert VisitAt(sc, fx, Leaf(Mono), st, p, slots, i) == slots;
      MonoItemsKeepSlots(sc, fx, r, st, p, slots, i + 1, n);
    }
  }

  /**
   * A repeated message or bytes field read into a property that is neither
   * an array nor a set leaves the property unchanged. upb represents a map
   * field as a repeated message field, so a map property is never read
   * back, and neither is a struct property bound to a repeated message.
   */
  lemma RepeatedMessageFieldNotRead(sc: Schema, fx: Foreign, h: Handle, f: FieldDef, st: Store, p: Prop, slots: seq<NValue>)
    requires f.repeated && (f.ctype == CMessage || f.ctype == CBytes)
    requires !p.kind.PArray? && !p.kind.PSet?
    ensures ReadFromPB(sc, fx, OnMessage(h, f), st, p, slots) == slots
  {
    var r := OnMessage(h, f);
    MonoItemsKeepSlots(sc, fx, r, st, p, slots, 0, Clamp(ArraySize(r, st), p.arrayDim));
  }

  /** `ReadItems` sees a reader only through its element readers. */
  lemma {:induction false} ReadItemsByElements(sc: Schema, fx: Foreign, r1: ProtoReader, r2: ProtoReader, st: Store, p: Prop, slots: seq<NValue>, i: nat, n: nat)
    requires forall j: nat :: ArrayElm(r1, j) == ArrayElm(r2, j)
    ensures ReadItems(sc, fx, r1, st, p, slots, i, n) == ReadItems(sc, fx, r2, st, p, slots, i, n)
    decreases n - i
  {
    if i < n {
      assert ArrayElm(r1, i) == ArrayElm(r2, i);
      var next := VisitAt(sc, fx, DispatchFieldValue(ArrayElm(r1, i), st), st, p, slots, i);
      ReadItemsByElements(sc, fx, r1, r2, st, p, next, i + 1, n);
    }
  }

  /**
   * An element reader is still bound to a repeated field, so the
   * dispatcher reads its elements again from index 0: reading element `i`
   * into a property that is neither an array nor a set is reading element 0.
   */
  lemma ElementReadIgnoresIndex(sc: Schema, fx: Foreign, r: ProtoReader, st: Store, p: Prop, i: nat, slots: seq<NValue>)
    requires r.fd.repeated && !p.kind.PArray? && !p.kind.PSet?
    ensures ReadFromPB(sc, fx, ArrayElm(r, i), st, p, slots) == ReadFromPB(sc, fx, ArrayElm(r, 0), st, p, slots)
  {
    var e1 := ArrayElm(r, i);
    var e2 := ArrayElm(r, 0);
    forall j: nat ensures ArrayElm(e1, j) == ArrayElm(e2, j) {
      assert ElementDef(e1.fd, j) == ElementDef(e2.fd, j);
    }
    assert ArraySize(e1, st) == ArraySize(e2, st);
    ReadItemsByElements(sc, fx, e1, e2, st, p, slots, 0, Clamp(ArraySize(e1, st), p.arrayDim));
  }

  /** The element loop of the array read: every element is read from wire element 0. */
  lemma {:induction false} ElemReadsFromZero(sc: Schema, fx: Foreign, r: ProtoReader, st: Store, p: Prop, elems: seq<NValue>, i: nat)
    requires p.kind.PArray? && r.fd.repeated && !p.kind.inner.kind.PArray? && !p.kind.inner.kind.PSet?
    ensures var out := ElemReads(sc, fx, r, st, p, elems, i);
      && (forall k :: 0 <= k < i && k < |elems| ==> out[k] == elems[k])
      && (forall k :: i <= k < |elems| ==> out[k] == ReadFromPB(sc, fx, ArrayElm(r, 0), st, p.kind.inner, [elems[k]])[0])
    decreases |elems| - i
  {
    if i < |elems| {
      var x := ReadFromPB(sc, fx, ArrayElm(r, i), st, p.kind.inner, [elems[i]])[0];
      ElementReadIgnoresIndex(sc, fx, r, st, p.kind.inner, i, [elems[i]]);
      ElemReadsFromZero(sc, fx, r, st, p, elems[i := x], i + 1);
    }
  }

  /**
   * An array property read from a repeated field gets one element per wire
   * element, and each is what reading wire element 0 into it gives.
   */
  lemma ArrayReadsElementZero(sc: Schema, fx: Foreign, r: ProtoReader, st: Store, p: Prop, cur: NValue)
    requires p.kind.PArray? && r.fd.repeated && !p.kind.inner.kind.PArray? && !p.kind.inner.kind.PSet?
    ensures var out := ArrayRead(sc, fx, r, st, p, cur);
      var before := Resized(ElemsOf(cur), ArraySize(r, st), Default(p.kind.inner));
      && out.NArray? && |out.elems| == ArraySize(r, st)
      && forall k :: 0 <= k < |out.elems| ==> out.elems[k] == ReadFromPB(sc, fx, ArrayElm(r, 0), st, p.kind.inner, [before[k]])[0]
  {
    ElemReadsFromZero(sc, fx, r, st, p, Resized(ElemsOf(cur), ArraySize(r, st), Default(p.kind.inner)), 0);
  }

  /**
   * An array of structs read from a repeated message field is resized to
   * the wire size, but no element is read: existing elements keep their
   * values and new ones are default structs.
   */
  lemma StructArrayElementsNotRead(sc: Schema, fx: Foreign, r: ProtoReader, st: Store, p: Prop, cur: NValue)
    requires p.kind.PArray? && p.kind.inner.kind.PStruct?
    requires IsContainer(r) && r.fd.repeated && r.fd.ctype == CMessage
    ensures ArrayRead(sc, fx, r, st, p, cur) == NArray(Resized(ElemsOf(cur), ArraySize(r, st), Default(p.kind.inner)))
  {
    var inner := p.kind.inner;
    var before := Resized(ElemsOf(cur), ArraySize(r, st), Default(inner));
    ArrayReadsElementZero(sc, fx, r, st, p, cur);
    var out := ArrayRead(sc, fx, r, st, p, cur);
    forall k | 0 <= k < |out.elems| ensures out.elems[k] == before[k] {
      var e := ArrayElm(r, 0);
      MonoItemsKeepSlots(sc, fx, e, st, inner, [before[k]], 0, Clamp(ArraySize(e, st), inner.arrayDim));
    }
  }

  // ---------------------------------------------------------------------
  // Writes.

  /** A scalar written through the element writer of `ArrayElm(i)` is refused and leaves the arena as the resize left it. */
  lemma LeafElementWriteRefused(sc: Schema, fx: Foreign, r: ProtoReader, st: Store, q: Prop, i: nat, v: NValue)
    requires r.var_.VMsg? && Live(st, r.var_.msg) && r.fd.repeated && IsLeaf(q.kind)
    ensures WriteToPB(sc, fx, ElementWriter(r, st, i).0, ElementWriter(r, st, i).1, q, v).1 == ElementWriter(r, st, i).1
  {
    if q.arrayDim <= 1 {
      match LeafWrite(fx, q.kind, v)
      case ArgNum(x) => ElementWriteRefused(r, st, i, x, []);
      case ArgText(s) => ElementWriteRefused(r, st, i, VBool(false), s);
      case ArgNone =>
    }
  }

  /** The element loop of the array write over scalar elements, from element `i` on. */
  lemma {:induction false} ElemsWriteDefaults(sc: Schema, fx: Foreign, r: ProtoReader, st: Store, p: Prop, elems: seq<NValue>, i: nat)
    requires p.kind.PArray? && IsLeaf(p.kind.inner.kind)
    requires r.var_.VMsg? && Live(st, r.var_.msg) && r.fd.repeated
    requires i < |elems|
    requires i > 0 ==> ArrayOf(st, r.var_.msg, r.fd.number) == Fill(r.fd.default, i - 1)
    ensures ArrayOf(ElemsWrite(sc, fx, r, st, p, elems, i), r.var_.msg, r.fd.number) == Fill(r.fd.default, |elems| - 1)
    decreases |elems| - i
  {
    var h := r.var_.msg;
    var st1 := ElementWriter(r, st, i).1;
    LeafElementWriteRefused(sc, fx, r, st, p.kind.inner, i, elems[i]);
    assert ArrayOf(st1, h, r.fd.number) == Fill(r.fd.default, i);
    if i + 1 < |elems| {
      ElemsWriteDefaults(sc, fx, r, st1, p, elems, i + 1);
    }
  }

  /**
   * An array of `n > 0` scalars written to a repeated field leaves the
   * field with `n - 1` default elements: every element writer first resizes
   * the array to its own index, so its index is out of range and the write
   * is refused.
   */
  lemma ScalarArrayWrittenAsDefaults(sc: Schema, fx: Foreign, h: Handle, f: FieldDef, st: Store, p: Prop, elems: seq<NValue>)
    requires p.kind.PArray? && IsLeaf(p.kind.inner.kind) && p.arrayDim <= 1
    requires Live(st, h) && f.repeated && f.ctype != CBytes
    requires |elems| > 0
    ensures ArrayOf(WriteToPB(sc, fx, OnMessage(h, f), st, p, NArray(elems)).1, h, f.number) == Fill(f.default, |elems| - 1)
  {
    var r := OnMessage(h, f);
    assert WriteToPB(sc, fx, r, st, p, NArray(elems)).1 == ElemsWrite(sc, fx, r, st, p, elems, 0) by {
      assert WriteToPB(sc, fx, r, st, p, NArray(elems)) == ArrayWrite(sc, fx, r, st, p, elems);
    }
    ElemsWriteDefaults(sc, fx, r, st, p, elems, 0);
  }

  // ---------------------------------------------------------------------
  // The struct entry points.

  /** Reading a message into a struct of scalar properties bound to singular fields changes nothing. */
  lemma {:induction false} ScalarFieldsKeep(sc: Schema, fx: Foreign, fields: seq<FieldDef>, h: Handle, st: Store, def: StructDef, cur: NValue, j: nat)
    requires forall q :: q in def.props ==> IsLeaf(q.kind)
    requires forall f :: f in fields ==> !f.repeated && f.arrayIdx < 0
    ensures FieldsToProps(sc, fx, fields, h, st, def, cur, j) == cur
    decreases |fields| - j
  {
    if j < |fields| {
      var found := FindProp(def.props, fields[j].name);
      if found.Some? {
        var k := found.value;
        var q := def.props[k];
        ScalarFieldNotDecoded(sc, fx, h, fields[j], st, q, FieldSlots(cur, q, k));
        if cur.NStruct? && k < |cur.fields| {
          assert cur.fields[k := cur.fields[k]] == cur.fields;
        }
      }
      ScalarFieldsKeep(sc, fx, fields, h, st, def, cur, j + 1);
    }
  }

  /**
   * `UStructFromProtoImpl` never changes a struct whose properties are all
   * scalars bound to singular fields, whatever the bytes; so the editor's
   * comparison after writing and reading back a default instance of such a
   * struct holds, and holds for any instance and any codec.
   */
  lemma ScalarStructNotDecoded(sc: Schema, fx: Foreign, md: MessageDef, def: StructDef, bytes: seq<Byte>, cur: NValue)
    requires forall q :: q in def.props ==> IsLeaf(q.kind)
    requires forall f :: f in md.fields ==> !f.repeated && f.arrayIdx < 0
    ensures Serializer.FromProto(sc, fx, Some(md), def, bytes, cur) == (false, cur)
  {
    var st := fx.decode(bytes, md, [map[]], Serializer.Root);
    if st.Some? {
      ScalarFieldsKeep(sc, fx, md.fields, Serializer.Root, st.value, def, cur, 0);
    }
  }

  /** A generated struct with one byte-array property bound to a bytes field. */
  const Blob := StructDef("FBlob", Some("pkg.Blob"), [Prop("data", 1, PArray(Prop("data_Inner", 1, PByte(None))))], false)
  const BlobMessage := MessageDef("Blob", "pkg.Blob", [FieldDef("data", 1, CBytes, false, NotMap, VStr([]), -1, "")])

  /** The field `data` finds the property `data`. */
  lemma BlobDataFound()
    ensures FindProp(Blob.props, "data") == Some(0)
  {
    assert SameName(Blob.props[0].name, "data");
  }

  /**
   * The editor's comparison fails on a default `Blob`: the empty array is
   * written as empty bytes, but the read resizes the array to one element
   * (the raw-bytes read is never taken) and that element's read is a no-op,
   * so the struct comes back with one zero byte, whatever the codec does
   * with the bytes.
   */
  lemma EditorCheckFailsOnByteArray(sc: Schema, fx: Foreign, bytes: seq<Byte>)
    requires fx.decode(bytes, BlobMessage, [map[]], Serializer.Root).Some?
    ensures DefaultStruct(Blob) == NStruct([[NArray([])]])
    ensures Field(Serializer.Filled(sc, fx, BlobMessage, Blob, DefaultStruct(Blob)), Serializer.Root, 1) == Some(One(VStr([])))
    ensures Serializer.FromProto(sc, fx, Some(BlobMessage), Blob, bytes, DefaultStruct(Blob)) == (false, NStruct([[NArray([NInt(0)])]]))
  {
    BlobDefault();
    var st := fx.decode(bytes, BlobMessage, [map[]], Serializer.Root).value;
    BlobReadsZero(sc, fx, st);
  }

  /** The default `Blob` holds one empty byte array. */
  lemma BlobDefault()
    ensures DefaultStruct(Blob) == NStruct([[NArray([])]])
  {
    assert Fill(NArray([]), 1) == [NArray([])];
    assert DefaultFields(Blob, Blob.props[1..]) == [];
    assert DefaultFields(Blob, Blob.props) == [[NArray([])]];
  }

  /** Reading the default `Blob` from any decoded message yields one zero byte. */
  lemma BlobReadsZero(sc: Schema, fx: Foreign, st: Store)
    ensures FieldsToProps(sc, fx, BlobMessage.fields, Serializer.Root, st, Blob, NStruct([[NArray([])]]), 0) == NStruct([[NArray([NInt(0)])]])
  {
    var data := Blob.props[0];
    var field := BlobMessage.fields[0];
    var r := OnMessage(Serializer.Root, field);
    ScalarFieldNotDecoded(sc, fx, Serializer.Root, field, st, data.kind.inner, [NInt(0)]);
    assert ArrayRead(sc, fx, r, st, data, NArray([])) == NArray([NInt(0)]);
    assert ReadFromPB(sc, fx, r, st, data, [NArray([])]) == [NArray([NInt(0)])] by {
      assert DispatchFieldValue(r, st) == Recurse(r);
    }
    BlobDataFound();
    var next := NStruct([[NArray([NInt(0)])]]);
    assert FieldsToProps(sc, fx, BlobMessage.fields, Serializer.Root, st, Blob, next, 1) == next;
  }

  // ---------------------------------------------------------------------
  // Sets and maps.

  /** The set read from a repeated field keeps the set's slots and appends one element per wire element, in order. */
  lemma {:induction false} SetElemReadsAppend(sc: Schema, fx: Foreign, r: ProtoReader, st: Store, p: Prop, acc: seq<Option<NValue>>, i: nat, n: nat)
    requires p.kind.PSet? && i <= n
    ensures var out := SetElemReads(sc, fx, r, st, p, acc, i, n);
      && |out| == |acc| + (n - i) && out[..|acc|] == acc
      && forall j :: i <= j < n ==> out[|acc| + j - i] == Some(SetElemAt(sc, fx, r, st, p, j))
    decreases n - i
  {
    if i < n {
      var e := Some(SetElemAt(sc, fx, r, st, p, i));
      var acc' := acc + [e];
      SetElemReadsAppend(sc, fx, r, st, p, acc', i + 1, n);
      var out := SetElemReads(sc, fx, r, st, p, acc', i + 1, n);
      assert out[..|acc'|] == acc';
      assert out[..|acc|] == acc'[..|acc|] == acc;
      forall j | i <= j < n
        ensures out[|acc| + j - i] == Some(SetElemAt(sc, fx, r, st, p, j))
      {
        if j == i {
          assert out[|acc|] == acc'[|acc|] == e;
        } else {
          assert |acc| + j - i == |acc'| + j - (i + 1);
        }
      }
    }
  }

  /** `SetRead` on a repeated field: the old slots, then the wire elements. */
  lemma SetReadOnePerElement(sc: Schema, fx: Foreign, r: ProtoReader, st: Store, p: Prop, cur: NValue)
    requires p.kind.PSet? && IsArray(r)
    ensures var out := SetRead(sc, fx, r, st, p, cur);
      && out.NSet? && |out.slots| == |SlotsOf(cur)| + ArraySize(r, st) && out.slots[..|SlotsOf(cur)|] == SlotsOf(cur)
      && forall j :: 0 <= j < ArraySize(r, st) ==> out.slots[|SlotsOf(cur)| + j] == Some(SetElemAt(sc, fx, r, st, p, j))
  {
    SetElemReadsAppend(sc, fx, r, st, p, SlotsOf(cur), 0, ArraySize(r, st));
  }

  /** Pairs read from wire entries `i..` are appended to `acc`, one per entry, in entry order. */
  lemma {:induction false} PairReadsAppend(sc: Schema, fx: Foreign, entry: MapEntry, st: Store, p: Prop, es: Entries, acc: seq<Option<(NValue, NValue)>>, i: nat)
    requires p.kind.PMap? && entry.MapOf? && i <= |es|
    ensures var out := PairReads(sc, fx, entry, st, p, es, acc, i);
      && |out| == |acc| + (|es| - i) && out[..|acc|] == acc
      && forall j :: i <= j < |es| ==> out[|acc| + j - i] == Some(PairAt(sc, fx, entry, st, p, es[j]))
    decreases |es| - i
  {
    if i < |es| {
      var acc' := acc + [Some(PairAt(sc, fx, entry, st, p, es[i]))];
      PairReadsAppend(sc, fx, entry, st, p, es, acc', i + 1);
      assert acc'[..|acc|] == acc;
    }
  }

  /** `MapToProp` on a map field: the old pairs are dropped and each wire entry gives one pair, in entry order. */
  lemma MapReadOnePairPerEntry(sc: Schema, fx: Foreign, r: ProtoReader, st: Store, p: Prop, cur: NValue)
    requires p.kind.PMap? && IsMapField(r)
    ensures var out := MapRead(sc, fx, r, st, p, cur); var es := GetSubMap(r, st);
      && out.NMap? && |out.pairs| == |es|
      && forall j :: 0 <= j < |es| ==> out.pairs[j] == Some(PairAt(sc, fx, r.fd.entry, st, p, es[j]))
  {
    var es := GetSubMap(r, st);
    var pairs := PairReads(sc, fx, r.fd.entry, st, p, es, [], 0);
    assert MapRead(sc, fx, r, st, p, cur) == NMap(pairs);
    PairReadsAppend(sc, fx, r.fd.entry, st, p, es, [], 0);
    forall j | 0 <= j < |es| ensures pairs[j] == Some(PairAt(sc, fx, r.fd.entry, st, p, es[j])) {
      var none: seq<Option<(NValue, NValue)>> := [];
      assert pairs[|none| + j - 0] == Some(PairAt(sc, fx, r.fd.entry, st, p, es[j]));
    }
  }

  /**
   * A leaf property written through a loose writer (a map key or value
   * being assembled) replaces the held value by the setter's argument and
   * leaves the arena alone.
   */
  lemma LooseLeafWrite(sc: Schema, fx: Foreign, fd: FieldDef, mv: Value, st: Store, q: Prop, v: NValue)
    requires !IsMap(fd) && !fd.repeated && fd.ctype != CMessage
    requires IsLeaf(q.kind) && q.arrayDim <= 1
    ensures var w := WriteToPB(sc, fx, OnValue(mv, fd), st, q, v);
      && w.1 == st
      && (LeafWrite(fx, q.kind, v).ArgNum? ==> w.0 == LeafWrite(fx, q.kind, v).v)
      && (LeafWrite(fx, q.kind, v).ArgText? ==> w.0 == VStr(LeafWrite(fx, q.kind, v).s))
  {
    var r := OnValue(mv, fd);
    assert !IsContainer(r);
  }

  /** The held value a leaf property leaves in a loose writer. */
  function LooseArg(sc: Schema, fx: Foreign, fd: FieldDef, q: Prop, v: NValue): Value
  {
    WriteToPB(sc, fx, OnValue(fd.default, fd), [], q, v).0
  }

  /**
   * `PropToMap` with leaf key and value properties on a map of scalar
   * entries: each valid pair is offered to `InsertFieldMapPair` as the
   * setter arguments of its key and value, and an accepted pair updates the
   * map at that key.
   */
  lemma ScalarPairWritten(sc: Schema, fx: Foreign, r: ProtoReader, st: Store, p: Prop, pairs: seq<Option<(NValue, NValue)>>, i: nat, n: nat)
    requires p.kind.PMap? && IsMapField(r) && i < n <= |pairs| && pairs[i].Some?
    requires var kd := r.fd.entry.key; !IsMap(kd) && !kd.repeated && kd.ctype != CMessage
    requires var vd := r.fd.entry.val; !IsMap(vd) && !vd.repeated && vd.ctype != CMessage
    requires IsLeaf(p.kind.key.kind) && p.kind.key.arrayDim <= 1 && IsLeaf(p.kind.val.kind) && p.kind.val.arrayDim <= 1
    ensures var kx := LooseArg(sc, fx, r.fd.entry.key, p.kind.key, pairs[i].value.0);
      var vx := LooseArg(sc, fx, r.fd.entry.val, p.kind.val, pairs[i].value.1);
      var w := InsertPair(r, st, kx, vx);
      && PairsWrite(sc, fx, r, st, p, pairs, i, n) == PairsWrite(sc, fx, r, w.st, p, pairs, i + 1, n)
      && (w.ok && Live(st, GetMsg(r)) ==>
            AsMap(TableOf(w.st, GetMsg(r), r.fd.number)) == AsMap(TableOf(st, GetMsg(r), r.fd.number))[kx := vx])
  {
    var kd, vd := r.fd.entry.key, r.fd.entry.val;
    LooseLeafWrite(sc, fx, kd, kd.default, st, p.kind.key, pairs[i].value.0);
    LooseLeafWrite(sc, fx, kd, kd.default, [], p.kind.key, pairs[i].value.0);
    LooseLeafWrite(sc, fx, vd, vd.default, st, p.kind.val, pairs[i].value.1);
    LooseLeafWrite(sc, fx, vd, vd.default, [], p.kind.val, pairs[i].value.1);
  }

  /**
   * The set visitor's write of leaf elements: each valid slot resizes the
   * array to its slot index and the write through the element writer is
   * refused, so afterwards every element is an old element or the field
   * default; no slot value is ever stored.
   */
  lemma {:induction false} LeafSetNotStored(sc: Schema, fx: Foreign, r: ProtoReader, st: Store, p: Prop, slots: seq<Option<NValue>>, i: nat, n: nat)
    requires p.kind.PSet? && n <= |slots| && IsLeaf(p.kind.elem.kind)
    requires r.var_.VMsg? && Live(st, r.var_.msg) && r.fd.repeated
    ensures var out := SetElemsWrite(sc, fx, r, st, p, slots, i, n);
      && Live(out, r.var_.msg)
      && forall x :: x in ArrayOf(out, r.var_.msg, r.fd.number) ==> x in ArrayOf(st, r.var_.msg, r.fd.number) || x == r.fd.default
    decreases n - i
  {
    if i < n {
      var st' := if slots[i].Some? then
          var (e, st1) := ElementWriter(r, st, i);
          WriteToPB(sc, fx, e, st1, p.kind.elem, slots[i].value).1
        else st;
      if slots[i].Some? {
        LeafElementWriteRefused(sc, fx, r, st, p.kind.elem, i, slots[i].value);
        assert st' == ElementWriter(r, st, i).1;
      }
      assert Live(st', r.var_.msg);
      forall x | x in ArrayOf(st', r.var_.msg, r.fd.number)
        ensures x in ArrayOf(st, r.var_.msg, r.fd.number) || x == r.fd.default
      {
        var k :| 0 <= k < |ArrayOf(st', r.var_.msg, r.fd.number)| && ArrayOf(st', r.var_.msg, r.fd.number)[k] == x;
        if slots[i].Some? && k >= |ArrayOf(st, r.var_.msg, r.fd.number)| {
          assert x == r.fd.default;
        }
      }
      LeafSetNotStored(sc, fx, r, st', p, slots, i + 1, n);
    }
  }

  // ---------------------------------------------------------------------
  // Null messages. Where the source reaches a null `upb_Message*` and
  // dereferences it, the model's arena treats the null handle as an empty
  // message that ignores writes; these lemmas mark the places.

  /**
   * The value writer `PropToMap` builds for a message-typed map value holds
   * the field's default, a null message: the struct is written into a new
   * sub-message, the attach through `SetFieldMessage` stores nothing, the
   * writer still holds null, and a message-valued pair is never inserted.
   */
  lemma MessageMapValueStaysNull(sc: Schema, fx: Foreign, r: ProtoReader, st: Store, def: StructDef, v: NValue, key: Value)
    requires IsMapField(r)
    requires var vd := r.fd.entry.val; IsSubMessage(vd) && !vd.repeated && !IsMap(vd) && MsgMember(vd.default) == Null
    ensures var w := OnValue(r.fd.entry.val.default, r.fd.entry.val);
      && GetMsg(w) == Null
      && (forall sub :: SetMessage(w, st, sub) == Written(VMsg(Null), st, true))
      && StructToMessage(sc, fx, w, st, def, v).0 == VMsg(Null)
      && !InsertPair(r, st, key, StructToMessage(sc, fx, w, st, def, v).0).ok
  {
  }

  /**
   * An unset message field of a live message reads as a null sub-message,
   * and `MessageToStruct` then reads every field of the sub-message type
   * from that null message, which the model holds empty.
   */
  lemma UnsetSubMessageIsNull(sc: Schema, fx: Foreign, h: Handle, fd: FieldDef, st: Store, def: StructDef, cur: NValue)
    requires Live(st, h) && IsSubMessage(fd) && fd.arrayIdx < 0 && fd.number !in MsgAt(st, h) && MsgMember(fd.default) == Null
    ensures GetSubMessage(OnMessage(h, fd), st) == Null
    ensures forall n :: Field(st, Null, n) == None
    ensures !def.isOneOf ==>
      MessageToStruct(sc, fx, OnMessage(h, fd), st, def, cur) == FieldsToProps(sc, fx, SubDef(sc, fd).fields, Null, st, def, cur, 0)
  {
  }

  /**
   * A one-of holder keeps the parent field's definition but is bound to the
   * held sub-message, so reading it again applies the parent field to the
   * sub-message. When the sub-message has no field of the parent's number,
   * `AsValueImpl` reads the struct from the null message, where reading the
   * struct directly from the parent field reads the sub-message itself,
   * and `IterateKeyValueImpl` reads every field from the null message too.
   */
  lemma HolderRebindsParentField(sc: Schema, fx: Foreign, h: Handle, fd: FieldDef, st: Store, oneOf: StructDef, p: Prop, cur: NValue, out: NValue)
    requires IsSubMessage(fd) && fd.arrayIdx < 0 && MsgMember(fd.default) == Null
    requires oneOf.isOneOf && p.kind.PStruct? && !p.kind.def.isOneOf
    requires fd.number !in MsgAt(st, GetSubMessage(OnMessage(h, fd), st))
    ensures var sub := GetSubMessage(OnMessage(h, fd), st);
      var holder := MessageToStruct(sc, fx, OnMessage(h, fd), st, oneOf, cur);
      && holder == NOneOf(Some(OneOfBox(OnMessage(sub, fd), st, 0)))
      && GetSubMessage(OnMessage(sub, fd), st) == Null
      && Serializer.AsValueImpl(sc, fx, holder, p, out) == (true, FieldsToProps(sc, fx, SubDef(sc, fd).fields, Null, st, p.kind.def, out, 0))
      && MessageToStruct(sc, fx, OnMessage(h, fd), st, p.kind.def, out) == FieldsToProps(sc, fx, SubDef(sc, fd).fields, sub, st, p.kind.def, out, 0)
  {
    var sub := GetSubMessage(OnMessage(h, fd), st);
    assert Field(st, sub, fd.number) == None;
  }
}
