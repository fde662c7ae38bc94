/**
 * The visitors as the source runs them: writers are objects sharing one
 * arena, the container visitors loop over elements, slots, pairs and
 * fields, and every call is proved to do exactly what the corresponding
 * function of `Visit` says. Native values are immutable here: a read
 * returns the property's new value instead of writing through a pointer.
 */
module Visitors {
  import opened Kinds
  import opened Store
  import opened Reader
  import opened Writer
  import opened Upb
  import opened Native
  import opened Coerce
  import V = Visit

  // ---------------------------------------------------------------------
  // Write side.

  /** `Detail::WriteToPB` through `TValueDispatcher<P>::Write`. */
  method WriteToPB(sc: Schema, fx: Foreign, w: ProtoWriter, p: Prop, v: NValue)
    modifies w, w.arena
    ensures (w.var_, w.arena.st) == V.WriteToPB(sc, fx, old(w.Reader()), old(w.arena.st), p, v)
    decreases p, 9
  {
    if p.arrayDim <= 1 {
      WriteVisit(sc, fx, w, p, v);
    }
  }

  /** `TValueVisitor<P>::WriteVisit`. */
  method WriteVisit(sc: Schema, fx: Foreign, w: ProtoWriter, p: Prop, v: NValue)
    modifies w, w.arena
    ensures (w.var_, w.arena.st) == V.WriteVisit(sc, fx, old(w.Reader()), old(w.arena.st), p, v)
    decreases p, 8
  {
    if p.kind.PStruct? {
      StructToMessage(sc, fx, w, p.kind.def, v);
    } else if p.kind.PArray? {
      ArrayWrite(sc, fx, w, p, V.ElemsOf(v));
    } else if p.kind.PSet? {
      if IsArray(w.Reader()) {
        SetWrite(sc, fx, w, p, V.SlotsOf(v));
      }
    } else if p.kind.PMap? {
      if IsMapField(w.Reader()) {
        PropToMap(sc, fx, w, p, V.PairsOf(v));
      }
    } else {
      var a := LeafWrite(fx, p.kind, v);
      if a.ArgNum? {
        var ok := w.SetFieldNum(a.v);
      } else if a.ArgText? {
        var ok := w.SetFieldStr(a.s);
      }
    }
  }

  /** The array visitor's write. */
  method ArrayWrite(sc: Schema, fx: Foreign, w: ProtoWriter, p: Prop, elems: seq<NValue>)
    requires p.kind.PArray?
    modifies w, w.arena
    ensures (w.var_, w.arena.st) == V.ArrayWrite(sc, fx, old(w.Reader()), old(w.arena.st), p, elems)
    decreases p, 7
  {
    if IsBytes(w.Reader()) && V.ByteOrInt8(p.kind.inner) {
      var ok := w.SetFieldBytes(V.BytesOf(elems));
    } else if IsArray(w.Reader()) {
      var i := 0;
      while i < |elems|
        invariant 0 <= i <= |elems|
        invariant w.var_ == old(w.var_)
        invariant V.ElemsWrite(sc, fx, w.Reader(), w.arena.st, p, elems, i)
               == V.ElemsWrite(sc, fx, old(w.Reader()), old(w.arena.st), p, elems, 0)
      {
        var e := w.ArrayElm(i);
        WriteToPB(sc, fx, e, p.kind.inner, elems[i]);
        i := i + 1;
      }
    } else if |elems| > 0 {
      WriteToPB(sc, fx, w, p.kind.inner, elems[0]);
    }
  }

  /** The set visitor's write over a repeated field. */
  method SetWrite(sc: Schema, fx: Foreign, w: ProtoWriter, p: Prop, slots: seq<Option<NValue>>)
    requires p.kind.PSet?
    modifies w.arena
    ensures w.arena.st == V.SetElemsWrite(sc, fx, w.Reader(), old(w.arena.st), p, slots, 0, CountSome(slots))
    decreases p, 6
  {
    var n := CountSome(slots);
    var i := 0;
    while i < n
      invariant 0 <= i <= n
      invariant V.SetElemsWrite(sc, fx, w.Reader(), w.arena.st, p, slots, i, n)
             == V.SetElemsWrite(sc, fx, w.Reader(), old(w.arena.st), p, slots, 0, n)
    {
      if slots[i].Some? {
        var e := w.ArrayElm(i);
        WriteToPB(sc, fx, e, p.kind.elem, slots[i].value);
      }
      i := i + 1;
    }
  }

  /** `PropToMap`: each valid pair is written into a key and a value writer and offered to the map. */
  method PropToMap(sc: Schema, fx: Foreign, w: ProtoWriter, p: Prop, pairs: seq<Option<(NValue, NValue)>>)
    requires p.kind.PMap? && IsMapField(w.Reader())
    modifies w.arena
    ensures w.arena.st == V.PairsWrite(sc, fx, w.Reader(), old(w.arena.st), p, pairs, 0, CountSome(pairs))
    decreases p, 5
  {
    var n := CountSome(pairs);
    var i := 0;
    while i < n
      invariant 0 <= i <= n
      invariant V.PairsWrite(sc, fx, w.Reader(), w.arena.st, p, pairs, i, n)
             == V.PairsWrite(sc, fx, w.Reader(), old(w.arena.st), p, pairs, 0, n)
    {
      if pairs[i].Some? {
        var kw := new ProtoWriter.OnDefault(w.fd.entry.key, w.arena);
        WriteToPB(sc, fx, kw, p.kind.key, pairs[i].value.0);
        var vw := new ProtoWriter.OnDefault(w.fd.entry.val, w.arena);
        WriteToPB(sc, fx, vw, p.kind.val, pairs[i].value.1);
        var ok := w.InsertFieldMapPair(kw.var_, vw.var_);
      }
      i := i + 1;
    }
  }

  /** The struct visitor's `StructToMessage`. */
  method StructToMessage(sc: Schema, fx: Foreign, w: ProtoWriter, def: StructDef, v: NValue)
    modifies w.arena
    ensures w.arena.st == V.StructToMessage(sc, fx, w.Reader(), old(w.arena.st), def, v).1
    decreases def, 9
  {
    if !IsMessage(w.Reader()) || (def.isOneOf && !(v.NOneOf? && v.box.Some?)) {
      return;
    }
    var sub := if def.isOneOf then SubDef(sc, v.box.value.reader.fd) else SubDef(sc, w.fd);
    var h := w.arena.NewMessage();
    PropToField(sc, fx, sub.fields, h, w.arena, def, v);
    var ok := w.SetFieldMessage(h);
  }

  /** `Serializer::PropToField(MsgDef, ...)` into the message `h` of the arena. */
  method PropToField(sc: Schema, fx: Foreign, fields: seq<FieldDef>, h: Handle, arena: Arena, def: StructDef, v: NValue)
    modifies arena
    ensures arena.st == V.PropsToFields(sc, fx, fields, h, old(arena.st), def, v, 0)
    decreases def, 8, 1
  {
    var j := 0;
    while j < |fields|
      invariant 0 <= j <= |fields|
      invariant V.PropsToFields(sc, fx, fields, h, arena.st, def, v, j)
             == V.PropsToFields(sc, fx, fields, h, old(arena.st), def, v, 0)
    {
      WriteField(sc, fx, fields[j], h, arena, def, v);
      j := j + 1;
    }
  }

  /** One turn of the field loop: field `f` is written from the property of the same name, if any. */
  method WriteField(sc: Schema, fx: Foreign, f: FieldDef, h: Handle, arena: Arena, def: StructDef, v: NValue)
    modifies arena
    ensures arena.st == V.FieldWrite(sc, fx, f, h, old(arena.st), def, v)
    decreases def, 8, 0
  {
    var found := FindProp(def.props, f.name);
    if found.Some? {
      var k := found.value;
      var q := def.props[k];
      var e := new ProtoWriter.OnMessage(h, f, arena);
      WriteToPB(sc, fx, e, q, V.FirstSlot(FieldSlots(v, q, k), q));
    }
  }

  // ---------------------------------------------------------------------
  // Read side.

  /** `Detail::ReadFromPB` through `TValueDispatcher<P>::Read`: the property's new slots. */
  method ReadFromPB(sc: Schema, fx: Foreign, r: ProtoReader, st: Store, p: Prop, slots: seq<NValue>) returns (out: seq<NValue>)
    ensures out == V.ReadFromPB(sc, fx, r, st, p, slots)
    decreases p, 9
  {
    if IsArray(r) && !p.kind.PArray? && !p.kind.PSet? {
      var n := V.Clamp(ArraySize(r, st), p.arrayDim);
      out := slots;
      var i := 0;
      while i < n
        invariant 0 <= i <= n
        invariant V.ReadItems(sc, fx, r, st, p, out, i, n) == V.ReadItems(sc, fx, r, st, p, slots, 0, n)
      {
        out := VisitAt(sc, fx, DispatchFieldValue(ArrayElm(r, i), st), st, p, out, i);
        i := i + 1;
      }
    } else {
      out := VisitAt(sc, fx, DispatchFieldValue(r, st), st, p, slots, 0);
    }
  }

  /** The visit of slot `i`: `std::visit` of the visitor on a dispatched value. */
  method VisitAt(sc: Schema, fx: Foreign, d: Dispatched, st: Store, p: Prop, slots: seq<NValue>, i: nat) returns (out: seq<NValue>)
    ensures out == V.VisitAt(sc, fx, d, st, p, slots, i)
    decreases p, 7
  {
    out := slots;
    if i < |slots| {
      var x := ReadVisit(sc, fx, d, st, p, slots[i]);
      out := slots[i := x];
    }
  }

  /** `TValueVisitor<P>::ReadVisit`: the slot's new value. */
  method ReadVisit(sc: Schema, fx: Foreign, d: Dispatched, st: Store, p: Prop, cur: NValue) returns (out: NValue)
    ensures out == V.ReadVisit(sc, fx, d, st, p, cur)
    decreases p, 6, 1
  {
    out := cur;
    match p.kind
    case PStruct(def) =>
      if d.Recurse? {
        out := MessageToStruct(sc, fx, d.reader, st, def, cur);
      } else if d.v.VStr? {
        out := fx.importText(def, fx.fromUtf8(d.v.s), cur);
      }
    case PArray(_) =>
      out := ReadContainer(sc, fx, d, st, p, cur);
    case PSet(_) =>
      out := ReadContainer(sc, fx, d, st, p, cur);
    case PMap(_, _) =>
      out := ReadContainer(sc, fx, d, st, p, cur);
    case _ =>
      if d.Leaf? {
        out := LeafRead(fx, p.kind, d.v, cur);
      }
  }

  /** `ReadVisit` on an array, set or map property: only a reader is visited. */
  method ReadContainer(sc: Schema, fx: Foreign, d: Dispatched, st: Store, p: Prop, cur: NValue) returns (out: NValue)
    requires p.kind.PArray? || p.kind.PSet? || p.kind.PMap?
    ensures out == V.ReadVisit(sc, fx, d, st, p, cur)
    ensures d.Leaf? ==> out == cur
    decreases p, 6, 0
  {
    out := cur;
    if d.Recurse? {
      if p.kind.PArray? {
        out := ArrayRead(sc, fx, d.reader, st, p, cur);
      } else if p.kind.PSet? {
        out := SetRead(sc, fx, d.reader, st, p, cur);
      } else {
        out := MapToProp(sc, fx, d.reader, st, p, cur);
      }
    }
  }

  /** The array visitor's read. */
  method ArrayRead(sc: Schema, fx: Foreign, r: ProtoReader, st: Store, p: Prop, cur: NValue) returns (out: NValue)
    requires p.kind.PArray?
    ensures out == V.ArrayRead(sc, fx, r, st, p, cur)
    decreases p, 5
  {
    var inner := p.kind.inner;
    if IsArray(r) {
      var elems := Resized(V.ElemsOf(cur), ArraySize(r, st), Default(inner));
      ghost var elems0 := elems;
      var i := 0;
      while i < |elems|
        invariant 0 <= i <= |elems| == |elems0|
        invariant V.ElemReads(sc, fx, r, st, p, elems, i) == V.ElemReads(sc, fx, r, st, p, elems0, 0)
      {
        var x := ReadFromPB(sc, fx, ArrayElm(r, i), st, inner, [elems[i]]);
        elems := elems[i := x[0]];
        i := i + 1;
      }
      out := NArray(elems);
    } else {
      var x := ReadFromPB(sc, fx, r, st, inner, [Resized(V.ElemsOf(cur), 1, Default(inner))[0]]);
      out := NArray(x);
    }
  }

  /** The set visitor's read. */
  method SetRead(sc: Schema, fx: Foreign, r: ProtoReader, st: Store, p: Prop, cur: NValue) returns (out: NValue)
    requires p.kind.PSet?
    ensures out == V.SetRead(sc, fx, r, st, p, cur)
    decreases p, 4
  {
    var elem := p.kind.elem;
    if IsArray(r) {
      var n := ArraySize(r, st);
      var acc := V.SlotsOf(cur);
      var i := 0;
      while i < n
        invariant 0 <= i <= n
        invariant V.SetElemReads(sc, fx, r, st, p, acc, i, n) == V.SetElemReads(sc, fx, r, st, p, V.SlotsOf(cur), 0, n)
      {
        var x := ReadFromPB(sc, fx, ArrayElm(r, i), st, elem, [Default(elem)]);
        acc := acc + [Some(x[0])];
        i := i + 1;
      }
      out := NSet(acc);
    } else {
      var x := ReadFromPB(sc, fx, r, st, elem, [Default(elem)]);
      out := NSet([Some(x[0])]);
    }
  }

  /** The map visitor's `MapToProp`. */
  method MapToProp(sc: Schema, fx: Foreign, r: ProtoReader, st: Store, p: Prop, cur: NValue) returns (out: NValue)
    requires p.kind.PMap?
    ensures out == V.MapRead(sc, fx, r, st, p, cur)
    decreases p, 3
  {
    if !IsMapField(r) {
      return cur;
    }
    var es := GetSubMap(r, st);
    var acc: seq<Option<(NValue, NValue)>> := [];
    var i := 0;
    while i < |es|
      invariant 0 <= i <= |es|
      invariant V.PairReads(sc, fx, r.fd.entry, st, p, es, acc, i) == V.PairReads(sc, fx, r.fd.entry, st, p, es, [], 0)
    {
      var k := ReadFromPB(sc, fx, OnValue(es[i].0, r.fd.entry.key), st, p.kind.key, [Default(p.kind.key)]);
      var v := ReadFromPB(sc, fx, OnValue(es[i].1, r.fd.entry.val), st, p.kind.val, [Default(p.kind.val)]);
      acc := acc + [Some((k[0], v[0]))];
      i := i + 1;
    }
    out := NMap(acc);
  }

  /** The struct visitor's `MessageToStruct`. */
  method MessageToStruct(sc: Schema, fx: Foreign, r: ProtoReader, st: Store, def: StructDef, cur: NValue) returns (out: NValue)
    ensures out == V.MessageToStruct(sc, fx, r, st, def, cur)
    decreases def, 9
  {
    if !IsMessage(r) {
      return cur;
    }
    var h := GetSubMessage(r, st);
    if def.isOneOf {
      out := NOneOf(Some(OneOfBox(ProtoReader(r.fd, VMsg(h)), st, 0)));
    } else {
      out := FieldToProp(sc, fx, SubDef(sc, r.fd).fields, h, st, def, cur);
    }
  }

  /** `Deserializer::FieldToProp(MsgDef, ...)`: the struct's new value. */
  method FieldToProp(sc: Schema, fx: Foreign, fields: seq<FieldDef>, h: Handle, st: Store, def: StructDef, cur: NValue) returns (out: NValue)
    ensures out == V.FieldsToProps(sc, fx, fields, h, st, def, cur, 0)
    decreases def, 8, 1
  {
    out := cur;
    var j := 0;
    while j < |fields|
      invariant 0 <= j <= |fields|
      invariant V.FieldsToProps(sc, fx, fields, h, st, def, out, j) == V.FieldsToProps(sc, fx, fields, h, st, def, cur, 0)
    {
      out := ReadField(sc, fx, fields[j], h, st, def, out);
      j := j + 1;
    }
  }

  /** One turn of the field loop: the property named like field `f`, if any, is read from that field. */
  method ReadField(sc: Schema, fx: Foreign, f: FieldDef, h: Handle, st: Store, def: StructDef, cur: NValue) returns (out: NValue)
    ensures out == V.FieldRead(sc, fx, f, h, st, def, cur)
    decreases def, 8, 0
  {
    out := cur;
    var found := FindProp(def.props, f.name);
    if found.Some? {
      var k := found.value;
      var q := def.props[k];
      var slots := ReadFromPB(sc, fx, OnMessage(h, f), st, q, FieldSlots(out, q, k));
      out := WithField(out, k, slots);
    }
  }
}
