/**
 * The contents of a upb arena as the serializer sees them: a sequence of
 * messages addressed by handles. A message maps field numbers to slots; a
 * repeated field's slot is its array and a map field's slot is its table,
 * so an array or map handle is the (message, field number) pair owning it.
 * Unset fields have no slot and read as the declared default.
 */
module Store {
  import opened Kinds

  /**
   * A map's entries in iteration order (upb's hash order is not modelled:
   * entries iterate in the order their keys were first inserted), without
   * repeated keys.
   */
  type Entries = seq<(Value, Value)>

  datatype Slot = One(v: Value) | Many(elems: seq<Value>) | Table(entries: Entries)

  type Msg = map<int, Slot>

  type Store = seq<Msg>

  predicate Live(st: Store, h: Handle) { h.At? && h.index < |st| }

  /** The message a handle points to; a null or dangling handle reads as an empty message. */
  function MsgAt(st: Store, h: Handle): Msg
  {
    if Live(st, h) then st[h.index] else map[]
  }

  /** `upb_Message_New`: a fresh empty message appended to the arena. */
  function NewMsg(st: Store): (r: (Store, Handle))
    ensures Live(r.0, r.1) && MsgAt(r.0, r.1) == map[]
    ensures |r.0| == |st| + 1 && r.0[..|st|] == st
    ensures !Live(st, r.1)
  {
    (st + [map[]], At(|st|))
  }

  /** Writes one slot of one message; a null or dangling handle writes nothing. */
  function SetSlot(st: Store, h: Handle, n: int, s: Slot): (r: Store)
    ensures |r| == |st|
    ensures Live(st, h) ==> n in MsgAt(r, h) && MsgAt(r, h)[n] == s
    ensures OnlySlot(st, r, h, n)
  {
    if Live(st, h) then st[h.index := st[h.index][n := s]] else st
  }

  /** Two messages agree on every field number other than those in `ns`. */
  ghost predicate AgreeExcept(m1: Msg, m2: Msg, ns: set<int>)
  {
    forall k :: k !in ns ==> (k in m1 <==> k in m2) && (k in m1 ==> m1[k] == m2[k])
  }

  /**
   * The frame of a write to fields `ns` of message `h`: the arena only grows,
   * every other existing message is untouched, and `h` keeps its other slots.
   */
  ghost predicate OnlySlots(st: Store, st': Store, h: Handle, ns: set<int>)
  {
    && |st| <= |st'|
    && (forall i :: 0 <= i < |st| && h != At(i) ==> st'[i] == st[i])
    && AgreeExcept(MsgAt(st, h), MsgAt(st', h), ns)
  }

  ghost predicate OnlySlot(st: Store, st': Store, h: Handle, n: int)
  {
    OnlySlots(st, st', h, {n})
  }

  lemma OnlySlotsTrans(st1: Store, st2: Store, st3: Store, h: Handle, ns1: set<int>, ns2: set<int>)
    requires OnlySlots(st1, st2, h, ns1) && OnlySlots(st2, st3, h, ns2)
    requires Live(st1, h) || h.Null?
    ensures OnlySlots(st1, st3, h, ns1 + ns2)
  {
  }

  /** A fresh allocation followed by writes to fresh messages only leaves every older message untouched. */
  predicate Grows(st: Store, st': Store)
  {
    |st| <= |st'| && st'[..|st|] == st
  }

  /** The slot of field `n`, if set. */
  function Field(st: Store, h: Handle, n: int): Option<Slot>
  {
    var m := MsgAt(st, h);
    if n in m then Some(m[n]) else None
  }

  /** `upb_Message_GetArray(...)->data`: the elements of a repeated field (none when the array is absent). */
  function ArrayOf(st: Store, h: Handle, n: int): seq<Value>
  {
    match Field(st, h, n)
    case Some(Many(e)) => e
    case _ => []
  }

  /** The entries of a map field (none when the map is absent). */
  function TableOf(st: Store, h: Handle, n: int): Entries
  {
    match Field(st, h, n)
    case Some(Table(e)) => e
    case _ => []
  }

  /** The key-to-value mapping a list of entries stands for. */
  function AsMap(e: Entries): map<Value, Value>
  {
    if e == [] then map[] else AsMap(e[1..])[e[0].0 := e[0].1]
  }

  /** The keys of a list of entries. */
  function Keys(e: Entries): (ks: seq<Value>)
    ensures |ks| == |e| && forall i :: 0 <= i < |e| ==> ks[i] == e[i].0
  {
    if e == [] then [] else [e[0].0] + Keys(e[1..])
  }

  predicate Distinct(ks: seq<Value>)
  {
    forall i, j :: 0 <= i < j < |ks| ==> ks[i] != ks[j]
  }

  /**
   * `upb_Map_Insert` on an entry list: an existing key keeps its place and
   * takes the new value; a new key is appended.
   */
  function Upsert(e: Entries, k: Value, v: Value): (r: Entries)
    ensures |r| == |e| || r == e + [(k, v)]
  {
    if e == [] then [(k, v)]
    else if e[0].0 == k then [(k, v)] + e[1..]
    else
      assert (e + [(k, v)]) == [e[0]] + (e[1..] + [(k, v)]);
      [e[0]] + Upsert(e[1..], k, v)
  }

  /** After an upsert the entries map `k` to `v` and every other key as before. */
  lemma {:induction false} UpsertMap(e: Entries, k: Value, v: Value)
    ensures AsMap(Upsert(e, k, v)) == AsMap(e)[k := v]
  {
    if e != [] && e[0].0 != k {
      UpsertMap(e[1..], k, v);
      assert Upsert(e, k, v)[1..] == Upsert(e[1..], k, v);
    }
  }

  /** An upsert adds exactly `k` to the keys; it appends only a new key. */
  lemma {:induction false} UpsertKeys(e: Entries, k: Value, v: Value)
    ensures forall x :: x in Keys(Upsert(e, k, v)) <==> x in Keys(e) || x == k
    ensures k in Keys(e) ==> |Upsert(e, k, v)| == |e|
    ensures k !in Keys(e) ==> Upsert(e, k, v) == e + [(k, v)]
  {
    if e != [] {
      assert Keys(e) == [e[0].0] + Keys(e[1..]);
      if e[0].0 != k {
        UpsertKeys(e[1..], k, v);
        var r := Upsert(e, k, v);
        assert r[1..] == Upsert(e[1..], k, v);
        assert Keys(r) == [e[0].0] + Keys(r[1..]);
      } else {
        assert Keys(Upsert(e, k, v)) == [k] + Keys(e[1..]);
      }
    }
  }

  /** Upserting keeps the keys of an entry list distinct. */
  lemma {:induction false} UpsertDistinct(e: Entries, k: Value, v: Value)
    requires Distinct(Keys(e))
    ensures Distinct(Keys(Upsert(e, k, v)))
  {
    if e != [] && e[0].0 != k {
      var rest := e[1..];
      assert Distinct(Keys(rest)) by {
        forall i, j | 0 <= i < j < |Keys(rest)| ensures Keys(rest)[i] != Keys(rest)[j] {
          assert Keys(rest)[i] == Keys(e)[i + 1] && Keys(rest)[j] == Keys(e)[j + 1];
        }
      }
      UpsertDistinct(rest, k, v);
      UpsertKeys(rest, k, v);
      var r := Upsert(e, k, v);
      assert r[1..] == Upsert(rest, k, v);
      assert e[0].0 !in Keys(rest) by {
        forall i | 0 <= i < |Keys(rest)| ensures Keys(rest)[i] != e[0].0 {
          assert Keys(rest)[i] == Keys(e)[i + 1] && Keys(e)[0] == e[0].0;
        }
      }
      assert e[0].0 !in Keys(Upsert(rest, k, v));
      forall i, j | 0 <= i < j < |Keys(r)| ensures Keys(r)[i] != Keys(r)[j] {
        if i == 0 {
          assert Keys(r)[j] == Keys(Upsert(rest, k, v))[j - 1];
        } else {
          assert Keys(r)[i] == Keys(Upsert(rest, k, v))[i - 1] && Keys(r)[j] == Keys(Upsert(rest, k, v))[j - 1];
        }
      }
    }
  }

  /** `fill` repeated `k` times. */
  function Fill<T>(fill: T, k: nat): (r: seq<T>)
    ensures |r| == k && forall i :: 0 <= i < k ==> r[i] == fill
  {
    if k == 0 then [] else Fill(fill, k - 1) + [fill]
  }

  /** An array resized to `size`: truncated, or extended with `fill`. */
  function Resized<T>(e: seq<T>, size: nat, fill: T): (r: seq<T>)
    ensures |r| == size
    ensures forall i :: 0 <= i < size && i < |e| ==> r[i] == e[i]
    ensures forall i :: |e| <= i < size ==> r[i] == fill
  {
    if size <= |e| then e[..size] else e + Fill(fill, size - |e|)
  }

  /**
   * `upb_Message_ResizeArrayUninitialized`: gets or creates the array of
   * field `n` and sets its size. New elements are uninitialised memory,
   * modelled as `fill`.
   */
  function ResizeArray(st: Store, h: Handle, n: int, size: nat, fill: Value): (r: Store)
    ensures Live(st, h) ==> ArrayOf(r, h, n) == Resized(ArrayOf(st, h, n), size, fill)
    ensures Live(st, h) ==> Field(r, h, n).Some? && Field(r, h, n).value.Many?
    ensures OnlySlot(st, r, h, n) && |r| == |st|
  {
    SetSlot(st, h, n, Many(Resized(ArrayOf(st, h, n), size, fill)))
  }

  /** Overwrites element `i` of the array of field `n`, if it exists. */
  function SetElement(st: Store, h: Handle, n: int, i: nat, v: Value): (r: Store)
    ensures i < |ArrayOf(st, h, n)| ==> ArrayOf(r, h, n) == ArrayOf(st, h, n)[i := v]
    ensures i >= |ArrayOf(st, h, n)| ==> r == st
    ensures OnlySlot(st, r, h, n) && |r| == |st|
  {
    var e := ArrayOf(st, h, n);
    if i < |e| then SetSlot(st, h, n, Many(e[i := v])) else st
  }

  /** `upb_Map_Insert` on the map of field `n`, creating the map if absent. */
  function MapInsert(st: Store, h: Handle, n: int, k: Value, v: Value): (r: Store)
    ensures Live(st, h) ==> TableOf(r, h, n) == Upsert(TableOf(st, h, n), k, v)
    ensures Live(st, h) ==> AsMap(TableOf(r, h, n)) == AsMap(TableOf(st, h, n))[k := v]
    ensures OnlySlot(st, r, h, n) && |r| == |st|
  {
    UpsertMap(TableOf(st, h, n), k, v);
    SetSlot(st, h, n, Table(Upsert(TableOf(st, h, n), k, v)))
  }
}
