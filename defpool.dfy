/**
 * `FGMPDefPool` and the pool functions: a upb definition pool plus a cache
 * of top-level messages by short name, kept per pool index in a registry
 * (the process-wide pool map, here an explicit object).
 */
module DefPools {
  import opened Kinds
  import opened Upb
  import opened PreGen
  import opened Native

  /**
   * The short-name cache entries of a file's top-level messages, keyed as
   * `FName`s compare (`Native.Folded`): a later message replaces an earlier
   * one whose name differs from it at most in case.
   */
  function NameMap(ms: seq<MessageDef>): map<string, MessageDef>
  {
    if ms == [] then map[] else NameMap(ms[..|ms| - 1])[Folded(ms[|ms| - 1].name) := ms[|ms| - 1]]
  }

  /**
   * A key is cached exactly when some top-level message's name folds to it,
   * and the cached definition is the last message whose name does.
   */
  lemma {:induction false} NameMapLast(ms: seq<MessageDef>, k: string)
    ensures k in NameMap(ms) <==> exists i :: 0 <= i < |ms| && Folded(ms[i].name) == k
    ensures k in NameMap(ms) ==>
      exists i :: 0 <= i < |ms| && Folded(ms[i].name) == k && NameMap(ms)[k] == ms[i] &&
        forall j :: i < j < |ms| ==> Folded(ms[j].name) != k
  {
    if ms != [] {
      var n := |ms| - 1;
      var init := ms[..n];
      var last := Folded(ms[n].name);
      assert NameMap(ms) == NameMap(init)[last := ms[n]];
      assert forall i :: 0 <= i < n ==> ms[i] == init[i];
      NameMapLast(init, k);
      if last == k {
        assert Folded(ms[n].name) == k && NameMap(ms)[k] == ms[n];
      } else if k in NameMap(init) {
        var i :| 0 <= i < n && Folded(init[i].name) == k && NameMap(init)[k] == init[i] &&
          forall j :: i < j < n ==> Folded(init[j].name) != k;
        assert Folded(ms[i].name) == k && NameMap(ms)[k] == ms[i];
      } else {
        assert k !in NameMap(ms);
        forall i | 0 <= i < |ms| ensures Folded(ms[i].name) != k {
          if i < n {
            assert ms[i] == init[i];
          }
        }
      }
    }
  }

  /**
   * Two top-level messages whose names differ only in case share one cache
   * entry, and it is held by a message no earlier than the later of the two.
   */
  lemma NameMapMergesCase(ms: seq<MessageDef>, i: nat, j: nat)
    requires i < j < |ms| && SameName(ms[i].name, ms[j].name)
    ensures Folded(ms[i].name) == Folded(ms[j].name) && Folded(ms[j].name) in NameMap(ms)
    ensures exists k :: j <= k < |ms| && NameMap(ms)[Folded(ms[j].name)] == ms[k]
  {
    SameNameFolded(ms[i].name, ms[j].name);
    var key := Folded(ms[j].name);
    NameMapLast(ms, key);
    var k :| 0 <= k < |ms| && Folded(ms[k].name) == key && NameMap(ms)[key] == ms[k] &&
      forall l :: k < l < |ms| ==> Folded(ms[l].name) != key;
    assert j <= k;
  }

  /** A reflected struct: native (found through the cache, then by name) or defined from a proto (found by full name). */
  datatype StructRef = StructRef(name: string, protoFullName: Option<string>)

  class GmpDefPool {
    const defPool: DefPool
    var msgDefs: map<string, MessageDef>

    constructor ()
      ensures fresh(defPool) && defPool.files == [] && msgDefs == map[]
    {
      defPool := new DefPool();
      msgDefs := map[];
    }

    /**
     * `AddProto`: offers the file to the upb pool and caches the top-level
     * messages of the definition it returns; true when the pool accepted the
     * file. A buffer that failed to parse reaches upb's `AddProto` as a null
     * file proto, whose handling is not part of this model; the model takes
     * it to be refused, with nothing added.
     */
    method AddProto(p: Option<FileProto>) returns (ok: bool)
      modifies this, defPool
      ensures ok <==> p.Some? && old(defPool.Accepts(p.value))
      ensures ok ==> defPool.files == old(defPool.files) + [FileDefOf(p.value)]
      ensures ok ==> msgDefs == old(msgDefs) + NameMap(p.value.messages)
      ensures !ok ==> defPool.files == old(defPool.files) && msgDefs == old(msgDefs)
      ensures ok ==> forall m :: m in p.value.messages ==> FindMessageByStruct(StructRef(m.name, None)).Some?
    {
      if p.None? {
        return false;
      }
      var f := defPool.AddProto(p.value);
      MapProtoName(f);
      ok := f.Some?;
      if ok {
        forall m | m in p.value.messages
          ensures Folded(m.name) in msgDefs
        {
          NameMapLast(p.value.messages, Folded(m.name));
        }
      }
    }

    /** `MapProtoName`: caches every top-level message of the file under its short name, as an `FName`. */
    method MapProtoName(f: Option<FileDef>)
      modifies this
      ensures f.None? ==> msgDefs == old(msgDefs)
      ensures f.Some? ==> msgDefs == old(msgDefs) + NameMap(f.value.messages)
    {
      if f.None? || |f.value.messages| == 0 {
        return;
      }
      var ms := f.value.messages;
      for i := 0 to |ms|
        invariant msgDefs == old(msgDefs) + NameMap(ms[..i])
      {
        assert ms[..i + 1][..i] == ms[..i];
        msgDefs := msgDefs[Folded(ms[i].name) := ms[i]];
      }
      assert ms[..|ms|] == ms;
    }

    /**
     * `FindMessageByStruct`: a proto-defined struct by its full name; a
     * native struct by the short-name cache first, which compares names as
     * `FName`s do, without regard to case, then by its exact name as a full
     * name.
     */
    function FindMessageByStruct(s: StructRef): (r: Option<MessageDef>)
      reads this, defPool
      ensures s.protoFullName.Some? ==> r == defPool.FindMessageByName(s.protoFullName.value)
      ensures s.protoFullName.None? && Folded(s.name) in msgDefs ==> r == Some(msgDefs[Folded(s.name)])
      ensures s.protoFullName.None? && Folded(s.name) !in msgDefs ==> r == defPool.FindMessageByName(s.name)
    {
      if s.protoFullName.Some? then defPool.FindMessageByName(s.protoFullName.value)
      else if Folded(s.name) in msgDefs then Some(msgDefs[Folded(s.name)])
      else defPool.FindMessageByName(s.name)
    }

    /** A native struct whose name differs from a cached one only in case finds the same message. */
    lemma CachedIgnoresCase(a: string, b: string)
      requires SameName(a, b) && Folded(a) in msgDefs
      ensures FindMessageByStruct(StructRef(a, None)) == FindMessageByStruct(StructRef(b, None)) == Some(msgDefs[Folded(a)])
    {
      SameNameFolded(a, b);
    }
  }

  /**
   * Offers every file of a dependencies-first list without repeated names to
   * an empty pool: each one is accepted, because its imports were loaded
   * before it and its name was not.
   */
  method LoadAll(pool: GmpDefPool, list: seq<FileProto>, deps: map<string, seq<string>>)
    requires pool.defPool.files == []
    requires NoDup(Names(list)) && DepsFirst(deps, Names(list))
    requires forall i :: 0 <= i < |list| ==> list[i].name in deps && forall d :: d in list[i].deps ==> d in deps[list[i].name]
    modifies pool, pool.defPool
    ensures |pool.defPool.files| == |list| && forall i :: 0 <= i < |list| ==> pool.defPool.files[i] == FileDefOf(list[i])
  {
    for i := 0 to |list|
      invariant |pool.defPool.files| == i && forall j :: 0 <= j < i ==> pool.defPool.files[j] == FileDefOf(list[j])
    {
      assert pool.defPool.FileNames() == set j | 0 <= j < i :: Names(list)[j] by {
        assert forall j :: 0 <= j < i ==> pool.defPool.files[j].name == Names(list)[j];
      }
      assert Names(list)[i] == list[i].name;
      assert forall d :: d in list[i].deps ==> d in Names(list)[..i];
      var ok := pool.AddProto(Some(list[i]));
    }
  }

  /** The process-wide pool map with the pre-generator it loads from in editor builds. */
  class Registry {
    var pools: map<Byte, GmpDefPool>
    const editor: bool
    const preGen: PreGenerator

    constructor (withEditor: bool)
      ensures pools == map[] && editor == withEditor && fresh(preGen) && preGen.Valid()
    {
      pools := map[];
      editor := withEditor;
      preGen := new PreGenerator();
    }

    function PoolObjects(): set<object>
      reads this
    {
      (set k | k in pools :: pools[k] as object) + (set k | k in pools :: pools[k].defPool as object)
    }

    /** `ResetDefPool`: a new empty pool replaces whatever the index held. */
    method ResetDefPool(idx: Byte) returns (p: GmpDefPool)
      modifies this
      ensures fresh(p) && fresh(p.defPool) && p.defPool.files == [] && p.msgDefs == map[]
      ensures pools == old(pools)[idx := p]
    {
      p := new GmpDefPool();
      pools := pools[idx := p];
    }

    /**
     * `GetDefPool`: the pool at the index; a missing one is created, and in
     * an editor build loaded with every pre-generated file in dependency
     * order, all of which it accepts.
     */
    method GetDefPool(idx: Byte, parsed: seq<Option<FileProto>>, ghost rank: map<string, nat>) returns (p: GmpDefPool)
      requires preGen.Valid()
      requires editor && idx !in pools ==> preGen.CanGenerate(parsed, rank)
      modifies this, preGen
      ensures preGen.Valid()
      ensures idx in old(pools) ==> p == old(pools)[idx] && pools == old(pools) && unchanged(preGen)
      ensures idx !in old(pools) ==> fresh(p) && fresh(p.defPool) && pools == old(pools)[idx := p]
      ensures idx !in old(pools) && !editor ==> p.defPool.files == []
      ensures idx !in old(pools) && editor ==>
        |p.defPool.files| == |preGen.protoMap| &&
        forall n :: n in preGen.protoMap <==> exists i :: 0 <= i < |p.defPool.files| && p.defPool.files[i].name == n
    {
      if idx in pools {
        return pools[idx];
      }
      p := ResetDefPool(idx);
      if editor {
        var list := preGen.GenerateProtoList(parsed, rank);
        assert forall i :: 0 <= i < |list| ==> list[i].name in preGen.protoDeps && forall d :: d in list[i].deps ==> d in preGen.protoDeps[list[i].name];
        LoadAll(p, list, preGen.protoDeps);
        assert forall n :: n in Names(list) <==> exists i :: 0 <= i < |list| && list[i].name == n;
        NoDupCard(Names(list), preGen.protoMap.Keys);
      }
    }

    /** `ClearProtos`: forgets every pool. */
    method ClearProtos()
      modifies this
      ensures pools == map[]
    {
      pools := map[];
    }

    /** `AddProto`: the parse result of the buffer offered to pool 0. */
    method AddProto(parsedBuf: Option<FileProto>, parsed: seq<Option<FileProto>>, ghost rank: map<string, nat>)
      returns (ok: bool, ghost before: seq<FileDef>)
      requires preGen.Valid()
      requires editor && 0 !in pools ==> preGen.CanGenerate(parsed, rank)
      modifies this, preGen, PoolObjects()
      ensures 0 in pools && pools.Keys == old(pools.Keys) + {0}
      ensures ok <==> parsedBuf.Some? && AcceptsIn(before, parsedBuf.value)
      ensures ok ==> pools[0].defPool.files == before + [FileDefOf(parsedBuf.value)]
      ensures !ok ==> pools[0].defPool.files == before
    {
      var p := GetDefPool(0, parsed, rank);
      before := p.defPool.files;
      ok := p.AddProto(parsedBuf);
    }

    /**
     * `AddProtos`: every file of a parsed descriptor set offered to pool 0;
     * true when at least one was accepted, so that the pool grew.
     */
    method AddProtos(protos: seq<FileProto>, parsed: seq<Option<FileProto>>, ghost rank: map<string, nat>)
      returns (ok: bool, ghost before: seq<FileDef>)
      requires preGen.Valid()
      requires editor && 0 !in pools ==> preGen.CanGenerate(parsed, rank)
      modifies this, preGen, PoolObjects()
      ensures 0 in pools && pools.Keys == old(pools.Keys) + {0}
      ensures |before| <= |pools[0].defPool.files| && pools[0].defPool.files[..|before|] == before
      ensures ok <==> |pools[0].defPool.files| > |before|
    {
      var p := GetDefPool(0, parsed, rank);
      before := p.defPool.files;
      var defCnt := 0;
      for i := 0 to |protos|
        invariant |before| + defCnt == |p.defPool.files| && p.defPool.files[..|before|] == before
        invariant pools == old(pools)[0 := p]
      {
        var added := p.AddProto(Some(protos[i]));
        if added {
          defCnt := defCnt + 1;
        }
      }
      ok := defCnt > 0;
    }

    /** The pool-level `FindMessageByStruct`: through pool 0. */
    method FindMessageByStruct(s: StructRef, parsed: seq<Option<FileProto>>, ghost rank: map<string, nat>) returns (r: Option<MessageDef>)
      requires preGen.Valid()
      requires editor && 0 !in pools ==> preGen.CanGenerate(parsed, rank)
      modifies this, preGen
      ensures 0 in pools && r == pools[0].FindMessageByStruct(s)
    {
      var p := GetDefPool(0, parsed, rank);
      r := p.FindMessageByStruct(s);
    }
  }

  /** A list without repeats whose elements are exactly a set has as many elements as the set. */
  lemma {:induction false} NoDupCard(r: seq<string>, s: set<string>)
    requires NoDup(r) && forall x :: x in s <==> x in r
    ensures |r| == |s|
  {
    if r != [] {
      var last := r[|r| - 1];
      var init := r[..|r| - 1];
      assert forall x :: x in init ==> x in r;
      assert last !in init;
      assert forall x :: x in s - {last} <==> x in init by {
        forall x ensures x in s - {last} <==> x in init {
          if x in r && x != last {
            var k :| 0 <= k < |r| && r[k] == x;
            assert k < |r| - 1 && init[k] == x;
          }
        }
      }
      NoDupCard(init, s - {last});
    }
  }
}
