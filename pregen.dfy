/**
 * `FPreGenerator` (editor builds): records every generated descriptor file
 * as it registers itself, then orders the recorded files so that each comes
 * after the files it imports, and loads them into a pool in that order.
 *
 * Parsing is foreign: each operation receives the parse result of its
 * buffer (`None` when parsing fails).
 */
module PreGen {
  import opened Kinds
  import opened Upb

  // ---------------------------------------------------------------------
  // The recorded tables and what `PreAddProto` does to them.

  /**
   * `ProtoNames` (parsed object → name), `ProtoMap` (name → parsed object),
   * `ProtoDescs` (parsed object → descriptor bytes) and `ProtoDeps` (name →
   * dependency names).
   */
  datatype Tables = Tables(
    names: map<nat, string>,
    protos: map<string, FileProto>,
    descs: map<nat, seq<Byte>>,
    deps: map<string, seq<string>>)

  const NoTables := Tables(map[], map[], map[], map[])

  /**
   * The tables agree with each other: the name and dependency tables have
   * the same keys, every name maps to a parsed file of that name whose bytes
   * are recorded, and every file's imports are among its name's dependencies.
   */
  predicate Consistent(t: Tables)
  {
    && t.protos.Keys == t.deps.Keys
    && t.names.Keys == t.descs.Keys
    && (forall id :: id in t.names ==> t.names[id] in t.protos)
    && (forall n :: n in t.protos ==>
          && t.protos[n].name == n
          && t.protos[n].id in t.names
          && t.names[t.protos[n].id] == n
          && forall d :: d in t.protos[n].deps ==> d in t.deps[n])
  }

  function DepsOf(deps: map<string, seq<string>>, n: string): seq<string>
  {
    if n in deps then deps[n] else []
  }

  /**
   * `PreAddProto`: a parsed file not seen before is recorded under its name
   * (replacing an earlier file of that name) and its imports are appended to
   * the name's dependency list; a failed parse or a file already seen
   * changes nothing and reports false.
   */
  function PreAdd(t: Tables, p: Option<FileProto>, buf: seq<Byte>): (r: (Tables, bool))
    ensures r.1 <==> p.Some? && p.value.id !in t.names
    ensures !r.1 ==> r.0 == t
    ensures r.1 ==>
      && r.0.names == t.names[p.value.id := p.value.name]
      && r.0.protos == t.protos[p.value.name := p.value]
      && r.0.descs == t.descs[p.value.id := buf]
      && r.0.deps == t.deps[p.value.name := DepsOf(t.deps, p.value.name) + p.value.deps]
    ensures Consistent(t) ==> Consistent(r.0)
  {
    if p.Some? && p.value.id !in t.names then
      var q := p.value;
      (Tables(t.names[q.id := q.name], t.protos[q.name := q], t.descs[q.id := buf],
              t.deps[q.name := DepsOf(t.deps, q.name) + q.deps]), true)
    else
      (t, false)
  }

  /** The tables after `PreAddProto` of every buffer in order. */
  function PreAddAll(t: Tables, ps: seq<Option<FileProto>>, bufs: seq<seq<Byte>>): (r: Tables)
    requires |ps| == |bufs|
    ensures Consistent(t) ==> Consistent(r)
  {
    if ps == [] then t
    else PreAdd(PreAddAll(t, ps[..|ps| - 1], bufs[..|bufs| - 1]), ps[|ps| - 1], bufs[|bufs| - 1]).0
  }

  /** Re-adding a file already recorded (the same parsed object) changes nothing. */
  lemma PreAddIdempotent(t: Tables, p: Option<FileProto>, buf: seq<Byte>, buf2: seq<Byte>)
    requires PreAdd(t, p, buf).1
    ensures var t1 := PreAdd(t, p, buf).0; PreAdd(t1, p, buf2) == (t1, false)
  {
  }

  /**
   * Each `PreAddProto` parses its buffer afresh, so the same buffer queued
   * again is a new parsed object: it is recorded again, and its imports are
   * appended to its name's dependencies a second time.
   */
  lemma ReparseReappends(t: Tables, p: FileProto, q: FileProto, buf: seq<Byte>)
    requires p.id !in t.names && q.id !in t.names && q.id != p.id
    requires q.name == p.name && q.deps == p.deps
    ensures var t1 := PreAdd(t, Some(p), buf).0;
      var r := PreAdd(t1, Some(q), buf);
      && r.1
      && r.0.protos[p.name] == q
      && r.0.deps[p.name] == DepsOf(t.deps, p.name) + p.deps + p.deps
  {
  }

  // ---------------------------------------------------------------------
  // Dependency ordering.

  /** Every name occurs once. */
  predicate NoDup(r: seq<string>)
  {
    forall i, j :: 0 <= i < j < |r| ==> r[i] != r[j]
  }

  /** Every dependency of a listed name is listed before it. */
  predicate DepsFirst(deps: map<string, seq<string>>, r: seq<string>)
  {
    forall i :: 0 <= i < |r| && r[i] in deps ==> forall d :: d in deps[r[i]] ==> d in r[..i]
  }

  /**
   * Every dependency is itself recorded and has a smaller rank than the name
   * depending on it: the table is closed and acyclic.
   */
  ghost predicate Ranked(deps: map<string, seq<string>>, rank: map<string, nat>)
  {
    forall n :: n in deps ==> n in rank && forall d :: d in deps[n] ==> d in deps && d in rank && rank[d] < rank[n]
  }

  /**
   * `AddProtoImpl`: appends `name` after appending, depth first, each of its
   * dependencies; a name already in `results` leaves them unchanged. On a
   * closed acyclic table the result extends `results`, lists `name` once,
   * and keeps every dependency ahead of the name needing it.
   */
  method AddProtoImpl(deps: map<string, seq<string>>, ghost rank: map<string, nat>, results: seq<string>, name: string)
    returns (r: seq<string>)
    requires Ranked(deps, rank) && name in deps
    requires NoDup(results) && DepsFirst(deps, results) && forall x :: x in results ==> x in deps
    ensures name in r
    ensures name in results ==> r == results
    ensures |results| <= |r| && r[..|results|] == results
    ensures NoDup(r) && DepsFirst(deps, r) && forall x :: x in r ==> x in deps
    ensures forall j :: |results| <= j < |r| ==> rank[r[j]] <= rank[name]
    decreases rank[name]
  {
    if name in results {
      return results;
    }
    var names := deps[name];
    r := results;
    for i := 0 to |names|
      invariant NoDup(r) && DepsFirst(deps, r) && forall x :: x in r ==> x in deps
      invariant |results| <= |r| && r[..|results|] == results
      invariant forall j :: 0 <= j < i ==> names[j] in r
      invariant forall j :: |results| <= j < |r| ==> rank[r[j]] < rank[name]
    {
      var r' := AddProtoImpl(deps, rank, r, names[i]);
      assert forall x :: x in r ==> x in r' by {
        assert r'[..|r|] == r;
        forall x | x in r ensures x in r' {
          var k :| 0 <= k < |r| && r[k] == x;
          assert r'[k] == x;
        }
      }
      assert r'[..|results|] == r'[..|r|][..|results|];
      r := r';
    }
    assert name !in r by {
      forall j | 0 <= j < |r| ensures r[j] != name {
        if j < |results| {
          assert r[j] == results[j];
        }
      }
    }
    var r0 := r;
    r := r + [name];
    assert r[..|r0|] == r0;
    assert forall i :: 0 <= i < |r0| ==> r[..i] == r0[..i];
  }

  /**
   * The second half of `GenerateProtoList`: `AddProtoImpl` on every key of
   * the dependency table, in any order, lists every key exactly once with
   * dependencies first.
   */
  method OrderAll(deps: map<string, seq<string>>, ghost rank: map<string, nat>) returns (results: seq<string>)
    requires Ranked(deps, rank)
    ensures NoDup(results) && DepsFirst(deps, results)
    ensures forall n :: n in deps <==> n in results
  {
    results := [];
    var todo := deps.Keys;
    while todo != {}
      invariant todo <= deps.Keys
      invariant forall k :: k in deps && k !in todo ==> k in results
      invariant NoDup(results) && DepsFirst(deps, results) && forall x :: x in results ==> x in deps
      decreases |todo|
    {
      var k :| k in todo;
      results := AddProtoImpl(deps, rank, results, k);
      todo := todo - {k};
    }
  }

  /** `ProtoMap.FindChecked` of every listed name. */
  method Lookup(protoMap: map<string, FileProto>, names: seq<string>) returns (ret: seq<FileProto>)
    requires forall x :: x in names ==> x in protoMap
    ensures |ret| == |names| && forall i :: 0 <= i < |names| ==> ret[i] == protoMap[names[i]]
  {
    ret := [];
    for i := 0 to |names|
      invariant |ret| == i && forall j :: 0 <= j < i ==> ret[j] == protoMap[names[j]]
    {
      ret := ret + [protoMap[names[i]]];
    }
  }

  // ---------------------------------------------------------------------
  // The pre-generator object.

  class PreGenerator {
    var descriptors: seq<seq<Byte>>
    var protoNames: map<nat, string>
    var protoMap: map<string, FileProto>
    var protoDescs: map<nat, seq<Byte>>
    var protoDeps: map<string, seq<string>>

    function Tabled(): Tables
      reads this
    {
      Tables(protoNames, protoMap, protoDescs, protoDeps)
    }

    ghost predicate Valid()
      reads this
    {
      Consistent(Tabled())
    }

    constructor ()
      ensures Valid() && Tabled() == NoTables && descriptors == []
    {
      descriptors := [];
      protoNames := map[];
      protoMap := map[];
      protoDescs := map[];
      protoDeps := map[];
    }

    /** `PreAddProtoDesc`: queues descriptor bytes for the next list generation. */
    method PreAddProtoDesc(buf: seq<Byte>)
      modifies this
      ensures descriptors == old(descriptors) + [buf] && Tabled() == old(Tabled())
    {
      descriptors := descriptors + [buf];
    }

    /** `PreAddProto`, given the parse result `p` of `buf`. */
    method PreAddProto(p: Option<FileProto>, buf: seq<Byte>) returns (ok: bool)
      modifies this
      ensures (Tabled(), ok) == PreAdd(old(Tabled()), p, buf)
      ensures descriptors == old(descriptors)
    {
      if p.None? || p.value.id in protoNames {
        return false;
      }
      var q := p.value;
      protoDescs := protoDescs[q.id := buf];
      protoNames := protoNames[q.id := q.name];
      protoMap := protoMap[q.name := q];
      var arr := DepsOf(protoDeps, q.name);
      ghost var arr0 := arr;
      for i := 0 to |q.deps|
        invariant arr == arr0 + q.deps[..i]
      {
        arr := arr + [q.deps[i]];
      }
      assert q.deps[..|q.deps|] == q.deps;
      protoDeps := protoDeps[q.name := arr];
      ok := true;
    }

    /** `Reset`: forgets every queued and recorded file. */
    method Reset()
      modifies this
      ensures Tabled() == NoTables && descriptors == []
    {
      descriptors := [];
      protoNames := map[];
      protoMap := map[];
      protoDescs := map[];
      protoDeps := map[];
    }

    /** What list generation needs: re-adding the queued buffers leaves a closed, acyclic table. */
    ghost predicate CanGenerate(parsed: seq<Option<FileProto>>, rank: map<string, nat>)
      reads this
    {
      |parsed| == |descriptors| && Ranked(PreAddAll(Tabled(), parsed, descriptors).deps, rank)
    }

    /**
     * `GenerateProtoList`, given the parse result of every queued buffer:
     * re-adds the queued buffers, then lists every recorded file exactly once
     * with each file's dependencies ahead of it. The map is iterated in an
     * order this model leaves open.
     */
    method GenerateProtoList(parsed: seq<Option<FileProto>>, ghost rank: map<string, nat>)
      returns (ret: seq<FileProto>)
      requires Valid() && CanGenerate(parsed, rank)
      modifies this
      ensures Valid() && descriptors == old(descriptors)
      ensures Tabled() == PreAddAll(old(Tabled()), parsed, descriptors)
      ensures forall i :: 0 <= i < |ret| ==> ret[i].name in protoMap && protoMap[ret[i].name] == ret[i]
      ensures NoDup(Names(ret)) && DepsFirst(protoDeps, Names(ret))
      ensures forall n :: n in protoMap <==> n in Names(ret)
    {
      ReAddAll(parsed);
      var results := OrderAll(protoDeps, rank);
      assert protoMap.Keys == protoDeps.Keys;
      ret := Lookup(protoMap, results);
      assert Names(ret) == results;
    }

    /** The first half of `GenerateProtoList`: `PreAddProto` of every queued buffer, in order. */
    method ReAddAll(parsed: seq<Option<FileProto>>)
      requires Valid() && |parsed| == |descriptors|
      modifies this
      ensures Valid() && descriptors == old(descriptors)
      ensures Tabled() == PreAddAll(old(Tabled()), parsed, descriptors)
    {
      ghost var t0 := Tabled();
      for i := 0 to |descriptors|
        invariant descriptors == old(descriptors)
        invariant Tabled() == PreAddAll(t0, parsed[..i], descriptors[..i])
        invariant Valid()
      {
        assert parsed[..i + 1][..i] == parsed[..i];
        assert descriptors[..i + 1][..i] == descriptors[..i];
        var _ := PreAddProto(parsed[i], descriptors[i]);
      }
      assert parsed[..|descriptors|] == parsed && descriptors[..|descriptors|] == descriptors;
    }

    /**
     * `FillDefPool`: generates the list and offers each file to `pool` in
     * that order; the definitions the pool accepts are returned and their
     * descriptor bytes recorded in `outMap` under the file's name. `list` is
     * the generated list.
     */
    method FillDefPool(pool: DefPool, outMap: map<string, seq<Byte>>, parsed: seq<Option<FileProto>>, ghost rank: map<string, nat>)
      returns (fileDefs: seq<FileDef>, outMap': map<string, seq<Byte>>, list: seq<FileProto>)
      requires Valid() && CanGenerate(parsed, rank)
      modifies this, pool
      ensures Valid() && descriptors == old(descriptors)
      ensures Tabled() == PreAddAll(old(Tabled()), parsed, descriptors)
      ensures forall i :: 0 <= i < |list| ==> list[i].name in protoMap && protoMap[list[i].name] == list[i]
      ensures NoDup(Names(list)) && DepsFirst(protoDeps, Names(list))
      ensures forall n :: n in protoMap <==> n in Names(list)
      ensures forall p :: p in list ==> p.id in protoDescs
      ensures fileDefs == Defs(Offered(old(pool.files), list))
      ensures pool.files == old(pool.files) + fileDefs
      ensures outMap' == Recorded(outMap, Offered(old(pool.files), list), protoDescs)
      ensures old(pool.files) == [] ==> fileDefs == Defs(list)
    {
      list := GenerateProtoList(parsed, rank);
      assert forall p :: p in list ==> p.id in protoDescs;
      ghost var files0 := pool.files;
      fileDefs, outMap' := OfferAll(pool, outMap, list, protoDescs);
      if files0 == [] {
        AllOffered(list, protoDeps);
      }
    }
  }

  /**
   * The loop of `FillDefPool`: offers each file of `list` to `pool` in
   * order, collecting the accepted definitions and recording each accepted
   * file's descriptor bytes under its name.
   */
  method OfferAll(pool: DefPool, outMap: map<string, seq<Byte>>, list: seq<FileProto>, descs: map<nat, seq<Byte>>)
    returns (fileDefs: seq<FileDef>, outMap': map<string, seq<Byte>>)
    requires forall p :: p in list ==> p.id in descs
    modifies pool
    ensures fileDefs == Defs(Offered(old(pool.files), list))
    ensures pool.files == old(pool.files) + fileDefs
    ensures outMap' == Recorded(outMap, Offered(old(pool.files), list), descs)
  {
    ghost var files0 := pool.files;
    ghost var acc: seq<FileProto> := [];
    fileDefs := [];
    outMap' := outMap;
    for i := 0 to |list|
      invariant acc == Offered(files0, list[..i])
      invariant forall p :: p in acc ==> p.id in descs
      invariant fileDefs == Defs(acc)
      invariant pool.files == files0 + fileDefs
      invariant outMap' == Recorded(outMap, acc, descs)
    {
      OfferedStep(files0, list, i);
      acc, fileDefs, outMap' := OfferNext(pool, list[i], descs, files0, acc, fileDefs, outMap, outMap');
    }
    assert list[..|list|] == list;
  }

  /** One turn of `OfferAll`: offers `p` to `pool` and, when accepted, records it. */
  method OfferNext(pool: DefPool, p: FileProto, descs: map<nat, seq<Byte>>, ghost files0: seq<FileDef>, ghost acc: seq<FileProto>,
                   fileDefs: seq<FileDef>, ghost outMap: map<string, seq<Byte>>, outMap': map<string, seq<Byte>>)
    returns (ghost acc': seq<FileProto>, fileDefs': seq<FileDef>, outMap'': map<string, seq<Byte>>)
    requires p.id in descs && forall q :: q in acc ==> q.id in descs
    requires fileDefs == Defs(acc) && pool.files == files0 + fileDefs && outMap' == Recorded(outMap, acc, descs)
    modifies pool
    ensures acc' == if AcceptsIn(files0 + Defs(acc), p) then acc + [p] else acc
    ensures forall q :: q in acc' ==> q.id in descs
    ensures fileDefs' == Defs(acc') && pool.files == files0 + fileDefs' && outMap'' == Recorded(outMap, acc', descs)
  {
    acc', fileDefs', outMap'' := acc, fileDefs, outMap';
    var f := pool.AddProto(p);
    if f.Some? {
      DefsSnoc(acc, p);
      RecordedSnoc(outMap, acc, p, descs);
      acc' := acc + [p];
      fileDefs' := fileDefs + [f.value];
      outMap'' := outMap'[f.value.name := descs[p.id]];
    }
  }

  /** Offering the next file of `list` appends it to the accepted files exactly when the pool accepts it. */
  lemma OfferedStep(files: seq<FileDef>, list: seq<FileProto>, i: nat)
    requires i < |list|
    ensures var prev := Offered(files, list[..i]);
      Offered(files, list[..i + 1]) == if AcceptsIn(files + Defs(prev), list[i]) then prev + [list[i]] else prev
  {
    assert list[..i + 1][..i] == list[..i];
  }

  /** `Defs` of one more file appends that file's definition. */
  lemma DefsSnoc(ps: seq<FileProto>, p: FileProto)
    ensures Defs(ps + [p]) == Defs(ps) + [FileDefOf(p)]
  {
    assert (ps + [p])[..|ps|] == ps;
  }

  /** `Recorded` of one more file records that file's descriptor last. */
  lemma RecordedSnoc(m: map<string, seq<Byte>>, ps: seq<FileProto>, p: FileProto, descs: map<nat, seq<Byte>>)
    requires p.id in descs && forall q :: q in ps ==> q.id in descs
    ensures Recorded(m, ps + [p], descs) == Recorded(m, ps, descs)[p.name := descs[p.id]]
  {
    assert (ps + [p])[..|ps|] == ps;
  }

  /** The file definitions built from parsed files, in order. */
  function Defs(ps: seq<FileProto>): (r: seq<FileDef>)
    ensures |r| == |ps| && forall i :: 0 <= i < |ps| ==> r[i] == FileDefOf(ps[i])
  {
    if ps == [] then [] else Defs(ps[..|ps| - 1]) + [FileDefOf(ps[|ps| - 1])]
  }

  /** The files of `list` a pool holding `files` accepts when offered them in order. */
  function Offered(files: seq<FileDef>, list: seq<FileProto>): (r: seq<FileProto>)
    ensures forall p :: p in r ==> p in list
  {
    if list == [] then []
    else
      var prev := Offered(files, list[..|list| - 1]);
      var p := list[|list| - 1];
      if AcceptsIn(files + Defs(prev), p) then prev + [p] else prev
  }

  /** `outMap` after recording the descriptor bytes of each file under its name, in order. */
  function Recorded(m: map<string, seq<Byte>>, ps: seq<FileProto>, descs: map<nat, seq<Byte>>): (r: map<string, seq<Byte>>)
    requires forall p :: p in ps ==> p.id in descs
    ensures forall p :: p in ps ==> p.name in r
    ensures forall n :: n in m && n !in Names(ps) ==> n in r && r[n] == m[n]
  {
    if ps == [] then m
    else
      var last := ps[|ps| - 1];
      assert forall p :: p in ps[..|ps| - 1] ==> p in ps;
      Recorded(m, ps[..|ps| - 1], descs)[last.name := descs[last.id]]
  }

  /** A pool built from `ps` holds exactly the names of `ps`. */
  lemma NamesInDefs(ps: seq<FileProto>, x: string)
    ensures x in NamesIn([] + Defs(ps)) <==> x in Names(ps)
  {
    var fs := [] + Defs(ps);
    assert fs == Defs(ps);
    if x in Names(ps) {
      var k :| 0 <= k < |ps| && Names(ps)[k] == x;
      assert fs[k].name == x;
    }
    if x in NamesIn(fs) {
      var k :| 0 <= k < |fs| && fs[k].name == x;
      assert Names(ps)[k] == x;
    }
  }

  /**
   * A generated list, offered to an empty pool, is accepted in full: names
   * are distinct and every import is listed, and therefore loaded, before
   * the file importing it.
   */
  lemma {:induction false} AllOffered(list: seq<FileProto>, deps: map<string, seq<string>>)
    requires NoDup(Names(list)) && DepsFirst(deps, Names(list))
    requires forall i :: 0 <= i < |list| ==> list[i].name in deps && forall d :: d in list[i].deps ==> d in deps[list[i].name]
    ensures Offered([], list) == list
  {
    if list != [] {
      var n := |list| - 1;
      var init := list[..n];
      var p := list[n];
      assert Names(init) == Names(list)[..n];
      assert NoDup(Names(init)) && DepsFirst(deps, Names(init)) by {
        forall i | 0 <= i < n && init[i].name in deps ensures forall d :: d in deps[init[i].name] ==> d in Names(init)[..i] {
          assert Names(init)[..i] == Names(list)[..i];
        }
      }
      AllOffered(init, deps);
      assert p.name !in NamesIn([] + Defs(init)) by {
        NamesInDefs(init, p.name);
        assert p.name == Names(list)[n];
      }
      forall d | d in p.deps ensures d in NamesIn([] + Defs(init)) {
        NamesInDefs(init, d);
        assert d in Names(list)[..n];
      }
      assert AcceptsIn([] + Defs(init), p);
    }
  }

  function Names(ps: seq<FileProto>): (r: seq<string>)
    ensures |r| == |ps| && forall i :: 0 <= i < |ps| ==> r[i] == ps[i].name
  {
    if ps == [] then [] else Names(ps[..|ps| - 1]) + [ps[|ps| - 1].name]
  }
}
