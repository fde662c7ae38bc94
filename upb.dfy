/**
 * The parts of upb's descriptor machinery the serializer relies on: parsed
 * file descriptors, message definitions and the definition pool. upb itself
 * is foreign code; this module fixes the behaviour the serializer assumes of
 * it (a file is accepted once, after its dependencies, and top-level
 * messages are found by full name).
 */
module Upb {
  import opened Kinds

  /** A message definition: short name, full name and fields in declaration order. */
  datatype MessageDef = MessageDef(name: string, fullName: string, fields: seq<FieldDef>)

  /**
   * A parsed `google_protobuf_FileDescriptorProto`. `id` stands for the
   * address of the parsed object: every parse of the same bytes yields a
   * new one.
   */
  datatype FileProto = FileProto(id: nat, name: string, deps: seq<string>, messages: seq<MessageDef>)

  /** A file definition built by the pool. */
  datatype FileDef = FileDef(name: string, messages: seq<MessageDef>)

  function FileDefOf(p: FileProto): FileDef { FileDef(p.name, p.messages) }

  /** The names of the files a pool holds. */
  function NamesIn(files: seq<FileDef>): set<string>
  {
    set i | 0 <= i < |files| :: files[i].name
  }

  /** Whether a pool holding `files` accepts `p`: a new file name whose dependencies are all loaded. */
  predicate AcceptsIn(files: seq<FileDef>, p: FileProto)
  {
    p.name !in NamesIn(files) && forall d :: d in p.deps ==> d in NamesIn(files)
  }

  /** The first top-level message named `full` among `files`. */
  function FindIn(files: seq<FileDef>, full: string): (r: Option<MessageDef>)
    ensures r.Some? ==> r.value.fullName == full
    ensures r.None? <==> forall i, j :: 0 <= i < |files| && 0 <= j < |files[i].messages| ==> files[i].messages[j].fullName != full
  {
    if files == [] then None
    else
      match FindMessage(files[0].messages, full)
      case Some(m) => Some(m)
      case None => FindIn(files[1..], full)
  }

  /** `FindIn` answers from the first file holding a message of that name. */
  lemma {:induction false} FindInFirst(files: seq<FileDef>, full: string)
    requires FindIn(files, full).Some?
    ensures exists i :: 0 <= i < |files| && FindMessage(files[i].messages, full) == FindIn(files, full)
                        && forall k :: 0 <= k < i ==> FindMessage(files[k].messages, full).None?
  {
    if FindMessage(files[0].messages, full).Some? {
      assert FindMessage(files[0].messages, full) == FindIn(files, full);
    } else {
      FindInFirst(files[1..], full);
      var i :| 0 <= i < |files[1..]| && FindMessage(files[1..][i].messages, full) == FindIn(files[1..], full)
               && forall k :: 0 <= k < i ==> FindMessage(files[1..][k].messages, full).None?;
      assert FindMessage(files[i + 1].messages, full) == FindIn(files, full);
      forall k | 0 <= k < i + 1 ensures FindMessage(files[k].messages, full).None? {
        if k > 0 { assert files[k] == files[1..][k - 1]; }
      }
    }
  }

  function FindMessage(ms: seq<MessageDef>, full: string): (r: Option<MessageDef>)
    ensures r.Some? ==> r.value.fullName == full && r.value in ms
    ensures r.None? <==> forall j :: 0 <= j < |ms| ==> ms[j].fullName != full
    ensures r.Some? ==> exists j :: 0 <= j < |ms| && ms[j] == r.value && forall k :: 0 <= k < j ==> ms[k].fullName != full
  {
    if ms == [] then None
    else if ms[0].fullName == full then Some(ms[0])
    else FindMessage(ms[1..], full)
  }

  /** `MessageDefPtr::FindFieldByNumber` over a message's fields: the first field with the number. */
  function FindFieldByNumber(fs: seq<FieldDef>, n: int): (r: Option<FieldDef>)
    ensures r.Some? ==> r.value in fs && r.value.number == n
    ensures r.None? <==> forall j :: 0 <= j < |fs| ==> fs[j].number != n
  {
    if fs == [] then None
    else if fs[0].number == n then Some(fs[0])
    else FindFieldByNumber(fs[1..], n)
  }

  /** `upb::DefPool`. */
  class DefPool {
    var files: seq<FileDef>

    constructor ()
      ensures files == []
    {
      files := [];
    }

    function FileNames(): set<string>
      reads this
    {
      NamesIn(files)
    }

    function FindMessageByName(full: string): Option<MessageDef>
      reads this
    {
      FindIn(files, full)
    }

    /** Whether upb accepts `p`: a new file name whose dependencies are all loaded. */
    predicate Accepts(p: FileProto)
      reads this
    {
      AcceptsIn(files, p)
    }

    /**
     * `upb::DefPool::AddProto`: the file definition (and an ok status) when
     * the pool accepts the file, otherwise nothing and an error status.
     */
    method AddProto(p: FileProto) returns (f: Option<FileDef>)
      modifies this
      ensures f.Some? <==> old(Accepts(p))
      ensures f.Some? ==> f.value == FileDefOf(p) && files == old(files) + [FileDefOf(p)]
      ensures f.None? ==> files == old(files)
    {
      if Accepts(p) {
        f := Some(FileDefOf(p));
        files := files + [FileDefOf(p)];
      } else {
        f := None;
      }
    }
  }
}
