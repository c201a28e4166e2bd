/**
  The bookkeeping of a multi-file upload: entries are registered as files arrive, and the stream
  callbacks of all files then interleave.
 */
module Uploads {

  datatype Entry = Entry(id: nat, fileSize: nat, authTag: string)

  datatype Event =
    | File                             // a file of an allowed type starts
    | Data(id: nat, length: nat)       // a chunk of it has passed
    | CipherEnd(id: nat, tag: string)  // its cipher has ended

  // ---------- The entries ----------

  /** getMaxIdFromObjectArray */
  function MaxId(uploads: seq<Entry>): nat {
    if uploads == [] then 0
    else
      var rest := MaxId(uploads[1..]);
      if uploads[0].id >= rest then uploads[0].id else rest
  }

  /** `uploads.find`, rewritten in place: the first entry with the id, if there is one. */
  function UpdateFirst(uploads: seq<Entry>, id: nat, f: Entry -> Entry): seq<Entry> {
    if uploads == [] then []
    else if uploads[0].id == id then [f(uploads[0])] + uploads[1..]
    else [uploads[0]] + UpdateFirst(uploads[1..], id, f)
  }

  function Grow(length: nat): Entry -> Entry { (e: Entry) => e.(fileSize := e.fileSize + length) }

  function Tag(tag: string): Entry -> Entry { (e: Entry) => e.(authTag := tag) }

  function Apply(uploads: seq<Entry>, e: Event): seq<Entry> {
    match e
    case File => uploads + [Entry(MaxId(uploads) + 1, 0, "")]
    case Data(id, length) => UpdateFirst(uploads, id, Grow(length))
    case CipherEnd(id, tag) => UpdateFirst(uploads, id, Tag(tag))
  }

  function Run(uploads: seq<Entry>, es: seq<Event>): seq<Entry>
    decreases |es|
  {
    if es == [] then uploads else Run(Apply(uploads, es[0]), es[1..])
  }

  // ---------- Invariant ----------

  /** Ids are 1..n, in order of arrival. */
  predicate Numbered(uploads: seq<Entry>) {
    forall i | 0 <= i < |uploads| :: uploads[i].id == i + 1
  }

  lemma {:induction false} MaxIdIsLast(uploads: seq<Entry>, first: nat)
    requires forall i | 0 <= i < |uploads| :: uploads[i].id == first + i + 1
    ensures MaxId(uploads) == if uploads == [] then 0 else first + |uploads|
  {
    if uploads != [] { MaxIdIsLast(uploads[1..], first + 1); }
  }

  /** Exactly the entry with the id is rewritten. */
  lemma {:induction false} UpdateFirstIsExact(uploads: seq<Entry>, first: nat, id: nat, f: Entry -> Entry)
    requires forall i | 0 <= i < |uploads| :: uploads[i].id == first + i + 1
    ensures var r := UpdateFirst(uploads, id, f);
            |r| == |uploads| && forall i | 0 <= i < |uploads| ::
              r[i] == if id == first + i + 1 then f(uploads[i]) else uploads[i]
  {
    if uploads != [] && uploads[0].id != id {
      UpdateFirstIsExact(uploads[1..], first + 1, id, f);
    }
  }

  /** What one event does: a file adds the next id, any other event changes its own entry and no other. */
  lemma StepIsLocal(uploads: seq<Entry>, e: Event)
    requires Numbered(uploads)
    ensures var r := Apply(uploads, e);
            && Numbered(r)
            && |r| == |uploads| + (if e.File? then 1 else 0)
            && (e.File? ==> r[|uploads|] == Entry(|uploads| + 1, 0, ""))
            && forall i | 0 <= i < |uploads| ::
                 r[i] == match e
                         case File => uploads[i]
                         case Data(id, n) => if id == i + 1 then uploads[i].(fileSize := uploads[i].fileSize + n)
                             else uploads[i]
                         case CipherEnd(id, tag) => if id == i + 1 then uploads[i].(authTag := tag) else uploads[i]
  {
    match e
    case File => MaxIdIsLast(uploads, 0);
    case Data(id, n) => UpdateFirstIsExact(uploads, 0, id, Grow(n));
    case CipherEnd(id, tag) => UpdateFirstIsExact(uploads, 0, id, Tag(tag));
  }

  // ---------- Main results ----------

  function Files(es: seq<Event>): nat {
    if es == [] then 0 else (if es[0].File? then 1 else 0) + Files(es[1..])
  }

  /** The bytes of one file in a run. */
  function Bytes(es: seq<Event>, id: nat): nat {
    if es == [] then 0 else (if es[0].Data? && es[0].id == id then es[0].length else 0) + Bytes(es[1..], id)
  }

  /** However the events interleave: ids are 1..n, and a registered entry's size grows by the sum of its own chunks. */
  lemma {:induction false} RunAccounts(uploads: seq<Entry>, es: seq<Event>, id: nat)
    requires Numbered(uploads)
    ensures Numbered(Run(uploads, es)) && |Run(uploads, es)| == |uploads| + Files(es)
    ensures 1 <= id <= |uploads| ==> Run(uploads, es)[id - 1].fileSize == uploads[id - 1].fileSize + Bytes(es, id)
    decreases |es|
  {
    if es != [] {
      StepIsLocal(uploads, es[0]);
      RunAccounts(Apply(uploads, es[0]), es[1..], id);
    }
  }

  // ---------- What is stored when the request body has been read ----------

  /** The size and tag of an entry, as they go into the media row. */
  datatype Media = Media(fileSize: nat, authTag: string)

  function Captured(uploads: seq<Entry>, id: nat): Media
    requires 1 <= id <= |uploads|
  {
    Media(uploads[id - 1].fileSize, uploads[id - 1].authTag)
  }

  /** The ids whose cipher has ended in a run. */
  function Ended(es: seq<Event>): set<nat> {
    if es == [] then {} else (if es[0].CipherEnd? then {es[0].id} else {}) + Ended(es[1..])
  }

  /**
    What the streams guarantee: callbacks belong to registered files, a cipher ends once and after
    all the chunks of its file, and a tag is not empty. `n` files are there, and `ended` are through.
   */
  predicate Streamed(n: nat, ended: set<nat>, es: seq<Event>)
    decreases |es|
  {
    es == [] ||
    match es[0]
    case File => Streamed(n + 1, ended, es[1..])
    case Data(id, _) => 1 <= id <= n && id !in ended && Streamed(n, ended, es[1..])
    case CipherEnd(id, tag) => 1 <= id <= n && id !in ended && tag != "" && Streamed(n, ended + {id}, es[1..])
  }

  /** A tag is there exactly if the cipher has ended. */
  predicate Tagged(uploads: seq<Entry>, ended: set<nat>) {
    && (forall i | 0 <= i < |uploads| :: uploads[i].authTag != "" <==> i + 1 in ended)
    && (forall id <- ended :: 1 <= id <= |uploads|)
  }

  lemma {:induction false} RunTagged(uploads: seq<Entry>, ended: set<nat>, es: seq<Event>)
    requires Numbered(uploads) && Tagged(uploads, ended) && Streamed(|uploads|, ended, es)
    ensures Tagged(Run(uploads, es), ended + Ended(es))
    decreases |es|
  {
    if es == [] {
      assert ended + {} == ended;
    } else {
      var now := if es[0].CipherEnd? then ended + {es[0].id} else ended;
      StepIsLocal(uploads, es[0]);
      RunTagged(Apply(uploads, es[0]), now, es[1..]);
      assert now + Ended(es[1..]) == ended + Ended(es);
    }
  }

  /** Nothing happens to an entry whose cipher has ended. */
  lemma {:induction false} EndedIsFinal(uploads: seq<Entry>, ended: set<nat>, es: seq<Event>, id: nat)
    requires Numbered(uploads) && Streamed(|uploads|, ended, es) && id in ended && 1 <= id <= |uploads|
    ensures |Run(uploads, es)| >= |uploads| && Run(uploads, es)[id - 1] == uploads[id - 1]
    decreases |es|
  {
    if es != [] {
      StepIsLocal(uploads, es[0]);
      EndedIsFinal(Apply(uploads, es[0]), if es[0].CipherEnd? then ended + {es[0].id} else ended, es[1..], id);
    }
  }

  /** What follows does not touch an entry whose cipher has ended, and gives the other its tag. */
  lemma LaterTag(uploads: seq<Entry>, ended: set<nat>, later: seq<Event>, id: nat)
    requires Numbered(uploads) && Tagged(uploads, ended) && Streamed(|uploads|, ended, later)
    requires 1 <= id <= |uploads| && id in ended + Ended(later)
    ensures |Run(uploads, later)| >= |uploads|
    ensures Run(uploads, later)[id - 1].authTag == uploads[id - 1].authTag <==> id in ended
    ensures id in ended ==> Run(uploads, later)[id - 1] == uploads[id - 1]
  {
    RunAccounts(uploads, later, id);
    RunTagged(uploads, ended, later);
    if id in ended { EndedIsFinal(uploads, ended, later, id); }
  }

  /**
    The media row of a file takes size and tag from the entry as it is when the request body has
    been read, though it is written only when the upload is through. Once the cipher has ended the
    tag stored is the final one exactly if the cipher had already ended then; and then the size
    stored is the whole size of the file.
   */
  lemma StoredTagIsFinalExactly(before: seq<Event>, later: seq<Event>, id: nat)
    requires Streamed(0, {}, before) && Streamed(Files(before), Ended(before), later)
    requires 1 <= id <= Files(before) && id in Ended(before) + Ended(later)
    ensures |Run([], before)| == Files(before) && |Run(Run([], before), later)| >= Files(before)
    ensures var stored, final := Captured(Run([], before), id), Captured(Run(Run([], before), later), id);
            && (stored.authTag == final.authTag <==> id in Ended(before))
            && (id in Ended(before) ==> stored.fileSize == final.fileSize == Bytes(before, id))
  {
    RunAccounts([], before, id);
    RunTagged([], {}, before);
    assert {} + Ended(before) == Ended(before);
    LaterTag(Run([], before), Ended(before), later, id);
    SizeIsBytes([], {}, before, id);
  }

  /** Also for a file that only comes in the run the size is the sum of its chunks. */
  lemma {:induction false} SizeIsBytes(uploads: seq<Entry>, ended: set<nat>, es: seq<Event>, id: nat)
    requires Numbered(uploads) && Streamed(|uploads|, ended, es) && |uploads| < id <= |uploads| + Files(es)
    ensures |Run(uploads, es)| == |uploads| + Files(es) && Run(uploads, es)[id - 1].fileSize == Bytes(es, id)
    decreases |es|
  {
    var uploads' := Apply(uploads, es[0]);
    StepIsLocal(uploads, es[0]);
    if id <= |uploads'| {
      RunAccounts(uploads', es[1..], id);
    } else {
      SizeIsBytes(uploads', if es[0].CipherEnd? then ended + {es[0].id} else ended, es[1..], id);
    }
  }

  /** A run in which the body has been read before the cipher has ended: a short size and an empty tag are stored. */
  lemma StoredTooEarly(length: nat, tag: string)
    requires length > 0 && tag != ""
    ensures var before, later := [File], [Data(1, length), CipherEnd(1, tag)];
            && Streamed(0, {}, before) && Streamed(Files(before), Ended(before), later)
            && Run([], before) == [Entry(1, 0, "")] && Captured(Run([], before), 1) == Media(0, "")
            && Run(Run([], before), later) == [Entry(1, length, tag)]
  {
    var before, later := [File], [Data(1, length), CipherEnd(1, tag)];
    assert before[1..] == [] && later[1..] == [CipherEnd(1, tag)] && later[1..][1..] == [];
    var u0 := Apply([], File);
    assert u0 == [Entry(1, 0, "")] && Run([], before) == Run(u0, []) == u0;
    var u1 := Apply(u0, Data(1, length));
    var u2 := Apply(u1, CipherEnd(1, tag));
    assert u1 == [Entry(1, length, "")] && u2 == [Entry(1, length, tag)];
    assert Run(u0, later) == Run(u1, later[1..]) == Run(u2, later[1..][1..]) == u2;
    assert Files(before) == 1 + Files(before[1..]) && Ended(before) == {} + Ended(before[1..]);
    assert Streamed(0, {}, before) == Streamed(1, {}, before[1..]);
    assert Streamed(1, {}, later) == Streamed(1, {}, later[1..]);
    assert Streamed(1, {} + {1}, later[1..][1..]);
  }

  // ---------- Imperative form ----------

  class UploadSession {
    var uploads: seq<Entry>

    constructor ()
      ensures uploads == []
    {
      uploads := [];
    }

    method OnFile() returns (uploadId: nat)
      modifies this
      ensures uploads == Apply(old(uploads), File)
      ensures Numbered(old(uploads)) ==> uploadId == |uploads|
    {
      uploadId := MaxId(uploads) + 1;
      if Numbered(uploads) { MaxIdIsLast(uploads, 0); }
      uploads := uploads + [Entry(uploadId, 0, "")];
    }

    method OnData(uploadId: nat, length: nat)
      requires Numbered(uploads) && 1 <= uploadId <= |uploads|
      modifies this
      ensures uploads == Apply(old(uploads), Data(uploadId, length))
    {
      var i := FindIndex(uploadId);
      UpdateFirstIsExact(uploads, 0, uploadId, Grow(length));
      uploads := uploads[i := uploads[i].(fileSize := uploads[i].fileSize + length)];
    }

    method OnCipherEnd(uploadId: nat, tag: string)
      requires Numbered(uploads) && 1 <= uploadId <= |uploads|
      modifies this
      ensures uploads == Apply(old(uploads), CipherEnd(uploadId, tag))
    {
      var i := FindIndex(uploadId);
      UpdateFirstIsExact(uploads, 0, uploadId, Tag(tag));
      uploads := uploads[i := uploads[i].(authTag := tag)];
    }

    method FindIndex(uploadId: nat) returns (i: nat)
      requires Numbered(uploads) && 1 <= uploadId <= |uploads|
      ensures i < |uploads| && uploads[i].id == uploadId
    {
      i := 0;
      while uploads[i].id != uploadId
        invariant i < uploadId
        decreases uploadId - i
      {
        i := i + 1;
      }
    }
  }
}
