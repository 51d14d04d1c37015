/**
 * Session records on disk, written to a temporary file that is then renamed over the record. Any step may
 * be the last one before a crash, and a crash during the write leaves a torn temporary file.
 */
module SessionStore {
  import opened Wrappers

  datatype StoredMessage = StoredMessage(role: string, content: string)
  datatype SessionRecord = SessionRecord(
    id: string, mode: string, cwd: string, model: string, messages: seq<StoredMessage>, updatedAt: string)

  /** A file of the sessions directory: a serialised record, or bytes that parse as none. */
  datatype Content = Whole(record: SessionRecord) | Torn

  datatype StoreError = DirectoryFailed | InvalidInput | InvalidData | WriteFailed | RenameFailed

  /** How far one save gets before the process dies, or which of its calls fails. */
  datatype Fate =
    | Completes
    | FailsToMakeDirectory
    | DiesBeforeWrite
    | DiesDuringWrite
    | FailsDuringWrite
    | DiesBeforeRename
    | FailsToRename
    | FailsToRenameAndDies
    | DiesAfterRename

  /** The save gets past its rename. */
  predicate Renames(fate: Fate) {
    fate.Completes? || fate.DiesAfterRename?
  }

  /** What a caller sees. After a crash nobody knows whether the rename was done. */
  datatype Outcome<T> = Done(value: T) | Failed(error: StoreError) | Crashed

  // ----- paths

  predicate ValidId(id: string) {
    id != "" && '/' !in id && '\\' !in id && '\0' !in id && id != ".." && id != "."
  }

  function RecordPath(id: string): string {
    id + ".json"
  }

  /** The file name without its last extension; a name that only starts with a dot has none. */
  function FileStem(name: string): string {
    match LastDot(name)
    case None => name
    case Some(i) => if i == 0 then name else name[..i]
  }

  function LastDot(name: string): (i: Option<nat>)
    ensures i.Some? ==> i.value < |name|
  {
    if name == "" then None
    else if name[|name| - 1] == '.' then Some(|name| - 1)
    else LastDot(name[..|name| - 1])
  }

  function WithExtension(name: string, extension: string): string {
    FileStem(name) + "." + extension
  }

  function TempPath(id: string): string {
    WithExtension(RecordPath(id), "json.tmp")
  }

  lemma {:induction false} LastDotAfter(front: string, tail: string)
    requires '.' !in tail
    ensures LastDot(front + "." + tail) == Some(|front|)
    decreases |tail|
  {
    var s := front + "." + tail;
    if tail == "" {
      assert s[|s| - 1] == '.';
    } else {
      assert s[|s| - 1] == tail[|tail| - 1];
      assert s[..|s| - 1] == front + "." + tail[..|tail| - 1];
      LastDotAfter(front, tail[..|tail| - 1]);
    }
  }

  /** An id is taken exactly when it is a single name, and its record is that name with `.json` after it. */
  lemma RecordsOfSingleNames(id: string)
    ensures ValidId(id) <==> id !in {"", ".", ".."} && forall i :: 0 <= i < |id| ==> id[i] !in {'/', '\\', '\0'}
    ensures RecordPath(id) == id + ".json"
  {
  }

  /** The temporary name is the record's name with `.tmp` after it, for every valid id, dots and all. */
  lemma TempPathIsRecordPathTmp(id: string)
    requires ValidId(id)
    ensures TempPath(id) == RecordPath(id) + ".tmp"
  {
    assert RecordPath(id) == id + "." + "json";
    LastDotAfter(id, "json");
    assert RecordPath(id)[..|id|] == id;
  }

  /** Records of different ids are different files, and none of them is a temporary file. */
  lemma PathsAreApart(a: string, b: string)
    requires ValidId(a) && ValidId(b)
    ensures RecordPath(a) == RecordPath(b) ==> a == b
    ensures RecordPath(a) != TempPath(b)
  {
    TempPathIsRecordPathTmp(b);
    assert RecordPath(a)[..|a|] == a && RecordPath(b)[..|b|] == b;
    assert RecordPath(a)[|RecordPath(a)| - 1] == 'n' && (RecordPath(b) + ".tmp")[|RecordPath(b)| + 3] == 'p';
  }

  // ----- the store

  class Store {
    var files: map<string, Content>
    /** The record of the last completed rename, for every id that has one. */
    ghost var committed: map<string, SessionRecord>

    ghost predicate Valid()
      reads this
    {
      && (forall id :: id in committed ==> ValidId(id) && committed[id].id == id)
      && (forall id :: ValidId(id) ==> (RecordPath(id) in files <==> id in committed))
      && (forall id :: id in committed ==> RecordPath(id) in files && files[RecordPath(id)] == Whole(committed[id]))
    }

    constructor ()
      ensures Valid() && committed == map[]
    {
      files, committed := map[], map[];
    }

    /** A write to a temporary file touches no record. */
    method WriteTemp(id: string, content: Content)
      requires Valid() && ValidId(id)
      modifies this`files
      ensures Valid() && files == old(files)[TempPath(id) := content]
    {
      forall other | ValidId(other)
        ensures RecordPath(other) != TempPath(id)
      {
        PathsAreApart(other, id);
      }
      files := files[TempPath(id) := content];
    }

    method RemoveTemp(id: string)
      requires Valid() && ValidId(id)
      modifies this`files
      ensures Valid() && files == old(files) - {TempPath(id)}
    {
      forall other | ValidId(other)
        ensures RecordPath(other) != TempPath(id)
      {
        PathsAreApart(other, id);
      }
      files := files - {TempPath(id)};
    }

    /** The rename is the one step that changes a record, and it changes the whole of one record. */
    method RenameTemp(record: SessionRecord)
      requires Valid() && ValidId(record.id)
      requires TempPath(record.id) in files && files[TempPath(record.id)] == Whole(record)
      modifies this
      ensures Valid() && committed == old(committed)[record.id := record]
      ensures TempPath(record.id) !in files
    {
      forall other | ValidId(other)
        ensures RecordPath(other) != TempPath(record.id)
        ensures RecordPath(other) == RecordPath(record.id) ==> other == record.id
      {
        PathsAreApart(other, record.id);
      }
      files := (files - {TempPath(record.id)})[RecordPath(record.id) := Whole(record)];
      committed := committed[record.id := record];
      assert TempPath(record.id) !in files by {
        PathsAreApart(record.id, record.id);
      }
    }

    method Save(record: SessionRecord, fate: Fate) returns (r: Outcome<()>)
      requires Valid()
      modifies this
      ensures Valid()
      ensures r.Done? <==> ValidId(record.id) && fate.Completes?
      ensures committed == if ValidId(record.id) && (fate.Completes? || fate.DiesAfterRename?)
                           then old(committed)[record.id := record] else old(committed)
      ensures r.Failed? ==> committed == old(committed)
      ensures !ValidId(record.id) ==> r.Failed? && files == old(files)
    {
      if fate.FailsToMakeDirectory? {
        return Failed(DirectoryFailed);
      }
      if !ValidId(record.id) {
        return Failed(InvalidInput);
      }
      if fate.DiesBeforeWrite? {
        return Crashed;
      }
      if fate.DiesDuringWrite? || fate.FailsDuringWrite? {
        WriteTemp(record.id, Torn);
        return if fate.DiesDuringWrite? then Crashed else Failed(WriteFailed);
      }
      WriteTemp(record.id, Whole(record));
      if fate.DiesBeforeRename? || fate.FailsToRenameAndDies? {
        return Crashed;
      }
      if fate.FailsToRename? {
        RemoveTemp(record.id);
        return Failed(RenameFailed);
      }
      RenameTemp(record);
      r := if fate.DiesAfterRename? then Crashed else Done(());
    }

    /** A load sees the whole record of the last completed rename, whatever happened since. */
    method Load(id: string) returns (r: Result<Option<SessionRecord>, StoreError>)
      requires Valid()
      ensures r == if !ValidId(id) then Failure(InvalidInput)
                   else Success(if id in committed then Some(committed[id]) else None)
    {
      if !ValidId(id) {
        return Failure(InvalidInput);
      }
      if RecordPath(id) !in files {
        return Success(None);
      }
      match files[RecordPath(id)] {
        case Whole(record) => r := Success(Some(record));
        case Torn => r := Failure(InvalidData);
      }
    }

    method AppendMessages(id: string, userText: string, assistantText: string, now: string, fate: Fate)
        returns (r: Outcome<()>)
      requires Valid()
      modifies this
      ensures Valid() && SameButFor(committed, old(committed), id)
      ensures committed == if id in old(committed) && Renames(fate)
                           then old(committed)[id := old(committed)[id].(
                                  messages := old(committed)[id].messages + Turn(userText, assistantText),
                                  updatedAt := now)]
                           else old(committed)
      ensures r.Failed? ==> committed == old(committed)
      ensures r.Done? <==> ValidId(id) && (id in old(committed) ==> fate.Completes?)
    {
      var found := Load(id);
      match found {
        case Failure(e) => return Failed(e);
        case Success(None) => return Done(());
        case Success(Some(record)) =>
          var messages := record.messages;
          if userText != "" {
            messages := messages + [StoredMessage("user", userText)];
          }
          if assistantText != "" {
            messages := messages + [StoredMessage("assistant", assistantText)];
          }
          assert messages == record.messages + Turn(userText, assistantText);
          r := Save(record.(messages := messages, updatedAt := now), fate);
      }
    }

    method UpdateMode(id: string, mode: string, now: string, fate: Fate) returns (r: Outcome<()>)
      requires Valid()
      modifies this
      ensures Valid() && SameButFor(committed, old(committed), id)
      ensures committed == if id in old(committed) && Renames(fate)
                           then old(committed)[id := old(committed)[id].(mode := mode, updatedAt := now)]
                           else old(committed)
      ensures r.Failed? ==> committed == old(committed)
      ensures r.Done? <==> ValidId(id) && (id in old(committed) ==> fate.Completes?)
    {
      var found := Load(id);
      match found {
        case Failure(e) => return Failed(e);
        case Success(None) => return Done(());
        case Success(Some(record)) => r := Save(record.(mode := mode, updatedAt := now), fate);
      }
    }

    method UpdateModel(id: string, model: string, now: string, fate: Fate) returns (r: Outcome<()>)
      requires Valid()
      modifies this
      ensures Valid() && SameButFor(committed, old(committed), id)
      ensures committed == if id in old(committed) && Renames(fate)
                           then old(committed)[id := old(committed)[id].(model := model, updatedAt := now)]
                           else old(committed)
      ensures r.Failed? ==> committed == old(committed)
      ensures r.Done? <==> ValidId(id) && (id in old(committed) ==> fate.Completes?)
    {
      var found := Load(id);
      match found {
        case Failure(e) => return Failed(e);
        case Success(None) => return Done(());
        case Success(Some(record)) => r := Save(record.(model := model, updatedAt := now), fate);
      }
    }
  }

  /** The messages one turn adds; empty texts add none. */
  function Turn(userText: string, assistantText: string): seq<StoredMessage> {
    (if userText != "" then [StoredMessage("user", userText)] else [])
    + (if assistantText != "" then [StoredMessage("assistant", assistantText)] else [])
  }

  /** What the user said comes first, then what the assistant said; an empty text adds nothing. */
  lemma TurnLaw(userText: string, assistantText: string)
    ensures userText == "" && assistantText == "" ==> Turn(userText, assistantText) == []
    ensures userText != "" && assistantText == "" ==> Turn(userText, assistantText) == [StoredMessage("user", userText)]
    ensures userText == "" && assistantText != "" ==>
              Turn(userText, assistantText) == [StoredMessage("assistant", assistantText)]
    ensures userText != "" && assistantText != "" ==>
              Turn(userText, assistantText)
              == [StoredMessage("user", userText), StoredMessage("assistant", assistantText)]
  {
  }

  function Extended(r: SessionRecord, userText: string, assistantText: string, now: string): SessionRecord {
    r.(messages := r.messages + Turn(userText, assistantText), updatedAt := now)
  }

  /** No id comes or goes, and only the record of `id` may differ. */
  ghost predicate SameButFor(after: map<string, SessionRecord>, before: map<string, SessionRecord>, id: string) {
    after.Keys == before.Keys && forall k :: k in before && k != id ==> after[k] == before[k]
  }

  // ----- whole runs

  datatype Op =
    | Append(id: string, now: string, userText: string, assistantText: string)
    | SetMode(id: string, now: string, mode: string)
    | SetModel(id: string, now: string, model: string)

  /** The record after one operation. */
  function Applied(r: SessionRecord, op: Op): SessionRecord {
    match op
    case Append(_, now, userText, assistantText) => Extended(r, userText, assistantText, now)
    case SetMode(_, now, mode) => r.(mode := mode, updatedAt := now)
    case SetModel(_, now, model) => r.(model := model, updatedAt := now)
  }

  /** The records after one operation: it applies exactly when there is a record and the rename is reached. */
  function After(records: map<string, SessionRecord>, op: Op, fate: Fate): map<string, SessionRecord> {
    if op.id in records && Renames(fate) then records[op.id := Applied(records[op.id], op)] else records
  }

  function AfterAll(records: map<string, SessionRecord>, ops: seq<Op>, fates: seq<Fate>)
      : map<string, SessionRecord>
    requires |fates| == |ops|
  {
    if ops == [] then records else AfterAll(After(records, ops[0], fates[0]), ops[1..], fates[1..])
  }

  /** One record, with all the operations on its id whose rename was reached, in their order. */
  function RecordAfter(r: SessionRecord, id: string, ops: seq<Op>, fates: seq<Fate>): SessionRecord
    requires |fates| == |ops|
    decreases |ops|
  {
    if ops == [] then r
    else RecordAfter(if ops[0].id == id && Renames(fates[0]) then Applied(r, ops[0]) else r,
                     id, ops[1..], fates[1..])
  }

  /** Operations on other ids, and those that did not reach their rename, leave no trace in a record. */
  lemma {:induction false} RecordsAreIndependent(records: map<string, SessionRecord>, id: string, ops: seq<Op>,
                                                 fates: seq<Fate>)
    requires |fates| == |ops| && id in records
    ensures id in AfterAll(records, ops, fates)
    ensures AfterAll(records, ops, fates)[id] == RecordAfter(records[id], id, ops, fates)
    decreases |ops|
  {
    if ops != [] {
      var next := After(records, ops[0], fates[0]);
      RecordsAreIndependent(next, id, ops[1..], fates[1..]);
    }
  }

  /** `b` continues `a`: same session, same directory, and a transcript that starts with a's. */
  predicate Continues(a: SessionRecord, b: SessionRecord) {
    a.id == b.id && a.cwd == b.cwd && a.messages <= b.messages
  }

  /** Whatever is done to a record, and wherever it dies, the transcript is only extended. */
  lemma {:induction false} TranscriptsOnlyGrow(r: SessionRecord, id: string, ops: seq<Op>, fates: seq<Fate>)
    requires |fates| == |ops|
    ensures Continues(r, RecordAfter(r, id, ops, fates))
    decreases |ops|
  {
    if ops != [] {
      var next := if ops[0].id == id && Renames(fates[0]) then Applied(r, ops[0]) else r;
      TranscriptsOnlyGrow(next, id, ops[1..], fates[1..]);
    }
  }

  lemma {:induction false} NoRecordComesOrGoes(records: map<string, SessionRecord>, ops: seq<Op>, fates: seq<Fate>)
    requires |fates| == |ops|
    ensures AfterAll(records, ops, fates).Keys == records.Keys
    decreases |ops|
  {
    if ops != [] {
      NoRecordComesOrGoes(After(records, ops[0], fates[0]), ops[1..], fates[1..]);
    }
  }

  /** A run on all records is a run on each of them. */
  lemma RunsAreFolds(records: map<string, SessionRecord>, ops: seq<Op>, fates: seq<Fate>)
    requires |fates| == |ops|
    ensures AfterAll(records, ops, fates).Keys == records.Keys
    ensures forall id :: id in records ==>
              && AfterAll(records, ops, fates)[id] == RecordAfter(records[id], id, ops, fates)
              && Continues(records[id], AfterAll(records, ops, fates)[id])
  {
    hide AfterAll, RecordAfter, Continues;
    NoRecordComesOrGoes(records, ops, fates);
    forall id | id in records
      ensures AfterAll(records, ops, fates)[id] == RecordAfter(records[id], id, ops, fates)
      ensures Continues(records[id], AfterAll(records, ops, fates)[id])
    {
      RecordsAreIndependent(records, id, ops, fates);
      TranscriptsOnlyGrow(records[id], id, ops, fates);
    }
  }

  /**
   * Any run of appends and updates, each dying or failing anywhere, leaves every session loadable. Its record is the
   * one before with exactly those operations applied whose rename was reached, and it continues the one before.
   */
  method Run(store: Store, ops: seq<Op>, fates: seq<Fate>)
    requires store.Valid() && |fates| == |ops|
    modifies store
    ensures store.Valid() && store.committed == AfterAll(old(store.committed), ops, fates)
    ensures store.committed.Keys == old(store.committed).Keys
    ensures forall id :: id in store.committed ==>
              && store.committed[id] == RecordAfter(old(store.committed)[id], id, ops, fates)
              && Continues(old(store.committed)[id], store.committed[id])
  {
    hide RecordAfter, After, Continues;
    ghost var before := store.committed;
    assert ops[0..] == ops && fates[0..] == fates;
    for i := 0 to |ops|
      invariant store.Valid()
      invariant AfterAll(store.committed, ops[i..], fates[i..]) == AfterAll(before, ops, fates)
    {
      assert ops[i..][0] == ops[i] && ops[i..][1..] == ops[i + 1..];
      assert fates[i..][0] == fates[i] && fates[i..][1..] == fates[i + 1..];
      RunOne(store, ops[i], fates[i]);
    }
    RunsAreFolds(before, ops, fates);
  }

  method RunOne(store: Store, op: Op, fate: Fate)
    requires store.Valid()
    modifies store
    ensures store.Valid() && store.committed == After(old(store.committed), op, fate)
  {
    match op {
      case Append(id, now, userText, assistantText) =>
        var _ := store.AppendMessages(id, userText, assistantText, now, fate);
      case SetMode(id, now, mode) => var _ := store.UpdateMode(id, mode, now, fate);
      case SetModel(id, now, model) => var _ := store.UpdateModel(id, model, now, fate);
    }
  }
}
