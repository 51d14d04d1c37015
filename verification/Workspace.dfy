/**
 * One agent's private files. Each operation holds the workspace lock from start to end, so it is one
 * serial run of file system calls.
 */
module Workspace {
  import opened Wrappers
  import opened FileTree
  import opened Kernel
  import opened DiskModel
  import opened Errors
  import opened Sandbox
  import opened Quota
  import opened Saturation
  import opened Entries
  import opened Utf8
  import opened Frame

  const MAX_READ_BYTES: nat := 1024 * 1024
  const INCOMING_FILE: Name := "incoming.bin"

  /** `files` lies below `home`, and not at or below the incoming file. */
  predicate Beside(home: Path, files: Path) {
    home < files && files[|home|] != INCOMING_FILE
  }

  /** What one `read` on a response body gives. The end of the sequence is the end of the body. */
  datatype Read = Chunk(bytes: seq<byte>) | Broken

  /** A download as far as the workspace sees it: refused before any body, or a body with its headers. */
  datatype Response = Refused(error: WorkspaceError) | Body(announced: Option<nat>, chunks: seq<Read>)

  datatype Op =
    | Write(rel: string, content: seq<byte>)
    | Download(rel: string, response: Response)
    | Delete(rel: string)
    | ReadBack(rel: string)

  // ----- what the operations promise, as functions of the disk they start from

  function DestinationOf(root: Node, files: Path, rel: string, limit: nat): Result<Path, WorkspaceError> {
    var path :- ResolveOf(root, files, rel, limit);
    if path == files then Failure(BadPath)
    else if Look(root, path).FoundDir() then Failure(NotAFile)
    else Success(path)
  }

  /** Where a write of `n` bytes goes, or why it is refused. */
  ghost function WriteOf(root: Node, files: Path, rel: string, n: nat, cap: nat, limit: nat)
      : Result<Path, WorkspaceError>
    requires Look(root, files).FoundDir()
  {
    var dest :- DestinationOf(root, files, rel, limit);
    DestinationIsPlain(root, files, rel, limit);
    var _ :- AdmissionOf(Look(root, files).node, dest[|files|..], n, cap);
    Success(dest)
  }

  function DeletionOf(root: Node, files: Path, rel: string, limit: nat): Result<Path, WorkspaceError> {
    var path :- ResolveOf(root, files, rel, limit);
    if path == files then Failure(DeleteRoot)
    else match Look(root, path)
      case Found(_) => Success(path)
      case Absent => Failure(NotFound)
      case _ => Failure(Io)
  }

  function ReadOf(root: Node, files: Path, rel: string, limit: nat): Result<seq<byte>, WorkspaceError> {
    var path :- ResolveFollowingOf(root, files, rel, limit);
    if path == files then Failure(NotAFile)
    else match Look(root, path)
      case Found(File(bytes)) =>
        if |bytes| > MAX_READ_BYTES then Failure(ReadTooLarge(Sat(|bytes|), MAX_READ_BYTES))
        else if IsUtf8(bytes) then Success(bytes)
        else Failure(BadPath)
      case Found(_) => Failure(NotAFile)
      case Absent => Failure(NotFound)
      case _ => Failure(Io)
  }

  /** The bytes a body delivers before it ends or breaks. */
  function Delivered(chunks: seq<Read>): seq<byte> {
    if chunks == [] || chunks[0].Broken? || chunks[0].bytes == [] then []
    else chunks[0].bytes + Delivered(chunks[1..])
  }

  predicate Complete(chunks: seq<Read>) {
    chunks == [] || (chunks[0].Chunk? && (chunks[0].bytes == [] || Complete(chunks[1..])))
  }

  /** The receive loop: `written` bytes are stored, each further chunk is checked before it is. */
  function StreamOf(chunks: seq<Read>, written: nat, used: nat, freed: nat, cap: nat): Result<nat, WorkspaceError> {
    if chunks == [] then Success(written)
    else match chunks[0]
      case Broken => Failure(Io)
      case Chunk(bytes) =>
        if bytes == [] then Success(written)
        else
          var next := SatAdd(written, Sat(|bytes|));
          var _ :- Admit(used, freed, next, cap);
          StreamOf(chunks[1..], next, used, freed, cap)
  }

  /** Whatever can be unlinked at the incoming path is, before a download is received. */
  function Cleared(root: Node, incoming: Path): Node {
    if Look(root, incoming).FoundFile() || Look(root, incoming).FoundLink() then Drop(root, incoming) else root
  }

  ghost function DownloadOf(root: Node, home: Path, files: Path, rel: string, response: Response, cap: nat, limit: nat)
      : Result<Path, WorkspaceError>
    requires Look(root, files).FoundDir()
  {
    var dest :- DestinationOf(root, files, rel, limit);
    if response.Refused? then Failure(response.error)
    else
      DestinationIsPlain(root, files, rel, limit);
      var _ :- AdmissionOf(Look(root, files).node, dest[|files|..], Announced(response.announced), cap);
      var (used, freed, overhead) := ChargeOf(Look(root, files).node, dest[|files|..]).value;
      if Look(root, home + [INCOMING_FILE]).FoundDir() then Failure(Io)
      else
        var _ :- StreamOf(response.chunks, 0, SatAdd(used, overhead), freed, cap);
        Success(dest)
  }

  /** The download gets past its gate, so that its body is received. */
  ghost predicate PassesGate(root: Node, files: Path, rel: string, response: Response, cap: nat, limit: nat)
    requires Look(root, files).FoundDir()
  {
    && response.Body? && DestinationOf(root, files, rel, limit).Success?
    && WriteOf(root, files, rel, Announced(response.announced), cap, limit).Success?
  }

  /** A destination is strictly below `files`, with no link among its parents, and not a directory. */
  lemma DestinationIsPlain(root: Node, files: Path, rel: string, limit: nat)
    requires Look(root, files).FoundDir()
    ensures ResolveOf(root, files, rel, limit).Success? && ResolveOf(root, files, rel, limit).value != files ==>
              var p := ResolveOf(root, files, rel, limit).value; files < p && Plain(root, p)
  {
    if ResolveOf(root, files, rel, limit).Success? && RelativePath(rel).value != [] {
      ResolvedPathIsPlain(root, files, RelativePath(rel).value, limit);
    }
  }

  // ----- usage of `files` in the states an operation passes through

  /** Seen from `files`, a deposit at `dest` is a deposit in the tree below. */
  lemma DepositBelow(root: Node, files: Path, dest: Path, x: Node)
    requires Look(root, files).FoundDir() && files < dest
    ensures var sub, rel := Look(root, files).node, dest[|files|..];
            && rel != [] && dest == files + rel
            && Look(root, dest) == Look(sub, rel)
            && MissingCount(root, dest) == MissingCount(sub, rel)
            && UsageAt(Deposit(root, dest, x), files) == Content(Deposit(sub, rel, x))
  {
    var rel := dest[|files|..];
    assert dest == files + rel;
    LookSplit(root, files, rel);
    MissingOfSplit(root, files, rel);
    DepositSplit(root, files, rel, x);
    UsageOfDeposit(root, files, Deposit(Look(root, files).node, rel, x));
  }

  ghost function HeldBytes(root: Node, path: Path): nat {
    if Look(root, path).FoundFile() then |Look(root, path).node.bytes| else 0
  }

  /** Exact accounting: a write costs new minus old, and one entry for every name it creates. */
  lemma WriteCostsExactly(root: Node, files: Path, dest: Path, bytes: seq<byte>)
    requires Look(root, files).FoundDir() && files < dest && Open(root, dest) && !Look(root, dest).FoundDir()
    ensures UsageAt(Deposit(root, dest, File(bytes)), files)
         == UsageAt(root, files) + |bytes| - HeldBytes(root, dest) + ENTRY_COST * MissingCount(root, dest)
    ensures HeldBytes(root, dest) <= UsageAt(root, files)
  {
    var sub, rel := Look(root, files).node, dest[|files|..];
    DepositBelow(root, files, dest, File(bytes));
    DepositCost(sub, rel, File(bytes));
    if Look(sub, rel).Found? {
      DropCost(sub, rel);
    }
  }

  ghost function Larger(a: nat, b: nat): nat {
    if a <= b then b else a
  }

  ghost function AfterWrite(root: Node, files: Path, dest: Path, bytes: seq<byte>): nat {
    UsageAt(Deposit(root, dest, File(bytes)), files)
  }

  lemma MakingParentsFits(s: Node, root: Node, files: Path, dest: Path, bytes: seq<byte>)
    requires Look(root, files).FoundDir() && files < dest && Open(root, dest) && !Look(root, dest).FoundDir()
    requires PartlyMade(s, root, Parent(dest))
    ensures UsageAt(s, files) <= Larger(UsageAt(root, files), AfterWrite(root, files, dest, bytes))
  {
    var k :| 0 <= k <= |Parent(dest)| && s == MakeDirs(root, Parent(dest)[..k]);
    assert Parent(dest)[..k] == dest[..k];
    WriteCostsExactly(root, files, dest, bytes);
    MissingGrows(root, dest, k);
    if k <= |files| {
      assert files == dest[..k] + files[k..];
      LookSplit(root, dest[..k], files[k..]);
      MakeDirsFound(root, dest[..k]);
    } else {
      var rel := dest[..k][|files|..];
      assert dest[..k] == files + rel;
      var sub := Look(root, files).node;
      LookSplit(root, files, rel);
      MakeDirsSplit(root, files, rel);
      MissingOfSplit(root, files, rel);
      UsageOfDeposit(root, files, MakeDirs(sub, rel));
      MakeDirsCost(sub, rel);
      MissingZeroIffFound(root, dest);
    }
  }

  lemma WritingFits(s: Node, root: Node, files: Path, dest: Path, bytes: seq<byte>)
    requires Look(root, files).FoundDir() && files < dest && Open(root, dest) && !Look(root, dest).FoundDir()
    requires WriteStep(s, MakeDirs(root, Parent(dest)), dest, bytes)
    ensures UsageAt(s, files) <= Larger(UsageAt(root, files), AfterWrite(root, files, dest, bytes))
  {
    hide Content, Deposit, Drop, MakeDirs, Look;
    var made := MakeDirs(root, Parent(dest));
    if PartlyWritten(s, made, dest, bytes) {
      var k :| 0 <= k <= |bytes| && s == Deposit(made, dest, File(bytes[..k]));
      DepositAfterMakeDirs(root, dest, File(bytes[..k]));
      WriteCostsExactly(root, files, dest, bytes[..k]);
      WriteCostsExactly(root, files, dest, bytes);
    } else {
      DepositAfterMakeDirs(root, dest, File(bytes));
      DroppingTheLinkFits(root, files, dest);
    }
  }

  /** With the destination a link, its parents are there, and taking the link out frees its entry. */
  lemma DroppingTheLinkFits(root: Node, files: Path, dest: Path)
    requires Look(root, files).FoundDir() && files < dest && Look(root, dest).Found?
    ensures MakeDirs(root, Parent(dest)) == root
    ensures UsageAt(Drop(root, dest), files) <= UsageAt(root, files)
  {
    hide Content;
    var sub, rel := Look(root, files).node, dest[|files|..];
    assert dest == files + rel;
    LookSplit(root, files, rel);
    LookParent(root, dest);
    MakeDirsFound(root, Parent(dest));
    DropSplit(root, files, rel);
    UsageOfDeposit(root, files, Drop(sub, rel));
    DropCost(sub, rel);
  }

  /** An admitted write lands on an open path, and below the largest cap it leaves the usage within the cap. */
  lemma AdmittedWriteFits(root: Node, files: Path, dest: Path, bytes: seq<byte>, cap: nat)
    requires Look(root, files).FoundDir() && files < dest && Plain(root, dest)
    requires AdmissionOf(Look(root, files).node, dest[|files|..], |bytes|, cap).Success?
    ensures Open(root, dest) && !Look(root, dest).FoundDir()
    ensures UsageAt(root, files) <= cap < U64_MAX ==> AfterWrite(root, files, dest, bytes) <= cap
  {
    DepositBelow(root, files, dest, File(bytes));
    if UsageAt(root, files) <= cap < U64_MAX {
      AdmissionIsExact(Look(root, files).node, dest[|files|..], bytes, cap);
    }
  }

  // ----- the workspace

  class AgentWorkspace {
    const disk: Disk
    const home: Path
    const files: Path
    const maxBytes: nat

    ghost predicate Valid()
      reads disk
    {
      Beside(home, files) && Look(disk.root, files).FoundDir()
    }

    /** The true cost of everything below `files`. */
    ghost function Used(): nat
      reads disk
    {
      UsageAt(disk.root, files)
    }

    constructor (disk: Disk, home: Path, files: Path, maxBytes: nat)
      requires Beside(home, files) && Look(disk.root, files).FoundDir()
      ensures Valid() && this.disk == disk && this.home == home && this.files == files && this.maxBytes == maxBytes
    {
      this.disk, this.home, this.files, this.maxBytes := disk, home, files, maxBytes;
    }

    method Destination(rel: string) returns (r: Result<Path, WorkspaceError>)
      requires Valid()
      ensures r == DestinationOf(disk.root, files, rel, disk.limit)
      ensures r.Success? ==> files < r.value && Plain(disk.root, r.value)
    {
      DestinationIsPlain(disk.root, files, rel, disk.limit);
      var path := Resolve(disk, files, rel);
      if path.Failure? {
        return path;
      }
      if path.value == files {
        return Failure(BadPath);
      }
      var meta := SymlinkMetadata(disk, path.value);
      var rejected := RejectRealDir(meta);
      r := if rejected.Failure? then Failure(rejected.error) else path;
    }

    method WriteText(rel: string, content: seq<byte>) returns (r: Result<nat, WorkspaceError>)
      requires Valid() && IsUtf8(content) && |content| <= U64_MAX
      modifies disk
      ensures Valid()
      ensures match old(WriteOf(disk.root, files, rel, |content|, maxBytes, disk.limit))
              case Success(dest) => r == Success(|content|) && disk.root == Deposit(old(disk.root), dest, File(content))
              case Failure(e) => r == Failure(e) && disk.root == old(disk.root) && disk.log == old(disk.log)
      ensures r.Success? ==> var dest := old(WriteOf(disk.root, files, rel, |content|, maxBytes, disk.limit)).value;
              Used() == old(Used()) + |content| - old(HeldBytes(disk.root, dest))
                        + ENTRY_COST * old(MissingCount(disk.root, dest))
      ensures old(disk.log) <= disk.log
      ensures forall i :: |old(disk.log)| <= i < |disk.log| ==>
                UsageAt(disk.log[i], files) <= Larger(old(Used()), Used())
      ensures Inside(disk.root, old(disk.root), files)
      ensures forall i :: |old(disk.log)| <= i < |disk.log| ==> Inside(disk.log[i], old(disk.root), files)
      ensures old(Used()) <= maxBytes < U64_MAX ==> Used() <= maxBytes
    {
      hide DestinationOf, AdmissionOf, Content, Deposit, MakeDirs, Inside;
      ghost var before := disk.root;
      NothingTouched(before, files);
      var dest := Destination(rel);
      if dest.Failure? {
        return Failure(dest.error);
      }
      var admitted := AdmitWrite(disk, files, dest.value, |content|, maxBytes);
      if admitted.Failure? {
        return Failure(admitted.error);
      }
      AdmittedWriteFits(before, files, dest.value, content, maxBytes);
      LookParent(before, dest.value);
      DepositAfterMakeDirs(before, dest.value, File(content));
      var parents := EnsureParents(disk, files, dest.value);
      match parents {
        case Failure(e) => return Failure(e);
        case Success(_) =>
      }
      ghost var mark := |disk.log|;
      forall i | |old(disk.log)| <= i < mark
        ensures UsageAt(disk.log[i], files)
             <= Larger(UsageAt(before, files), AfterWrite(before, files, dest.value, content))
        ensures Inside(disk.log[i], before, files)
      {
        MakingParentsFits(disk.log[i], before, files, dest.value, content);
        MakingParentsIsInside(disk.log[i], before, files, dest.value);
      }
      ghost var made := disk.root;
      ParentMade(before, dest.value);
      var written := WriteReplacingLink(disk, dest.value, content);
      match written {
        case Failure(e) => return Failure(e);
        case Success(_) =>
      }
      forall i | mark <= i < |disk.log|
        ensures UsageAt(disk.log[i], files)
             <= Larger(UsageAt(before, files), AfterWrite(before, files, dest.value, content))
        ensures Inside(disk.log[i], before, files)
      {
        WritingFits(disk.log[i], before, files, dest.value, content);
        WritingIsInside(disk.log[i], before, files, dest.value, content);
      }
      LookDepositAbove(before, dest.value, File(content), files);
      DepositIsInside(before, files, dest.value, File(content));
      WriteCostsExactly(before, files, dest.value, content);
      r := Success(|content|);
    }

    method Fetch(rel: string, response: Response) returns (r: Result<nat, WorkspaceError>)
      requires Valid()
      modifies disk
      ensures Valid()
      ensures match old(DownloadOf(disk.root, home, files, rel, response, maxBytes, disk.limit))
              case Success(dest) =>
                && response.Body? && r == Success(Sat(|Delivered(response.chunks)|))
                && disk.root == Deposit(old(Cleared(disk.root, home + [INCOMING_FILE])), dest,
                                        File(Delivered(response.chunks)))
              case Failure(e) =>
                && r == Failure(e)
                && disk.root == (if old(PassesGate(disk.root, files, rel, response, maxBytes, disk.limit))
                                 then old(Cleared(disk.root, home + [INCOMING_FILE])) else old(disk.root))
      ensures old(disk.log) <= disk.log
      ensures forall i :: |old(disk.log)| <= i < |disk.log| ==>
                UsageAt(disk.log[i], files) <= Larger(old(Used()), Used())
      ensures InsideOrAt(disk.root, old(disk.root), files, home + [INCOMING_FILE])
      ensures forall i :: |old(disk.log)| <= i < |disk.log| ==>
                InsideOrAt(disk.log[i], old(disk.root), files, home + [INCOMING_FILE])
      ensures old(Used()) <= maxBytes < U64_MAX ==> Used() <= maxBytes
    {
      hide DestinationOf, Content, Deposit, Drop, StreamOf, Delivered, InsideOrAt;
      ghost var before := disk.root;
      NothingTouchedAt(before, files, home + [INCOMING_FILE]);
      var dest := Destination(rel);
      if dest.Failure? {
        return Failure(dest.error);
      }
      if response.Refused? {
        return Failure(response.error);
      }
      var gate := GateDownload(disk, files, dest.value, response.announced, maxBytes);
      if gate.Failure? {
        return Failure(gate.error);
      }
      var (adjusted, freed) := gate.value;
      ghost var sub, rel' := Look(before, files).node, dest.value[|files|..];
      DepositBelow(before, files, dest.value, EmptyDir);
      ClearingKeepsFiles(before, home, files);
      DepositBelow(Cleared(before, home + [INCOMING_FILE]), files, dest.value, File(Delivered(response.chunks)));
      DepositBelow(before, files, dest.value, File(Delivered(response.chunks)));
      r := StoreReader(dest.value, adjusted, freed, response.chunks);
      if r.Success? {
        StreamedWriteIsAdmitted(sub, rel', response.announced, response.chunks, maxBytes);
        AdmittedWriteFits(before, files, dest.value, Delivered(response.chunks), maxBytes);
      }
    }

    /** Receive a body into the incoming file and move it into place. Nothing is left behind on a refusal. */
    method StoreReader(dest: Path, used: nat, freed: nat, chunks: seq<Read>) returns (r: Result<nat, WorkspaceError>)
      requires Valid() && files < dest && Open(disk.root, dest) && !Look(disk.root, dest).FoundDir()
      modifies disk
      ensures Look(disk.root, files).FoundDir()
      ensures var incoming := home + [INCOMING_FILE];
              if old(Look(disk.root, incoming)).FoundDir() then r == Failure(Io) && disk.root == old(disk.root)
              else
                && r == StreamOf(chunks, 0, used, freed, maxBytes)
                && disk.root == (if r.Success?
                                 then Deposit(old(Cleared(disk.root, incoming)), dest, File(Delivered(chunks)))
                                 else old(Cleared(disk.root, incoming)))
      ensures r.Success? ==> r.value == Sat(|Delivered(chunks)|)
      ensures old(disk.log) <= disk.log
      ensures forall i :: |old(disk.log)| <= i < |disk.log| ==>
                UsageAt(disk.log[i], files) <= Larger(old(Used()), Used())
      ensures InsideOrAt(disk.root, old(disk.root), files, home + [INCOMING_FILE])
      ensures forall i :: |old(disk.log)| <= i < |disk.log| ==>
                InsideOrAt(disk.log[i], old(disk.root), files, home + [INCOMING_FILE])
    {
      hide Content, Deposit, Drop, StreamOf, Delivered, Cleared, UnlinkCall, InsideOrAt;
      var incoming := home + [INCOMING_FILE];
      ghost var before := disk.root;
      ClearedIncoming(before, home, files, dest, disk.limit);
      var _ := disk.Unlink(incoming);
      assert disk.root == Cleared(before, incoming);
      ghost var cleared, mark := disk.root, |disk.log|;
      ClearingIsAllowed(before, home, files);
      r := Receive(incoming, dest, used, freed, chunks);
      forall i | mark <= i < |disk.log|
        ensures InsideOrAt(disk.log[i], before, files, incoming)
      {
        InsideTwice(disk.log[i], cleared, before, files, incoming);
      }
      InsideTwice(disk.root, cleared, before, files, incoming);
      if r.Failure? {
        ghost var left := disk.root;
        if Look(cleared, incoming).Absent? {
          UnlinkReceived(left, cleared, home, files, disk.limit);
        } else {
          ClearedIncoming(left, home, files, dest, disk.limit);
        }
        var _ := disk.Unlink(incoming);
        assert disk.root == cleared;
      }
    }

    method Receive(incoming: Path, dest: Path, used: nat, freed: nat, chunks: seq<Read>)
        returns (r: Result<nat, WorkspaceError>)
      requires Valid() && incoming == home + [INCOMING_FILE]
      requires files < dest && Open(disk.root, dest) && !Look(disk.root, dest).FoundDir()
      requires Look(disk.root, incoming).Absent? || Look(disk.root, incoming).FoundDir()
      modifies disk
      ensures Look(disk.root, files).FoundDir()
      ensures old(Look(disk.root, incoming)).FoundDir() ==> r == Failure(Io) && disk.root == old(disk.root)
      ensures old(Look(disk.root, incoming)).Absent? ==>
        && r == StreamOf(chunks, 0, used, freed, maxBytes)
        && (r.Success? ==> r.value == Sat(|Delivered(chunks)|)
                           && disk.root == Deposit(old(disk.root), dest, File(Delivered(chunks))))
        && (r.Failure? ==> Received(disk.root, old(disk.root), incoming))
      ensures old(disk.log) <= disk.log
      ensures forall i :: |old(disk.log)| <= i < |disk.log| ==>
                UsageAt(disk.log[i], files) <= Larger(old(Used()), Used())
      ensures InsideOrAt(disk.root, old(disk.root), files, incoming)
      ensures forall i :: |old(disk.log)| <= i < |disk.log| ==>
                InsideOrAt(disk.log[i], old(disk.root), files, incoming)
    {
      hide Content, Deposit, StreamOf, Delivered, CreateCall, InsideOrAt;
      ghost var base := disk.root;
      NothingTouchedAt(base, files, incoming);
      IncomingIsApart(base, home, files, dest);
      CreatedAt(base, incoming, disk.limit);
      var handle := disk.Create(incoming);
      if handle.Failure? {
        return Failure(Io);
      }
      assert Received(disk.root, base, incoming);
      r := ReceiveInto(handle.value, base, used, freed, chunks);
      ReceivingKeepsFiles(base, home, files);
      ReceivingIsAllowed(base, home, files);
      if r.Success? {
        var moved := MoveIntoPlace(incoming, dest, base, Delivered(chunks));
        match moved {
          case Failure(e) => return Failure(e);
          case Success(_) =>
        }
      }
    }

    /** The receive loop: every chunk is checked against the cap before it is stored. */
    method ReceiveInto(handle: Path, ghost base: Node, used: nat, freed: nat, chunks: seq<Read>)
        returns (r: Result<nat, WorkspaceError>)
      requires Open(base, handle) && disk.root == Deposit(base, handle, File([]))
      modifies disk
      ensures r == StreamOf(chunks, 0, used, freed, maxBytes)
      ensures r.Success? ==>
                r.value == Sat(|Delivered(chunks)|) && disk.root == Deposit(base, handle, File(Delivered(chunks)))
      ensures Received(disk.root, base, handle)
      ensures old(disk.log) <= disk.log
      ensures forall i :: |old(disk.log)| <= i < |disk.log| ==> Received(disk.log[i], base, handle)
    {
      hide Deposit, Sat, SatAdd, Admit;
      var written, i := 0, 0;
      ghost var stored: seq<byte> := [];
      assert chunks[0..] == chunks;
      SatNone(0);
      while i < |chunks|
        invariant 0 <= i <= |chunks|
        invariant disk.root == Deposit(base, handle, File(stored))
        invariant written == Sat(|stored|)
        invariant StreamOf(chunks[i..], written, used, freed, maxBytes) == StreamOf(chunks, 0, used, freed, maxBytes)
        invariant stored + Delivered(chunks[i..]) == Delivered(chunks)
        invariant old(disk.log) <= disk.log
        invariant forall j :: |old(disk.log)| <= j < |disk.log| ==> Received(disk.log[j], base, handle)
      {
        if chunks[i].Broken? {
          return Failure(Io);
        }
        var bytes := chunks[i].bytes;
        if bytes == [] {
          break;
        }
        var next := SatAdd(written, Sat(|bytes|));
        var admitted := Admit(used, freed, next, maxBytes);
        if admitted.Failure? {
          return Failure(admitted.error);
        }
        SatStep(|stored|, |bytes|);
        disk.WriteAll(handle, base, stored, bytes);
        stored, written := stored + bytes, next;
        assert chunks[i..][1..] == chunks[i + 1..];
        i := i + 1;
      }
      assert stored == Delivered(chunks);
      r := Success(written);
    }

    /** The parents are made only now, when the whole body is in the incoming file. */
    method MoveIntoPlace(incoming: Path, dest: Path, ghost base: Node, ghost bytes: seq<byte>)
        returns (r: Result<(), WorkspaceError>)
      requires Valid() && incoming == home + [INCOMING_FILE]
      requires Look(base, files).FoundDir() && Look(base, incoming).Absent?
      requires files < dest && Open(base, dest) && !Look(base, dest).FoundDir()
      requires disk.root == Deposit(base, incoming, File(bytes))
      modifies disk
      ensures r == Success(()) && disk.root == Deposit(base, dest, File(bytes)) && Look(disk.root, files).FoundDir()
      ensures old(disk.log) <= disk.log
      ensures forall i :: |old(disk.log)| <= i < |disk.log| ==>
                UsageAt(disk.log[i], files) <= Larger(UsageAt(base, files), Used())
      ensures InsideOrAt(disk.root, base, files, incoming)
      ensures forall i :: |old(disk.log)| <= i < |disk.log| ==> InsideOrAt(disk.log[i], base, files, incoming)
    {
      hide Content, Deposit, MakeDirs, Drop, InsideOrAt, RenameCall, Retried, AfterWrite, PartlyMade;
      ReceivingKeepsFiles(base, home, files);
      MovingIntoPlace(base, home, files, dest, bytes);
      MovingStaysSound(base, home, files, dest, bytes);
      var parents := EnsureParents(disk, files, dest);
      match parents {
        case Failure(e) => return Failure(e);
        case Success(_) =>
      }
      r := ReplaceFile(disk, incoming, dest);
    }

    method Delete(rel: string) returns (r: Result<(), WorkspaceError>)
      requires Valid()
      modifies disk
      ensures Valid()
      ensures match old(DeletionOf(disk.root, files, rel, disk.limit))
              case Success(path) =>
                && r == Success(()) && disk.root == Drop(old(disk.root), path)
                && Used() + ENTRY_COST + Content(old(Look(disk.root, path).node)) == old(Used())
              case Failure(e) => r == Failure(e) && disk.root == old(disk.root) && disk.log == old(disk.log)
      ensures old(disk.log) <= disk.log
      ensures forall i :: |old(disk.log)| <= i < |disk.log| ==> UsageAt(disk.log[i], files) <= old(Used())
      ensures Inside(disk.root, old(disk.root), files)
      ensures forall i :: |old(disk.log)| <= i < |disk.log| ==> Inside(disk.log[i], old(disk.root), files)
    {
      hide Inside;
      ghost var before := disk.root;
      NothingTouched(before, files);
      DestinationIsPlain(before, files, rel, disk.limit);
      var path := Resolve(disk, files, rel);
      if path.Failure? {
        return Failure(path.error);
      }
      if path.value == files {
        return Failure(DeleteRoot);
      }
      ghost var below := path.value[|files|..];
      assert path.value == files + below;
      ghost var node := if Look(before, path.value).Found? then Look(before, path.value).node else EmptyDir;
      r := RemoveContained(disk, path.value, node);
      if Look(before, path.value).Found? {
        forall i | |old(disk.log)| <= i < |disk.log|
          ensures UsageAt(disk.log[i], files) <= UsageAt(before, files) && Inside(disk.log[i], before, files)
        {
          RemovalUsage(disk.log[i], before, files, below);
          RemovingIsInside(disk.log[i], before, files, path.value);
        }
        DropIsInside(before, files, path.value);
        LookSplit(before, files, below);
        DropSplit(before, files, below);
        UsageOfDeposit(before, files, Drop(Look(before, files).node, below));
        DropCost(Look(before, files).node, below);
        LookDeposit(before, files, Drop(Look(before, files).node, below));
      }
    }

    method ExistingFile(rel: string) returns (r: Result<Path, WorkspaceError>)
      requires Valid()
      ensures r.Success? ==>
        && ResolveFollowingOf(disk.root, files, rel, disk.limit) == r && r.value != files
        && Look(disk.root, r.value).FoundFile()
      ensures r.Failure? ==>
        match ResolveFollowingOf(disk.root, files, rel, disk.limit)
        case Failure(e) => r.error == e
        case Success(path) =>
          r.error == if path == files || Look(disk.root, path).Found? then NotAFile
                     else if Look(disk.root, path).Absent? then NotFound else Io
      ensures r.Failure? && ResolveFollowingOf(disk.root, files, rel, disk.limit).Success? ==>
        var path := ResolveFollowingOf(disk.root, files, rel, disk.limit).value;
        path == files || !Look(disk.root, path).FoundFile()
    {
      var path := ResolveFollowing(disk, files, rel);
      if path.Failure? {
        return path;
      }
      if path.value == files {
        return Failure(NotAFile);
      }
      FollowedPathIsPlain(disk.root, files, rel, disk.limit);
      var meta := SymlinkMetadata(disk, path.value);
      match meta {
        case Success(File(_)) => r := path;
        case Success(_) => r := Failure(NotAFile);
        case Failure(e) => r := Failure(MissingError(e));
      }
    }

    method ReadText(rel: string) returns (r: Result<seq<byte>, WorkspaceError>)
      requires Valid()
      ensures r == ReadOf(disk.root, files, rel, disk.limit)
    {
      var path := ExistingFile(rel);
      if path.Failure? {
        return Failure(path.error);
      }
      StatPlain(disk.root, path.value, disk.limit);
      var target := Stat(disk.root, path.value, disk.limit);
      if target.Failure? || !target.value.File? {
        return Failure(Io);
      }
      var bytes := target.value.bytes;
      if |bytes| > MAX_READ_BYTES {
        return Failure(ReadTooLarge(Sat(|bytes|), MAX_READ_BYTES));
      }
      r := if IsUtf8(bytes) then Success(bytes) else Failure(BadPath);
    }
  }

  // ----- the incoming file lies outside `files`

  /** `s` is `base` with some bytes in the incoming file. */
  ghost predicate Received(s: Node, base: Node, incoming: Path) {
    exists bytes: seq<byte> :: s == Deposit(base, incoming, File(bytes))
  }

  lemma IncomingIsApart(root: Node, home: Path, files: Path, q: Path)
    requires Beside(home, files) && Look(root, files).FoundDir() && files <= q
    ensures Apart(home + [INCOMING_FILE], q)
    ensures Parent(home + [INCOMING_FILE]) == home && Look(root, home).FoundDir()
  {
    assert q[|home|] == files[|home|];
    assert files == home + files[|home|..];
    LookSplit(root, home, files[|home|..]);
  }

  /** Creating a file where there is none, below an existing directory. */
  lemma CreatedAt(root: Node, path: Path, limit: nat)
    requires path != [] && Look(root, Parent(path)).FoundDir() && !Look(root, path).FoundLink()
    ensures CreateCall(root, path, limit)
         == if Look(root, path).FoundDir() then Failure(EISDIR) else Success((Deposit(root, path, File([])), path))
  {
    CallsPlain(root, path, limit);
  }

  lemma ReceivingKeepsFiles(base: Node, home: Path, files: Path)
    requires Beside(home, files) && Look(base, files).FoundDir()
    ensures forall s :: Received(s, base, home + [INCOMING_FILE]) ==> Look(s, files) == Look(base, files)
  {
    IncomingIsApart(base, home, files, files);
    forall s | Received(s, base, home + [INCOMING_FILE])
      ensures Look(s, files) == Look(base, files)
    {
      var bytes: seq<byte> :| s == Deposit(base, home + [INCOMING_FILE], File(bytes));
      LookDepositElsewhere(base, home + [INCOMING_FILE], File(bytes), files);
    }
  }

  lemma ReceivingIsAllowed(base: Node, home: Path, files: Path)
    requires Beside(home, files) && Look(base, files).FoundDir()
    ensures forall s :: Received(s, base, home + [INCOMING_FILE]) ==> InsideOrAt(s, base, files, home + [INCOMING_FILE])
  {
    IncomingIsApart(base, home, files, files);
    forall s | Received(s, base, home + [INCOMING_FILE])
      ensures InsideOrAt(s, base, files, home + [INCOMING_FILE])
    {
      var bytes: seq<byte> :| s == Deposit(base, home + [INCOMING_FILE], File(bytes));
      IncomingIsAllowed(base, files, home + [INCOMING_FILE], File(bytes));
    }
  }

  lemma ClearingIsAllowed(root: Node, home: Path, files: Path)
    requires Beside(home, files) && Look(root, files).FoundDir()
    ensures InsideOrAt(Cleared(root, home + [INCOMING_FILE]), root, files, home + [INCOMING_FILE])
  {
    IncomingIsApart(root, home, files, files);
    NothingTouchedAt(root, files, home + [INCOMING_FILE]);
    IncomingIsAllowed(root, files, home + [INCOMING_FILE], EmptyDir);
  }

  lemma ClearingKeepsFiles(root: Node, home: Path, files: Path)
    requires Beside(home, files) && Look(root, files).FoundDir()
    ensures Look(Cleared(root, home + [INCOMING_FILE]), files) == Look(root, files)
  {
    IncomingIsApart(root, home, files, files);
    LookDropElsewhere(root, home + [INCOMING_FILE], files);
  }

  /** The unlink before a download clears whatever is at the incoming path, except a directory. */
  lemma ClearedIncoming(root: Node, home: Path, files: Path, dest: Path, limit: nat)
    requires Beside(home, files) && Look(root, files).FoundDir()
    requires files < dest && Open(root, dest)
    ensures var incoming := home + [INCOMING_FILE];
            var cleared := Cleared(root, incoming);
            && (UnlinkCall(root, incoming, limit).Success? ==> UnlinkCall(root, incoming, limit).value == cleared)
            && (UnlinkCall(root, incoming, limit).Failure? ==> root == cleared)
            && Look(cleared, files) == Look(root, files) && Look(cleared, dest) == Look(root, dest)
            && (Look(root, incoming).FoundDir() ==> Look(cleared, incoming).FoundDir() && cleared == root)
            && (!Look(root, incoming).FoundDir() ==> Look(cleared, incoming).Absent?)
  {
    var incoming := home + [INCOMING_FILE];
    IncomingIsApart(root, home, files, dest);
    ClearingKeepsFiles(root, home, files);
    CallsPlain(root, incoming, limit);
    LookDropElsewhere(root, incoming, dest);
    if Look(root, incoming).Found? {
      LookDrop(root, incoming);
    }
  }

  lemma UnlinkReceived(left: Node, base: Node, home: Path, files: Path, limit: nat)
    requires Beside(home, files) && Look(base, files).FoundDir()
    requires Look(base, home + [INCOMING_FILE]).Absent? && Received(left, base, home + [INCOMING_FILE])
    ensures UnlinkCall(left, home + [INCOMING_FILE], limit) == Success(base)
    ensures Look(left, files) == Look(base, files)
  {
    var incoming := home + [INCOMING_FILE];
    var bytes: seq<byte> :| left == Deposit(base, incoming, File(bytes));
    IncomingIsApart(base, home, files, files);
    LookDepositElsewhere(base, incoming, File(bytes), files);
    LookDeposit(base, incoming, File(bytes));
    LookParent(left, incoming);
    CallsPlain(left, incoming, limit);
    DropNewEntry(base, incoming, File(bytes));
  }

  /** With the incoming file in place: the destination is as open as before, and the move ends where a write would. */
  lemma MovingIntoPlace(base: Node, home: Path, files: Path, dest: Path, bytes: seq<byte>)
    requires Beside(home, files) && Look(base, files).FoundDir()
    requires files < dest && Open(base, dest) && !Look(base, dest).FoundDir()
    requires Look(base, home + [INCOMING_FILE]).Absent?
    ensures var incoming := home + [INCOMING_FILE];
            var held := Deposit(base, incoming, File(bytes));
            var made := MakeDirs(held, Parent(dest));
            && Look(held, files) == Look(base, files) && Look(held, dest) == Look(base, dest)
            && Obstacle(held, Parent(dest)).None?
            && AfterWrite(held, files, dest, bytes) == AfterWrite(base, files, dest, bytes)
            && Look(made, home).FoundDir() && Look(made, incoming) == Found(File(bytes))
            && Look(made, Parent(dest)).FoundDir() && Look(made, dest) == Look(base, dest)
            && Deposit(Drop(made, incoming), dest, File(bytes)) == Deposit(base, dest, File(bytes))
  {
    var incoming := home + [INCOMING_FILE];
    var held := Deposit(base, incoming, File(bytes));
    var made := MakeDirs(held, Parent(dest));
    IncomingIsApart(base, home, files, files);
    IncomingIsApart(base, home, files, dest);
    IncomingIsApart(base, home, files, Parent(dest));
    LookDepositElsewhere(base, incoming, File(bytes), files);
    LookDepositElsewhere(base, incoming, File(bytes), dest);
    LookDeposit(base, incoming, File(bytes));
    DepositBelow(base, files, dest, File(bytes));
    DepositBelow(held, files, dest, File(bytes));
    LookParent(held, dest);
    ParentMade(held, dest);
    LookMakeDirsElsewhere(held, Parent(dest), incoming);
    LookParent(made, incoming);
    DropMakeDirs(held, incoming, Parent(dest));
    DropNewEntry(base, incoming, File(bytes));
    DepositAfterMakeDirs(base, dest, File(bytes));
  }

  /** The states in between, and the last one, stay within the cap and inside of `files`. */
  lemma MovingStaysSound(base: Node, home: Path, files: Path, dest: Path, bytes: seq<byte>)
    requires Beside(home, files) && Look(base, files).FoundDir()
    requires files < dest && Open(base, dest) && !Look(base, dest).FoundDir()
    requires Look(base, home + [INCOMING_FILE]).Absent?
    ensures var incoming := home + [INCOMING_FILE];
            var held := Deposit(base, incoming, File(bytes));
            && Look(Deposit(base, dest, File(bytes)), files).FoundDir()
            && InsideOrAt(Deposit(base, dest, File(bytes)), base, files, incoming)
            && UsageAt(Deposit(base, dest, File(bytes)), files) == AfterWrite(base, files, dest, bytes)
            && forall s :: PartlyMade(s, held, Parent(dest)) ==>
                 && UsageAt(s, files) <= Larger(UsageAt(base, files), AfterWrite(base, files, dest, bytes))
                 && InsideOrAt(s, base, files, incoming)
  {
    hide Content, Deposit, MakeDirs, Drop, InsideOrAt, Inside, PartlyMade;
    var incoming := home + [INCOMING_FILE];
    var held := Deposit(base, incoming, File(bytes));
    ReceivingKeepsFiles(base, home, files);
    MovingIntoPlace(base, home, files, dest, bytes);
    IncomingIsApart(base, home, files, files);
    IncomingIsAllowed(base, files, incoming, File(bytes));
    LookDepositAbove(base, dest, File(bytes), files);
    DepositIsInside(base, files, dest, File(bytes));
    NothingTouchedAt(base, files, incoming);
    InsideTwice(Deposit(base, dest, File(bytes)), base, base, files, incoming);
    forall s | PartlyMade(s, held, Parent(dest))
      ensures UsageAt(s, files) <= Larger(UsageAt(base, files), AfterWrite(base, files, dest, bytes))
      ensures InsideOrAt(s, base, files, incoming)
    {
      MakingParentsFits(s, held, files, dest, bytes);
      MakingParentsIsInside(s, held, files, dest);
      InsideTwice(s, held, base, files, incoming);
    }
  }

  // ----- the receive loop

  lemma AdmitIsMonotone(used: nat, freed: nat, n: nat, m: nat, cap: nat)
    requires n <= m && Admit(used, freed, m, cap).Success?
    ensures Admit(used, freed, n, cap).Success?
  {
  }

  /** The loop stores the whole body, or stops; checking every prefix is checking the last one. */
  lemma {:induction false} StreamOutcome(chunks: seq<Read>, done: nat, used: nat, freed: nat, cap: nat)
    ensures StreamOf(chunks, Sat(done), used, freed, cap).Success?
       <==> Complete(chunks)
            && (Delivered(chunks) == [] || Admit(used, freed, Sat(done + |Delivered(chunks)|), cap).Success?)
    ensures StreamOf(chunks, Sat(done), used, freed, cap).Success?
        ==> StreamOf(chunks, Sat(done), used, freed, cap).value == Sat(done + |Delivered(chunks)|)
  {
    hide Sat, SatAdd, Admit;
    if chunks != [] && chunks[0].Chunk? && chunks[0].bytes != [] {
      var n := |chunks[0].bytes|;
      SatStep(done, n);
      StreamOutcome(chunks[1..], done + n, used, freed, cap);
      if Admit(used, freed, Sat(done + |Delivered(chunks)|), cap).Success? {
        SatMonotone(done + n, done + |Delivered(chunks)|);
        AdmitIsMonotone(used, freed, Sat(done + n), Sat(done + |Delivered(chunks)|), cap);
      }
    }
  }

  lemma AdmissionIsMonotone(files: Node, rel: Path, n: nat, m: nat, cap: nat)
    requires n <= m && AdmissionOf(files, rel, m, cap).Success?
    ensures AdmissionOf(files, rel, n, cap).Success?
  {
  }

  /**
   * Streaming refines one-shot: with the gate passed, the loop stores a body to the end exactly when the
   * body is whole and a single write of all of it would be admitted.
   */
  lemma StreamedWriteIsAdmitted(files: Node, rel: Path, announced: Option<nat>, chunks: seq<Read>, cap: nat)
    requires Open(files, rel) && AdmissionOf(files, rel, Announced(announced), cap).Success?
    ensures var charge := ChargeOf(files, rel).value;
            StreamOf(chunks, 0, SatAdd(charge.0, charge.2), charge.1, cap).Success?
            <==> Complete(chunks) && AdmissionOf(files, rel, |Delivered(chunks)|, cap).Success?
  {
    hide Sat, SatAdd, SatSub, Admit, StreamOf, ChargeOf;
    var (used, freed, overhead) := ChargeOf(files, rel).value;
    SatNone(0);
    StreamOutcome(chunks, 0, SatAdd(used, overhead), freed, cap);
    StreamingCheckAgrees(files, rel, |Delivered(chunks)|, cap);
    AdmissionIsMonotone(files, rel, 0, Announced(announced), cap);
  }

  /** Once the parents are made the destination's directory is there. */
  lemma ParentMade(root: Node, dest: Path)
    requires dest != [] && Open(root, dest)
    ensures Look(MakeDirs(root, Parent(dest)), Parent(dest)).FoundDir()
    ensures Look(MakeDirs(root, Parent(dest)), dest) == Look(root, dest)
  {
    LookParent(root, dest);
    DepositAfterMakeDirs(root, dest, EmptyDir);
    if Parent(dest) != [] {
      var up := Parent(dest);
      LookParent(root, up);
      MakeDirsSnoc(root, Parent(up), up[|up| - 1]);
      assert Parent(up) + [up[|up| - 1]] == up;
      LookDeposit(MakeDirs(root, Parent(up)), up, EmptyDir);
    }
  }

  lemma FollowedPathIsPlain(root: Node, files: Path, rel: string, limit: nat)
    requires Look(root, files).FoundDir() && ResolveFollowingOf(root, files, rel, limit).Success?
    ensures Plain(root, ResolveFollowingOf(root, files, rel, limit).value)
  {
    hide WalkOf, Lstat, Walk, RelativePath;
    DestinationIsPlain(root, files, rel, limit);
    if RelativePath(rel).value != [] {
      ResolvedPathIsPlain(root, files, RelativePath(rel).value, limit);
    }
  }

  // ----- reads against the kernel

  /** Where a read ends is where following every name of the path ends, the last one too. */
  lemma ReadFollowsAll(root: Node, files: Path, rel: string, limit: nat)
    requires Look(root, files).FoundDir() && RelativePath(rel).Success? && RelativePath(rel).value != []
    ensures ResolveFollowingOf(root, files, rel, limit)
         == FollowAll(root, files, files, RelativePath(rel).value, limit)
  {
    hide FollowAll, RelativePath, Lstat, RealPath;
    var names := RelativePath(rel).value;
    var parents, last := Parent(names), names[|names| - 1];
    assert parents + [last] == names;
    FollowAllSnoc(root, files, files, parents, last, limit);
    if FollowAll(root, files, files, parents, limit).Success? {
      FollowStaysHeld(root, files, files, parents, limit);
    }
  }
}
