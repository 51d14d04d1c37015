/**
 * What each operation does, told by what the kernel finds under the names of the tool path. The names and limits are
 * spelled out here; nothing rests on how the resolver goes about it.
 */
module OperationLaws {
  import opened Wrappers
  import opened FileTree
  import opened Kernel
  import opened Errors
  import opened Saturation
  import opened Sandbox
  import opened Quota
  import opened Utf8
  import opened Workspace
  import opened WorkspaceTheorems

  /** Where names lead of which all but the last exist: the last one, below what `realpath` gives for the others. */
  lemma ResolvedByKernel(root: Node, files: Path, rel: string, names: Path, limit: nat)
    requires Look(root, files).FoundDir() && RelativePath(rel) == Success(names) && names != []
    requires RealPath(root, files + Parent(names), limit).Success?
    ensures var parent, last := RealPath(root, files + Parent(names), limit).value, names[|names| - 1];
            && ResolveOf(root, files, rel, limit)
               == (if NeverLeaves(root, files, Parent(names), limit) then Success(parent + [last])
                   else Failure(PathEscape))
            && (NeverLeaves(root, files, Parent(names), limit) ==> files <= parent && Look(root, parent).Found?)
  {
    hide RelativePath, WalkOf, NeverLeaves, Walk;
    RealPathIsResolved(root, files, names, limit);
    if WalkOf(root, files, names, limit).Success? {
      ResolvedPathIsPlain(root, files, names, limit);
      assert Parent(WalkOf(root, files, names, limit).value) == RealPath(root, files + Parent(names), limit).value;
    }
  }

  // ----- delete

  /** Deleting takes the entry of that name: a link itself and not its target, a directory with all it holds. */
  lemma DeletionTakesTheNameItself(root: Node, files: Path, rel: string, names: Path, limit: nat)
    requires Look(root, files).FoundDir() && RelativePath(rel) == Success(names) && names != []
    requires RealPath(root, files + Parent(names), limit).Success?
    ensures var named := RealPath(root, files + Parent(names), limit).value + [names[|names| - 1]];
            DeletionOf(root, files, rel, limit)
            == if !NeverLeaves(root, files, Parent(names), limit) then Failure(PathEscape)
               else if Look(root, named).Found? then Success(named)
               else if Look(root, named).Absent? then Failure(NotFound)
               else Failure(Io)
  {
    hide ResolveOf, RelativePath, NeverLeaves, RealPath;
    ResolvedByKernel(root, files, rel, names, limit);
  }

  method DeleteByName(workspace: AgentWorkspace, rel: string, names: Path) returns (r: Result<(), WorkspaceError>)
    requires workspace.Valid() && RelativePath(rel) == Success(names) && names != []
    requires RealPath(workspace.disk.root, workspace.files + Parent(names), workspace.disk.limit).Success?
    requires NeverLeaves(workspace.disk.root, workspace.files, Parent(names), workspace.disk.limit)
    modifies workspace.disk
    ensures var before := old(workspace.disk.root);
            var named := RealPath(before, workspace.files + Parent(names), workspace.disk.limit).value
                         + [names[|names| - 1]];
            if Look(before, named).Found?
            then r == Success(()) && named != [] && workspace.disk.root == Drop(before, named)
            else workspace.disk.root == before
                 && r == Failure(if Look(before, named).Absent? then NotFound else Io)
  {
    hide DeletionOf, NeverLeaves, RelativePath, RealPath, Content, Drop;
    DeletionTakesTheNameItself(workspace.disk.root, workspace.files, rel, names, workspace.disk.limit);
    r := workspace.Delete(rel);
  }

  /** `files` itself is neither deleted nor written nor read. */
  lemma RootIsRefused(root: Node, files: Path, rel: string, n: nat, cap: nat, limit: nat)
    requires Look(root, files).FoundDir() && RelativePath(rel) == Success([])
    ensures DeletionOf(root, files, rel, limit) == Failure(DeleteRoot)
    ensures WriteOf(root, files, rel, n, cap, limit) == Failure(BadPath)
    ensures ReadOf(root, files, rel, limit) == Failure(NotAFile)
  {
    hide RelativePath;
    FilesIsNoLink(root, files, limit);
  }

  // ----- read

  /**
   * Where the names lead to something, a read gives its bytes if it is a file of at most 1 MiB of well-formed UTF-8,
   * and otherwise says what is wrong with it.
   */
  lemma ReadGivesWhatKernelFinds(root: Node, files: Path, rel: string, names: Path, limit: nat)
    requires Look(root, files).FoundDir() && RelativePath(rel) == Success(names) && names != []
    requires RealPath(root, files + names, limit).Success?
    ensures ReadOf(root, files, rel, limit)
         == if !NeverLeaves(root, files, names, limit) then Failure(PathEscape)
            else match Look(root, RealPath(root, files + names, limit).value)
              case Found(File(bytes)) =>
                if |bytes| > 1_048_576 then Failure(ReadTooLarge(Sat(|bytes|), 1_048_576))
                else if IsUtf8(bytes) then Success(bytes)
                else Failure(BadPath)
              case _ => Failure(NotAFile)
  {
    hide RelativePath, FollowAll, Walk, IsUtf8, ResolveFollowingOf, NeverLeaves, StaysInside;
    RealPathBelow(root, files, names, limit);
    NeverLeavesIsStaysInside(root, files, names, limit);
    KernelWalkIsFollowed(root, files, files, names, limit);
    ReadFollowsAll(root, files, rel, limit);
    assert !Look(root, files).FoundFile();
    if FollowAll(root, files, files, names, limit).Success? {
      FollowStaysHeld(root, files, files, names, limit);
    }
  }

  /** The bytes the kernel opens under these names are what a read gives, if the way to them never leaves `files`. */
  lemma KernelReadIsRead(root: Node, files: Path, rel: string, names: Path, bytes: seq<byte>, limit: nat)
    requires Look(root, files).FoundDir() && RelativePath(rel) == Success(names) && names != []
    requires IsUtf8(bytes) && |bytes| <= 1_048_576
    requires Stat(root, files + names, limit) == Success(File(bytes))
    ensures ReadOf(root, files, rel, limit)
         == if NeverLeaves(root, files, names, limit) then Success(bytes) else Failure(PathEscape)
  {
    hide RelativePath, Walk, IsUtf8, NeverLeaves, ReadOf;
    ReadGivesWhatKernelFinds(root, files, rel, names, limit);
  }

  /** A name that is missing in the directory its parents lead to. */
  lemma ReadOfMissing(root: Node, files: Path, rel: string, names: Path, limit: nat)
    requires Look(root, files).FoundDir() && RelativePath(rel) == Success(names) && names != []
    requires RealPath(root, files + Parent(names), limit).Success?
    requires NeverLeaves(root, files, Parent(names), limit)
    requires Look(root, RealPath(root, files + Parent(names), limit).value + [names[|names| - 1]]).Absent?
    ensures ReadOf(root, files, rel, limit) == Failure(NotFound)
  {
    hide RelativePath, ResolveOf, IsUtf8, NeverLeaves, Walk;
    var path := RealPath(root, files + Parent(names), limit).value + [names[|names| - 1]];
    ResolvedByKernel(root, files, rel, names, limit);
    LstatPlain(root, path, limit);
    assert path != files;
  }

  /** Nothing longer than 1 MiB is ever read, and nothing that is not well-formed UTF-8. */
  lemma ReadsAreSmallText(root: Node, files: Path, rel: string, limit: nat)
    requires ReadOf(root, files, rel, limit).Success?
    ensures |ReadOf(root, files, rel, limit).value| <= 1_048_576 && IsUtf8(ReadOf(root, files, rel, limit).value)
  {
    hide ResolveFollowingOf, IsUtf8;
  }

  // ----- write

  /**
   * Where the first names lead to a directory and the next ones are missing in it, a write goes below that directory,
   * whatever is missing there, and the last name is not followed. It is refused only for a directory of that name,
   * or when the tree it would leave costs more than the cap; the refusal names the sums.
   */
  lemma WriteGoesWhereKernelLeads(root: Node, files: Path, rel: string, a: Path, b: Path, last: Name,
                                  content: seq<byte>, cap: nat, limit: nat)
    requires Look(root, files).FoundDir() && RelativePath(rel) == Success(a + b + [last])
    requires RealPath(root, files + a, limit).Success? && NeverLeaves(root, files, a, limit)
    requires var q := RealPath(root, files + a, limit).value;
             Look(root, q).FoundDir() && (b != [] ==> Look(root, q + [b[0]]).Absent?)
    requires UsageAt(root, files) <= U64_MAX && cap < U64_MAX
    ensures var dest := RealPath(root, files + a, limit).value + b + [last];
            && files < dest && Open(root, dest)
            && WriteOf(root, files, rel, |content|, cap, limit)
               == if Look(root, dest).FoundDir() then Failure(NotAFile)
                  else if AfterWrite(root, files, dest, content) <= cap then Success(dest)
                  else Failure(OverCap(Sat(|content| + 4096 * MissingCount(root, dest)),
                                       Sat(AfterWrite(root, files, dest, content)), cap))
  {
    hide RelativePath, RealPath, Content, Deposit, NeverLeaves, AdmissionOf, AfterWrite, UsageAt, Sat, DestinationOf;
    hide MissingCount;
    var q := RealPath(root, files + a, limit).value;
    var dest := q + b + [last];
    DestinationBelowKernel(root, files, rel, a, b, last, limit);
    OpenBelow(root, q, b + [last]);
    assert q + (b + [last]) == dest;
    if !Look(root, dest).FoundDir() {
      AdmissionAt(root, files, dest, content, cap);
    }
  }

  lemma DestinationBelowKernel(root: Node, files: Path, rel: string, a: Path, b: Path, last: Name, limit: nat)
    requires Look(root, files).FoundDir() && RelativePath(rel) == Success(a + b + [last])
    requires RealPath(root, files + a, limit).Success? && NeverLeaves(root, files, a, limit)
    requires var q := RealPath(root, files + a, limit).value;
             Look(root, q).FoundDir() && (b != [] ==> Look(root, q + [b[0]]).Absent?)
    ensures var dest := RealPath(root, files + a, limit).value + b + [last];
            && files < dest && Plain(root, dest)
            && DestinationOf(root, files, rel, limit)
               == if Look(root, dest).FoundDir() then Failure(NotAFile) else Success(dest)
  {
    hide RelativePath, Walk, NeverLeaves, StaysInside;
    var names := a + b + [last];
    assert Parent(names) == a + b && names[|names| - 1] == last;
    RealPathBelow(root, files, a, limit);
    NeverLeavesIsStaysInside(root, files, a, limit);
    MissingNamesFollow(root, files, a, b, limit);
    ResolvedPathIsPlain(root, files, names, limit);
  }

  /** Below a directory, names whose first one is missing, and a single name, are open. */
  lemma OpenBelow(root: Node, q: Path, rest: Path)
    requires Look(root, q).FoundDir() && rest != [] && (|rest| > 1 ==> Look(root, q + [rest[0]]).Absent?)
    ensures Open(root, q + rest)
  {
    LookSplit(root, q, rest);
    LookSplit(root, q, [rest[0]]);
    if |rest| == 1 {
      assert rest == [rest[0]];
    }
  }

  lemma AdmissionAt(root: Node, files: Path, dest: Path, content: seq<byte>, cap: nat)
    requires Look(root, files).FoundDir() && files < dest && Open(root, dest) && !Look(root, dest).FoundDir()
    requires UsageAt(root, files) <= U64_MAX && cap < U64_MAX
    ensures AdmissionOf(Look(root, files).node, dest[|files|..], |content|, cap)
         == if AfterWrite(root, files, dest, content) <= cap then Success(())
            else Failure(OverCap(Sat(|content| + 4096 * MissingCount(root, dest)),
                                 Sat(AfterWrite(root, files, dest, content)), cap))
  {
    hide Content, Deposit, AdmissionOf, Sat, MissingCount, Look;
    DepositBelow(root, files, dest, File(content));
    RefusalNamesTheSums(Look(root, files).node, dest[|files|..], content, cap);
  }

  method WriteByName(workspace: AgentWorkspace, rel: string, a: Path, b: Path, last: Name, content: seq<byte>)
      returns (r: Result<nat, WorkspaceError>)
    requires workspace.Valid() && IsUtf8(content) && |content| <= U64_MAX
    requires RelativePath(rel) == Success(a + b + [last])
    requires RealPath(workspace.disk.root, workspace.files + a, workspace.disk.limit).Success?
    requires NeverLeaves(workspace.disk.root, workspace.files, a, workspace.disk.limit)
    requires var q := RealPath(workspace.disk.root, workspace.files + a, workspace.disk.limit).value;
             Look(workspace.disk.root, q).FoundDir() && (b != [] ==> Look(workspace.disk.root, q + [b[0]]).Absent?)
    requires workspace.Used() <= U64_MAX && workspace.maxBytes < U64_MAX
    modifies workspace.disk
    ensures var before := old(workspace.disk.root);
            var dest := RealPath(before, workspace.files + a, workspace.disk.limit).value + b + [last];
            if !Look(before, dest).FoundDir()
               && AfterWrite(before, workspace.files, dest, content) <= workspace.maxBytes
            then r == Success(|content|) && workspace.disk.root == Deposit(before, dest, File(content))
            else r.Failure? && workspace.disk.root == before
  {
    hide WriteOf, NeverLeaves, RelativePath, RealPath, Content, Deposit, AfterWrite;
    WriteGoesWhereKernelLeads(workspace.disk.root, workspace.files, rel, a, b, last, content, workspace.maxBytes,
                              workspace.disk.limit);
    r := workspace.WriteText(rel, content);
  }

  /** A new file in a directory that is there costs its bytes and 4096 more. */
  lemma NewFileCosts(root: Node, files: Path, dest: Path, content: seq<byte>)
    requires Look(root, files).FoundDir() && files < dest
    requires Look(root, dest).Absent? && Look(root, Parent(dest)).FoundDir()
    ensures AfterWrite(root, files, dest, content) == UsageAt(root, files) + 4096 + |content|
  {
    hide Content, Deposit, UsageAt, MissingCount, Look;
    WriteCostsExactly(root, files, dest, content);
    assert dest == Parent(dest) + [dest[|dest| - 1]];
    MissingSnoc(root, Parent(dest), dest[|dest| - 1]);
    MissingZeroIffFound(root, Parent(dest));
  }

  /** Replacing a file costs the difference of the lengths. */
  lemma ReplacingCosts(root: Node, files: Path, dest: Path, content: seq<byte>)
    requires Look(root, files).FoundDir() && files < dest && Look(root, dest).FoundFile()
    ensures AfterWrite(root, files, dest, content)
         == UsageAt(root, files) - |Look(root, dest).node.bytes| + |content|
  {
    hide Content, Deposit, UsageAt, MissingCount, Look;
    WriteCostsExactly(root, files, dest, content);
    MissingZeroIffFound(root, dest);
  }

  /** Below a file nothing is written. */
  lemma NothingBelowAFile(root: Node, files: Path, rel: string, names: Path, n: nat, cap: nat, limit: nat)
    requires Look(root, files).FoundDir() && RelativePath(rel) == Success(names) && names != []
    requires RealPath(root, files + Parent(names), limit).Success?
    requires NeverLeaves(root, files, Parent(names), limit)
    requires Look(root, RealPath(root, files + Parent(names), limit).value).FoundFile()
    ensures WriteOf(root, files, rel, n, cap, limit) == Failure(Io)
  {
    hide RelativePath, RealPath, ResolveOf, NeverLeaves, Content, Sat;
    var parent, last := RealPath(root, files + Parent(names), limit).value, names[|names| - 1];
    ResolvedByKernel(root, files, rel, names, limit);
    LookSplit(root, parent, [last]);
    var dest := parent + [last];
    assert dest == files + dest[|files|..];
    LookSplit(root, files, dest[|files|..]);
    assert dest != files;
  }

  /** An entry costs 4096 and what it holds: the bytes of a file, and nothing for a link or an empty directory. */
  lemma NewEntryCosts(root: Node, files: Path, dest: Path, x: Node)
    requires Look(root, files).FoundDir() && files < dest && (x.File? || x.Link? || x == EmptyDir)
    requires Look(root, dest).Absent? && Look(root, Parent(dest)).FoundDir()
    ensures UsageAt(Deposit(root, dest, x), files)
         == UsageAt(root, files) + 4096 + if x.File? then |x.bytes| else 0
  {
    hide Content, Deposit, MissingCount, Look;
    var sub, rel := Look(root, files).node, dest[|files|..];
    DepositBelow(root, files, dest, x);
    DepositCost(sub, rel, x);
    assert dest == Parent(dest) + [dest[|dest| - 1]];
    MissingSnoc(root, Parent(dest), dest[|dest| - 1]);
    MissingZeroIffFound(root, Parent(dest));
    ContentOfLeaves(x);
  }

  lemma ContentOfLeaves(x: Node)
    ensures x.File? ==> Content(x) == |x.bytes|
    ensures x.Link? ==> Content(x) == 0
    ensures Content(EmptyDir) == 0
  {
    EmptyContent();
  }

  // ----- a directory under another name

  predicate LinkTo(root: Node, files: Path, alias: Name, sub: Name) {
    || Look(root, files + [alias]) == Found(Link(true, Steps(files + [sub])))
    || Look(root, files + [alias]) == Found(Link(false, Steps([sub])))
  }

  lemma OneNameStays(root: Node, files: Path, name: Name, limit: nat)
    requires Look(root, files).FoundDir() && RealPath(root, files + [name], limit).Success?
    requires files <= RealPath(root, files + [name], limit).value
    ensures NeverLeaves(root, files, [name], limit)
  {
    hide RealPath;
    RealPathOfDirectory(root, files, limit);
    assert [name][..0] == [] && files + [] == files && [name][..1] == [name];
  }

  /** Behind a link inside `files` to a directory of `files` one is in that directory, however the link is written. */
  lemma AliasIsFollowed(root: Node, files: Path, alias: Name, sub: Name, note: Name, rel: string, limit: nat)
    requires Look(root, files).FoundDir() && Look(root, files + [sub]).FoundDir() && limit > 0
    requires LinkTo(root, files, alias, sub)
    requires RelativePath(rel) == Success([alias, note])
    ensures ResolveOf(root, files, rel, limit) == Success(files + [sub, note])
  {
    hide RelativePath, Walk, Look;
    var names := [alias, note];
    assert Parent(names) == [alias] && names[1] == note;
    LinkLeads(root, files, alias, if Look(root, files + [alias]).node.absolute then files + [sub] else [sub], limit);
    hide RealPath, NeverLeaves, LinkTo;
    OneNameStays(root, files, alias, limit);
    ResolvedByKernel(root, files, rel, names, limit);
    assert files + [sub] + [note] == files + [sub, note];
  }

  lemma RealPathOfDirectory(root: Node, files: Path, limit: nat)
    requires Look(root, files).FoundDir()
    ensures RealPath(root, files, limit) == Success(files)
  {
    assert [] + files == files;
    DownTo(root, [], files, limit);
  }

  // ----- download

  function Chunks(parts: seq<seq<byte>>): (chunks: seq<Read>)
    ensures |chunks| == |parts| && forall i :: 0 <= i < |parts| ==> chunks[i] == Chunk(parts[i])
  {
    seq(|parts|, i requires 0 <= i < |parts| => Chunk(parts[i]))
  }

  function Flat(parts: seq<seq<byte>>): seq<byte> {
    if parts == [] then [] else parts[0] + Flat(parts[1..])
  }

  /** What has been received before the body ends or breaks counts in full. */
  lemma {:induction false} PartsAreDelivered(parts: seq<seq<byte>>, rest: seq<Read>)
    requires forall i :: 0 <= i < |parts| ==> parts[i] != []
    ensures Delivered(Chunks(parts) + rest) == Flat(parts) + Delivered(rest)
    ensures Complete(Chunks(parts) + rest) == Complete(rest)
    decreases |parts|
  {
    var all := Chunks(parts) + rest;
    if parts == [] {
      assert all == rest;
    } else {
      assert all[0] == Chunk(parts[0]) && all[1..] == Chunks(parts[1..]) + rest;
      PartsAreDelivered(parts[1..], rest);
    }
  }

  /** A body is whole when it ends, or when a read gives nothing; it is not whole when a read fails. */
  lemma EndsOfBodies(parts: seq<seq<byte>>, rest: seq<Read>)
    requires forall i :: 0 <= i < |parts| ==> parts[i] != []
    ensures Delivered(Chunks(parts)) == Flat(parts) && Complete(Chunks(parts))
    ensures Delivered(Chunks(parts) + [Chunk([])] + rest) == Flat(parts) && Complete(Chunks(parts) + [Chunk([])] + rest)
    ensures Delivered(Chunks(parts) + [Broken] + rest) == Flat(parts) && !Complete(Chunks(parts) + [Broken] + rest)
  {
    assert Chunks(parts) + [] == Chunks(parts) && Flat(parts) + [] == Flat(parts);
    PartsAreDelivered(parts, []);
    assert Chunks(parts) + [Chunk([])] + rest == Chunks(parts) + ([Chunk([])] + rest);
    PartsAreDelivered(parts, [Chunk([])] + rest);
    assert Chunks(parts) + [Broken] + rest == Chunks(parts) + ([Broken] + rest);
    PartsAreDelivered(parts, [Broken] + rest);
  }

  /** A refusal before the body is that of the destination, then that of the response, then that of the gate. */
  lemma DownloadRefusals(root: Node, home: Path, files: Path, rel: string, response: Response, cap: nat, limit: nat)
    requires Look(root, files).FoundDir()
    ensures DestinationOf(root, files, rel, limit).Failure? ==>
              DownloadOf(root, home, files, rel, response, cap, limit)
              == Failure(DestinationOf(root, files, rel, limit).error)
    ensures DestinationOf(root, files, rel, limit).Success? && response.Refused? ==>
              DownloadOf(root, home, files, rel, response, cap, limit) == Failure(response.error)
    ensures DestinationOf(root, files, rel, limit).Success? && response.Body? ==>
              var n := if response.announced.Some? then response.announced.value else 0;
              WriteOf(root, files, rel, n, cap, limit).Failure? ==>
                DownloadOf(root, home, files, rel, response, cap, limit)
                == Failure(WriteOf(root, files, rel, n, cap, limit).error)
    ensures PassesGate(root, files, rel, response, cap, limit) && Look(root, home + ["incoming.bin"]).FoundDir() ==>
              DownloadOf(root, home, files, rel, response, cap, limit) == Failure(Io)
  {
    hide DestinationOf, AdmissionOf, StreamOf;
  }
}
