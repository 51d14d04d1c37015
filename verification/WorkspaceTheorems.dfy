/** What the workspace promises across operations, and across whole runs of them. */
module WorkspaceTheorems {
  import opened Wrappers
  import opened FileTree
  import opened Kernel
  import opened Errors
  import opened Text
  import opened Sandbox
  import opened Saturation
  import opened Quota
  import opened Frame
  import opened Utf8
  import opened Workspace

  // ----- the cap over whole runs

  predicate WellTyped(op: Op) {
    op.Write? ==> IsUtf8(op.content) && |op.content| <= U64_MAX
  }

  /** The cap is kept, `files` is there, and nothing outside of it has changed but the incoming file. */
  ghost predicate Sound(s: Node, before: Node, workspace: AgentWorkspace) {
    && UsageAt(s, workspace.files) <= workspace.maxBytes
    && InsideOrAt(s, before, workspace.files, workspace.home + ["incoming.bin"])
  }

  method RunOne(workspace: AgentWorkspace, op: Op)
    requires workspace.Valid() && WellTyped(op)
    requires workspace.Used() <= workspace.maxBytes < U64_MAX
    modifies workspace.disk
    ensures workspace.Valid() && old(workspace.disk.log) <= workspace.disk.log
    ensures Sound(workspace.disk.root, old(workspace.disk.root), workspace)
    ensures forall i :: |old(workspace.disk.log)| <= i < |workspace.disk.log|
              ==> Sound(workspace.disk.log[i], old(workspace.disk.root), workspace)
  {
    hide Content, UsageAt;
    NothingTouchedAt(workspace.disk.root, workspace.files, workspace.home + [INCOMING_FILE]);
    match op {
      case Write(rel, content) => var _ := workspace.WriteText(rel, content);
      case Download(rel, response) => var _ := workspace.Fetch(rel, response);
      case Delete(rel) => var _ := workspace.Delete(rel);
      case ReadBack(rel) => var _ := workspace.ReadText(rel);
    }
  }

  lemma SoundTwice(s: Node, middle: Node, before: Node, workspace: AgentWorkspace)
    requires Sound(middle, before, workspace) && Sound(s, middle, workspace)
    ensures Sound(s, before, workspace)
  {
    InsideTwice(s, middle, before, workspace.files, workspace.home + [INCOMING_FILE]);
  }

  /**
   * Any run of operations that starts within a cap below the largest one is within it in every state the
   * disk goes through: after each directory made, link removed, piece of a file written, file moved or
   * entry deleted, and not only between operations. In each of these states `files` is there, and nothing
   * outside of it has changed, except for the incoming file.
   */
  method Run(workspace: AgentWorkspace, ops: seq<Op>)
    requires workspace.Valid() && forall op :: op in ops ==> WellTyped(op)
    requires workspace.Used() <= workspace.maxBytes < U64_MAX
    modifies workspace.disk
    ensures workspace.Valid() && workspace.Used() <= workspace.maxBytes
    ensures old(workspace.disk.log) <= workspace.disk.log
    ensures forall i :: |old(workspace.disk.log)| <= i < |workspace.disk.log|
              ==> Sound(workspace.disk.log[i], old(workspace.disk.root), workspace)
  {
    ghost var before := workspace.disk.root;
    NothingTouchedAt(before, workspace.files, workspace.home + [INCOMING_FILE]);
    for n := 0 to |ops|
      invariant workspace.Valid() && Sound(workspace.disk.root, before, workspace)
      invariant old(workspace.disk.log) <= workspace.disk.log
      invariant forall i :: |old(workspace.disk.log)| <= i < |workspace.disk.log|
                  ==> Sound(workspace.disk.log[i], before, workspace)
    {
      assert WellTyped(ops[n]);
      ghost var middle, mark := workspace.disk.root, |workspace.disk.log|;
      RunOne(workspace, ops[n]);
      hide Sound;
      forall i | mark <= i < |workspace.disk.log|
        ensures Sound(workspace.disk.log[i], before, workspace)
      {
        SoundTwice(workspace.disk.log[i], middle, before, workspace);
      }
      SoundTwice(workspace.disk.root, middle, before, workspace);
    }
  }

  /**
   * The largest cap is the exception: every write of any length to a destination that is not refused for another
   * reason is accepted, so it runs past the cap exactly when the true sum does.
   */
  lemma LargestCapIsNoCap(root: Node, files: Path, rel: string, content: seq<byte>, limit: nat)
    requires Look(root, files).FoundDir()
    requires DestinationOf(root, files, rel, limit).Success?
    requires Open(root, DestinationOf(root, files, rel, limit).value)
    ensures WriteOf(root, files, rel, |content|, U64_MAX, limit) == DestinationOf(root, files, rel, limit)
    ensures var dest := DestinationOf(root, files, rel, limit).value;
            AfterWrite(root, files, dest, content) > U64_MAX
            <==> UsageAt(root, files) - HeldBytes(root, dest)
                 + |content| + ENTRY_COST * MissingCount(root, dest) > U64_MAX
  {
    hide Content, DestinationOf, Deposit;
    var dest := DestinationOf(root, files, rel, limit).value;
    DestinationFacts(root, files, rel, limit);
    DepositBelow(root, files, dest, File(content));
    NothingRefusedAtLargestCap(Look(root, files).node, dest[|files|..], |content|);
    WriteCostsExactly(root, files, dest, content);
  }

  /** Two new files of the greatest length a string can have, 2^63 - 1 bytes, are both accepted and run past it. */
  lemma TwoWritesPassTheLargestCap(root: Node, files: Path, x: Name, y: Name, relX: string, relY: string,
                                   content: seq<byte>, limit: nat)
    requires Look(root, files).FoundDir() && x != y && |content| == 0x7FFF_FFFF_FFFF_FFFF
    requires Look(root, files + [x]).Absent? && Look(root, files + [y]).Absent?
    requires RelativePath(relX) == Success([x]) && RelativePath(relY) == Success([y])
    ensures WriteOf(root, files, relX, |content|, U64_MAX, limit) == Success(files + [x])
    ensures var first := Deposit(root, files + [x], File(content));
            && Look(first, files).FoundDir()
            && WriteOf(first, files, relY, |content|, U64_MAX, limit) == Success(files + [y])
            && AfterWrite(first, files, files + [y], content) > U64_MAX
  {
    hide Content, DestinationOf, Deposit, WriteOf, AfterWrite, RelativePath, MissingCount, UsageAt;
    var first := Deposit(root, files + [x], File(content));
    SingleNameIsItsDestination(root, files, x, relX, limit);
    LargestCapIsNoCap(root, files, relX, content, limit);
    WriteCostsExactly(root, files, files + [x], content);
    LookDepositAbove(root, files + [x], File(content), files);
    assert (files + [x])[|files|] != (files + [y])[|files|];
    LookDepositElsewhere(root, files + [x], File(content), files + [y]);
    SingleNameIsItsDestination(first, files, y, relY, limit);
    LargestCapIsNoCap(first, files, relY, content, limit);
    MissingZeroIffFound(first, files + [y]);
    UsedAfter(root, files, files + [x], content);
  }

  lemma UsedAfter(root: Node, files: Path, dest: Path, content: seq<byte>)
    ensures UsageAt(Deposit(root, dest, File(content)), files) == AfterWrite(root, files, dest, content)
  {
  }

  lemma SingleNameIsItsDestination(root: Node, files: Path, x: Name, rel: string, limit: nat)
    requires RelativePath(rel) == Success([x]) && !Look(root, files + [x]).FoundDir()
    ensures DestinationOf(root, files, rel, limit) == Success(files + [x])
  {
    hide RelativePath, Look;
    assert Parent([x]) == [];
    assert FollowAll(root, files, files, [], limit) == Success(files);
  }

  lemma DestinationFacts(root: Node, files: Path, rel: string, limit: nat)
    requires Look(root, files).FoundDir() && DestinationOf(root, files, rel, limit).Success?
    ensures var dest := DestinationOf(root, files, rel, limit).value;
            files < dest && Plain(root, dest) && !Look(root, dest).FoundDir()
  {
    hide ResolveOf;
    DestinationIsPlain(root, files, rel, limit);
  }

  // ----- the resolver and the mutators agree

  /** Creating the parents of a resolved path never meets a link; at worst a file is in the way. */
  lemma ResolvedParentsNeverEscape(root: Node, files: Path, rel: string, limit: nat)
    requires Look(root, files).FoundDir() && DestinationOf(root, files, rel, limit).Success?
    ensures Obstacle(root, Parent(DestinationOf(root, files, rel, limit).value)) != Some(PathEscape)
  {
    hide DestinationOf;
    DestinationFacts(root, files, rel, limit);
    LookParent(root, DestinationOf(root, files, rel, limit).value);
  }

  // ----- downloads against writes

  /**
   * For every chunking and every announced length a download is accepted exactly when one write of as many
   * bytes as the larger of the two would be, the body arrives whole, and no directory sits at the incoming
   * path. With a true or absent announcement that is a write of the body.
   */
  lemma DownloadAcceptedLikeWrite(root: Node, home: Path, files: Path, rel: string, announced: Option<nat>,
                                  chunks: seq<Read>, cap: nat, limit: nat)
    requires Look(root, files).FoundDir()
    ensures var a, b := if announced.Some? then announced.value else 0, |Delivered(chunks)|;
            var n := if a <= b then b else a;
            DownloadOf(root, home, files, rel, Body(announced, chunks), cap, limit).Success?
            <==> WriteOf(root, files, rel, n, cap, limit).Success? && Complete(chunks)
                 && !Look(root, home + [INCOMING_FILE]).FoundDir()
    ensures DownloadOf(root, home, files, rel, Body(announced, chunks), cap, limit).Success? ==>
              DownloadOf(root, home, files, rel, Body(announced, chunks), cap, limit)
              == WriteOf(root, files, rel, |Delivered(chunks)|, cap, limit)
  {
    hide DestinationOf, AdmissionOf, StreamOf, Delivered, Complete, SatAdd;
    if DestinationOf(root, files, rel, limit).Success? {
      DestinationFacts(root, files, rel, limit);
      var dest := DestinationOf(root, files, rel, limit).value;
      var sub, below := Look(root, files).node, dest[|files|..];
      var a, b := Announced(announced), |Delivered(chunks)|;
      DepositBelow(root, files, dest, EmptyDir);
      if AdmissionOf(sub, below, Larger(a, b), cap).Success? {
        AdmissionIsMonotone(sub, below, a, Larger(a, b), cap);
        AdmissionIsMonotone(sub, below, b, Larger(a, b), cap);
      }
      if AdmissionOf(sub, below, a, cap).Success? {
        AdmittedIsOpen(sub, below, a, cap);
        StreamedWriteIsAdmitted(sub, below, announced, chunks, cap);
      }
    }
  }

  lemma AdmittedIsOpen(files: Node, rel: Path, n: nat, cap: nat)
    requires AdmissionOf(files, rel, n, cap).Success?
    ensures Open(files, rel)
  {
  }

  /** With no stale incoming file, a download leaves the very tree that writing the same bytes leaves. */
  method DownloadLeavesWhatWriteLeaves(downloaded: AgentWorkspace, written: AgentWorkspace, rel: string,
                                       announced: Option<nat>, chunks: seq<Read>)
      returns (r: Result<nat, WorkspaceError>, s: Result<nat, WorkspaceError>)
    requires downloaded.disk != written.disk && downloaded.Valid() && written.Valid()
    requires downloaded.disk.root == written.disk.root && downloaded.disk.limit == written.disk.limit
    requires downloaded.home == written.home && downloaded.files == written.files
    requires downloaded.maxBytes == written.maxBytes
    requires Look(downloaded.disk.root, downloaded.home + [INCOMING_FILE]).Absent?
    requires Complete(chunks) && IsUtf8(Delivered(chunks)) && |Delivered(chunks)| <= U64_MAX
    requires announced.Some? ==> announced.value <= |Delivered(chunks)|
    modifies downloaded.disk, written.disk
    ensures r.Success? == s.Success? && (r.Success? ==> r == s)
    ensures downloaded.disk.root == written.disk.root
  {
    hide DownloadOf, WriteOf, Deposit, Delivered, Complete, Content;
    DownloadAcceptedLikeWrite(downloaded.disk.root, downloaded.home, downloaded.files, rel, announced, chunks,
                              downloaded.maxBytes, downloaded.disk.limit);
    SatNone(|Delivered(chunks)|);
    r := downloaded.Fetch(rel, Body(announced, chunks));
    s := written.WriteText(rel, Delivered(chunks));
  }

  // ----- what does not change

  /** A write changes its destination and creates parents; every other path sees what it saw. */
  lemma WriteFrame(root: Node, dest: Path, bytes: seq<byte>, q: Path)
    requires Open(root, dest) && !Look(root, dest).FoundDir()
    ensures Apart(dest, q) ==> Look(Deposit(root, dest, File(bytes)), q) == Look(root, q)
    ensures q < dest ==>
              && Look(Deposit(root, dest, File(bytes)), q).FoundDir()
              && (Look(root, q).FoundDir() || Look(root, q).Absent?)
    ensures q == dest ==> Look(Deposit(root, dest, File(bytes)), q) == Found(File(bytes))
  {
    if Apart(dest, q) {
      LookDepositElsewhere(root, dest, File(bytes), q);
    } else if q == dest {
      LookDeposit(root, dest, File(bytes));
    } else if q < dest {
      LookDepositAbove(root, dest, File(bytes), q);
      assert dest == q + dest[|q|..];
      LookSplit(root, q, dest[|q|..]);
    }
  }

  /** Replacing a link leaves the file at its end alone, wherever that file is. */
  lemma LinkTargetUntouched(root: Node, dest: Path, bytes: seq<byte>, target: Path)
    requires Look(root, dest).FoundLink() && Look(root, target).FoundFile()
    ensures Look(Deposit(root, dest, File(bytes)), target) == Look(root, target)
    ensures dest != [] ==> Look(Drop(root, dest), target) == Look(root, target)
  {
    TwoLeavesAreApart(root, dest, target);
    LookDepositElsewhere(root, dest, File(bytes), target);
    if dest != [] {
      LookDropElsewhere(root, dest, target);
    }
  }

  lemma TwoLeavesAreApart(root: Node, p: Path, q: Path)
    requires Look(root, p).FoundLink() && Look(root, q).FoundFile()
    ensures Apart(p, q)
  {
    if p <= q {
      assert q == p + q[|p|..];
      LookSplit(root, p, q[|p|..]);
    }
    if q <= p {
      assert p == q + p[|q|..];
      LookSplit(root, q, p[|q|..]);
    }
  }

  /** A delete takes out the named subtree and nothing else; links elsewhere and their targets stay. */
  lemma DeleteFrame(root: Node, path: Path, q: Path)
    requires path != [] && Look(root, path).Found?
    ensures Apart(path, q) ==> Look(Drop(root, path), q) == Look(root, q)
    ensures path <= q ==> !Look(Drop(root, path), q).Found?
    ensures q < path ==> Look(Drop(root, path), q).FoundDir()
  {
    LookDrop(root, path);
    if Apart(path, q) {
      LookDropElsewhere(root, path, q);
    } else if path <= q {
      assert q == path + q[|path|..];
      LookSplit(Drop(root, path), path, q[|path|..]);
    } else {
      var up := Parent(path);
      assert up == q + up[|q|..];
      LookSplit(Drop(root, path), q, up[|q|..]);
    }
  }

  // ----- reading back

  /** A write keeps every directory, and every link except the one it replaces. */
  lemma WriteKeeps(root: Node, dest: Path, bytes: seq<byte>)
    requires Open(root, dest) && !Look(root, dest).FoundDir()
    ensures Keeps(root, Deposit(root, dest, File(bytes)), dest)
  {
    hide Deposit, Look;
    forall p | p != dest
      ensures Look(root, p).FoundDir() ==> Look(Deposit(root, dest, File(bytes)), p).FoundDir()
      ensures Look(root, p).FoundLink() ==> Look(Deposit(root, dest, File(bytes)), p) == Look(root, p)
    {
      WriteFrame(root, dest, bytes, p);
      if dest <= p {
        assert |dest| == |p| ==> dest == p;
        BelowALeaf(root, dest, p);
      } else if p <= dest {
        assert p < dest;
      }
    }
  }

  lemma BelowALeaf(root: Node, p: Path, q: Path)
    requires p < q && !Look(root, p).FoundDir()
    ensures !Look(root, q).Found?
  {
    assert q == p + q[|p|..];
    LookSplit(root, p, q[|p|..]);
  }

  /** Resolving the name goes through the link at `dest` on the way. */
  predicate LeadsThrough(root: Node, files: Path, rel: string, dest: Path, limit: nat) {
    RelativePath(rel).Success? && RelativePath(rel).value != []
    && FollowCrosses(root, files, files, Parent(RelativePath(rel).value), limit, dest)
  }

  /** A name that does not lead through the replaced link resolves to the same place after the write. */
  lemma ResolvesToSame(root: Node, files: Path, rel: string, dest: Path, bytes: seq<byte>, limit: nat)
    requires Look(root, files).FoundDir() && DestinationOf(root, files, rel, limit) == Success(dest)
    requires Open(root, dest) && !LeadsThrough(root, files, rel, dest, limit)
    ensures ResolveOf(Deposit(root, dest, File(bytes)), files, rel, limit) == Success(dest)
  {
    hide RelativePath, FollowAll, Deposit, Contained;
    var names := RelativePath(rel).value;
    var after := Deposit(root, dest, File(bytes));
    DestinationFacts(root, files, rel, limit);
    ResolvedPathIsPlain(root, files, names, limit);
    assert Parent(dest) == FollowAll(root, files, files, Parent(names), limit).value;
    WriteFrame(root, dest, bytes, files);
    WriteFrame(root, dest, bytes, Parent(dest));
    WriteKeeps(root, dest, bytes);
    FollowKept(root, after, files, files, Parent(names), limit, dest);
  }

  /** A name that does lead through the replaced link no longer resolves to anything that can be read. */
  lemma ResolvesToNothing(root: Node, files: Path, rel: string, dest: Path, bytes: seq<byte>, limit: nat)
    requires Look(root, files).FoundDir() && DestinationOf(root, files, rel, limit) == Success(dest)
    requires Look(root, dest).FoundLink() && LeadsThrough(root, files, rel, dest, limit)
    ensures ReadOf(Deposit(root, dest, File(bytes)), files, rel, limit) == Failure(Io)
  {
    hide RelativePath, FollowAll, FollowCrosses, Deposit, Lstat;
    var names := RelativePath(rel).value;
    var after := Deposit(root, dest, File(bytes));
    var last := names[|names| - 1];
    DestinationFacts(root, files, rel, limit);
    ResolvedPathIsPlain(root, files, names, limit);
    LookParent(root, dest);
    WriteKeeps(root, dest, bytes);
    LookDeposit(root, dest, File(bytes));
    FollowBroken(root, after, files, files, Parent(names), limit, dest);
    LookSplit(after, dest, [last]);
    LstatPlain(after, dest + [last], limit);
  }

  /** A name of one component leads through nothing, and so does any name when no link is replaced. */
  lemma LeadsThroughNothing(root: Node, files: Path, rel: string, dest: Path, limit: nat)
    requires !Look(root, dest).FoundLink() || (RelativePath(rel).Success? && |RelativePath(rel).value| <= 1)
    ensures !LeadsThrough(root, files, rel, dest, limit)
  {
    hide RelativePath;
    if !Look(root, dest).FoundLink() && RelativePath(rel).Success? && RelativePath(rel).value != [] {
      NothingToFollow(root, files, files, Parent(RelativePath(rel).value), limit, dest);
    }
  }

  /**
   * Read after write: right after a write of at most the read limit, reading the same name gives the content
   * back, exactly when the name does not lead through a link that the write replaced.
   */
  lemma ReadAfterWrite(root: Node, files: Path, rel: string, content: seq<byte>, cap: nat, limit: nat)
    requires Look(root, files).FoundDir() && IsUtf8(content) && |content| <= MAX_READ_BYTES
    requires WriteOf(root, files, rel, |content|, cap, limit).Success?
    ensures var dest := WriteOf(root, files, rel, |content|, cap, limit).value;
            ReadOf(Deposit(root, dest, File(content)), files, rel, limit)
            == if LeadsThrough(root, files, rel, dest, limit) then Failure(Io) else Success(content)
    ensures var dest := WriteOf(root, files, rel, |content|, cap, limit).value;
            !Look(root, dest).FoundLink() ==> !LeadsThrough(root, files, rel, dest, limit)
  {
    hide DestinationOf, AdmissionOf, ResolveOf, Deposit, IsUtf8, Lstat, RelativePath, LeadsThrough;
    var dest := WriteOf(root, files, rel, |content|, cap, limit).value;
    var after := Deposit(root, dest, File(content));
    DestinationFacts(root, files, rel, limit);
    DepositBelow(root, files, dest, File(content));
    AdmittedIsOpen(Look(root, files).node, dest[|files|..], |content|, cap);
    if !Look(root, dest).FoundLink() {
      LeadsThroughNothing(root, files, rel, dest, limit);
    }
    if LeadsThrough(root, files, rel, dest, limit) {
      ResolvesToNothing(root, files, rel, dest, content, limit);
    } else {
      ResolvesToSame(root, files, rel, dest, content, limit);
      LookDeposit(root, dest, File(content));
      LstatPlain(after, dest, limit);
    }
  }

  /**
   * A name that leads through itself: with `x` a link to its own directory, a write to `x/x` replaces the
   * link that led there, and the name no longer resolves.
   */
  lemma ReadAfterWriteThroughTheLinkItself(root: Node, files: Path, x: Name, rel: string, content: seq<byte>,
                                           limit: nat)
    requires Look(root, files).FoundDir() && Look(root, files + [x]) == Found(Link(false, [])) && limit > 0
    requires RelativePath(rel) == Success([x, x])
    ensures DestinationOf(root, files, rel, limit) == Success(files + [x])
    ensures ReadOf(Deposit(root, files + [x], File(content)), files, rel, limit) == Failure(Io)
  {
    hide RelativePath, Deposit, Lstat, RealPath;
    var dest := files + [x];
    var after := Deposit(root, dest, File(content));
    assert Parent([x, x]) == [x] && Parent(dest) == files;
    LinkToOwnDirectory(root, files, x, limit);
    FollowOne(root, files, x, limit);
    LookDeposit(root, dest, File(content));
    LookDepositAbove(root, dest, File(content), files);
    PushPlain(after, files, files, x, limit);
    FollowOne(after, files, x, limit);
    LookSplit(after, dest, [x]);
    LstatPlain(after, dest + [x], limit);
  }

  lemma FollowOne(root: Node, files: Path, x: Name, limit: nat)
    ensures FollowAll(root, files, files, [x], limit) == PushFollowed(root, files, files, x, limit)
  {
    hide PushFollowed;
    var next := PushFollowed(root, files, files, x, limit);
    if next.Success? {
      assert [x][1..] == [];
      assert FollowAll(root, files, next.value, [], limit) == Success(next.value);
    }
  }

  lemma LinkToOwnDirectory(root: Node, files: Path, x: Name, limit: nat)
    requires Look(root, files).FoundDir() && Look(root, files + [x]) == Found(Link(false, [])) && limit > 0
    ensures PushFollowed(root, files, files, x, limit) == Success(files)
  {
    PushAgainstKernel(root, files, files, x, limit);
    var todo: seq<Step> := [Into(x)];
    assert [] + todo[1..] == [];
    assert Walk(root, files, [], true, limit - 1) == Success(files);
    assert Walk(root, files, todo, true, limit) == Success(files);
  }

  // ----- reads against the kernel

  /** What a read gives lies below `files`, at a path with no link on the way. */
  lemma ReadIsContained(root: Node, files: Path, rel: string, limit: nat)
    requires Look(root, files).FoundDir() && ReadOf(root, files, rel, limit).Success?
    ensures RelativePath(rel).Success? && RelativePath(rel).value != []
    ensures var path := FollowAll(root, files, files, RelativePath(rel).value, limit);
            && path.Success? && files < path.value && Plain(root, path.value)
            && Look(root, path.value) == Found(File(ReadOf(root, files, rel, limit).value))
  {
    hide RelativePath, FollowAll, IsUtf8, ResolveFollowingOf;
    ReadNamesAreSome(root, files, rel, limit);
    ReadFollowsAll(root, files, rel, limit);
    FollowStaysHeld(root, files, files, RelativePath(rel).value, limit);
  }

  /**
   * It is what the kernel gives when it opens the same names below `files` with the link limit once per name. With
   * the limit once for all names the kernel gives it exactly when that covers the links on the way.
   */
  lemma ReadIsKernelRead(root: Node, files: Path, rel: string, names: Path, bytes: seq<byte>, limit: nat)
    requires Look(root, files).FoundDir() && RelativePath(rel) == Success(names)
    requires ReadOf(root, files, rel, limit) == Success(bytes)
    ensures var asked, big := files + names, LimitPerName(names, limit);
            && Stat(root, asked, big) == Success(File(bytes))
            && Stat(root, asked, limit)
               == if Links(root, [], Steps(asked), big) <= limit then Success(File(bytes)) else Failure(ELOOP)
  {
    hide RelativePath, FollowAll, Stat, Links, ReadOf;
    ReadIsContained(root, files, rel, limit);
    FollowedFileIsOpened(root, files, names, bytes, limit);
  }

  function LimitPerName(names: Path, limit: nat): nat {
    limit * |names|
  }

  lemma FollowedFileIsOpened(root: Node, files: Path, names: Path, bytes: seq<byte>, limit: nat)
    requires Look(root, files).FoundDir() && FollowAll(root, files, files, names, limit).Success?
    requires Look(root, FollowAll(root, files, files, names, limit).value) == Found(File(bytes))
    ensures var asked, big := files + names, LimitPerName(names, limit);
            && Stat(root, asked, big) == Success(File(bytes))
            && Stat(root, asked, limit)
               == if Links(root, [], Steps(asked), big) <= limit then Success(File(bytes)) else Failure(ELOOP)
  {
    hide FollowAll, Walk, Links;
    var big := LimitPerName(names, limit);
    FollowIsKernelWalk(root, files, files, names, limit);
    StepsSplit(files, names);
    assert [] + files == files;
    WalkDown(root, [], files, Steps(names), true, big);
    WalkNeedsItsLinks(root, [], Steps(files + names), big, limit);
  }

  lemma ReadNamesAreSome(root: Node, files: Path, rel: string, limit: nat)
    requires ReadOf(root, files, rel, limit).Success? && Look(root, files).FoundDir()
    ensures RelativePath(rel).Success? && RelativePath(rel).value != []
  {
    hide RelativePath, Lstat, RealPath;
    if RelativePath(rel).Success? && RelativePath(rel).value == [] {
      FollowedPathIsPlain(root, files, rel, limit);
      FilesIsNoLink(root, files, limit);
    }
  }

  /** A directory is not followed anywhere. */
  lemma FilesIsNoLink(root: Node, files: Path, limit: nat)
    requires Look(root, files).FoundDir()
    ensures FollowSymlink(root, files, files, limit) == Success(None)
  {
    LstatPlain(root, files, limit);
  }

  // ----- tool paths

  /** Every name of an accepted tool path is safe: it is not `.` or `..`, and holds no separator, colon or NUL. */
  lemma AcceptedNamesAreSafe(rel: string)
    requires RelativePath(rel).Success?
    ensures forall i :: 0 <= i < |RelativePath(rel).value| ==> SafeName(RelativePath(rel).value[i])
  {
    hide Names, Split, Trim, Replace;
    if '\0' !in rel && ':' !in rel {
      PiecesAreSafe(rel);
    }
  }

  /** Safe names joined by `/` come back, as long as no blank at either end would be trimmed away. */
  lemma JoinedNamesComeBack(names: Path)
    requires names != [] && forall i :: 0 <= i < |names| ==> SafeName(names[i])
    requires !IsWhitespace(names[0][0])
    requires var last := names[|names| - 1]; !IsWhitespace(last[|last| - 1])
    ensures RelativePath(Join(names, '/')) == Success(names)
  {
    var s := Join(names, '/');
    JoinEnds(names);
    JoinKeepsOut(names, '\0');
    JoinKeepsOut(names, ':');
    JoinKeepsOut(names, '\\');
    assert Replace(s, '\\', '/') == s;
    assert TrimStart(s) == s && TrimEnd(s) == s;
    PiecesAreSafe(s);
    SplitJoin(names, '/');
    assert forall i :: 0 <= i < |names| ==> SafeName(names[i]) && SafePiece(names[i]);
    SafeNamesAreKept(names);
  }

  lemma {:induction false} JoinEnds(names: Path)
    requires names != []
    ensures var s := Join(names, '/');
            s != "" && s[0] == names[0][0] && s[|s| - 1] == names[|names| - 1][|names[|names| - 1]| - 1]
  {
    if |names| > 1 {
      JoinEnds(names[1..]);
    }
  }

  lemma {:induction false} JoinKeepsOut(names: Path, c: char)
    requires names != [] && c != '/' && forall i :: 0 <= i < |names| ==> c !in names[i]
    ensures c !in Join(names, '/')
  {
    if |names| > 1 {
      JoinKeepsOut(names[1..], c);
    }
  }

  lemma {:induction false} SafeNamesAreKept(names: Path)
    requires forall i :: 0 <= i < |names| ==> SafeName(names[i])
    requires forall i :: 0 <= i < |names| ==> SafePiece(names[i])
    ensures Names(names) == Success(names)
  {
    if names != [] {
      assert SafeName(names[0]);
      SafeNamesAreKept(names[1..]);
      assert [names[0]] + names[1..] == names;
    }
  }
}
