/** Writing, moving and removing single entries. A link is acted on as a link; its target is not opened. */
module Entries {
  import opened Wrappers
  import opened FileTree
  import opened Kernel
  import opened DiskModel
  import opened Errors
  import opened Quota

  /** `NotFound` for a missing path; any other failed call is an I/O error. */
  function MissingError(e: Errno): WorkspaceError {
    if e == ENOENT then NotFound else Io
  }

  function RejectRealDir(meta: Result<Node, Errno>): Result<(), WorkspaceError> {
    match meta
    case Success(Dir(_)) => Failure(NotAFile)
    case _ => Success(())
  }

  // ----- writing

  /** A state a write may pass through: the link gone, or the file with some of its bytes. */
  ghost predicate WriteStep(s: Node, before: Node, path: Path, bytes: seq<byte>) {
    || (Look(before, path).FoundLink() && path != [] && s == Drop(before, path))
    || PartlyWritten(s, before, path, bytes)
  }

  method WriteReplacingLink(disk: Disk, path: Path, bytes: seq<byte>) returns (r: Result<(), WorkspaceError>)
    requires path != [] && Look(disk.root, Parent(path)).FoundDir()
    modifies disk
    ensures old(Look(disk.root, path)).FoundDir() ==>
              r == Failure(Io) && disk.root == old(disk.root) && disk.log == old(disk.log)
    ensures !old(Look(disk.root, path)).FoundDir() ==>
              r == Success(()) && disk.root == Deposit(old(disk.root), path, File(bytes))
    ensures old(disk.log) <= disk.log
    ensures forall i :: |old(disk.log)| <= i < |disk.log| ==> WriteStep(disk.log[i], old(disk.root), path, bytes)
  {
    ghost var before := disk.root;
    var unlinked := UnlinkIfLink(disk, path);
    if unlinked.Failure? {
      return unlinked;
    }
    CallsPlain(disk.root, path, disk.limit);
    var handle := disk.Create(path);
    if handle.Failure? {
      return Failure(Io);
    }
    if Look(before, path).FoundLink() {
      DepositAfterDrop(before, path, File([]));
    }
    assert bytes[..0] == [];
    assert PartlyWritten(disk.root, before, path, bytes);
    assert [] + bytes == bytes;
    LookParent(before, path);
    CallsPlain(before, path, disk.limit);
    disk.WriteAll(path, before, [], bytes);
    r := Success(());
  }

  method UnlinkIfLink(disk: Disk, path: Path) returns (r: Result<(), WorkspaceError>)
    requires path != [] && Look(disk.root, Parent(path)).FoundDir()
    modifies disk
    ensures r == Success(())
    ensures old(Look(disk.root, path)).FoundLink() ==>
              disk.root == Drop(old(disk.root), path) && disk.log == old(disk.log) + [disk.root]
              && Look(disk.root, path).Absent? && Look(disk.root, Parent(path)).FoundDir()
    ensures !old(Look(disk.root, path)).FoundLink() ==> disk.root == old(disk.root) && disk.log == old(disk.log)
  {
    CallsPlain(disk.root, path, disk.limit);
    var meta := SymlinkMetadata(disk, path);
    r := Success(());
    if meta.Success? && meta.value.Link? {
      LookDrop(disk.root, path);
      var gone := disk.Unlink(path);
      r := if gone.Success? then Success(()) else Failure(Io);
    }
  }

  // ----- moving

  /** A file that is there is moved over anything but a directory. A move that fails is tried again. */
  method ReplaceFile(disk: Disk, from: Path, to: Path) returns (r: Result<(), WorkspaceError>)
    requires to != [] && Look(disk.root, Parent(to)).FoundDir()
    modifies disk
    ensures from != [] && old(Look(disk.root, Parent(from))).FoundDir() && old(Look(disk.root, from)).FoundFile() ==>
              if old(Look(disk.root, to)).FoundDir()
              then r == Failure(NotAFile) && disk.root == old(disk.root) && disk.log == old(disk.log)
              else && r == Success(())
                   && disk.root == old(Deposit(Drop(disk.root, from), to, Look(disk.root, from).node))
                   && disk.log == old(disk.log) + [disk.root]
    ensures match old(RenameCall(disk.root, from, to, disk.limit))
            case Success(moved) => r == Success(()) && disk.root == moved && disk.log == old(disk.log) + [moved]
            case Failure(_) => Retried(old(disk.root), old(disk.log), disk.root, disk.log, from, to, disk.limit, r)
  {
    if from != [] && Look(disk.root, Parent(from)).FoundDir() && Look(disk.root, from).FoundFile() {
      CallsPlain(disk.root, from, disk.limit);
      CallsPlain(disk.root, to, disk.limit);
    }
    var moved := disk.Rename(from, to);
    if moved.Success? {
      return Success(());
    }
    r := ReplaceExisting(disk, from, to);
  }

  /** What a second attempt leaves behind. */
  ghost predicate Retried(before: Node, log: seq<Node>, after: Node, newLog: seq<Node>, from: Path, to: Path,
                          limit: nat, r: Result<(), WorkspaceError>)
    requires to != []
  {
    match Look(before, to)
    case Found(Dir(_)) => r == Failure(NotAFile) && after == before && newLog == log
    case Found(_) => (
      var gone := Drop(before, to);
      match RenameCall(gone, from, to, limit)
      case Success(moved) => r == Success(()) && after == moved && newLog == log + [gone, moved]
      case Failure(_) => r == Failure(Io) && after == gone && newLog == log + [gone])
    case _ => r == Failure(Io) && after == before && newLog == log
  }

  /**
   * A failed move: whatever is in the way is removed and the move is tried again, but not a directory. When
   * the second move fails too, what was in the way stays removed.
   */
  method ReplaceExisting(disk: Disk, from: Path, to: Path) returns (r: Result<(), WorkspaceError>)
    requires to != [] && Look(disk.root, Parent(to)).FoundDir()
    modifies disk
    ensures Retried(old(disk.root), old(disk.log), disk.root, disk.log, from, to, disk.limit, r)
  {
    LookParent(disk.root, to);
    hide Walk, Look;
    CallsPlain(disk.root, to, disk.limit);
    var meta := SymlinkMetadata(disk, to);
    if meta.Failure? {
      return Failure(Io);
    }
    if meta.value.Dir? {
      return Failure(NotAFile);
    }
    var gone := disk.Unlink(to);
    if gone.Failure? {
      return Failure(Io);
    }
    var moved := disk.Rename(from, to);
    r := if moved.Success? then Success(()) else Failure(Io);
  }

  /** With nothing to move, both attempts fail, and what was at the destination is gone. */
  lemma MissingSourceLosesDestination(root: Node, from: Path, to: Path, limit: nat)
    requires from != [] && Look(root, Parent(from)).FoundDir() && Look(root, from).Absent?
    requires to != [] && (Look(root, to).FoundFile() || Look(root, to).FoundLink())
    ensures RenameCall(root, from, to, limit).Failure? && RenameCall(Drop(root, to), from, to, limit).Failure?
    ensures Look(Drop(root, to), to) == Absent
  {
    LookDrop(root, to);
    AbsentIsApart(root, from, to);
    LookDropElsewhere(root, to, from);
    CallsPlain(root, from, limit);
    ParentIsKept(root, from, to);
    CallsPlain(Drop(root, to), from, limit);
  }

  lemma AbsentIsApart(root: Node, from: Path, to: Path)
    requires from != [] && Look(root, Parent(from)).FoundDir() && Look(root, from).Absent?
    requires Look(root, to).FoundFile() || Look(root, to).FoundLink()
    ensures Apart(to, from)
  {
    if to <= from {
      assert from == to + from[|to|..];
      LookSplit(root, to, from[|to|..]);
    }
    if from <= to {
      assert to == from + to[|from|..];
      LookSplit(root, from, to[|from|..]);
    }
  }

  /** Taking out another entry leaves a directory a directory. */
  lemma ParentIsKept(root: Node, from: Path, to: Path)
    requires from != [] && to != [] && Apart(to, from) && Look(root, Parent(from)).FoundDir()
    requires Look(root, to).FoundFile() || Look(root, to).FoundLink()
    ensures Look(Drop(root, to), Parent(from)).FoundDir()
  {
    var up := Parent(from);
    assert from == up + [from[|from| - 1]];
    if up <= to {
      var rel := to[|up|..];
      assert to == up + rel;
      DropSplit(root, up, rel);
      LookDeposit(root, up, Drop(Look(root, up).node, rel));
    } else if Apart(to, up) {
      LookDropElsewhere(root, to, up);
    }
  }

  /** One such disk: `t` is a file, and there is no `s` to move over it. */
  method SourceMissing(bytes: seq<byte>, limit: nat) returns (disk: Disk, r: Result<(), WorkspaceError>)
    ensures r == Failure(Io) && disk.root == EmptyDir
  {
    var root := Dir(map["t" := File(bytes)]);
    disk := new Disk(root, limit);
    assert Parent(["s"]) == [] && Parent(["t"]) == [];
    assert Look(root, ["t"]) == Found(File(bytes)) by {
      assert ["t"][1..] == [];
    }
    assert Drop(root, ["t"]) == EmptyDir by {
      assert root.entries - {"t"} == map[];
    }
    MissingSourceLosesDestination(root, ["s"], ["t"], limit);
    r := ReplaceFile(disk, ["s"], ["t"]);
  }

  // ----- removing

  /** A state a removal may pass through: the entry gone, or a directory that holds no more than it did. */
  ghost predicate PartlyRemoved(s: Node, before: Node, path: Path)
    requires path != [] && Look(before, path).Found?
  {
    s == Drop(before, path) || Emptied(s, before, path)
  }

  ghost predicate Emptied(s: Node, before: Node, path: Path)
    requires Look(before, path).Found?
  {
    exists x: Node :: Content(x) <= Content(Look(before, path).node) && s == Deposit(before, path, x)
  }

  method RemoveContained(disk: Disk, path: Path, ghost node: Node) returns (r: Result<(), WorkspaceError>)
    requires path != [] && Plain(disk.root, path)
    requires Look(disk.root, path).Found? ==> node == Look(disk.root, path).node
    modifies disk
    ensures match old(Look(disk.root, path))
            case Found(_) => r == Success(()) && disk.root == Drop(old(disk.root), path)
            case Absent => r == Failure(NotFound) && disk.root == old(disk.root) && disk.log == old(disk.log)
            case _ => r == Failure(Io) && disk.root == old(disk.root) && disk.log == old(disk.log)
    ensures old(disk.log) <= disk.log
    ensures old(Look(disk.root, path)).Found? ==>
              forall i :: |old(disk.log)| <= i < |disk.log| ==> PartlyRemoved(disk.log[i], old(disk.root), path)
    decreases node, 1
  {
    var meta := SymlinkMetadata(disk, path);
    if meta.Failure? {
      return Failure(MissingError(meta.error));
    }
    if meta.value.Dir? {
      r := RemoveDirectory(disk, path, node);
    } else {
      LookParent(disk.root, path);
      CallsPlain(disk.root, path, disk.limit);
      var gone := disk.Unlink(path);
      r := if gone.Success? then Success(()) else Failure(Io);
    }
  }

  /** The entries that a removal has not reached yet. */
  ghost function Left(es: map<Name, Node>, names: seq<Name>): map<Name, Node> {
    map k | k in es && k !in names :: es[k]
  }

  method RemoveDirectory(disk: Disk, path: Path, ghost node: Node) returns (r: Result<(), WorkspaceError>)
    requires path != [] && Look(disk.root, path) == Found(node) && node.Dir?
    modifies disk
    ensures r == Success(()) && disk.root == Drop(old(disk.root), path)
    ensures old(disk.log) <= disk.log
    ensures forall i :: |old(disk.log)| <= i < |disk.log| ==> PartlyRemoved(disk.log[i], old(disk.root), path)
    decreases node, 0
  {
    ghost var before := disk.root;
    var listing := ListPlain(disk, path);
    if listing.Failure? {
      return Failure(Io);
    }
    var names := listing.value;
    var i := 0;
    assert Left(node.entries, names[..0]) == node.entries;
    DepositSame(before, path);
    while i < |names|
      invariant 0 <= i <= |names|
      invariant disk.root == Deposit(before, path, Dir(Left(node.entries, names[..i])))
      invariant old(disk.log) <= disk.log
      invariant forall j :: |old(disk.log)| <= j < |disk.log| ==> PartlyRemoved(disk.log[j], before, path)
    {
      ghost var here, mark := disk.root, disk.log;
      RemovingNext(before, path, node, names, i);
      var gone := RemoveContained(disk, path + [names[i]], node.entries[names[i]]);
      if gone.Failure? {
        return gone;
      }
      forall j | |mark| <= j < |disk.log|
        ensures PartlyRemoved(disk.log[j], before, path)
      {
        RemovalLifts(disk.log[j], before, path, node, names, i);
      }
      i := i + 1;
    }
    assert Left(node.entries, names[..i]) == map[];
    LookDeposit(before, path, EmptyDir);
    LookParent(disk.root, path);
    CallsPlain(disk.root, path, disk.limit);
    DropAfterDeposit(before, path, EmptyDir);
    var gone := disk.Rmdir(path);
    r := if gone.Success? then Success(()) else Failure(Io);
  }

  /** The next entry is where the removal expects it, and dropping it leaves the rest. */
  lemma RemovingNext(before: Node, path: Path, node: Node, names: seq<Name>, i: nat)
    requires Look(before, path) == Found(node) && node.Dir? && Lists(names, node.entries) && i < |names|
    ensures var here := Deposit(before, path, Dir(Left(node.entries, names[..i])));
            && Look(here, path) == Found(Dir(Left(node.entries, names[..i])))
            && Look(here, path + [names[i]]) == Found(node.entries[names[i]])
            && Drop(here, path + [names[i]]) == Deposit(before, path, Dir(Left(node.entries, names[..i + 1])))
  {
    var left := Left(node.entries, names[..i]);
    var here := Deposit(before, path, Dir(left));
    LookDeposit(before, path, Dir(left));
    LookSplit(here, path, [names[i]]);
    DropSplit(here, path, [names[i]]);
    assert names[..i + 1] == names[..i] + [names[i]];
    assert left - {names[i]} == Left(node.entries, names[..i + 1]);
    DepositTwice(before, path, Dir(left), Dir(left - {names[i]}));
  }

  /** A state within the removal of one entry is a state within the removal of the directory. */
  lemma RemovalLifts(s: Node, before: Node, path: Path, node: Node, names: seq<Name>, i: nat)
    requires path != [] && Look(before, path) == Found(node) && node.Dir? && Lists(names, node.entries) && i < |names|
    requires var here := Deposit(before, path, Dir(Left(node.entries, names[..i])));
             Look(here, path + [names[i]]).Found? && PartlyRemoved(s, here, path + [names[i]])
    ensures PartlyRemoved(s, before, path)
  {
    hide Content, Deposit, Drop;
    var left := Left(node.entries, names[..i]);
    var here := Deposit(before, path, Dir(left));
    RemovingNext(before, path, node, names, i);
    LeftCost(node.entries, names, i);
    if s == Drop(here, path + [names[i]]) {
      LeftCost(node.entries, names, i + 1);
      assert Emptied(s, before, path);
    } else {
      var x: Node :| Content(x) <= Content(node.entries[names[i]]) && s == Deposit(here, path + [names[i]], x);
      DepositSplit(here, path, [names[i]], x);
      DepositEntry(left, names[i], x);
      DepositTwice(before, path, Dir(left), Dir(left[names[i] := x]));
      ContentOfUpdate(left, names[i], x);
      assert s == Deposit(before, path, Dir(left[names[i] := x]));
      assert Emptied(s, before, path);
    }
  }

  lemma {:induction false} LeftCost(es: map<Name, Node>, names: seq<Name>, i: nat)
    requires Lists(names, es) && i <= |names|
    ensures Content(Dir(Left(es, names[..i]))) <= Content(Dir(es))
  {
    hide Content;
    if i == 0 {
      assert Left(es, names[..0]) == es;
    } else {
      LeftCost(es, names, i - 1);
      var more := Left(es, names[..i - 1]);
      assert names[..i] == names[..i - 1] + [names[i - 1]];
      assert more - {names[i - 1]} == Left(es, names[..i]);
      ContentOfEntry(more, names[i - 1]);
    }
  }

  /** In whatever directory it happens, a removal never makes the usage of `files` grow. */
  lemma RemovalUsage(s: Node, before: Node, files: Path, rel: Path)
    requires Look(before, files).Found? && rel != [] && Look(before, files + rel).Found?
    requires PartlyRemoved(s, before, files + rel)
    ensures UsageAt(s, files) <= UsageAt(before, files)
  {
    var sub := Look(before, files).node;
    LookSplit(before, files, rel);
    if s == Drop(before, files + rel) {
      DropSplit(before, files, rel);
      UsageOfDeposit(before, files, Drop(sub, rel));
      DropCost(sub, rel);
    } else {
      var x: Node :| Content(x) <= Content(Look(before, files + rel).node) && s == Deposit(before, files + rel, x);
      DepositSplit(before, files, rel, x);
      UsageOfDeposit(before, files, Deposit(sub, rel, x));
      DepositCost(sub, rel, x);
      MissingZeroIffFound(sub, rel);
    }
  }
}
