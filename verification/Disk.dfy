/**
 * The mutable disk: one root that every call replaces, and a log of every root the disk has had,
 * so that a claim about "every step" is a claim about the log.
 */
module DiskModel {
  import opened Wrappers
  import opened FileTree
  import opened Kernel

  /** `s` is `before` with the file at `p` holding a prefix of `data`. */
  ghost predicate PartlyWritten(s: Node, before: Node, p: Path, data: seq<byte>) {
    exists k :: 0 <= k <= |data| && s == Deposit(before, p, File(data[..k]))
  }

  function Done(call: Result<Node, Errno>): Result<(), Errno> {
    if call.Success? then Success(()) else Failure(call.error)
  }

  /** `names` lists the entries of a directory, each once. */
  ghost predicate Lists(names: seq<Name>, es: map<Name, Node>) {
    && (forall k :: k in names <==> k in es)
    && forall i, j :: 0 <= i < j < |names| ==> names[i] != names[j]
  }

  /** Read a directory that is reached without following a link. */
  method ListPlain(disk: Disk, path: Path) returns (r: Result<seq<Name>, Errno>)
    requires Plain(disk.root, path) && !Look(disk.root, path).FoundLink()
    ensures r.Success? <==> Look(disk.root, path).FoundDir()
    ensures r.Success? ==> Lists(r.value, Look(disk.root, path).node.entries)
  {
    StatPlain(disk.root, path, disk.limit);
    r := disk.ReadDir(path);
  }

  /** The metadata call on a path with no link among its parents. */
  method SymlinkMetadata(disk: Disk, path: Path) returns (r: Result<Node, Errno>)
    requires Plain(disk.root, path)
    ensures r == SeenNode(Look(disk.root, path))
  {
    LstatPlain(disk.root, path, disk.limit);
    r := Lstat(disk.root, path, disk.limit);
  }

  class Disk {
    var root: Node
    ghost var log: seq<Node>
    /** How many links one walk may follow before the kernel answers ELOOP. */
    const limit: nat

    constructor (root: Node, limit: nat)
      ensures this.root == root && this.limit == limit && log == [root]
    {
      this.root, this.limit, this.log := root, limit, [root];
    }

    /** A call that fails changes nothing; one that succeeds is one step. */
    method Commit(call: Result<Node, Errno>) returns (r: Result<(), Errno>)
      modifies this
      ensures r == Done(call)
      ensures call.Success? ==> root == call.value && log == old(log) + [root]
      ensures call.Failure? ==> root == old(root) && log == old(log)
    {
      match call
      case Success(after) => root, log, r := after, log + [after], Success(());
      case Failure(e) => r := Failure(e);
    }

    method Mkdir(p: Path) returns (r: Result<(), Errno>)
      modifies this
      ensures var call := old(MkdirCall(root, p, limit));
              && r == Done(call)
              && root == (if call.Success? then call.value else old(root))
              && log == (if call.Success? then old(log) + [root] else old(log))
    {
      r := Commit(MkdirCall(root, p, limit));
    }

    method Unlink(p: Path) returns (r: Result<(), Errno>)
      modifies this
      ensures var call := old(UnlinkCall(root, p, limit));
              && r == Done(call)
              && root == (if call.Success? then call.value else old(root))
              && log == (if call.Success? then old(log) + [root] else old(log))
    {
      r := Commit(UnlinkCall(root, p, limit));
    }

    method Rmdir(p: Path) returns (r: Result<(), Errno>)
      modifies this
      ensures var call := old(RmdirCall(root, p, limit));
              && r == Done(call)
              && root == (if call.Success? then call.value else old(root))
              && log == (if call.Success? then old(log) + [root] else old(log))
    {
      r := Commit(RmdirCall(root, p, limit));
    }

    method Rename(from: Path, to: Path) returns (r: Result<(), Errno>)
      modifies this
      ensures var call := old(RenameCall(root, from, to, limit));
              && r == Done(call)
              && root == (if call.Success? then call.value else old(root))
              && log == (if call.Success? then old(log) + [root] else old(log))
    {
      r := Commit(RenameCall(root, from, to, limit));
    }

    /** Create or truncate, and hand back the physical path of the open file. */
    method Create(p: Path) returns (r: Result<Path, Errno>)
      modifies this
      ensures var call := old(CreateCall(root, p, limit));
              && (call.Success? ==> r == Success(call.value.1) && root == call.value.0 && log == old(log) + [root])
              && (call.Failure? ==> r == Failure(call.error) && root == old(root) && log == old(log))
    {
      var call := CreateCall(root, p, limit);
      match call
      case Success(made) => root, log, r := made.0, log + [made.0], Success(made.1);
      case Failure(e) => r := Failure(e);
    }

    /** Write to the open file after the bytes it already holds, in pieces of any size. */
    method WriteAll(handle: Path, ghost before: Node, ghost done: seq<byte>, data: seq<byte>)
      requires Open(before, handle) && root == Deposit(before, handle, File(done))
      modifies this
      ensures root == Deposit(before, handle, File(done + data))
      ensures old(log) <= log
      ensures forall i :: |old(log)| <= i < |log| ==> PartlyWritten(log[i], before, handle, done + data)
    {
      var n := 0;
      assert done + data[..0] == done;
      while n < |data|
        invariant 0 <= n <= |data|
        invariant root == Deposit(before, handle, File(done + data[..n]))
        invariant old(log) <= log
        invariant forall i :: |old(log)| <= i < |log| ==> PartlyWritten(log[i], before, handle, done + data)
      {
        var m :| n < m <= |data|;
        LookDeposit(before, handle, File(done + data[..n]));
        var held := Look(root, handle).node.bytes;
        DepositTwice(before, handle, File(held), File(held + data[n..m]));
        assert held + data[n..m] == done + data[..m] == (done + data)[..|done| + m];
        root := Deposit(root, handle, File(held + data[n..m]));
        log := log + [root];
        assert PartlyWritten(root, before, handle, done + data);
        n := m;
      }
      assert data[..n] == data;
    }

    /** The names in a directory, each once, in no particular order. */
    method ReadDir(p: Path) returns (r: Result<seq<Name>, Errno>)
      ensures match Stat(root, p, limit)
              case Failure(e) => r == Failure(e)
              case Success(Dir(es)) => r.Success? && Lists(r.value, es)
              case Success(_) => r == Failure(ENOTDIR)
    {
      match Stat(root, p, limit)
      case Failure(e) => r := Failure(e);
      case Success(Dir(es)) =>
        var names, left := [], es.Keys;
        while left != {}
          invariant left <= es.Keys
          invariant forall k :: k in names <==> k in es && k !in left
          invariant forall i, j :: 0 <= i < j < |names| ==> names[i] != names[j]
          decreases |left|
        {
          var k :| k in left;
          names, left := names + [k], left - {k};
        }
        r := Success(names);
      case Success(_) => r := Failure(ENOTDIR);
    }
  }
}
