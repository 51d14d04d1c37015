/** Resolving a tool path below `files`, and creating missing parents. */
module Sandbox {
  import opened Wrappers
  import opened FileTree
  import opened Kernel
  import opened DiskModel
  import opened Errors
  import opened Text

  // ----- from text to names

  predicate EndsWithDotOrSpace(name: string)
    requires name != ""
  {
    name[|name| - 1] == '.' || name[|name| - 1] == ' '
  }

  /** Text that can be cut into names: the checks on the whole argument have been made. */
  predicate SafePiece(s: string) {
    '/' !in s && '\\' !in s && ':' !in s && '\0' !in s
  }

  /** A name a tool path may carry. */
  predicate SafeName(s: string) {
    s != "" && !EndsWithDotOrSpace(s) && SafePiece(s)
  }

  function RelativePath(rel: string): Result<Path, WorkspaceError> {
    if '\0' in rel then Failure(BadPath)
    else if ':' in rel then Failure(PathEscape)
    else
      var trimmed := Trim(Replace(rel, '\\', '/'));
      if trimmed == "" || trimmed == "." then Success([])
      else if trimmed[0] == '/' then Failure(PathEscape)
      else
        PiecesAreSafe(rel);
        Names(Split(trimmed, '/'))
  }

  lemma PiecesKeepOut(s: string, c: char)
    requires c !in s
    ensures forall i :: 0 <= i < |Split(Trim(s), '/')| ==> c !in Split(Trim(s), '/')[i]
  {
    TrimKeepsOut(s, c);
    TrimKeepsOut(TrimStart(s), c);
    SplitKeepsOut(Trim(s), '/', c);
  }

  lemma PiecesAreSafe(rel: string)
    requires '\0' !in rel && ':' !in rel
    ensures forall i :: 0 <= i < |Split(Trim(Replace(rel, '\\', '/')), '/')|
              ==> SafePiece(Split(Trim(Replace(rel, '\\', '/')), '/')[i])
  {
    var slashed := Replace(rel, '\\', '/');
    var trimmed := Trim(slashed);
    PiecesKeepOut(slashed, '\0');
    PiecesKeepOut(slashed, ':');
    PiecesKeepOut(slashed, '\\');
    JoinSplit(trimmed, '/');
  }

  /** The components of a relative path: empty and `.` pieces vanish, `..` and odd endings are refused. */
  function Names(pieces: seq<string>): (r: Result<Path, WorkspaceError>)
    requires forall i :: 0 <= i < |pieces| ==> SafePiece(pieces[i])
    ensures r.Success? ==> forall i :: 0 <= i < |r.value| ==> SafeName(r.value[i])
  {
    if pieces == [] then Success([])
    else if pieces[0] == "" || pieces[0] == "." then Names(pieces[1..])
    else if pieces[0] == ".." then Failure(PathEscape)
    else if EndsWithDotOrSpace(pieces[0]) then Failure(BadPath)
    else
      assert SafePiece(pieces[0]);
      var name: Name := pieces[0];
      var rest :- Names(pieces[1..]);
      Success([name] + rest)
  }

  // ----- following links

  /** The physical target of `path` when it is a link. A target outside `files` is refused. */
  function FollowSymlink(root: Node, files: Path, path: Path, limit: nat): Result<Option<Path>, WorkspaceError> {
    match Lstat(root, path, limit)
    case Failure(ENOENT) => Success(None)
    case Failure(_) => Failure(Io)
    case Success(Link(_, _)) => (
      match RealPath(root, path, limit)
      case Failure(_) => Failure(Io)
      case Success(canon) => if files <= canon then Success(Some(canon)) else Failure(PathEscape))
    case Success(_) => Success(None)
  }

  function PushFollowed(root: Node, files: Path, acc: Path, name: Name, limit: nat): Result<Path, WorkspaceError> {
    var followed :- FollowSymlink(root, files, acc + [name], limit);
    Success(if followed.Some? then followed.value else acc + [name])
  }

  function Contained(files: Path, path: Path): Result<Path, WorkspaceError> {
    if files <= path then Success(path) else Failure(PathEscape)
  }

  /** Push every name in turn, following the links met. */
  function FollowAll(root: Node, files: Path, acc: Path, names: Path, limit: nat): Result<Path, WorkspaceError>
    decreases |names|
  {
    if names == [] then Success(acc)
    else
      var next :- PushFollowed(root, files, acc, names[0], limit);
      FollowAll(root, files, next, names[1..], limit)
  }

  /** Follow every parent and leave the last name as it is. */
  function WalkOf(root: Node, files: Path, names: Path, limit: nat): Result<Path, WorkspaceError> {
    if names == [] then Success(files)
    else
      var acc :- FollowAll(root, files, files, Parent(names), limit);
      Success(acc + [names[|names| - 1]])
  }

  function ResolveOf(root: Node, files: Path, rel: string, limit: nat): Result<Path, WorkspaceError> {
    var names :- RelativePath(rel);
    if names == [] then Success(files)
    else
      var path :- WalkOf(root, files, names, limit);
      Contained(files, path)
  }

  function ResolveFollowingOf(root: Node, files: Path, rel: string, limit: nat): Result<Path, WorkspaceError> {
    var path :- ResolveOf(root, files, rel, limit);
    var followed :- FollowSymlink(root, files, path, limit);
    if followed.Some? then Contained(files, followed.value) else Success(path)
  }

  lemma {:induction false} FollowAllSnoc(root: Node, files: Path, acc: Path, names: Path, name: Name, limit: nat)
    ensures FollowAll(root, files, acc, names + [name], limit)
         == match FollowAll(root, files, acc, names, limit)
            case Failure(e) => Failure(e)
            case Success(q) => PushFollowed(root, files, q, name, limit)
    decreases |names|
  {
    assert (names + [name])[0] == if names == [] then name else names[0];
    if names == [] {
      assert (names + [name])[1..] == [];
    } else {
      assert (names + [name])[1..] == names[1..] + [name];
      match PushFollowed(root, files, acc, names[0], limit)
      case Failure(_) =>
      case Success(next) => FollowAllSnoc(root, files, next, names[1..], name, limit);
    }
  }

  lemma {:induction false} FollowAllStops(root: Node, files: Path, acc: Path, names: Path, more: Path, limit: nat)
    requires FollowAll(root, files, acc, names, limit).Failure?
    ensures FollowAll(root, files, acc, names + more, limit) == FollowAll(root, files, acc, names, limit)
    decreases |names|
  {
    assert (names + more)[0] == names[0] && (names + more)[1..] == names[1..] + more;
    match PushFollowed(root, files, acc, names[0], limit)
    case Failure(_) =>
    case Success(next) => FollowAllStops(root, files, next, names[1..], more, limit);
  }

  method WalkComponents(disk: Disk, files: Path, names: Path) returns (r: Result<Path, WorkspaceError>)
    ensures r == WalkOf(disk.root, files, names, disk.limit)
  {
    if names == [] {
      return Success(files);
    }
    var parents, last := Parent(names), names[|names| - 1];
    var acc, i := files, 0;
    while i < |parents|
      invariant 0 <= i <= |parents|
      invariant FollowAll(disk.root, files, files, parents[..i], disk.limit) == Success(acc)
    {
      FollowAllSnoc(disk.root, files, files, parents[..i], parents[i], disk.limit);
      assert parents[..i] + [parents[i]] == parents[..i + 1];
      var next := PushFollowed(disk.root, files, acc, parents[i], disk.limit);
      if next.Failure? {
        FollowAllStops(disk.root, files, files, parents[..i + 1], parents[i + 1..], disk.limit);
        assert parents[..i + 1] + parents[i + 1..] == parents;
        return Failure(next.error);
      }
      acc, i := next.value, i + 1;
    }
    assert parents[..i] == parents;
    r := Success(acc + [last]);
  }

  method Resolve(disk: Disk, files: Path, rel: string) returns (r: Result<Path, WorkspaceError>)
    ensures r == ResolveOf(disk.root, files, rel, disk.limit)
  {
    var names := RelativePath(rel);
    if names.Failure? {
      return Failure(names.error);
    }
    if names.value == [] {
      return Success(files);
    }
    var path := WalkComponents(disk, files, names.value);
    r := if path.Failure? then path else Contained(files, path.value);
  }

  method ResolveFollowing(disk: Disk, files: Path, rel: string) returns (r: Result<Path, WorkspaceError>)
    ensures r == ResolveFollowingOf(disk.root, files, rel, disk.limit)
  {
    var path := Resolve(disk, files, rel);
    if path.Failure? {
      return path;
    }
    var followed := FollowSymlink(disk.root, files, path.value, disk.limit);
    if followed.Failure? {
      return Failure(followed.error);
    }
    r := if followed.value.Some? then Contained(files, followed.value.value) else path;
  }

  // ----- creating parents

  /** `s` is `before` with some of the directories of `path` created, from the top. */
  ghost predicate PartlyMade(s: Node, before: Node, path: Path) {
    exists k :: 0 <= k <= |path| && s == MakeDirs(before, path[..k])
  }

  /** What stands in the way of using `dir` as a directory, if anything. */
  function Obstacle(root: Node, dir: Path): Option<WorkspaceError> {
    match Look(root, dir)
    case Found(Dir(_)) => None
    case Absent => None
    case Found(File(_)) => Some(NotADirectory)
    case BelowFile => Some(NotADirectory)
    case Found(Link(_, _)) => Some(PathEscape)
    case BelowLink => Some(PathEscape)
  }

  lemma ObstacleAbove(root: Node, p: Path, q: Path)
    requires Obstacle(root, p).Some?
    ensures Obstacle(root, p + q) == Obstacle(root, p)
  {
    LookSplit(root, p, q);
  }

  method EnsureParents(disk: Disk, files: Path, dest: Path) returns (r: Result<(), WorkspaceError>)
    requires Look(disk.root, files).FoundDir()
    modifies disk
    ensures !(files < dest) ==> r == Failure(PathEscape) && disk.root == old(disk.root) && disk.log == old(disk.log)
    ensures files < dest ==>
      match old(Obstacle(disk.root, Parent(dest)))
      case Some(e) => r == Failure(e) && disk.root == old(disk.root) && disk.log == old(disk.log)
      case None => r == Success(()) && disk.root == MakeDirs(old(disk.root), Parent(dest))
    ensures old(disk.log) <= disk.log
    ensures forall i :: |old(disk.log)| <= i < |disk.log| ==> PartlyMade(disk.log[i], old(disk.root), Parent(dest))
  {
    if !(files <= dest) || |dest| == |files| {
      return Failure(PathEscape);
    }
    r := CreateDirs(disk, files, Parent(dest));
  }

  method CreateDirs(disk: Disk, files: Path, dir: Path) returns (r: Result<(), WorkspaceError>)
    requires Look(disk.root, files).FoundDir() && files <= dir
    modifies disk
    ensures match old(Obstacle(disk.root, dir))
            case Some(e) => r == Failure(e) && disk.root == old(disk.root) && disk.log == old(disk.log)
            case None => r == Success(()) && disk.root == MakeDirs(old(disk.root), dir)
    ensures old(disk.log) <= disk.log
    ensures forall i :: |old(disk.log)| <= i < |disk.log| ==> PartlyMade(disk.log[i], old(disk.root), dir)
  {
    ghost var before := disk.root;
    MakeDirsFound(before, files);
    var acc, i := files, |files|;
    while i < |dir|
      invariant |files| <= i <= |dir| && acc == dir[..i]
      invariant Obstacle(before, acc).None?
      invariant disk.root == MakeDirs(before, acc)
      invariant Look(before, acc).Found? ==> disk.root == before && disk.log == old(disk.log)
      invariant old(disk.log) <= disk.log
      invariant forall i :: |old(disk.log)| <= i < |disk.log| ==> PartlyMade(disk.log[i], before, dir)
    {
      var name := dir[i];
      MakeDirsSnoc(before, acc, name);
      if Look(before, acc).Found? {
        MakeDirsFound(before, acc);
      }
      LookSplit(before, acc, [name]);
      acc := acc + [name];
      assert acc == dir[..i + 1] && Parent(acc) == dir[..i];
      LookParent(disk.root, acc);
      var step := PrepareDir(disk, acc);
      if step.Failure? {
        assert acc + dir[i + 1..] == dir;
        ObstacleAbove(before, acc, dir[i + 1..]);
        return step;
      }
      assert PartlyMade(disk.root, before, dir);
      i := i + 1;
    }
    assert acc == dir;
    r := Success(());
  }

  method PrepareDir(disk: Disk, path: Path) returns (r: Result<(), WorkspaceError>)
    requires path != [] && Look(disk.root, Parent(path)).FoundDir()
    modifies disk
    ensures match old(Look(disk.root, path))
            case Found(Dir(_)) => r == Success(()) && disk.root == old(disk.root) && disk.log == old(disk.log)
            case Found(Link(_, _)) =>
              r == Failure(PathEscape) && disk.root == old(disk.root) && disk.log == old(disk.log)
            case Found(File(_)) =>
              r == Failure(NotADirectory) && disk.root == old(disk.root) && disk.log == old(disk.log)
            case _ => r == Success(()) && disk.root == old(Deposit(disk.root, path, EmptyDir))
                      && disk.log == old(disk.log) + [disk.root]
  {
    LookParent(disk.root, path);
    CallsPlain(disk.root, path, disk.limit);
    var meta := SymlinkMetadata(disk, path);
    match meta {
      case Success(Link(_, _)) => r := Failure(PathEscape);
      case Success(File(_)) => r := Failure(NotADirectory);
      case Success(Dir(_)) => r := Success(());
      case Failure(ENOENT) =>
        var made := disk.Mkdir(path);
        r := if made.Success? then Success(()) else Failure(Io);
      case Failure(_) => r := Failure(Io);
    }
  }

  // ----- the resolver against the kernel

  /** A path the resolver may hold: below `files`, reached without links, not itself a link. */
  predicate Held(root: Node, files: Path, acc: Path) {
    files <= acc && Plain(root, acc) && !Look(root, acc).FoundLink()
  }

  /** Pushing a name that is not a link is just appending it; below a file there is nothing to push. */
  lemma PushPlain(root: Node, files: Path, acc: Path, name: Name, limit: nat)
    requires Plain(root, acc + [name]) && !Look(root, acc + [name]).FoundLink()
    ensures PushFollowed(root, files, acc, name, limit)
         == if Look(root, acc + [name]).BelowFile? then Failure(Io) else Success(acc + [name])
  {
    LstatPlain(root, acc + [name], limit);
  }

  /** One pushed name keeps to physical paths below `files`. */
  lemma PushStaysHeld(root: Node, files: Path, acc: Path, name: Name, limit: nat)
    requires Held(root, files, acc) && PushFollowed(root, files, acc, name, limit).Success?
    ensures Held(root, files, PushFollowed(root, files, acc, name, limit).value)
    ensures Look(root, acc).Absent? ==> Look(root, PushFollowed(root, files, acc, name, limit).value).Absent?
  {
    var p := acc + [name];
    assert Parent(p) == acc;
    LookParent(root, p);
    LookSplit(root, acc, [name]);
    LstatPlain(root, p, limit);
    if Look(root, p).FoundLink() {
      WalkEndsOffLinks(root, [], Steps(p), limit);
    }
  }

  lemma {:induction false} FollowStaysHeld(root: Node, files: Path, acc: Path, names: Path, limit: nat)
    requires Held(root, files, acc) && FollowAll(root, files, acc, names, limit).Success?
    ensures Held(root, files, FollowAll(root, files, acc, names, limit).value)
    ensures Look(root, acc).Absent? ==> Look(root, FollowAll(root, files, acc, names, limit).value).Absent?
    decreases |names|
  {
    if names != [] {
      PushStaysHeld(root, files, acc, names[0], limit);
      FollowStaysHeld(root, files, PushFollowed(root, files, acc, names[0], limit).value, names[1..], limit);
    }
  }

  /**
   * A resolved path lies strictly below `files`, ends in the last name that was asked for, and has no
   * link among its proper ancestors.
   */
  lemma ResolvedPathIsPlain(root: Node, files: Path, names: Path, limit: nat)
    requires Look(root, files).FoundDir() && names != [] && WalkOf(root, files, names, limit).Success?
    ensures var p := WalkOf(root, files, names, limit).value;
            && files < p && p[|p| - 1] == names[|names| - 1]
            && Held(root, files, Parent(p))
            && Plain(root, p)
            && Contained(files, p) == Success(p)
            && forall k :: 0 <= k < |p| ==> !Look(root, p[..k]).FoundLink()
  {
    FollowStaysHeld(root, files, files, Parent(names), limit);
    var p := WalkOf(root, files, names, limit).value;
    assert Parent(p) == FollowAll(root, files, files, Parent(names), limit).value;
    LookParent(root, p);
    forall k | 0 <= k < |p|
      ensures !Look(root, p[..k]).FoundLink()
    {
      assert p == p[..k] + p[k..];
      LookSplit(root, p[..k], p[k..]);
    }
  }

  /** What the kernel makes of one more name below an existing directory. */
  lemma PushAgainstKernel(root: Node, files: Path, acc: Path, name: Name, limit: nat)
    requires Look(root, acc).FoundDir()
    ensures RealPath(root, acc + [name], limit) == RealPathFrom(root, acc, [Into(name)], limit)
    ensures Lstat(root, acc + [name], limit) == SeenNode(Look(root, acc + [name]))
  {
    StepsSplit(acc, [name]);
    assert Steps([name]) == [Into(name)];
    assert [] + acc == acc;
    WalkDown(root, [], acc, [Into(name)], true, limit);
    assert Parent(acc + [name]) == acc;
    LookParent(root, acc + [name]);
    LstatPlain(root, acc + [name], limit);
  }

  lemma FuelSplit(limit: nat, n: nat)
    ensures limit * (n + 1) == limit + limit * n
  {
  }

  /**
   * Soundness against the kernel: where the resolver, following links one name at a time, ends on
   * something that exists, the kernel's own walk of the same names ends there too.
   */
  lemma {:induction false} FollowIsKernelWalk(root: Node, files: Path, acc: Path, names: Path, limit: nat)
    requires Held(root, files, acc) && Look(root, acc).Found?
    requires FollowAll(root, files, acc, names, limit).Success?
    requires Look(root, FollowAll(root, files, acc, names, limit).value).Found?
    ensures Walk(root, acc, Steps(names), true, limit * |names|)
         == Success(FollowAll(root, files, acc, names, limit).value)
    decreases |names|
  {
    hide PushFollowed;
    if names != [] {
      var next := PushFollowed(root, files, acc, names[0], limit).value;
      PushIsKernelStep(root, files, acc, names[0], limit);
      PushStaysHeld(root, files, acc, names[0], limit);
      FollowStaysHeld(root, files, next, names[1..], limit);
      FollowIsKernelWalk(root, files, next, names[1..], limit);
      FuelSplit(limit, |names| - 1);
      var first, rest := [Into(names[0])], Steps(names[1..]);
      assert Steps(names) == first + rest;
      if Look(root, acc + [names[0]]).FoundLink() {
        if rest == [] {
          assert first + rest == first;
          WalkMoreFuel(root, acc, first, true, limit, limit * |names|);
        } else {
          WalkJoin(root, acc, first, rest, true, limit, limit * (|names| - 1));
        }
      } else {
        WalkMoreFuel(root, next, rest, true, limit * (|names| - 1), limit * |names|);
      }
    }
  }

  /** A pushed name that exists is where the kernel's walk of that name ends. */
  lemma PushIsKernelStep(root: Node, files: Path, acc: Path, name: Name, limit: nat)
    requires Held(root, files, acc) && Look(root, acc).Found? && PushFollowed(root, files, acc, name, limit).Success?
    ensures Look(root, acc).FoundDir()
    ensures if Look(root, acc + [name]).FoundLink()
            then Walk(root, acc, [Into(name)], true, limit)
              == Success(PushFollowed(root, files, acc, name, limit).value)
            else PushFollowed(root, files, acc, name, limit) == Success(acc + [name])
    ensures Open(root, PushFollowed(root, files, acc, name, limit).value)
  {
    LookSplit(root, acc, [name]);
    if !Look(root, acc + [name]).FoundLink() {
      PushPlain(root, files, acc, name, limit);
    } else {
      PushAgainstKernel(root, files, acc, name, limit);
    }
  }

  /** Wherever the kernel gets on the way along the names, it is still at or below `files`. */
  ghost predicate StaysInside(root: Node, files: Path, acc: Path, names: Path, limit: nat) {
    forall k :: 0 <= k <= |names| && RealPathFrom(root, acc, Steps(names[..k]), limit).Success? ==>
      files <= RealPathFrom(root, acc, Steps(names[..k]), limit).value
  }

  /** A walk that succeeds passes through where its first name leads, and so does the walk of every longer prefix. */
  lemma PrefixesGoOn(root: Node, acc: Path, names: Path, limit: nat, k: nat)
    requires RealPathFrom(root, acc, Steps(names), limit).Success? && 1 <= k <= |names|
    ensures Walk(root, acc, [Into(names[0])], true, limit).Success?
    ensures var mid := Walk(root, acc, [Into(names[0])], true, limit).value;
            && (|names| > 1 ==> Look(root, mid).FoundDir()) && Look(root, mid).Found?
            && RealPathFrom(root, acc, Steps(names[..k]), limit).Success?
            && RealPathFrom(root, acc, Steps(names[..k]), limit)
               == RealPathFrom(root, mid, Steps(names[1..][..k - 1]), limit)
  {
    hide Walk;
    var first := [Into(names[0])];
    assert names[..k] + names[k..] == names && [names[0]] + names[1..][..k - 1] == names[..k];
    StepsSplit(names[..k], names[k..]);
    StepsSplit([names[0]], names[1..][..k - 1]);
    assert Steps([names[0]]) == first;
    if k < |names| {
      WalkCut(root, acc, Steps(names[..k]), Steps(names[k..]), limit);
    } else {
      assert names[..k] == names;
    }
    if k > 1 {
      WalkCut(root, acc, first, Steps(names[1..][..k - 1]), limit);
    } else {
      assert first + [] == first;
      WalkOfNothing(root, Walk(root, acc, first, true, limit).value, limit);
    }
  }

  lemma WalkOfNothing(root: Node, at: Path, limit: nat)
    ensures Walk(root, at, [], true, limit) == Success(at)
  {
  }

  lemma StaysInsideStep(root: Node, files: Path, acc: Path, names: Path, limit: nat)
    requires names != [] && files <= acc && RealPathFrom(root, acc, Steps(names), limit).Success?
    requires Walk(root, acc, [Into(names[0])], true, limit).Success?
    ensures StaysInside(root, files, acc, names, limit)
       <==> StaysInside(root, files, Walk(root, acc, [Into(names[0])], true, limit).value, names[1..], limit)
  {
    hide Walk;
    var mid, rest := Walk(root, acc, [Into(names[0])], true, limit).value, names[1..];
    WalkOfNothing(root, acc, limit);
    forall k | 1 <= k <= |names|
      ensures RealPathFrom(root, acc, Steps(names[..k]), limit) == RealPathFrom(root, mid, Steps(rest[..k - 1]), limit)
    {
      PrefixesGoOn(root, acc, names, limit, k);
    }
    if StaysInside(root, files, acc, names, limit) {
      forall k | 0 <= k <= |rest| && RealPathFrom(root, mid, Steps(rest[..k]), limit).Success?
        ensures files <= RealPathFrom(root, mid, Steps(rest[..k]), limit).value
      {
        var n := k + 1;
        assert RealPathFrom(root, acc, Steps(names[..n]), limit)
            == RealPathFrom(root, mid, Steps(rest[..n - 1]), limit);
      }
    }
  }

  /** One name, where the kernel gets past it: it is followed exactly when it does not lead out of `files`. */
  lemma PushWhereKernelGoes(root: Node, files: Path, acc: Path, name: Name, limit: nat)
    requires Held(root, files, acc) && Look(root, acc).FoundDir()
    requires Walk(root, acc, [Into(name)], true, limit).Success?
    requires Look(root, Walk(root, acc, [Into(name)], true, limit).value).Found?
    ensures var mid := Walk(root, acc, [Into(name)], true, limit).value;
            PushFollowed(root, files, acc, name, limit) == if files <= mid then Success(mid) else Failure(PathEscape)
  {
    var p, mid := acc + [name], Walk(root, acc, [Into(name)], true, limit).value;
    PushAgainstKernel(root, files, acc, name, limit);
    LookSplit(root, acc, [name]);
    assert [Into(name)][1..] == [] && Walk(root, p, [], true, limit) == Success(p);
    assert !Look(root, p).FoundLink() ==> mid == p;
  }

  /**
   * Completeness: where the kernel's walk of the names succeeds within its own link limit, the resolver ends at the
   * same node if the walk never leaves `files` on the way, and answers `PathEscape` if it does.
   */
  lemma {:induction false} KernelWalkIsFollowed(root: Node, files: Path, acc: Path, names: Path, limit: nat)
    requires Held(root, files, acc) && Look(root, acc).FoundDir()
    requires RealPathFrom(root, acc, Steps(names), limit).Success?
    ensures FollowAll(root, files, acc, names, limit)
         == if StaysInside(root, files, acc, names, limit)
            then Success(RealPathFrom(root, acc, Steps(names), limit).value)
            else Failure(PathEscape)
    decreases |names|
  {
    hide Walk, PushFollowed, StaysInside;
    if names == [] {
      WalkOfNothing(root, acc, limit);
      OnlyItself(root, files, acc, limit);
    } else {
      PrefixesGoOn(root, acc, names, limit, 1);
      PrefixesGoOn(root, acc, names, limit, |names|);
      assert names[..|names|] == names && names[1..][..|names| - 1] == names[1..];
      var mid := Walk(root, acc, [Into(names[0])], true, limit).value;
      StaysInsideStep(root, files, acc, names, limit);
      PushWhereKernelGoes(root, files, acc, names[0], limit);
      if !(files <= mid) {
        OutAtOnce(root, files, mid, names[1..], limit);
      } else {
        PushStaysHeld(root, files, acc, names[0], limit);
        if |names| > 1 {
          KernelWalkIsFollowed(root, files, mid, names[1..], limit);
        } else {
          WalkOfNothing(root, mid, limit);
          OnlyItself(root, files, mid, limit);
        }
      }
    }
  }

  lemma OnlyItself(root: Node, files: Path, acc: Path, limit: nat)
    requires files <= acc
    ensures StaysInside(root, files, acc, [], limit)
  {
  }

  lemma OutAtOnce(root: Node, files: Path, acc: Path, names: Path, limit: nat)
    requires !(files <= acc) && Look(root, acc).Found?
    ensures !StaysInside(root, files, acc, names, limit)
  {
    WalkOfNothing(root, acc, limit);
    assert names[..0] == [] && RealPathFrom(root, acc, Steps(names[..0]), limit) == Success(acc);
  }

  /** `PathEscape` is answered only where the kernel, too, gets out of `files` along some of the names. */
  lemma {:induction false} EscapeIsReal(root: Node, files: Path, acc: Path, names: Path, limit: nat) returns (k: nat)
    requires Held(root, files, acc) && Look(root, acc).FoundDir()
    requires FollowAll(root, files, acc, names, limit) == Failure(PathEscape)
    ensures 1 <= k <= |names| && RealPathFrom(root, acc, Steps(names[..k]), limit * k).Success?
    ensures !(files <= RealPathFrom(root, acc, Steps(names[..k]), limit * k).value)
    decreases |names|
  {
    hide Walk, PushFollowed;
    var first, rest := [Into(names[0])], names[1..];
    assert Steps([names[0]]) == first;
    if PushFollowed(root, files, acc, names[0], limit).Failure? {
      k := 1;
      assert names[..1] == [names[0]];
      EscapeAtOnce(root, files, acc, names[0], limit);
    } else {
      var next := PushFollowed(root, files, acc, names[0], limit).value;
      PushStaysHeld(root, files, acc, names[0], limit);
      PushIsKernelStep(root, files, acc, names[0], limit);
      NoEscapeFromLeaves(root, files, next, rest, limit);
      PushedWalk(root, files, acc, names[0], limit);
      var m := EscapeIsReal(root, files, next, rest, limit);
      k := m + 1;
      assert names[..k] == [names[0]] + rest[..m];
      StepsSplit([names[0]], rest[..m]);
      WalkJoin(root, acc, first, Steps(rest[..m]), true, limit, limit * m);
      FuelSplit(limit, m);
    }
  }

  lemma EscapeAtOnce(root: Node, files: Path, acc: Path, name: Name, limit: nat)
    requires Look(root, acc).FoundDir() && PushFollowed(root, files, acc, name, limit) == Failure(PathEscape)
    ensures RealPathFrom(root, acc, [Into(name)], limit).Success?
    ensures !(files <= RealPathFrom(root, acc, [Into(name)], limit).value)
  {
    hide Walk;
    PushAgainstKernel(root, files, acc, name, limit);
  }

  lemma PushedWalk(root: Node, files: Path, acc: Path, name: Name, limit: nat)
    requires Held(root, files, acc) && Look(root, acc).FoundDir()
    requires PushFollowed(root, files, acc, name, limit).Success?
    ensures Walk(root, acc, [Into(name)], true, limit) == Success(PushFollowed(root, files, acc, name, limit).value)
  {
    hide Walk, PushFollowed;
    PushIsKernelStep(root, files, acc, name, limit);
    if !Look(root, acc + [name]).FoundLink() {
      FirstStep(root, acc, name, limit);
    }
  }

  /** Below anything but a directory nothing leads out. */
  lemma NoEscapeFromLeaves(root: Node, files: Path, acc: Path, names: Path, limit: nat)
    requires Held(root, files, acc) && FollowAll(root, files, acc, names, limit) == Failure(PathEscape)
    requires Open(root, acc)
    ensures Look(root, acc).FoundDir()
  {
    hide PushFollowed;
    if Look(root, acc).FoundFile() {
      FilesHaveNoEntries(root, files, acc, names, limit);
    } else if Look(root, acc).Absent? {
      MissingNamesArePushed(root, files, acc, names, limit);
    }
  }

  lemma FirstStep(root: Node, acc: Path, name: Name, limit: nat)
    requires Look(root, acc).FoundDir() && !Look(root, acc + [name]).FoundLink()
    ensures Walk(root, acc, [Into(name)], true, limit) == Success(acc + [name])
  {
    assert [Into(name)][1..] == [] && Walk(root, acc + [name], [], true, limit) == Success(acc + [name]);
  }

  lemma {:induction false} FollowInTwo(root: Node, files: Path, acc: Path, a: Path, b: Path, limit: nat)
    requires FollowAll(root, files, acc, a, limit).Success?
    ensures FollowAll(root, files, acc, a + b, limit)
         == FollowAll(root, files, FollowAll(root, files, acc, a, limit).value, b, limit)
    decreases |a|
  {
    hide PushFollowed;
    if a == [] {
      assert a + b == b;
    } else {
      assert (a + b)[0] == a[0] && (a + b)[1..] == a[1..] + b;
      FollowInTwo(root, files, PushFollowed(root, files, acc, a[0], limit).value, a[1..], b, limit);
    }
  }

  /** Names that exist are followed as the kernel does, and those that are missing behind them are appended. */
  lemma MissingNamesFollow(root: Node, files: Path, a: Path, b: Path, limit: nat)
    requires Look(root, files).FoundDir() && RealPathFrom(root, files, Steps(a), limit).Success?
    requires StaysInside(root, files, files, a, limit)
    requires var q := RealPathFrom(root, files, Steps(a), limit).value;
             b == [] || (Look(root, q).FoundDir() && Look(root, q + [b[0]]).Absent?)
    ensures FollowAll(root, files, files, a + b, limit) == Success(RealPathFrom(root, files, Steps(a), limit).value + b)
  {
    hide Walk, PushFollowed, StaysInside;
    var q := RealPathFrom(root, files, Steps(a), limit).value;
    KernelWalkIsFollowed(root, files, files, a, limit);
    FollowInTwo(root, files, files, a, b, limit);
    if b == [] {
      assert q + b == q;
    } else {
      LookParent(root, q + [b[0]]);
      PushPlain(root, files, q, b[0], limit);
      MissingNamesArePushed(root, files, q + [b[0]], b[1..], limit);
      assert q + [b[0]] + b[1..] == q + b;
    }
  }

  /**
   * The parent of a resolved path, as soon as it exists, is where the kernel walks with the link limit once per name.
   * `realpath`, which has that limit once for all of them, gives the same exactly when the links on the walk are no
   * more than the limit; otherwise it answers ELOOP.
   */
  lemma ResolvedParentIsRealPath(root: Node, files: Path, names: Path, limit: nat)
    requires Look(root, files).FoundDir() && names != [] && WalkOf(root, files, names, limit).Success?
    requires Look(root, Parent(WalkOf(root, files, names, limit).value)).Found?
    ensures var parent, asked := Parent(WalkOf(root, files, names, limit).value), files + Parent(names);
            && RealPath(root, asked, limit * |Parent(names)|) == Success(parent)
            && RealPath(root, asked, limit)
               == if Links(root, [], Steps(asked), limit * |Parent(names)|) <= limit then Success(parent)
                  else Failure(ELOOP)
  {
    hide Walk, FollowAll, Links;
    var parents := Parent(names);
    RealPathBelow(root, files, parents, limit * |parents|);
    assert Parent(WalkOf(root, files, names, limit).value) == FollowAll(root, files, files, parents, limit).value;
    FollowIsKernelWalk(root, files, files, parents, limit);
    WalkNeedsItsLinks(root, [], Steps(files + parents), limit * |parents|, limit);
  }

  /** `realpath` of the names below `files`, however many of them, never gives a place outside of `files`. */
  ghost predicate NeverLeaves(root: Node, files: Path, names: Path, limit: nat) {
    forall k :: 0 <= k <= |names| && RealPath(root, files + names[..k], limit).Success? ==>
      files <= RealPath(root, files + names[..k], limit).value
  }

  lemma NeverLeavesIsStaysInside(root: Node, files: Path, names: Path, limit: nat)
    requires Look(root, files).FoundDir()
    ensures NeverLeaves(root, files, names, limit) <==> StaysInside(root, files, files, names, limit)
  {
    hide RealPath, RealPathFrom;
    forall k | 0 <= k <= |names|
      ensures RealPath(root, files + names[..k], limit) == RealPathFrom(root, files, Steps(names[..k]), limit)
    {
      RealPathBelow(root, files, names[..k], limit);
    }
  }

  /**
   * Conversely, what `realpath` finds is what is resolved, exactly when no part of the way there leads out of
   * `files`; otherwise the answer is `PathEscape`.
   */
  lemma RealPathIsResolved(root: Node, files: Path, names: Path, limit: nat)
    requires Look(root, files).FoundDir() && names != [] && RealPath(root, files + Parent(names), limit).Success?
    ensures var parent, last := RealPath(root, files + Parent(names), limit).value, names[|names| - 1];
            WalkOf(root, files, names, limit)
            == if NeverLeaves(root, files, Parent(names), limit) then Success(parent + [last]) else Failure(PathEscape)
  {
    hide Walk, FollowAll, StaysInside, NeverLeaves;
    RealPathBelow(root, files, Parent(names), limit);
    NeverLeavesIsStaysInside(root, files, Parent(names), limit);
    KernelWalkIsFollowed(root, files, files, Parent(names), limit);
  }

  lemma RealPathBelow(root: Node, files: Path, names: Path, limit: nat)
    requires Look(root, files).FoundDir()
    ensures RealPath(root, files + names, limit) == RealPathFrom(root, files, Steps(names), limit)
  {
    hide Walk;
    StepsSplit(files, names);
    assert [] + files == files;
    WalkDown(root, [], files, Steps(names), true, limit);
  }

  /** Resolving the names follows the link at `spot`. */
  predicate FollowCrosses(root: Node, files: Path, acc: Path, names: Path, limit: nat, spot: Path)
    decreases |names|
  {
    if names == [] then false
    else
      || (Look(root, acc + [names[0]]).FoundLink() && Crosses(root, [], Steps(acc + [names[0]]), limit, spot))
      || match PushFollowed(root, files, acc, names[0], limit)
         case Failure(_) => false
         case Success(next) => FollowCrosses(root, files, next, names[1..], limit, spot)
  }

  /** Names resolve to the same place while every directory and link they need is kept. */
  lemma {:induction false} FollowKept(before: Node, after: Node, files: Path, acc: Path, names: Path, limit: nat,
                                      spot: Path)
    requires Keeps(before, after, spot) && !Look(before, spot).FoundDir()
    requires !FollowCrosses(before, files, acc, names, limit, spot)
    requires Held(before, files, acc) && Held(after, files, acc)
    requires FollowAll(before, files, acc, names, limit).Success?
    requires var q := FollowAll(before, files, acc, names, limit).value;
             Look(after, q).FoundDir() && (Look(before, q).FoundDir() || Look(before, q).Absent?)
    ensures FollowAll(after, files, acc, names, limit) == FollowAll(before, files, acc, names, limit)
    decreases |names|
  {
    if names != [] {
      FollowKeptStep(before, after, files, acc, names, limit, spot);
      var next := PushFollowed(before, files, acc, names[0], limit).value;
      PushStaysHeld(before, files, acc, names[0], limit);
      PushStaysHeld(after, files, acc, names[0], limit);
      FollowKept(before, after, files, next, names[1..], limit, spot);
    }
  }

  lemma FollowKeptStep(before: Node, after: Node, files: Path, acc: Path, names: Path, limit: nat, spot: Path)
    requires names != [] && Keeps(before, after, spot) && !Look(before, spot).FoundDir()
    requires !FollowCrosses(before, files, acc, names, limit, spot)
    requires Held(before, files, acc) && Held(after, files, acc)
    requires FollowAll(before, files, acc, names, limit).Success?
    requires var q := FollowAll(before, files, acc, names, limit).value;
             Look(after, q).FoundDir() && (Look(before, q).FoundDir() || Look(before, q).Absent?)
    ensures PushFollowed(after, files, acc, names[0], limit) == PushFollowed(before, files, acc, names[0], limit)
  {
    hide Walk, Crosses, PushFollowed;
    var p, rest := acc + [names[0]], names[1..];
    var next := PushFollowed(before, files, acc, names[0], limit).value;
    PushStaysHeld(before, files, acc, names[0], limit);
    LookSplit(before, acc, [names[0]]);
    if Look(before, next).FoundFile() && rest != [] {
      FilesHaveNoEntries(before, files, next, rest, limit);
    }
    if Look(before, p).FoundLink() {
      PushLinkKept(before, after, files, acc, names[0], limit, spot);
    } else {
      PushPlain(before, files, acc, names[0], limit);
      if Look(before, p).Absent? {
        MissingNamesArePushed(before, files, p, rest, limit);
        LookSplit(after, p, rest);
      }
      PushPlain(after, files, acc, names[0], limit);
    }
  }

  lemma PushLinkKept(before: Node, after: Node, files: Path, acc: Path, name: Name, limit: nat, spot: Path)
    requires Keeps(before, after, spot) && !Look(before, spot).FoundDir() && Look(before, acc).FoundDir()
    requires Look(before, acc + [name]).FoundLink() && !Crosses(before, [], Steps(acc + [name]), limit, spot)
    requires PushFollowed(before, files, acc, name, limit).Success?
    requires !Look(before, PushFollowed(before, files, acc, name, limit).value).FoundFile()
    ensures PushFollowed(after, files, acc, name, limit) == PushFollowed(before, files, acc, name, limit)
    ensures Look(before, PushFollowed(before, files, acc, name, limit).value).FoundDir()
  {
    hide Walk, Crosses;
    OwnLinkIsCrossed(before, acc, name, limit);
    PushAgainstKernel(before, files, acc, name, limit);
    PushAgainstKernel(after, files, acc, name, limit);
    WalkEndsOffLinks(before, [], Steps(acc + [name]), limit);
    WalkKept(before, after, [], Steps(acc + [name]), limit, spot);
  }

  /** Following a link follows the link itself. */
  lemma OwnLinkIsCrossed(root: Node, acc: Path, name: Name, limit: nat)
    requires Look(root, acc + [name]).FoundLink()
    ensures Crosses(root, [], Steps(acc + [name]), limit, acc + [name])
  {
    assert [] + (acc + [name]) == acc + [name];
    DownToLink(root, [], acc + [name], limit);
  }

  lemma {:induction false} DownToLink(root: Node, at: Path, p: Path, limit: nat)
    requires p != [] && Look(root, at + p).FoundLink()
    ensures Crosses(root, at, Steps(p), limit, at + p)
    decreases |p|
  {
    var next := at + [p[0]];
    assert at + p == next + p[1..];
    assert Steps(p) == [Into(p[0])] + Steps(p[1..]) && Steps(p)[1..] == Steps(p[1..]);
    LookSplit(root, at, p);
    LookSplit(root, next, p[1..]);
    if |p| == 1 {
      assert next == at + p;
    } else {
      DownToLink(root, next, p[1..], limit);
    }
  }

  /** Names that needed the link at `spot` run into the file that took its place, or end on it. */
  lemma {:induction false} FollowBroken(before: Node, after: Node, files: Path, acc: Path, names: Path, limit: nat,
                                        spot: Path)
    requires Keeps(before, after, spot) && files <= spot
    requires Look(before, spot).FoundLink() && Look(after, spot).FoundFile()
    requires Look(before, acc).Found? && Held(before, files, acc)
    requires FollowCrosses(before, files, acc, names, limit, spot)
    requires FollowAll(before, files, acc, names, limit).Success?
    requires Look(before, FollowAll(before, files, acc, names, limit).value).FoundDir()
    ensures FollowAll(after, files, acc, names, limit) in {Failure(Io), Success(spot)}
    decreases |names|
  {
    hide PushFollowed, Crosses;
    var p, rest := acc + [names[0]], names[1..];
    if Look(before, p).FoundLink() && Crosses(before, [], Steps(p), limit, spot) {
      PushThroughBroken(before, after, files, acc, names[0], limit, spot);
      if rest != [] && PushFollowed(after, files, acc, names[0], limit).Success? {
        FilesHaveNoEntries(after, files, spot, rest, limit);
      }
    } else {
      var next := PushFollowed(before, files, acc, names[0], limit).value;
      PushBeforeBroken(before, after, files, acc, names, limit, spot);
      PushStaysHeld(before, files, acc, names[0], limit);
      FollowBroken(before, after, files, next, rest, limit, spot);
    }
  }

  lemma PushThroughBroken(before: Node, after: Node, files: Path, acc: Path, name: Name, limit: nat, spot: Path)
    requires Keeps(before, after, spot) && files <= spot
    requires Look(before, spot).FoundLink() && Look(after, spot).FoundFile()
    requires Look(before, acc + [name]).FoundLink() && Crosses(before, [], Steps(acc + [name]), limit, spot)
    ensures PushFollowed(after, files, acc, name, limit) in {Failure(Io), Success(spot)}
  {
    hide Walk, Crosses;
    LookSplit(before, acc, [name]);
    PushAgainstKernel(after, files, acc, name, limit);
    WalkBroken(before, after, [], Steps(acc + [name]), limit, spot);
  }

  lemma PushBeforeBroken(before: Node, after: Node, files: Path, acc: Path, names: Path, limit: nat, spot: Path)
    requires Keeps(before, after, spot) && Look(before, spot).FoundLink()
    requires names != [] && Look(before, acc).Found? && Held(before, files, acc)
    requires !(Look(before, acc + [names[0]]).FoundLink() && Crosses(before, [], Steps(acc + [names[0]]), limit, spot))
    requires FollowCrosses(before, files, acc, names, limit, spot)
    requires FollowAll(before, files, acc, names, limit).Success?
    requires Look(before, FollowAll(before, files, acc, names, limit).value).FoundDir()
    ensures PushFollowed(after, files, acc, names[0], limit) == PushFollowed(before, files, acc, names[0], limit)
    ensures Look(before, PushFollowed(before, files, acc, names[0], limit).value).FoundDir()
  {
    hide Walk, Crosses;
    var p, rest := acc + [names[0]], names[1..];
    var next := PushFollowed(before, files, acc, names[0], limit).value;
    assert FollowCrosses(before, files, next, rest, limit, spot) && rest != [];
    PushStaysHeld(before, files, acc, names[0], limit);
    LookSplit(before, acc, [names[0]]);
    if Look(before, next).FoundFile() {
      FilesHaveNoEntries(before, files, next, rest, limit);
    }
    if Look(before, p).FoundLink() {
      PushLinkKept(before, after, files, acc, names[0], limit, spot);
    } else {
      PushPlain(before, files, acc, names[0], limit);
      if Look(before, p).Absent? {
        MissingNamesArePushed(before, files, p, rest, limit);
        LookSplit(before, p, rest);
      }
      PushPlain(after, files, acc, names[0], limit);
    }
  }

  /** Where no link is replaced, none is missed. */
  lemma {:induction false} NothingToFollow(root: Node, files: Path, acc: Path, names: Path, limit: nat, spot: Path)
    requires !Look(root, spot).FoundLink()
    ensures !FollowCrosses(root, files, acc, names, limit, spot)
    decreases |names|
  {
    hide PushFollowed, Crosses;
    if names != [] {
      NothingToCross(root, [], Steps(acc + [names[0]]), limit, spot);
      var next := PushFollowed(root, files, acc, names[0], limit);
      if next.Success? {
        NothingToFollow(root, files, next.value, names[1..], limit, spot);
      }
    }
  }

  lemma FilesHaveNoEntries(root: Node, files: Path, acc: Path, names: Path, limit: nat)
    requires names != [] && Look(root, acc).FoundFile()
    ensures FollowAll(root, files, acc, names, limit) == Failure(Io)
  {
    LookSplit(root, acc, [names[0]]);
    PushPlain(root, files, acc, names[0], limit);
  }

  /** Below a missing name there is nothing to follow. */
  lemma {:induction false} MissingNamesArePushed(root: Node, files: Path, acc: Path, names: Path, limit: nat)
    requires Look(root, acc).Absent?
    ensures FollowAll(root, files, acc, names, limit) == Success(acc + names)
    decreases |names|
  {
    hide PushFollowed;
    if names != [] {
      var p := acc + [names[0]];
      LookSplit(root, acc, [names[0]]);
      PushPlain(root, files, acc, names[0], limit);
      MissingNamesArePushed(root, files, p, names[1..], limit);
      assert p + names[1..] == acc + names;
    } else {
      assert acc + names == acc;
    }
  }
}
