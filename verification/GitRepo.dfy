/**
 * A git repository that other processes change at the same time. What they make of it before each command,
 * and whether the command then works, is an arbitrary schedule. What the commands saw and did is logged.
 */
module GitRepo {
  import opened Wrappers
  import opened Sequences

  type Oid = s: string | |s| >= 12 witness "000000000000"

  datatype Scope = Local | Remote
  datatype Candidate = Candidate(scope: Scope, branch: string, ref: string, oid: Oid)

  datatype GitError = GitError(reason: string)

  /** Refs by full name, the branches on the remote, and what is checked out. */
  datatype World = World(
    refs: map<string, Oid>, branches: map<string, Oid>, current: string, worktrees: set<string>, head: Option<string>)

  /** The exit status of a command, and what its output says where that is a yes or a no. */
  datatype Reply = Fails | Works(yes: bool)

  /** `moves(n, w)` is what command `n` meets when the command before it left `w`. */
  datatype Others = Others(moves: (nat, World) -> World, replies: nat -> Reply)

  function Tip(refs: map<string, Oid>, ref: string): Option<Oid> {
    if ref in refs then Some(refs[ref]) else None
  }

  function LocalRef(branch: string): string {
    "refs/heads/" + branch
  }

  /**
   * A content check that is passed and a deletion are logged with the world the command before them left and the
   * world in which they were decided.
   */
  datatype Event =
    | Saw(ref: string, seen: Option<Oid>)
    | SawRefs(prefix: string, listed: seq<string>)
    | SawCheckedOut(current: string, worktrees: set<string>)
    | SawRemoteHead(head: Option<string>)
    | Merged(branchRef: string, left: World, met: World)
    | Unmerged(branchRef: string)
    | MadeTag(tagRef: string, commit: Oid)
    | Deleted(candidate: Candidate, left: World, met: World)

  /** The commit a deleted branch pointed at when it went away. */
  function TakenTip(e: Event): Option<Oid>
    requires e.Deleted?
  {
    match e.candidate.scope
    case Local => Tip(e.met.refs, LocalRef(e.candidate.branch))
    case Remote => Tip(e.met.branches, e.candidate.branch)
  }

  /** The commit that a content check judged. */
  function JudgedTip(e: Event): Option<Oid>
    requires e.Merged?
  {
    Tip(e.met.refs, e.branchRef)
  }

  /** The world in which the content check of `ref` is decided, when its first command is command `n`. */
  function DecidedIn(others: Others, n: nat, w: World, ref: string): World {
    var first := others.moves(n, w);
    if others.replies(n).Works? && ref in first.refs then first else others.moves(n + 1, first)
  }

  class Repo {
    var world: World
    /** The number of the next command. */
    var clock: nat
    const others: Others
    ghost var log: seq<Event>

    constructor (world: World, others: Others)
      ensures log == [] && this.world == world && clock == 0 && this.others == others
    {
      this.world, this.clock, this.others, this.log := world, 0, others, [];
    }

    /** The world that the next command will meet. */
    function Met(): World
      reads this
    {
      others.moves(clock, world)
    }

    method Begin() returns (reply: Reply)
      modifies this`world, this`clock
      ensures world == old(Met()) && clock == old(clock) + 1 && reply == others.replies(old(clock))
    {
      world := Met();
      reply := others.replies(clock);
      clock := clock + 1;
    }

    method RefOid(ref: string) returns (oid: Option<Oid>)
      modifies this
      ensures world == old(Met()) && clock == old(clock) + 1
      ensures oid == Tip(world.refs, ref) && log == old(log) + [Saw(ref, oid)]
    {
      var _ := Begin();
      oid := Tip(world.refs, ref);
      log := log + [Saw(ref, oid)];
    }

    /** `git tag` refuses a name that exists. */
    method MakeTag(ref: string, oid: Oid) returns (ok: bool)
      modifies this
      ensures ok == (others.replies(old(clock)).Works? && ref !in old(Met()).refs)
      ensures world == (if ok then old(Met()).(refs := old(Met()).refs[ref := oid]) else old(Met()))
      ensures log == if ok then old(log) + [MadeTag(ref, oid)] else old(log)
    {
      var reply := Begin();
      ok := reply.Works? && ref !in world.refs;
      if ok {
        world := world.(refs := world.refs[ref := oid]);
        log := log + [MadeTag(ref, oid)];
      }
    }

    /** `git branch -D` takes the branch wherever it points by now. */
    method DeleteLocal(c: Candidate) returns (ok: bool)
      modifies this
      ensures ok == (others.replies(old(clock)).Works? && LocalRef(c.branch) in old(Met()).refs)
      ensures world == (if ok then old(Met()).(refs := old(Met()).refs - {LocalRef(c.branch)}) else old(Met()))
      ensures log == if ok then old(log) + [Deleted(c, old(world), old(Met()))] else old(log)
      ensures clock == old(clock) + 1
    {
      ghost var left := world;
      var reply := Begin();
      ok := reply.Works? && LocalRef(c.branch) in world.refs;
      if ok {
        log := log + [Deleted(c, left, world)];
        world := world.(refs := world.refs - {LocalRef(c.branch)});
      }
    }

    /** `git push --force-with-lease --delete`: the server compares with the expected commit and deletes in one step. */
    method DeleteRemote(c: Candidate) returns (ok: bool)
      modifies this
      ensures ok == (others.replies(old(clock)).Works? && Tip(old(Met()).branches, c.branch) == Some(c.oid))
      ensures world == (if ok then old(Met()).(branches := old(Met()).branches - {c.branch}) else old(Met()))
      ensures log == if ok then old(log) + [Deleted(c, old(world), old(Met()))] else old(log)
    {
      ghost var left := world;
      var reply := Begin();
      ok := reply.Works? && Tip(world.branches, c.branch) == Some(c.oid);
      if ok {
        log := log + [Deleted(c, left, world)];
        world := world.(branches := world.branches - {c.branch});
      }
    }

    /** Any other command of which only the success matters. */
    method Ask() returns (works: bool)
      modifies this`world, this`clock
      ensures works == others.replies(old(clock)).Works?
    {
      var reply := Begin();
      works := reply.Works?;
    }

    /** The current branch, and the branches of all worktrees a command later. */
    method CheckedOut() returns (r: Result<(string, set<string>), GitError>)
      modifies this
      ensures r.Success? ==> log == old(log) + [SawCheckedOut(r.value.0, r.value.1)]
      ensures r.Failure? ==> log == old(log)
    {
      var shown := Begin();
      var current := world.current;
      if shown.Fails? {
        return Failure(GitError("git branch failed"));
      }
      var listing := Begin();
      if listing.Fails? {
        return Failure(GitError("git worktree failed"));
      }
      log := log + [SawCheckedOut(current, world.worktrees)];
      r := Success((current, world.worktrees));
    }

    /** The branch that the remote's HEAD names, if any. */
    method RemoteHead() returns (head: Option<string>)
      modifies this
      ensures log == old(log) + [SawRemoteHead(head)]
    {
      var reply := Begin();
      head := if reply.Works? then world.head else None;
      log := log + [SawRemoteHead(head)];
    }

    /**
     * Whether the ref is an ancestor of the base, or merging it would change nothing. The commands are given the
     * name of the ref, so what they judge is the commit it has by then.
     */
    method SafeReason(ref: string) returns (r: Result<bool, GitError>)
      modifies this
      ensures r.Failure? ==> log == old(log)
      ensures r == Success(false) ==> log == old(log) + [Unmerged(ref)]
      ensures r == Success(true) ==>
        var decided := DecidedIn(others, old(clock), old(world), ref);
        log == old(log) + [Merged(ref, old(world), decided)] && ref in decided.refs
      ensures others.replies(old(clock)).Works? && ref in old(Met()).refs ==>
        r == Success(true) && world == old(Met()) && clock == old(clock) + 1
    {
      ghost var left := world;
      var ancestor := Begin();
      if ancestor.Works? && ref in world.refs {
        log := log + [Merged(ref, left, world)];
        return Success(true);
      }
      var merge := Begin();
      if merge.Fails? || ref !in world.refs {
        log := log + [Unmerged(ref)];
        return Success(false);
      }
      ghost var decided := world;
      var tree := Begin();
      if tree.Fails? {
        return Failure(GitError("git rev-parse failed"));
      }
      log := log + [if merge.yes then Merged(ref, left, decided) else Unmerged(ref)];
      r := Success(merge.yes);
    }

    /** The refs under a prefix, all of them, each listed once. */
    method Refs(prefix: string) returns (r: Result<seq<string>, GitError>)
      modifies this
      ensures r.Failure? ==> log == old(log)
      ensures r.Success? ==> log == old(log) + [SawRefs(prefix, r.value)] && Distinct(r.value)
      ensures r.Success? ==> forall ref :: ref in r.value <==> ref in world.refs && prefix <= ref
    {
      var reply := Begin();
      if reply.Fails? {
        return Failure(GitError("git for-each-ref failed"));
      }
      var listed, left := [], world.refs.Keys;
      while left != {}
        invariant Distinct(listed)
        invariant left <= world.refs.Keys
        invariant forall ref :: ref in listed <==> ref in world.refs && ref !in left && prefix <= ref
        decreases |left|
      {
        var ref :| ref in left;
        left := left - {ref};
        if prefix <= ref {
          listed := listed + [ref];
        }
      }
      log := log + [SawRefs(prefix, listed)];
      r := Success(listed);
    }
  }
}
