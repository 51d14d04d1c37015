/**
 * Removing merged branches from a repository that other processes change at the same time: audit, recheck,
 * archive, delete.
 */
module BranchCleaner {
  import opened Wrappers
  import opened Sequences
  import opened GitRepo

  /** Each listed ref goes into one of three lists. */
  datatype Audit = Audit(delete: seq<Candidate>, keep: seq<string>, skip: seq<string>)

  /** Branches that are never touched: protected names, the current branch, and branches checked out elsewhere. */
  datatype Untouched = Untouched(protected: set<string>, current: string, worktrees: set<string>)

  predicate Skips(u: Untouched, scope: Scope, branch: string) {
    branch in u.protected || branch == u.current || branch in u.worktrees || (scope.Remote? && branch == "HEAD")
  }

  function Prefix(scope: Scope, remote: string): string {
    if scope.Local? then LocalRef("") else "refs/remotes/" + remote + "/"
  }

  /** The branch name of a ref, without the prefix of its scope. */
  function BranchOf(scope: Scope, remote: string, ref: string): string {
    if Prefix(scope, remote) <= ref then ref[|Prefix(scope, remote)|..] else ref
  }

  // ----- refs and branches, spelled out

  /** `ref` is the branch `b` in this repository, or what is known of it on the remote. */
  predicate RefOfBranch(ref: string, remote: string, b: string) {
    ref == "refs/heads/" + b || ref == "refs/remotes/" + remote + "/" + b
  }

  /** No ref to go: a protected or checked-out branch, here or on the remote, or the remote's HEAD. */
  ghost predicate MustStay(ref: string, u: Untouched, remote: string) {
    || ref == "refs/remotes/" + remote + "/HEAD"
    || exists b :: RefOfBranch(ref, remote, b) && (b in u.protected || b == u.current || b in u.worktrees)
  }

  lemma BranchOfRef(scope: Scope, remote: string, b: string)
    ensures BranchOf(Local, remote, "refs/heads/" + b) == b
    ensures BranchOf(Remote, remote, "refs/remotes/" + remote + "/" + b) == b
  {
    assert LocalRef("") == "refs/heads/" && ("refs/heads/" + b)[|"refs/heads/"|..] == b;
    var front := "refs/remotes/" + remote + "/";
    assert (front + b)[|front|..] == b;
  }

  /** A ref has one branch, and it is in this repository or on the remote but not both. */
  lemma OneBranch(ref: string, remote: string, b: string, c: string)
    requires RefOfBranch(ref, remote, b) && RefOfBranch(ref, remote, c)
    ensures b == c && (ref == "refs/heads/" + b <==> ref == "refs/heads/" + c)
  {
    var front := "refs/remotes/" + remote + "/";
    assert ("refs/heads/" + b)[5] == 'h' && ("refs/heads/" + c)[5] == 'h';
    assert (front + b)[5] == 'r' && (front + c)[5] == 'r';
    assert ("refs/heads/" + b)[11..] == b && ("refs/heads/" + c)[11..] == c;
    assert (front + b)[|front|..] == b && (front + c)[|front|..] == c;
  }

  /** A listed ref of a scope is skipped exactly when it must stay. */
  lemma SkippedMustStay(scope: Scope, remote: string, ref: string, u: Untouched)
    requires Prefix(scope, remote) <= ref
    ensures Skips(u, scope, BranchOf(scope, remote, ref)) <==> MustStay(ref, u, remote)
  {
    var b := ref[|Prefix(scope, remote)|..];
    assert ref == Prefix(scope, remote) + b && LocalRef("") == "refs/heads/";
    BranchOfRef(scope, remote, b);
    assert RefOfBranch(ref, remote, b);
    assert RefOfBranch("refs/remotes/" + remote + "/" + "HEAD", remote, "HEAD");
    assert "refs/remotes/" + remote + "/" + "HEAD" == "refs/remotes/" + remote + "/HEAD";
    if ref == "refs/remotes/" + remote + "/HEAD" {
      OneBranch(ref, remote, b, "HEAD");
      assert ref[5] == 'r' && ("refs/heads/" + b)[5] == 'h';
    }
    if c :| RefOfBranch(ref, remote, c) && (c in u.protected || c == u.current || c in u.worktrees) {
      OneBranch(ref, remote, b, c);
    }
  }

  /** A candidate's ref, spelled out, is none of the refs that always stay. */
  lemma CandidateRefs(c: Candidate, u: Untouched, remote: string)
    requires Named(c, remote) && !MustStay(c.ref, u, remote) && {"main", "master"} <= u.protected
    ensures c.ref == if c.scope.Local? then "refs/heads/" + c.branch else "refs/remotes/" + remote + "/" + c.branch
    ensures c.ref !in {"refs/heads/main", "refs/heads/master"}
    ensures c.ref !in {"refs/remotes/" + remote + "/main", "refs/remotes/" + remote + "/master",
                       "refs/remotes/" + remote + "/HEAD"}
    ensures c.branch !in u.protected + {u.current} + u.worktrees && (c.scope.Remote? ==> c.branch != "HEAD")
  {
    assert LocalRef("") == "refs/heads/";
    assert "refs/heads/" + "main" == "refs/heads/main" && "refs/heads/" + "master" == "refs/heads/master";
    var front := "refs/remotes/" + remote + "/";
    assert front + "main" == "refs/remotes/" + remote + "/main";
    assert front + "master" == "refs/remotes/" + remote + "/master";
    assert front + "HEAD" == "refs/remotes/" + remote + "/HEAD";
    assert RefOfBranch("refs/heads/main", remote, "main") && RefOfBranch("refs/heads/master", remote, "master");
    assert RefOfBranch(front + "main", remote, "main") && RefOfBranch(front + "master", remote, "master");
    assert RefOfBranch(c.ref, remote, c.branch);
  }

  // ----- archive tags

  function ScopeName(s: Scope): string {
    match s case Local => "local" case Remote => "remote"
  }

  function TagEnd(c: Candidate): string {
    ScopeName(c.scope) + "/" + c.branch + "-" + c.oid[..12]
  }

  function TagRef(date: string, c: Candidate): string {
    "refs/tags/archive/stale-branches/" + date + "/" + TagEnd(c)
  }

  /** Candidates with the same tag are the same branch in the same scope, at commits that agree in 12 digits. */
  lemma TagsAreDistinct(date: string, a: Candidate, b: Candidate)
    requires TagRef(date, a) == TagRef(date, b)
    ensures a.scope == b.scope && a.branch == b.branch && a.oid[..12] == b.oid[..12]
  {
    var front := "refs/tags/archive/stale-branches/" + date + "/";
    assert TagRef(date, a)[|front|..] == TagEnd(a) && TagRef(date, b)[|front|..] == TagEnd(b);
    TagEndsAreDistinct(a, b);
  }

  lemma TagEndsAreDistinct(a: Candidate, b: Candidate)
    requires TagEnd(a) == TagEnd(b)
    ensures a.scope == b.scope && a.branch == b.branch && a.oid[..12] == b.oid[..12]
  {
    var whole := TagEnd(a);
    assert whole[0] == ScopeName(a.scope)[0] && whole[0] == ScopeName(b.scope)[0];
    var name := ScopeName(a.scope) + "/";
    assert whole == name + a.branch + ("-" + a.oid[..12]) && whole == name + b.branch + ("-" + b.oid[..12]);
    assert whole[|name|..|whole| - 13] == a.branch && whole[|name|..|whole| - 13] == b.branch;
    assert whole[|whole| - 12..] == a.oid[..12] && whole[|whole| - 12..] == b.oid[..12];
  }

  /** An archive tag spelled out. */
  lemma TagRefLaw(date: string, c: Candidate)
    ensures TagRef(date, c) == "refs/tags/archive/stale-branches/" + date + "/"
                               + (if c.scope.Local? then "local/" else "remote/") + c.branch + "-" + c.oid[..12]
  {
    assert "local" + "/" == "local/" && "remote" + "/" == "remote/";
  }

  ghost predicate DistinctTags(date: string, candidates: seq<Candidate>) {
    forall i, j :: 0 <= i < j < |candidates| ==> TagRef(date, candidates[i]) != TagRef(date, candidates[j])
  }

  /** A candidate's ref is its branch under the prefix of its scope. */
  predicate Named(c: Candidate, remote: string) {
    c.ref == Prefix(c.scope, remote) + c.branch
  }

  /** Candidates for different refs get different tags. */
  lemma AuditTagsAreDistinct(date: string, remote: string, candidates: seq<Candidate>)
    requires Distinct(RefsOf(candidates)) && forall c :: c in candidates ==> Named(c, remote)
    ensures DistinctTags(date, candidates)
  {
    hide TagRef;
    RefsOfAt(candidates);
    forall i, j | 0 <= i < j < |candidates|
      ensures TagRef(date, candidates[i]) != TagRef(date, candidates[j])
    {
      assert RefsOf(candidates)[i] != RefsOf(candidates)[j];
      assert Named(candidates[i], remote) && Named(candidates[j], remote);
      if TagRef(date, candidates[i]) == TagRef(date, candidates[j]) {
        TagsAreDistinct(date, candidates[i], candidates[j]);
      }
    }
  }

  lemma {:induction false} RefsOfAt(candidates: seq<Candidate>)
    ensures |RefsOf(candidates)| == |candidates|
    ensures forall i :: 0 <= i < |candidates| ==> RefsOf(candidates)[i] == candidates[i].ref
  {
    if candidates != [] {
      RefsOfAt(candidates[..|candidates| - 1]);
    }
  }

  // ----- what makes a deletion safe

  /** No deletion happens from `start` on. */
  ghost predicate Harmless(log: seq<Event>, start: int) {
    forall i :: 0 <= start <= i < |log| ==> !log[i].Deleted?
  }

  /** The log has grown, and not by a deletion. */
  ghost predicate Looked(before: seq<Event>, after: seq<Event>) {
    before <= after && Harmless(after, |before|)
  }

  /** The commit was under its archive tag at a moment before the end of the log. */
  ghost predicate Archived(log: seq<Event>, date: string, c: Candidate) {
    exists t :: 0 <= t < |log|
      && (log[t] == MadeTag(TagRef(date, c), c.oid) || log[t] == Saw(TagRef(date, c), Some(c.oid)))
  }

  /** A remote branch went away at the audited commit; a local one was seen there immediately before. */
  ghost predicate HeldAtLastCheck(log: seq<Event>, i: int)
    requires 0 <= i < |log| && log[i].Deleted?
  {
    var c := log[i].candidate;
    match c.scope
    case Remote => TakenTip(log[i]) == Some(c.oid)
    case Local =>
      && i > 0 && log[i - 1] == Saw(c.ref, Some(c.oid)) && Tip(log[i].left.refs, c.ref) == Some(c.oid)
      && TakenTip(log[i]).Some?
  }

  /** What goes away from `start` on is among the candidates and held its audited commit at the last check. */
  ghost predicate DeletedAsAudited(log: seq<Event>, start: int, candidates: seq<Candidate>) {
    forall i :: 0 <= start <= i < |log| && log[i].Deleted? ==>
      log[i].candidate in candidates && HeldAtLastCheck(log, i)
  }

  /** Another process moved or removed the branch between the last check and the deletion. */
  predicate MovedInBetween(e: Event)
    requires e.Deleted?
  {
    match e.candidate.scope
    case Remote => false
    case Local => Tip(e.met.refs, e.candidate.ref) != Tip(e.left.refs, e.candidate.ref)
  }

  /** A branch goes away at its audited commit exactly when nobody moved it after the last check. */
  lemma TakenAtAuditedCommit(log: seq<Event>, i: nat, remote: string)
    requires i < |log| && log[i].Deleted? && HeldAtLastCheck(log, i) && Named(log[i].candidate, remote)
    ensures TakenTip(log[i]) == Some(log[i].candidate.oid) <==> !MovedInBetween(log[i])
  {
    assert LocalRef("") + log[i].candidate.branch == LocalRef(log[i].candidate.branch);
  }

  // ----- the audit

  function RefsOf(candidates: seq<Candidate>): seq<string> {
    if candidates == [] then [] else RefsOf(candidates[..|candidates| - 1]) + [candidates[|candidates| - 1].ref]
  }

  function Placed(a: Audit): multiset<string> {
    multiset(RefsOf(a.delete)) + multiset(a.keep) + multiset(a.skip)
  }

  lemma PlacedOne(a: Audit, ref: string, c: Candidate)
    requires c.ref == ref
    ensures Placed(a.(skip := a.skip + [ref])) == Placed(a) + multiset{ref}
    ensures Placed(a.(keep := a.keep + [ref])) == Placed(a) + multiset{ref}
    ensures Placed(a.(delete := a.delete + [c])) == Placed(a) + multiset{ref}
  {
    assert (a.delete + [c])[..|a.delete|] == a.delete;
  }

  /** The event is a content check that judged exactly the commit the candidate carries. */
  predicate Judged(e: Event, c: Candidate) {
    e.Merged? && e.branchRef == c.ref && JudgedTip(e) == Some(c.oid)
  }

  /** As the audit does it: the ref passes the content check, and right after that its commit is read. */
  ghost predicate CheckedThenSeen(log: seq<Event>, k: int, c: Candidate) {
    && 0 <= k < |log| - 1 && log[k].Merged? && log[k].branchRef == c.ref && JudgedTip(log[k]).Some?
    && log[k + 1] == Saw(c.ref, Some(c.oid))
  }

  /** As the recheck does it: the ref is seen at its commit, and the content check that follows is passed. */
  ghost predicate SeenThenChecked(log: seq<Event>, k: int, c: Candidate) {
    && 0 <= k < |log| - 1 && log[k] == Saw(c.ref, Some(c.oid))
    && log[k + 1].Merged? && log[k + 1].branchRef == c.ref && JudgedTip(log[k + 1]).Some?
    && Tip(log[k + 1].left.refs, c.ref) == Some(c.oid)
  }

  /** Another process moved the ref after the content check was decided and before its commit was read. */
  ghost predicate MovedAfterCheck(log: seq<Event>, k: int) {
    0 <= k < |log| - 1 && log[k].Merged? && log[k + 1].Saw? && JudgedTip(log[k]) != log[k + 1].seen
  }

  /** Another process moved the ref after its commit was read and before the content check was decided. */
  predicate MovedBeforeCheck(e: Event) {
    e.Merged? && JudgedTip(e) != Tip(e.left.refs, e.branchRef)
  }

  ghost predicate AuditedAt(log: seq<Event>, c: Candidate) {
    exists k :: CheckedThenSeen(log, k, c)
  }

  /** A candidate was found merged and then seen at its commit, and its branch is none that must not be touched. */
  ghost predicate Vetted(c: Candidate, log: seq<Event>, u: Untouched, remote: string) {
    AuditedAt(log, c) && c.branch == BranchOf(c.scope, remote, c.ref) && !Skips(u, c.scope, c.branch)
  }

  ghost predicate AllVetted(candidates: seq<Candidate>, log: seq<Event>, u: Untouched, remote: string) {
    forall c :: c in candidates ==> Vetted(c, log, u, remote)
  }

  /** Candidates are vetted, and what is kept was found unmerged. */
  ghost predicate Sorted(a: Audit, log: seq<Event>, u: Untouched, remote: string) {
    AllVetted(a.delete, log, u, remote) && forall k :: k in a.keep ==> Unmerged(k) in log
  }

  /** What is new in `after`: candidates of this scope from the list, and skips for their reason. */
  ghost predicate Added(before: Audit, after: Audit, scope: Scope, listed: seq<string>, u: Untouched, remote: string) {
    && (forall c :: c in after.delete ==> c in before.delete || (c.scope == scope && c.ref in listed))
    && (forall k :: k in after.skip ==>
         k in before.skip || (k in listed && Skips(u, scope, BranchOf(scope, remote, k))))
    && (forall k :: k in after.keep ==>
         k in before.keep || (k in listed && !Skips(u, scope, BranchOf(scope, remote, k))))
  }

  lemma NothingAdded(before: Audit, scope: Scope, listed: seq<string>, u: Untouched, remote: string)
    ensures Added(before, before, scope, listed, u, remote)
  {
  }

  lemma OneAdded(before: Audit, middle: Audit, after: Audit, scope: Scope, listed: seq<string>, i: nat, u: Untouched,
                 remote: string)
    requires i < |listed| && Added(before, middle, scope, listed, u, remote)
    requires Added(middle, after, scope, [listed[i]], u, remote)
    ensures Added(before, after, scope, listed, u, remote)
  {
    hide Skips, BranchOf;
  }

  /** What was seen stays seen as the log grows. */
  lemma StillSorted(a: Audit, earlier: seq<Event>, log: seq<Event>, u: Untouched, remote: string)
    requires Sorted(a, earlier, u, remote) && earlier <= log
    ensures Sorted(a, log, u, remote)
  {
    hide Vetted;
    assert forall e :: e in earlier ==> e in log;
    forall c | c in a.delete
      ensures Vetted(c, log, u, remote)
    {
      StillVetted(c, earlier, log, u, remote);
    }
  }

  lemma StillVetted(c: Candidate, earlier: seq<Event>, log: seq<Event>, u: Untouched, remote: string)
    requires Vetted(c, earlier, u, remote) && earlier <= log
    ensures Vetted(c, log, u, remote)
  {
    hide Skips, BranchOf;
    var k :| CheckedThenSeen(earlier, k, c);
    assert log[k] == earlier[k] && log[k + 1] == earlier[k + 1];
    assert CheckedThenSeen(log, k, c);
  }

  lemma NothingSorted(log: seq<Event>, u: Untouched, remote: string)
    ensures Sorted(Audit([], [], []), log, u, remote) && Placed(Audit([], [], [])) == multiset{}
  {
  }

  lemma StillThere(e: Event, earlier: seq<Event>, log: seq<Event>)
    requires e in earlier && earlier <= log
    ensures e in log
  {
    var k :| 0 <= k < |earlier| && earlier[k] == e;
    assert log[k] == e;
  }

  /** Listed refs of one scope start with its prefix, so they are their branch under that prefix. */
  lemma ListedAreNamed(c: Candidate, remote: string)
    requires Prefix(c.scope, remote) <= c.ref && c.branch == BranchOf(c.scope, remote, c.ref)
    ensures Named(c, remote)
  {
  }

  lemma ScopesAreApart(locals: seq<string>, remotes: seq<string>, remote: string)
    requires Distinct(locals) && Distinct(remotes)
    requires forall r :: r in locals ==> Prefix(Local, remote) <= r
    requires forall r :: r in remotes ==> Prefix(Remote, remote) <= r
    ensures Distinct(locals + remotes)
  {
    var all := locals + remotes;
    forall i, j | 0 <= i < j < |all|
      ensures all[i] != all[j]
    {
      if i < |locals| && j >= |locals| {
        assert all[i] in locals && all[j] in remotes;
        assert all[i][5] == Prefix(Local, remote)[5] && all[j][5] == Prefix(Remote, remote)[5];
      }
    }
  }

  /** The candidates of an audit of distinct refs have distinct refs. */
  lemma CandidatesAreDistinct(a: Audit, listed: seq<string>)
    requires Placed(a) == multiset(listed) && Distinct(listed)
    ensures Distinct(RefsOf(a.delete))
  {
    PartOfDistinct(RefsOf(a.delete), listed);
  }

  // ----- deletions in order

  /** The branches deleted, in order. */
  ghost function DeletedOf(log: seq<Event>): seq<Candidate> {
    if log == [] then [] else
      var before := DeletedOf(log[..|log| - 1]);
      match log[|log| - 1]
      case Deleted(c, _, _) => before + [c]
      case _ => before
  }

  lemma OneMore(log: seq<Event>, e: Event)
    ensures DeletedOf(log + [e]) == if e.Deleted? then DeletedOf(log) + [e.candidate] else DeletedOf(log)
  {
    assert (log + [e])[..|log|] == log;
  }

  lemma {:induction false} NoneDeleted(log: seq<Event>, more: seq<Event>)
    requires Looked(log, more)
    ensures DeletedOf(more) == DeletedOf(log)
    decreases |more|
  {
    if log != more {
      assert log <= more[..|more| - 1];
      NoneDeleted(log, more[..|more| - 1]);
    }
  }

  class Cleaner {
    const repo: Repo
    const remote: string

    constructor (repo: Repo, remote: string)
      ensures this.repo == repo && this.remote == remote
    {
      this.repo, this.remote := repo, remote;
    }

    /** The content check, and after it the commit of a ref that passes. */
    method ReadIfMerged(ref: string) returns (r: Result<Option<Oid>, GitError>)
      modifies repo
      ensures Looked(old(repo.log), repo.log)
      ensures r == Success(None) ==> repo.log == old(repo.log) + [Unmerged(ref)]
      ensures r.Success? && r.value.Some? ==>
        var decided := DecidedIn(repo.others, old(repo.clock), old(repo.world), ref);
        && ref in decided.refs && r.value == Tip(repo.world.refs, ref)
        && repo.log == old(repo.log) + [Merged(ref, old(repo.world), decided), Saw(ref, r.value)]
      ensures && repo.others.replies(old(repo.clock)).Works? && ref in old(repo.Met()).refs
              && ref in repo.others.moves(old(repo.clock) + 1, old(repo.Met())).refs
              ==> r.Success? && r.value.Some? && repo.clock == old(repo.clock) + 2
                  && repo.world == repo.others.moves(old(repo.clock) + 1, old(repo.Met()))
    {
      var safe := repo.SafeReason(ref);
      if safe.Failure? {
        return Failure(safe.error);
      }
      if !safe.value {
        return Success(None);
      }
      var oid := repo.RefOid(ref);
      r := if oid.Some? then Success(oid) else Failure(GitError("candidate ref disappeared"));
    }

    /** The candidate for a ref seen at a commit. */
    function Seen(scope: Scope, ref: string, oid: Oid): Candidate {
      Candidate(scope, BranchOf(scope, remote, ref), ref, oid)
    }

    /**
     * Put one ref into one of the three lists. A candidate carries the commit at which it is seen after the content
     * check, which is the commit that was judged exactly when nobody has moved the ref in between.
     */
    method Place(scope: Scope, ref: string, before: Audit, u: Untouched) returns (r: Result<Audit, GitError>)
      requires Sorted(before, repo.log, u, remote)
      modifies repo
      ensures Looked(old(repo.log), repo.log)
      ensures r.Success? ==> Placed(r.value) == Placed(before) + multiset{ref}
      ensures r.Success? ==> Sorted(r.value, repo.log, u, remote)
      ensures r.Success? ==> Added(before, r.value, scope, [ref], u, remote)
      ensures r.Success? && r.value.delete != before.delete ==>
        var decided := DecidedIn(repo.others, old(repo.clock), old(repo.world), ref);
        && Tip(repo.world.refs, ref).Some?
        && repo.log == old(repo.log) + [Merged(ref, old(repo.world), decided), Saw(ref, Tip(repo.world.refs, ref))]
        && r.value.delete == before.delete + [Seen(scope, ref, Tip(repo.world.refs, ref).value)]
      ensures && !Skips(u, scope, BranchOf(scope, remote, ref))
              && repo.others.replies(old(repo.clock)).Works? && ref in old(repo.Met()).refs
              && ref in repo.others.moves(old(repo.clock) + 1, old(repo.Met())).refs
              ==> r.Success? && r.value.delete != before.delete && repo.clock == old(repo.clock) + 2
                  && repo.world == repo.others.moves(old(repo.clock) + 1, old(repo.Met()))
    {
      hide Placed, Skips, BranchOf, DecidedIn;
      ghost var earlier := repo.log;
      var branch := BranchOf(scope, remote, ref);
      PlacedOne(before, ref, Candidate(scope, branch, ref, "000000000000"));
      if Skips(u, scope, branch) {
        return Success(before.(skip := before.skip + [ref]));
      }
      var oid := ReadIfMerged(ref);
      if oid.Failure? {
        return Failure(oid.error);
      }
      StillSorted(before, earlier, repo.log, u, remote);
      if oid.value.None? {
        return Success(before.(keep := before.keep + [ref]));
      }
      var c := Seen(scope, ref, oid.value.value);
      assert CheckedThenSeen(repo.log, |earlier|, c);
      assert Vetted(c, repo.log, u, remote);
      PlacedOne(before, ref, c);
      r := Success(before.(delete := before.delete + [c]));
    }

    /** Sort each listed ref into exactly one of the three lists. */
    method AuditScope(scope: Scope, listed: seq<string>, before: Audit, u: Untouched)
        returns (r: Result<Audit, GitError>)
      requires Sorted(before, repo.log, u, remote)
      modifies repo
      ensures Looked(old(repo.log), repo.log)
      ensures r.Success? ==> Placed(r.value) == Placed(before) + multiset(listed)
      ensures r.Success? ==> Sorted(r.value, repo.log, u, remote)
      ensures r.Success? ==> Added(before, r.value, scope, listed, u, remote)
    {
      hide Placed, Skips, BranchOf, Sorted, Added;
      var audit := before;
      NothingAdded(before, scope, listed, u, remote);
      for i := 0 to |listed|
        invariant Looked(old(repo.log), repo.log)
        invariant Placed(audit) == Placed(before) + multiset(listed[..i])
        invariant Sorted(audit, repo.log, u, remote)
        invariant Added(before, audit, scope, listed, u, remote)
      {
        assert listed[..i + 1] == listed[..i] + [listed[i]];
        r := Place(scope, listed[i], audit, u);
        match r
        case Failure(e) => return;
        case Success(placed) =>
          OneAdded(before, audit, placed, scope, listed, i, u, remote);
          audit := placed;
      }
      assert listed[..|listed|] == listed;
      r := Success(audit);
    }

    /** List the refs of one scope and sort them. */
    method AuditRefs(scope: Scope, before: Audit, u: Untouched)
        returns (r: Result<Audit, GitError>, ghost listed: seq<string>)
      requires Sorted(before, repo.log, u, remote)
      modifies repo
      ensures Looked(old(repo.log), repo.log)
      ensures r.Success? ==> SawRefs(Prefix(scope, remote), listed) in repo.log
      ensures r.Success? ==> Distinct(listed) && forall ref :: ref in listed ==> Prefix(scope, remote) <= ref
      ensures r.Success? ==> Placed(r.value) == Placed(before) + multiset(listed)
      ensures r.Success? ==> Sorted(r.value, repo.log, u, remote)
      ensures r.Success? ==> Added(before, r.value, scope, listed, u, remote)
    {
      hide Placed, Prefix, Skips, BranchOf, Sorted, Added;
      ghost var earlier := repo.log;
      var refs := repo.Refs(Prefix(scope, remote));
      listed := [];
      if refs.Failure? {
        return Failure(refs.error), listed;
      }
      listed := refs.value;
      StillSorted(before, earlier, repo.log, u, remote);
      ghost var seen := repo.log;
      r := AuditScope(scope, refs.value, before, u);
      StillThere(SawRefs(Prefix(scope, remote), listed), seen, repo.log);
    }

    /**
     * All local refs, and all refs of the remote unless told otherwise, are sorted; `u` is what was never touched.
     * Candidates have different refs, and each is its branch under the prefix of its scope.
     */
    method AuditAll(localOnly: bool)
        returns (r: Result<Audit, GitError>, ghost locals: seq<string>, ghost remotes: seq<string>, ghost u: Untouched)
      modifies repo
      ensures Looked(old(repo.log), repo.log)
      ensures r.Success? ==> Placed(r.value) == multiset(locals + remotes)
      ensures r.Success? ==> SawRefs(Prefix(Local, remote), locals) in repo.log
      ensures r.Success? ==> if localOnly then remotes == [] else SawRefs(Prefix(Remote, remote), remotes) in repo.log
      ensures r.Success? ==> SawCheckedOut(u.current, u.worktrees) in repo.log && ProtectedAsSeen(repo.log, u)
      ensures r.Success? ==> Sorted(r.value, repo.log, u, remote)
      ensures r.Success? ==> Distinct(RefsOf(r.value.delete)) && forall c :: c in r.value.delete ==> Named(c, remote)
      ensures r.Success? ==> forall k :: k in r.value.skip ==> MustStay(k, u, remote)
      ensures r.Success? ==> forall k :: k in r.value.keep ==> !MustStay(k, u, remote)
      ensures r.Success? ==> forall c :: c in r.value.delete ==> !MustStay(c.ref, u, remote)
    {
      hide Placed, Prefix, Skips, BranchOf, Sorted, Named, RefsOf, MustStay, Added;
      locals, remotes, u := [], [], Untouched({}, "", {});
      var nothing := Audit([], [], []);
      var base := repo.Ask();
      if !base {
        return Failure(GitError("base ref does not exist")), locals, remotes, u;
      }
      var checkedOut := repo.CheckedOut();
      if checkedOut.Failure? {
        return Failure(checkedOut.error), locals, remotes, u;
      }
      var (current, worktrees) := checkedOut.value;
      ghost var checkouts, first := SawCheckedOut(current, worktrees), repo.log;
      var head := repo.RemoteHead();
      ghost var headSeen, third := SawRemoteHead(head), repo.log;
      var untouched := Untouched({"main", "master"} + (if head.Some? then {head.value} else {}), current, worktrees);
      u := untouched;
      NothingSorted(repo.log, u, remote);
      r, locals := AuditRefs(Local, nothing, untouched);
      StillThere(checkouts, first, repo.log);
      StillThere(headSeen, third, repo.log);
      if r.Failure? {
        return;
      }
      ghost var second := repo.log;
      var local := r.value;
      if !localOnly {
        r, remotes := AuditRefs(Remote, local, untouched);
        StillThere(checkouts, second, repo.log);
        StillThere(headSeen, second, repo.log);
        StillThere(SawRefs(Prefix(Local, remote), locals), second, repo.log);
        if r.Failure? {
          return;
        }
      }
      ScopesAreApart(locals, remotes, remote);
      CandidatesAreDistinct(r.value, locals + remotes);
      AllAreNamed(local, r.value, locals, remotes, u, repo.log, remote);
      assert ProtectedAsSeen(repo.log, u);
    }

    /** The same commit is seen again, is not checked out, and the ref passes the content check again. */
    method RecheckOne(c: Candidate, current: string, worktrees: set<string>) returns (r: Result<(), GitError>)
      modifies repo
      ensures Looked(old(repo.log), repo.log)
      ensures r.Success? ==> c.branch != current && c.branch !in worktrees
      ensures r.Success? ==> Tip(old(repo.Met()).refs, c.ref) == Some(c.oid)
      ensures r.Success? ==>
        var decided := DecidedIn(repo.others, old(repo.clock) + 1, old(repo.Met()), c.ref);
        repo.log == old(repo.log) + [Saw(c.ref, Some(c.oid)), Merged(c.ref, old(repo.Met()), decided)]
        && c.ref in decided.refs
      ensures && Tip(old(repo.Met()).refs, c.ref) == Some(c.oid) && c.branch != current && c.branch !in worktrees
              && repo.others.replies(old(repo.clock) + 1).Works?
              && c.ref in repo.others.moves(old(repo.clock) + 1, old(repo.Met())).refs
              ==> r.Success? && repo.clock == old(repo.clock) + 2
                  && repo.world == repo.others.moves(old(repo.clock) + 1, old(repo.Met()))
    {
      var actual := repo.RefOid(c.ref);
      if actual != Some(c.oid) {
        return Failure(GitError("moved; refusing deletion"));
      }
      if c.branch == current || c.branch in worktrees {
        return Failure(GitError("is now checked out; refusing deletion"));
      }
      var safe := repo.SafeReason(c.ref);
      if safe.Failure? {
        return Failure(safe.error);
      }
      if !safe.value {
        return Failure(GitError("no longer passes the content safety check"));
      }
      r := Success(());
    }

    /** All candidates still hold their commit, are not checked out and are still merged; otherwise an error. */
    method Recheck(candidates: seq<Candidate>) returns (r: Result<(), GitError>)
      modifies repo
      ensures Looked(old(repo.log), repo.log)
      ensures r.Success? ==> forall c :: c in candidates ==>
                RecheckedSince(repo.log, |old(repo.log)|, c) && NotCheckedOutSince(repo.log, |old(repo.log)|, c)
    {
      hide RecheckedSince, DecidedIn;
      var base := repo.Ask();
      if !base {
        return Failure(GitError("base ref does not exist"));
      }
      ghost var start := |repo.log|;
      var checkedOut := repo.CheckedOut();
      if checkedOut.Failure? {
        return Failure(checkedOut.error);
      }
      var (current, worktrees) := checkedOut.value;
      for n := 0 to |candidates|
        invariant Looked(old(repo.log), repo.log)
        invariant start < |repo.log| && repo.log[start] == SawCheckedOut(current, worktrees)
        invariant forall m :: 0 <= m < n ==> RecheckedSince(repo.log, start, candidates[m])
        invariant forall m :: 0 <= m < n ==> candidates[m].branch != current && candidates[m].branch !in worktrees
      {
        ghost var earlier := repo.log;
        r := RecheckOne(candidates[n], current, worktrees);
        if r.Failure? {
          return;
        }
        JustRechecked(earlier, repo.log, start, candidates[n]);
        forall m | 0 <= m < n
          ensures RecheckedSince(repo.log, start, candidates[m])
        {
          StillRechecked(earlier, repo.log, start, candidates[m]);
        }
      }
      r := Success(());
    }

    /** Success only when every candidate's commit has been found or put under its tag. */
    method Archive(date: string, candidates: seq<Candidate>) returns (r: Result<(), GitError>)
      modifies repo
      ensures Looked(old(repo.log), repo.log)
      ensures r.Success? ==> forall c :: c in candidates ==> Archived(repo.log, date, c)
    {
      hide TagRef;
      for n := 0 to |candidates|
        invariant Looked(old(repo.log), repo.log)
        invariant forall m :: 0 <= m < n ==> Archived(repo.log, date, candidates[m])
      {
        ghost var earlier := repo.log;
        r := ArchiveOne(date, candidates[n]);
        if r.Failure? {
          return;
        }
        forall m | 0 <= m < n
          ensures Archived(repo.log, date, candidates[m])
        {
          StillArchived(earlier, repo.log, date, candidates[m]);
        }
      }
      r := Success(());
    }

    method ArchiveOne(date: string, c: Candidate) returns (r: Result<(), GitError>)
      modifies repo
      ensures Looked(old(repo.log), repo.log)
      ensures r.Success? ==> Archived(repo.log, date, c)
    {
      hide TagRef;
      var tag := TagRef(date, c);
      var existing := repo.RefOid(tag);
      if existing.Some? && existing.value != c.oid {
        return Failure(GitError("archive tag exists at a different commit"));
      }
      if existing.None? {
        var made := repo.MakeTag(tag, c.oid);
        if !made {
          return Failure(GitError("git tag failed"));
        }
      }
      assert repo.log[|repo.log| - 1] == (if existing.None? then MadeTag(tag, c.oid) else Saw(tag, Some(c.oid)));
      var pushed := repo.Ask();
      r := if pushed then Success(()) else Failure(GitError("git push failed"));
    }

    /**
     * Delete a candidate if it still holds its commit. For a local branch the check and the deletion are two
     * commands: what goes away is what the second one meets.
     */
    method DeleteOne(c: Candidate) returns (ok: bool, ghost left: World, ghost met: World)
      modifies repo
      ensures if c.scope.Remote? then left == old(repo.world) && met == old(repo.Met())
              else left == old(repo.Met()) && met == repo.others.moves(old(repo.clock) + 1, left)
      ensures AfterOne(old(repo.log), repo.log, c, left, met, ok)
      ensures c.scope.Local? ==>
                (ok <==> Tip(left.refs, c.ref) == Some(c.oid) && LocalRef(c.branch) in met.refs
                         && repo.others.replies(old(repo.clock) + 1).Works?)
    {
      if c.scope.Remote? {
        left, met := repo.world, repo.Met();
        ok := repo.DeleteRemote(c);
      } else {
        var actual := repo.RefOid(c.ref);
        left, met := repo.world, repo.Met();
        if actual != Some(c.oid) {
          return false, left, met;
        }
        ok := repo.DeleteLocal(c);
      }
    }

    /** Delete each candidate that still holds its commit; the command fails unless all of them went. */
    method Delete(candidates: seq<Candidate>) returns (r: Result<(), GitError>)
      modifies repo
      ensures old(repo.log) <= repo.log && DeletedAsAudited(repo.log, |old(repo.log)|, candidates)
      ensures r.Success? <==> DeletedOf(repo.log) == DeletedOf(old(repo.log)) + candidates
    {
      hide DeletedOf, DeletedAsAudited, HeldAtLastCheck;
      var failures := 0;
      ghost var had := DeletedOf(repo.log);
      assert had + candidates[..0] == had;
      NothingNewDeleted(repo.log, candidates);
      for n := 0 to |candidates|
        invariant old(repo.log) <= repo.log && DeletedAsAudited(repo.log, |old(repo.log)|, candidates)
        invariant 0 <= failures <= n && |DeletedOf(repo.log)| == |had| + n - failures
        invariant failures == 0 ==> DeletedOf(repo.log) == had + candidates[..n]
      {
        assert candidates[..n + 1] == candidates[..n] + [candidates[n]];
        assert had + candidates[..n] + [candidates[n]] == had + candidates[..n + 1];
        ghost var earlier := repo.log;
        var ok;
        ghost var left, met;
        ok, left, met := DeleteOne(candidates[n]);
        OneTaken(earlier, repo.log, candidates[n], left, met, ok);
        StillAsAudited(earlier, repo.log, |old(repo.log)|, candidates[n], candidates);
        if !ok {
          failures := failures + 1;
        }
      }
      assert candidates[..|candidates|] == candidates;
      r := if failures > 0 then Failure(GitError("branch deletion(s) failed")) else Success(());
    }

    /** Recheck, archive unless told not to, delete: the part of the command after the audit. */
    method Apply(date: string, archive: bool, candidates: seq<Candidate>) returns (r: Result<(), GitError>)
      modifies repo
      ensures old(repo.log) <= repo.log && DeletedAsAudited(repo.log, |old(repo.log)|, candidates)
      ensures r.Success? ==> DeletedOf(repo.log) == DeletedOf(old(repo.log)) + candidates
      ensures || Harmless(repo.log, |old(repo.log)|)
              || ClearedFirst(repo.log, |old(repo.log)|, date, archive, candidates)
    {
      hide HeldAtLastCheck, TagRef, RecheckedSince, NotCheckedOutSince, Archived, DeletedOf;
      ghost var auditedLog := repo.log;
      r := Recheck(candidates);
      if r.Failure? {
        return;
      }
      ghost var checkedLog := repo.log;
      if archive {
        r := Archive(date, candidates);
        if r.Failure? {
          return;
        }
      }
      ghost var before := repo.log;
      forall c | c in candidates
        ensures Cleared(before, date, |auditedLog|, archive, c)
      {
        StillRechecked(checkedLog, before, |auditedLog|, c);
        StillNotCheckedOut(checkedLog, before, |auditedLog|, c);
      }
      NoneDeleted(auditedLog, before);
      r := Delete(candidates);
      assert repo.log[..|before|] == before;
    }

    /**
     * The whole command. Its log is orderly: see below what that says about every deletion. On success with
     * `apply` exactly the audited candidates went away; without it nothing did.
     */
    method Command(date: string, fetch: bool, apply: bool, archive: bool, localOnly: bool)
        returns (r: Result<(), GitError>, ghost audited: seq<Candidate>, ghost auditEnd: nat, ghost u: Untouched)
      requires repo.log == []
      modifies repo
      ensures !apply ==> Harmless(repo.log, 0)
      ensures r.Success? && apply ==> DeletedOf(repo.log) == audited
      ensures Orderly(repo.log, auditEnd, audited, u, remote, date, archive)
    {
      assert DeletedOf([]) == [];
      hide HeldAtLastCheck, ClearedFirst, DeletedOf, DeletedAsAudited, AuditDone, Orderly, RefsOf, Named, Sorted, Skips;
      hide MustStay, ProtectedAsSeen;
      audited, auditEnd, u := [], 0, Untouched({}, "", {});
      NothingAudited(repo.log, u, remote, date);
      NothingTaken(repo.log, repo.log, audited, u, remote, date, archive);
      if fetch {
        var fetched := repo.Ask();
        if !fetched {
          r := Failure(GitError("git fetch failed"));
          return;
        }
      }
      var found;
      ghost var locals, remotes;
      found, locals, remotes, u := AuditAll(localOnly);
      ghost var auditLog := repo.log;
      auditEnd := |auditLog|;
      if found.Failure? {
        NothingAudited(auditLog, u, remote, date);
        NothingTaken(auditLog, repo.log, audited, u, remote, date, archive);
        r := Failure(found.error);
        return;
      }
      var candidates := found.value.delete;
      audited := candidates;
      AllAudited(auditLog, found.value, u, remote, date);
      NothingTaken(auditLog, repo.log, audited, u, remote, date, archive);
      NoneDeleted([], repo.log);
      var stillBase := repo.Ask();
      if !stillBase {
        r := Failure(GitError("base ref does not exist"));
        return;
      }
      if candidates == [] || !apply {
        r := Success(());
        return;
      }
      r := Apply(date, archive, candidates);
      TakenInOrder(auditLog, repo.log, audited, u, remote, date, archive);
      assert [] + candidates == candidates;
    }
  }

  /** A command that deletes nothing has an orderly log. */
  lemma NothingTaken(auditLog: seq<Event>, log: seq<Event>, audited: seq<Candidate>, u: Untouched, remote: string,
                     date: string, archive: bool)
    requires AuditDone(auditLog, audited, u, remote, date) && Looked(auditLog, log)
    ensures Harmless(log, 0) && Orderly(log, |auditLog|, audited, u, remote, date, archive)
  {
    assert log[..|auditLog|] == auditLog;
    assert forall i :: 0 <= i < |auditLog| ==> auditLog[i] == log[i];
  }

  lemma TakenInOrder(auditLog: seq<Event>, log: seq<Event>, audited: seq<Candidate>, u: Untouched, remote: string,
                     date: string, archive: bool)
    requires AuditDone(auditLog, audited, u, remote, date) && auditLog <= log
    requires DeletedAsAudited(log, |auditLog|, audited)
    requires Harmless(log, |auditLog|) || ClearedFirst(log, |auditLog|, date, archive, audited)
    ensures Orderly(log, |auditLog|, audited, u, remote, date, archive)
  {
    hide ClearedFirst, HeldAtLastCheck;
    assert log[..|auditLog|] == auditLog;
    assert forall i :: 0 <= i < |auditLog| ==> auditLog[i] == log[i];
  }

  lemma NothingAudited(log: seq<Event>, u: Untouched, remote: string, date: string)
    requires Harmless(log, 0)
    ensures AuditDone(log, [], u, remote, date)
  {
  }

  lemma AllAudited(log: seq<Event>, a: Audit, u: Untouched, remote: string, date: string)
    requires Harmless(log, 0) && Sorted(a, log, u, remote)
    requires Distinct(RefsOf(a.delete)) && forall c :: c in a.delete ==> Named(c, remote)
    requires ProtectedAsSeen(log, u) && SawCheckedOut(u.current, u.worktrees) in log
    requires forall c :: c in a.delete ==> !MustStay(c.ref, u, remote)
    ensures AuditDone(log, a.delete, u, remote, date)
  {
    hide Named, RefsOf, DistinctTags, Vetted, MustStay;
    AuditTagsAreDistinct(date, remote, a.delete);
  }

  lemma AllAreNamed(local: Audit, all: Audit, locals: seq<string>, remotes: seq<string>, u: Untouched,
                    log: seq<Event>, remote: string)
    requires Sorted(all, log, u, remote)
    requires Added(Audit([], [], []), local, Local, locals, u, remote)
    requires local == all || Added(local, all, Remote, remotes, u, remote)
    requires forall r :: r in locals ==> Prefix(Local, remote) <= r
    requires forall r :: r in remotes ==> Prefix(Remote, remote) <= r
    ensures forall c :: c in all.delete ==> Named(c, remote) && !MustStay(c.ref, u, remote)
    ensures forall k :: k in all.skip ==> MustStay(k, u, remote)
    ensures forall k :: k in all.keep ==> !MustStay(k, u, remote)
  {
    hide Prefix, Skips, BranchOf, Named, AuditedAt, MustStay;
    forall c | c in all.delete
      ensures Named(c, remote) && !MustStay(c.ref, u, remote)
    {
      assert Vetted(c, log, u, remote);
      assert Prefix(c.scope, remote) <= c.ref;
      ListedAreNamed(c, remote);
      SkippedMustStay(c.scope, remote, c.ref, u);
    }
    forall k | k in all.skip
      ensures MustStay(k, u, remote)
    {
      SkippedMustStay(if k in local.skip then Local else Remote, remote, k, u);
    }
    forall k | k in all.keep
      ensures !MustStay(k, u, remote)
    {
      SkippedMustStay(if k in local.keep then Local else Remote, remote, k, u);
    }
  }

  /** Protected are main, master and the branch that the remote's HEAD was seen to name. */
  ghost predicate ProtectedAsSeen(log: seq<Event>, u: Untouched) {
    exists head: Option<string> :: SawRemoteHead(head) in log
      && u.protected == {"main", "master"} + (if head.Some? then {head.value} else {})
  }

  // ----- the log of a whole command

  /**
   * A log up to the end of the audit: nothing is deleted, and the candidates are vetted against the protected names
   * and the branches checked out. Each is named as its ref is, and no two get the same tag.
   */
  ghost predicate AuditDone(log: seq<Event>, audited: seq<Candidate>, u: Untouched, remote: string, date: string) {
    && Harmless(log, 0) && AllVetted(audited, log, u, remote)
    && (forall c :: c in audited ==> Named(c, remote) && !MustStay(c.ref, u, remote)) && DistinctTags(date, audited)
    && (audited != [] ==> ProtectedAsSeen(log, u) && SawCheckedOut(u.current, u.worktrees) in log)
  }

  /**
   * After the audit, what is deleted is a candidate that held its commit at the last check, and before the first
   * deletion all of them were cleared.
   */
  ghost predicate Orderly(log: seq<Event>, auditEnd: nat, audited: seq<Candidate>, u: Untouched, remote: string,
                          date: string, archive: bool) {
    && auditEnd <= |log| && AuditDone(log[..auditEnd], audited, u, remote, date)
    && DeletedAsAudited(log, 0, audited)
    && (Harmless(log, 0) || ClearedFirst(log, auditEnd, date, archive, audited))
  }

  /** At some moment after `start`, with nothing deleted yet since then, every candidate was cleared. */
  ghost predicate ClearedFirst(log: seq<Event>, start: int, date: string, archive: bool, candidates: seq<Candidate>) {
    exists first :: 0 <= start <= first <= |log| && Harmless(log[..first], start)
      && forall c :: c in candidates ==> Cleared(log[..first], date, start, archive, c)
  }

  /** What has happened to every candidate before anything is deleted. */
  ghost predicate Cleared(log: seq<Event>, date: string, auditEnd: int, archive: bool, c: Candidate) {
    RecheckedSince(log, auditEnd, c) && NotCheckedOutSince(log, auditEnd, c) && (archive ==> Archived(log, date, c))
  }

  /**
   * Every deletion of a whole command: the branch is no protected one, was vetted in the audit, and before the
   * deletion the branch that goes away and all other candidates were rechecked and, with archiving on, had their
   * exact commits under tags that no two of them share. The audit and the recheck each judged exactly that commit if
   * nobody moved the ref between the check and the reading, and only then. The branch goes away at that commit exactly
   * when nobody moved it after the last check.
   */
  lemma EveryDeletionIsPrepared(log: seq<Event>, auditEnd: nat, audited: seq<Candidate>, u: Untouched, remote: string,
                                date: string, archive: bool, i: nat)
    requires Orderly(log, auditEnd, audited, u, remote, date, archive) && i < |log| && log[i].Deleted?
    ensures auditEnd <= i && log[i].candidate in audited
    ensures {"main", "master"} <= u.protected && !MustStay(log[i].candidate.ref, u, remote)
    ensures forall c :: c in audited ==>
              c.ref == if c.scope.Local? then "refs/heads/" + c.branch else "refs/remotes/" + remote + "/" + c.branch
    ensures log[i].candidate.ref !in {"refs/heads/main", "refs/heads/master"}
    ensures log[i].candidate.ref !in {"refs/remotes/" + remote + "/main", "refs/remotes/" + remote + "/master",
                                      "refs/remotes/" + remote + "/HEAD"}
    ensures log[i].candidate.branch !in u.protected + {u.current} + u.worktrees
    ensures forall c :: c in audited ==> Vetted(c, log[..i], u, remote) && Cleared(log[..i], date, auditEnd, archive, c)
    ensures forall c :: c in audited ==> JudgedByAudit(log, auditEnd, c) && JudgedByRecheck(log, auditEnd, i, c)
    ensures TakenTip(log[i]) == Some(log[i].candidate.oid) <==> !MovedInBetween(log[i])
  {
    hide TagRef, BranchOf, HeldAtLastCheck, TakenTip, MovedInBetween, Named, DistinctTags, Vetted, Cleared;
    hide JudgedByAudit, JudgedByRecheck, MustStay;
    DeletedAfter(log, auditEnd, 0, i);
    var first :| 0 <= auditEnd <= first <= |log| && Harmless(log[..first], auditEnd)
      && forall c :: c in audited ==> Cleared(log[..first], date, auditEnd, archive, c);
    DeletedAfter(log, first, auditEnd, i);
    CandidateRefs(log[i].candidate, u, remote);
    forall c | c in audited
      ensures c.ref == if c.scope.Local? then "refs/heads/" + c.branch else "refs/remotes/" + remote + "/" + c.branch
    {
      CandidateRefs(c, u, remote);
    }
    forall c | c in audited
      ensures Vetted(c, log[..i], u, remote) && Cleared(log[..i], date, auditEnd, archive, c)
      ensures JudgedByAudit(log, auditEnd, c) && JudgedByRecheck(log, auditEnd, i, c)
    {
      assert Vetted(c, log[..auditEnd], u, remote) && Cleared(log[..first], date, auditEnd, archive, c);
      StillVetted(c, log[..auditEnd], log[..i], u, remote);
      StillCleared(log[..first], log[..i], date, auditEnd, archive, c);
      JudgementOfAudit(log, auditEnd, c, u, remote);
      JudgementOfRecheck(log, auditEnd, i, c, date, archive);
    }
    TakenAtAuditedCommit(log, i, remote);
  }

  /** The audit checked the ref and read the commit; it judged that commit exactly when nobody moved the ref. */
  ghost predicate JudgedByAudit(log: seq<Event>, auditEnd: nat, c: Candidate) {
    exists k :: k + 1 < auditEnd && CheckedThenSeen(log, k, c) && (Judged(log[k], c) <==> !MovedAfterCheck(log, k))
  }

  /** So did the recheck before `end`, which reads the commit first. */
  ghost predicate JudgedByRecheck(log: seq<Event>, auditEnd: nat, end: nat, c: Candidate) {
    exists k :: auditEnd <= k && k + 1 < end && SeenThenChecked(log, k, c)
      && (Judged(log[k + 1], c) <==> !MovedBeforeCheck(log[k + 1]))
  }

  lemma JudgementOfAudit(log: seq<Event>, auditEnd: nat, c: Candidate, u: Untouched, remote: string)
    requires auditEnd <= |log| && Vetted(c, log[..auditEnd], u, remote)
    ensures JudgedByAudit(log, auditEnd, c)
  {
    var k :| CheckedThenSeen(log[..auditEnd], k, c);
    assert log[..auditEnd][k] == log[k] && log[..auditEnd][k + 1] == log[k + 1];
    assert CheckedThenSeen(log, k, c);
  }

  lemma JudgementOfRecheck(log: seq<Event>, auditEnd: nat, end: nat, c: Candidate, date: string, archive: bool)
    requires end <= |log| && Cleared(log[..end], date, auditEnd, archive, c)
    ensures JudgedByRecheck(log, auditEnd, end, c)
  {
    var k :| 0 <= auditEnd <= k && SeenThenChecked(log[..end], k, c);
    assert log[..end][k] == log[k] && log[..end][k + 1] == log[k + 1];
    assert SeenThenChecked(log, k, c);
  }

  /** A commit that goes away although no content check judged it was moved away from both times. */
  lemma UnjudgedWasMovedTwice(log: seq<Event>, auditEnd: nat, end: nat, c: Candidate)
    requires end <= |log| && JudgedByAudit(log, auditEnd, c) && JudgedByRecheck(log, auditEnd, end, c)
    requires forall n :: 0 <= n < |log| ==> !Judged(log[n], c)
    ensures exists k :: k + 1 < auditEnd && CheckedThenSeen(log, k, c) && MovedAfterCheck(log, k)
    ensures exists k :: auditEnd <= k && k + 1 < end && SeenThenChecked(log, k, c) && MovedBeforeCheck(log[k + 1])
  {
  }

  lemma DeletedAfter(log: seq<Event>, end: nat, start: nat, i: nat)
    requires end <= |log| && Harmless(log[..end], start) && start <= i < |log| && log[i].Deleted?
    ensures end <= i
  {
  }

  // ----- what stays as the log grows

  lemma NothingNewDeleted(log: seq<Event>, candidates: seq<Candidate>)
    ensures DeletedAsAudited(log, |log|, candidates)
  {
  }

  /** The log after one deletion, or after one that was refused. */
  ghost predicate AfterOne(earlier: seq<Event>, log: seq<Event>, c: Candidate, left: World, met: World, ok: bool) {
    var taken := if ok then [Deleted(c, left, met)] else [];
    match c.scope
    case Remote => (ok ==> Tip(met.branches, c.branch) == Some(c.oid)) && log == earlier + taken
    case Local =>
      && (ok ==> Tip(left.refs, c.ref) == Some(c.oid) && LocalRef(c.branch) in met.refs)
      && log == earlier + [Saw(c.ref, Tip(left.refs, c.ref))] + taken
  }

  lemma OneTaken(earlier: seq<Event>, log: seq<Event>, c: Candidate, left: World, met: World, ok: bool)
    requires AfterOne(earlier, log, c, left, met, ok)
    ensures earlier <= log
    ensures DeletedAsAudited(log, |earlier|, [c])
    ensures DeletedOf(log) == if ok then DeletedOf(earlier) + [c] else DeletedOf(earlier)
  {
    hide DeletedOf;
    var n := |earlier|;
    if c.scope.Local? {
      assert log[..n + 1] == earlier + [log[n]];
      OneMore(earlier, log[n]);
      assert !ok ==> log == log[..n + 1];
      if ok {
        assert log == log[..n + 1] + [log[n + 1]];
        OneMore(log[..n + 1], log[n + 1]);
      }
    } else {
      assert !ok ==> log == earlier;
      if ok {
        assert log == earlier + [log[n]];
        OneMore(earlier, log[n]);
      }
    }
  }

  lemma StillAsAudited(earlier: seq<Event>, log: seq<Event>, start: nat, c: Candidate, candidates: seq<Candidate>)
    requires start <= |earlier| && earlier <= log && c in candidates
    requires DeletedAsAudited(earlier, start, candidates) && DeletedAsAudited(log, |earlier|, [c])
    ensures DeletedAsAudited(log, start, candidates)
  {
    forall i | start <= i < |log| && log[i].Deleted?
      ensures log[i].candidate in candidates && HeldAtLastCheck(log, i)
    {
      if i < |earlier| {
        assert log[i] == earlier[i] && HeldAtLastCheck(earlier, i);
        assert i > 0 ==> log[i - 1] == earlier[i - 1];
      }
    }
  }

  ghost predicate RecheckedSince(log: seq<Event>, start: int, c: Candidate) {
    exists k :: 0 <= start <= k && SeenThenChecked(log, k, c)
  }

  lemma JustRechecked(earlier: seq<Event>, log: seq<Event>, start: nat, c: Candidate)
    requires start <= |earlier| && SeenThenChecked(log, |earlier|, c)
    ensures RecheckedSince(log, start, c)
  {
  }

  /** At some point from `start` on the checked-out branches were looked up, and this one was not among them. */
  ghost predicate NotCheckedOutSince(log: seq<Event>, start: int, c: Candidate) {
    exists k :: 0 <= start <= k < |log| && log[k].SawCheckedOut?
      && c.branch != log[k].current && c.branch !in log[k].worktrees
  }

  lemma StillNotCheckedOut(earlier: seq<Event>, log: seq<Event>, start: int, c: Candidate)
    requires NotCheckedOutSince(earlier, start, c) && earlier <= log
    ensures NotCheckedOutSince(log, start, c)
  {
    var k :| 0 <= start <= k < |earlier| && earlier[k].SawCheckedOut?
      && c.branch != earlier[k].current && c.branch !in earlier[k].worktrees;
    assert log[k] == earlier[k];
  }

  lemma StillRechecked(earlier: seq<Event>, log: seq<Event>, start: int, c: Candidate)
    requires RecheckedSince(earlier, start, c) && earlier <= log
    ensures RecheckedSince(log, start, c)
  {
    var k :| 0 <= start <= k && SeenThenChecked(earlier, k, c);
    assert log[k] == earlier[k] && log[k + 1] == earlier[k + 1];
    assert SeenThenChecked(log, k, c);
  }

  lemma StillArchived(earlier: seq<Event>, log: seq<Event>, date: string, c: Candidate)
    requires Archived(earlier, date, c) && earlier <= log
    ensures Archived(log, date, c)
  {
    var t :| 0 <= t < |earlier|
      && (earlier[t] == MadeTag(TagRef(date, c), c.oid) || earlier[t] == Saw(TagRef(date, c), Some(c.oid)));
    assert log[t] == earlier[t];
  }

  lemma StillCleared(earlier: seq<Event>, log: seq<Event>, date: string, start: int, archive: bool, c: Candidate)
    requires Cleared(earlier, date, start, archive, c) && earlier <= log
    ensures Cleared(log, date, start, archive, c)
  {
    hide TagRef, RecheckedSince, NotCheckedOutSince, Archived;
    StillRechecked(earlier, log, start, c);
    StillNotCheckedOut(earlier, log, start, c);
    if archive {
      StillArchived(earlier, log, date, c);
    }
  }

  // ----- two runs in which another process moves a branch

  /** Moves `ref` to `to` before command `n`, and nothing else ever. */
  function MovesAt(n: nat, ref: string, to: Oid): (nat, World) -> World {
    (k: nat, w: World) => if k == n then w.(refs := w.refs[ref := to]) else w
  }

  /** The branch is checked at its audited commit, another process moves it, and the deletion takes it at the other. */
  method MovedBeforeItsDeletion(branch: string, audited: Oid, other: Oid) returns (repo: Repo, c: Candidate)
    ensures c == Candidate(Local, branch, LocalRef(branch), audited)
    ensures |repo.log| == 2 && repo.log[0] == Saw(c.ref, Some(audited))
    ensures repo.log[1].Deleted? && repo.log[1].candidate == c && TakenTip(repo.log[1]) == Some(other)
    ensures other != audited ==> MovedInBetween(repo.log[1])
  {
    c := Candidate(Local, branch, LocalRef(branch), audited);
    var world := World(map[c.ref := audited], map[], "", {}, None);
    repo := new Repo(world, Others(MovesAt(1, c.ref, other), (n: nat) => Works(true)));
    var cleaner := new Cleaner(repo, "origin");
    var ok;
    ghost var left, met;
    ok, left, met := cleaner.DeleteOne(c);
  }

  /** The ref points to `other` whenever command 0 or 3 runs, and to `audited` at any other time. */
  function AwayForTheChecks(ref: string, audited: Oid, other: Oid): (nat, World) -> World {
    (n: nat, w: World) => w.(refs := w.refs[ref := if n == 0 || n == 3 then other else audited])
  }

  /** With this schedule the content check of the audit judges `other`, and what is read after it is `audited`. */
  method AuditWhileAway(branch: string, audited: Oid, other: Oid) returns (cleaner: Cleaner, c: Candidate)
    requires branch !in {"", "main", "master"}
    ensures fresh(cleaner.repo) && cleaner.repo.clock == 2
    ensures cleaner.repo.others == Others(AwayForTheChecks(LocalRef(branch), audited, other), AlwaysWorks)
    ensures c == Candidate(Local, branch, LocalRef(branch), audited)
    ensures |cleaner.repo.log| == 2 && CheckedThenSeen(cleaner.repo.log, 0, c)
    ensures JudgedTip(cleaner.repo.log[0]) == Some(other)
  {
    var ref, u := LocalRef(branch), Untouched({"main", "master"}, "", {});
    var others := Others(AwayForTheChecks(ref, audited, other), AlwaysWorks);
    var repo := new Repo(World(map[], map[], "", {}, None), others);
    cleaner := new Cleaner(repo, "origin");
    NothingSorted(repo.log, u, "origin");
    TipsWhileAway(ref, audited, other, others);
    NotUntouched(branch, u, "origin");
    hide AwayForTheChecks, DecidedIn, Placed, Sorted, Added, Skips, BranchOf;
    var audit := cleaner.Place(Local, ref, Audit([], [], []), u);
    c := audit.value.delete[0];
  }

  lemma NotUntouched(branch: string, u: Untouched, remote: string)
    requires branch !in u.protected + {u.current} + u.worktrees
    ensures BranchOf(Local, remote, LocalRef(branch)) == branch && !Skips(u, Local, branch)
  {
    assert LocalRef("") + branch == LocalRef(branch) && LocalRef(branch)[|LocalRef("")|..] == branch;
  }

  function AlwaysWorks(n: nat): Reply {
    Works(true)
  }

  /**
   * Audit, recheck and deletion of one branch. Both content checks are given the name of the ref and judge the commit
   * that another process has put there for a moment; every reading of the ref sees the audited commit. It becomes a
   * candidate, is rechecked and goes away, and nobody has judged it.
   */
  method TakenWithoutBeingJudged(branch: string, audited: Oid, other: Oid) returns (repo: Repo, c: Candidate)
    requires branch !in {"", "main", "master"} && other != audited
    ensures c == Candidate(Local, branch, LocalRef(branch), audited) && |repo.log| == 6
    ensures CheckedThenSeen(repo.log, 0, c) && SeenThenChecked(repo.log, 2, c)
    ensures repo.log[4] == Saw(c.ref, Some(audited))
    ensures repo.log[5].Deleted? && repo.log[5].candidate == c && TakenTip(repo.log[5]) == Some(audited)
    ensures forall n :: 0 <= n < |repo.log| ==> !Judged(repo.log[n], c)
  {
    var cleaner;
    cleaner, c := AuditWhileAway(branch, audited, other);
    repo := cleaner.repo;
    TipsWhileAway(c.ref, audited, other, repo.others);
    hide AwayForTheChecks, DecidedIn, LocalRef;
    var rechecked := cleaner.RecheckOne(c, "", {});
    assert rechecked.Success?;
    var ok;
    ghost var left, met;
    ok, left, met := cleaner.DeleteOne(c);
  }

  lemma TipsWhileAway(ref: string, audited: Oid, other: Oid, others: Others)
    requires others.moves == AwayForTheChecks(ref, audited, other) && forall n :: others.replies(n) == Works(true)
    ensures forall n, w :: ref in others.moves(n, w).refs
    ensures forall n, w :: Tip(others.moves(n, w).refs, ref) == Some(if n == 0 || n == 3 then other else audited)
    ensures forall n, w :: DecidedIn(others, n, w, ref) == others.moves(n, w)
  {
  }
}
