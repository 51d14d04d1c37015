/**
 * The byte cap. `Content` is the true cost of what a directory holds, over unbounded naturals;
 * everything the program computes is in saturating 64-bit arithmetic.
 */
module Quota {
  import opened Wrappers
  import opened FileTree
  import opened Kernel
  import opened DiskModel
  import opened Errors
  import opened Saturation

  const ENTRY_COST: nat := 4096

  // ----- true cost

  /** The cost of a directory whose entries hold `m`: one entry cost each, and what they hold. */
  ghost function Sum(m: map<Name, nat>): nat {
    if m == map[] then 0 else var k :| k in m; ENTRY_COST + m[k] + Sum(m - {k})
  }

  lemma {:induction false} SumAt(m: map<Name, nat>, k: Name)
    requires k in m
    ensures Sum(m) == ENTRY_COST + m[k] + Sum(m - {k})
    decreases |m|
  {
    var j :| j in m && Sum(m) == ENTRY_COST + m[j] + Sum(m - {j});
    if j != k {
      SumAt(m - {j}, k);
      SumAt(m - {k}, j);
      assert m - {j} - {k} == m - {k} - {j};
    }
  }

  /** The cost of what `n` holds: nothing for a link, the length of a file, every entry of a directory. */
  ghost function Content(n: Node): nat {
    match n
    case File(bytes) => |bytes|
    case Link(_, _) => 0
    case Dir(es) => Sum(map k | k in es :: Content(es[k]))
  }

  ghost function Contents(es: map<Name, Node>): map<Name, nat> {
    map k | k in es :: Content(es[k])
  }

  lemma EmptyContent()
    ensures Content(EmptyDir) == 0
  {
  }

  lemma ContentOfDir(es: map<Name, Node>)
    ensures Content(Dir(es)) == Sum(Contents(es))
  {
    assert (map k | k in es :: Content(es[k])) == Contents(es);
  }

  lemma ContentOfEntry(es: map<Name, Node>, k: Name)
    requires k in es
    ensures Content(Dir(es)) == Content(Dir(es - {k})) + ENTRY_COST + Content(es[k])
  {
    hide Content, Sum;
    ContentOfDir(es);
    ContentOfDir(es - {k});
    SumAt(Contents(es), k);
    assert Contents(es) - {k} == Contents(es - {k});
  }

  lemma ContentOfUpdate(es: map<Name, Node>, k: Name, c: Node)
    ensures Content(Dir(es[k := c])) == Content(Dir(es - {k})) + ENTRY_COST + Content(c)
    ensures k !in es ==> Content(Dir(es[k := c])) == Content(Dir(es)) + ENTRY_COST + Content(c)
    ensures k in es ==> Content(Dir(es[k := c])) + Content(es[k]) == Content(Dir(es)) + Content(c)
  {
    ContentOfEntry(es[k := c], k);
    assert es[k := c] - {k} == es - {k};
    if k in es {
      ContentOfEntry(es, k);
    } else {
      assert es - {k} == es;
    }
  }

  /** What `files` costs as part of a whole disk; a state without it costs nothing. */
  ghost function UsageAt(root: Node, files: Path): nat {
    if Look(root, files).Found? then Content(Look(root, files).node) else 0
  }

  lemma UsageOfDeposit(root: Node, files: Path, n: Node)
    requires Look(root, files).Found?
    ensures UsageAt(Deposit(root, files, n), files) == Content(n)
  {
    LookDeposit(root, files, n);
  }

  // ----- how many names a path is missing

  function MissingCount(n: Node, p: Path): nat
    decreases |p|
  {
    if p == [] then 0
    else match n
      case Dir(es) => if p[0] in es then MissingCount(es[p[0]], p[1..]) else |p|
      case _ => 0
  }

  /** The missing names are exactly the last ones: none is missing above one that is there. */
  lemma {:induction false} MissingIsSuffix(n: Node, p: Path, k: nat)
    requires k <= |p| && Open(n, p)
    ensures MissingCount(n, p) <= |p|
    ensures Look(n, p[..k]).Absent? <==> k > |p| - MissingCount(n, p)
    ensures Look(n, p[..k]).Found? || Look(n, p[..k]).Absent?
    decreases |p|
  {
    if p != [] && p[0] in n.entries {
      if k > 0 {
        assert p[..k][1..] == p[1..][..k - 1];
        MissingIsSuffix(n.entries[p[0]], p[1..], k - 1);
      } else {
        MissingIsSuffix(n.entries[p[0]], p[1..], 0);
      }
    }
  }

  lemma {:induction false} MissingOfSplit(n: Node, p: Path, q: Path)
    requires Look(n, p).Found?
    ensures MissingCount(n, p + q) == MissingCount(Look(n, p).node, q)
  {
    if p == [] {
      assert p + q == q;
    } else {
      assert (p + q)[0] == p[0] && (p + q)[1..] == p[1..] + q;
      MissingOfSplit(n.entries[p[0]], p[1..], q);
    }
  }

  lemma {:induction false} MissingZeroIffFound(n: Node, p: Path)
    requires Open(n, p)
    ensures MissingCount(n, p) == 0 <==> Look(n, p).Found?
    decreases |p|
  {
    if p != [] && p[0] in n.entries {
      MissingZeroIffFound(n.entries[p[0]], p[1..]);
    }
  }

  lemma {:induction false} MissingGrows(n: Node, p: Path, k: nat)
    requires k <= |p| && Open(n, p)
    ensures Open(n, p[..k]) && MissingCount(n, p[..k]) <= MissingCount(n, p)
    decreases |p|
  {
    if k > 0 {
      assert p[..k][1..] == p[1..][..k - 1];
      if p[0] in n.entries {
        MissingGrows(n.entries[p[0]], p[1..], k - 1);
      }
    }
  }

  // ----- exact accounting

  /** A deposit costs the new content and one entry per missing name, and gives back the old content. */
  lemma {:induction false} DepositCost(n: Node, p: Path, x: Node)
    requires p != [] && Open(n, p)
    ensures Content(Deposit(n, p, x)) + (if Look(n, p).Found? then Content(Look(n, p).node) else 0)
         == Content(n) + Content(x) + ENTRY_COST * MissingCount(n, p)
    decreases |p|
  {
    var es := n.entries;
    var child := Child(es, p[0]);
    ContentOfUpdate(es, p[0], Deposit(child, p[1..], x));
    if |p| > 1 {
      DepositCost(child, p[1..], x);
    }
  }

  lemma {:induction false} MakeDirsCost(n: Node, p: Path)
    requires Open(n, p)
    ensures Content(MakeDirs(n, p)) == Content(n) + ENTRY_COST * MissingCount(n, p)
    decreases |p|
  {
    if p != [] {
      var es := n.entries;
      ContentOfUpdate(es, p[0], MakeDirs(Child(es, p[0]), p[1..]));
      MakeDirsCost(Child(es, p[0]), p[1..]);
    }
  }

  /** Removing an entry gives back its entry cost and everything below it. */
  lemma {:induction false} DropCost(n: Node, p: Path)
    requires p != [] && Look(n, p).Found?
    ensures Content(Drop(n, p)) + ENTRY_COST + Content(Look(n, p).node) == Content(n)
    decreases |p|
  {
    var es := n.entries;
    if |p| == 1 {
      ContentOfEntry(es, p[0]);
    } else {
      DropCost(es[p[0]], p[1..]);
      ContentOfUpdate(es, p[0], Drop(es[p[0]], p[1..]));
    }
  }

  // ----- the program: usage

  method Usage(disk: Disk, files: Path) returns (r: Result<nat, WorkspaceError>)
    requires Look(disk.root, files).Found? && !Look(disk.root, files).FoundLink()
    ensures r == if Look(disk.root, files).FoundDir() then Success(Sat(UsageAt(disk.root, files))) else Failure(Io)
  {
    r := WalkEntries(disk, files, 0, Look(disk.root, files).node);
  }

  /** The entries a listing has reached. */
  ghost function Part(es: map<Name, Node>, names: seq<Name>): map<Name, Node> {
    map k | k in es && k in names :: es[k]
  }

  lemma PartGrows(es: map<Name, Node>, names: seq<Name>, i: nat)
    requires Lists(names, es) && i < |names|
    ensures Content(Dir(Part(es, names[..i + 1])))
         == Content(Dir(Part(es, names[..i]))) + ENTRY_COST + Content(es[names[i]])
  {
    assert names[..i + 1] == names[..i] + [names[i]];
    assert Part(es, names[..i + 1]) == Part(es, names[..i])[names[i] := es[names[i]]];
    ContentOfUpdate(Part(es, names[..i]), names[i], es[names[i]]);
  }

  /** Add the cost of everything in the directory at `path` to `total`, entry by entry. */
  method WalkEntries(disk: Disk, path: Path, total: nat, ghost node: Node) returns (r: Result<nat, WorkspaceError>)
    requires total <= U64_MAX
    requires Look(disk.root, path) == Found(node) && !node.Link?
    ensures r == if node.Dir? then Success(SatAdd(total, Content(node))) else Failure(Io)
    decreases node, 0
  {
    hide Content, SatAdd;
    var listing := ListPlain(disk, path);
    if listing.Failure? {
      return Failure(Io);
    }
    var names := listing.value;
    var sum, i := total, 0;
    SatNone(total);
    EmptyContent();
    ghost var done := 0;
    assert Part(node.entries, names[..0]) == map[];
    while i < |names|
      invariant 0 <= i <= |names|
      invariant done == Content(Dir(Part(node.entries, names[..i])))
      invariant sum == SatAdd(total, done)
    {
      ghost var next := node.entries[names[i]];
      PartGrows(node.entries, names, i);
      SatChain(total, done, ENTRY_COST, Content(next));
      LookSplit(disk.root, path, [names[i]]);
      var step := EntryCost(disk, path + [names[i]], sum, next);
      if step.Failure? {
        return Failure(Io);
      }
      sum, done, i := step.value, done + ENTRY_COST + Content(next), i + 1;
    }
    assert Part(node.entries, names[..i]) == node.entries;
    r := Success(sum);
  }

  method EntryCost(disk: Disk, entry: Path, total: nat, ghost node: Node) returns (r: Result<nat, WorkspaceError>)
    requires total <= U64_MAX && Look(disk.root, entry) == Found(node)
    ensures r == Success(SatAdd(total + ENTRY_COST, Content(node)))
    decreases node, 1
  {
    var meta := SymlinkMetadata(disk, entry);
    if meta.Failure? {
      return Failure(Io);
    }
    hide SatAdd, Sat;
    SatChain(total, 0, ENTRY_COST, Content(node));
    SatNone(total);
    SatNone(SatAdd(total, ENTRY_COST));
    SatStep(total + ENTRY_COST, Content(node));
    var sum := SatAdd(total, ENTRY_COST);
    match meta.value {
      case Link(_, _) => r := Success(sum);
      case Dir(_) => r := WalkEntries(disk, entry, sum, node);
      case File(bytes) => r := Success(SatAdd(sum, Sat(|bytes|)));
    }
  }

  // ----- the program: admission

  function Admit(used: nat, oldLen: nat, newLen: nat, cap: nat): Result<(), WorkspaceError> {
    var would := SatAdd(SatSub(used, oldLen), newLen);
    if would > cap then Failure(OverCap(newLen, would, cap)) else Success(())
  }

  function ReplacedBytes(meta: Result<Node, Errno>): Result<nat, WorkspaceError> {
    match meta
    case Success(Link(_, _)) => Success(0)
    case Success(File(bytes)) => Success(Sat(|bytes|))
    case Success(Dir(_)) => Failure(NotAFile)
    case Failure(ENOENT) => Success(0)
    case Failure(_) => Failure(Io)
  }

  method MissingComponents(disk: Disk, files: Path, dest: Path) returns (r: Result<nat, WorkspaceError>)
    requires Look(disk.root, files).FoundDir() && Plain(disk.root, dest)
    ensures r == if !(files <= dest) then Failure(PathEscape)
                 else if Look(disk.root, dest).BelowFile? then Failure(Io)
                 else Success(Sat(MissingCount(disk.root, dest)))
  {
    if !(files <= dest) {
      return Failure(PathEscape);
    }
    var cursor, missing, i := files, 0, |files|;
    MissingZeroIffFound(disk.root, files);
    while i < |dest|
      invariant |files| <= i <= |dest| && cursor == dest[..i]
      invariant Plain(disk.root, cursor) && !Look(disk.root, cursor).BelowFile?
      invariant missing == Sat(MissingCount(disk.root, cursor))
    {
      var before := cursor;
      cursor := cursor + [dest[i]];
      assert cursor == dest[..i + 1] && Parent(cursor) == before;
      assert cursor + dest[i + 1..] == dest;
      LookSplit(disk.root, cursor, dest[i + 1..]);
      LookParent(disk.root, cursor);
      var meta := SymlinkMetadata(disk, cursor);
      match meta {
        case Success(_) => MissingZeroIffFound(disk.root, cursor); MissingZeroIffFound(disk.root, before);
        case Failure(ENOENT) => MissingSnoc(disk.root, before, dest[i]); missing := SatAdd(missing, 1);
        case Failure(_) =>
          return Failure(Io);
      }
      i := i + 1;
    }
    assert cursor == dest;
    r := Success(missing);
  }

  lemma {:induction false} MissingSnoc(n: Node, p: Path, name: Name)
    requires Look(n, p + [name]).Absent?
    ensures MissingCount(n, p + [name]) == MissingCount(n, p) + 1
    decreases |p|
  {
    if p == [] {
      assert p + [name] == [name];
    } else {
      assert (p + [name])[0] == p[0] && (p + [name])[1..] == p[1..] + [name];
      if p[0] in n.entries {
        MissingSnoc(n.entries[p[0]], p[1..], name);
      }
    }
  }

  /** Usage, replaced bytes and entry cost of a destination below the directory `files`. */
  ghost function ChargeOf(files: Node, rel: Path): Result<(nat, nat, nat), WorkspaceError> {
    if !files.Dir? then Failure(Io) else
    var used := Sat(Content(files));
    match Look(files, rel)
    case Found(File(bytes)) => Success((used, Sat(|bytes|), 0))
    case Found(Link(_, _)) => Success((used, 0, 0))
    case Found(Dir(_)) => Failure(NotAFile)
    case Absent => Success((used, 0, Sat(ENTRY_COST * MissingCount(files, rel))))
    case _ => Failure(Io)
  }

  ghost function AdmissionOf(files: Node, rel: Path, newBytes: nat, cap: nat): Result<(), WorkspaceError> {
    var (used, freed, overhead) :- ChargeOf(files, rel);
    Admit(used, freed, SatAdd(newBytes, overhead), cap)
  }

  method Charge(disk: Disk, files: Path, dest: Path) returns (r: Result<(nat, nat, nat), WorkspaceError>)
    requires Look(disk.root, files).Found? && !Look(disk.root, files).FoundLink()
    requires Plain(disk.root, dest) && files <= dest
    ensures r == ChargeOf(Look(disk.root, files).node, dest[|files|..])
  {
    ghost var rel := dest[|files|..];
    assert dest == files + rel;
    LookSplit(disk.root, files, rel);
    MissingOfSplit(disk.root, files, rel);
    var used := Usage(disk, files);
    if used.Failure? {
      return Failure(used.error);
    }
    var meta := SymlinkMetadata(disk, dest);
    var freed := ReplacedBytes(meta);
    if freed.Failure? {
      return Failure(freed.error);
    }
    var missing := MissingComponents(disk, files, dest);
    if missing.Failure? {
      return Failure(missing.error);
    }
    if Look(disk.root, dest).Found? {
      MissingZeroIffFound(disk.root, dest);
    }
    r := Success((used.value, freed.value, Sat(ENTRY_COST * missing.value)));
  }

  method AdmitWrite(disk: Disk, files: Path, dest: Path, newBytes: nat, cap: nat)
      returns (r: Result<(), WorkspaceError>)
    requires Look(disk.root, files).FoundDir() && Plain(disk.root, dest) && files <= dest
    ensures r == AdmissionOf(Look(disk.root, files).node, dest[|files|..], newBytes, cap)
  {
    var charge := Charge(disk, files, dest);
    if charge.Failure? {
      return Failure(charge.error);
    }
    var (used, freed, overhead) := charge.value;
    r := Admit(used, freed, SatAdd(newBytes, overhead), cap);
  }

  method GateDownload(disk: Disk, files: Path, dest: Path, announced: Option<nat>, cap: nat)
      returns (r: Result<(nat, nat), WorkspaceError>)
    requires Look(disk.root, files).FoundDir() && Plain(disk.root, dest) && files <= dest
    ensures var charge := ChargeOf(Look(disk.root, files).node, dest[|files|..]);
            var admission := AdmissionOf(Look(disk.root, files).node, dest[|files|..], Announced(announced), cap);
            r == if admission.Failure? then Failure(admission.error)
                 else Success((SatAdd(charge.value.0, charge.value.2), charge.value.1))
  {
    var charge := Charge(disk, files, dest);
    if charge.Failure? {
      return Failure(charge.error);
    }
    var (used, freed, overhead) := charge.value;
    var gate := Admit(used, freed, SatAdd(Announced(announced), overhead), cap);
    r := if gate.Failure? then Failure(gate.error) else Success((SatAdd(used, overhead), freed));
  }

  function Announced(length: Option<nat>): nat {
    if length.Some? then length.value else 0
  }

  // ----- what admission means

  /** The saturated check is the true one while the usage fits in 64 bits and the cap is not the largest. */
  lemma AdmitIsExact(used: nat, held: nat, n: nat, overhead: nat, cap: nat)
    requires held <= used <= U64_MAX && cap < U64_MAX
    ensures Admit(Sat(used), Sat(held), SatAdd(n, Sat(overhead)), cap).Success? <==> used - held + n + overhead <= cap
  {
    hide Sat, SatAdd;
    SatNone(used);
    SatNone(held);
    SatStep(n, overhead);
    SatStep(used - held, n + overhead);
    SatWithin(used - held + n + overhead, cap);
  }

  /**
   * While the true usage fits in 64 bits, saturation never hides an overrun below the largest cap:
   * a write is admitted exactly when the usage it would lead to is within the cap.
   */
  lemma AdmissionIsExact(files: Node, rel: Path, bytes: seq<byte>, cap: nat)
    requires files.Dir? && rel != [] && Open(files, rel) && !Look(files, rel).FoundDir()
    requires Content(files) <= U64_MAX && cap < U64_MAX
    ensures AdmissionOf(files, rel, |bytes|, cap).Success? <==> Content(Deposit(files, rel, File(bytes))) <= cap
  {
    hide Sat, SatAdd, SatSub, Admit, Deposit;
    var held := if Look(files, rel).Found? then Content(Look(files, rel).node) else 0;
    MissingZeroIffFound(files, rel);
    DepositCost(files, rel, File(bytes));
    if Look(files, rel).Found? {
      DropCost(files, rel);
    }
    SatNone(0);
    AdmitIsExact(Content(files), held, |bytes|, ENTRY_COST * MissingCount(files, rel), cap);
  }

  /** A refused write is told what it would add, entries included, and what the usage would come to. */
  lemma RefusalNamesTheSums(files: Node, rel: Path, bytes: seq<byte>, cap: nat)
    requires files.Dir? && rel != [] && Open(files, rel) && !Look(files, rel).FoundDir()
    requires Content(files) <= U64_MAX && cap < U64_MAX
    ensures AdmissionOf(files, rel, |bytes|, cap)
         == if Content(Deposit(files, rel, File(bytes))) <= cap then Success(())
            else Failure(OverCap(Sat(|bytes| + 4096 * MissingCount(files, rel)),
                                 Sat(Content(Deposit(files, rel, File(bytes)))), cap))
  {
    hide Sat, SatAdd, Deposit;
    var held := if Look(files, rel).Found? then Content(Look(files, rel).node) else 0;
    MissingZeroIffFound(files, rel);
    DepositCost(files, rel, File(bytes));
    if Look(files, rel).Found? {
      DropCost(files, rel);
    }
    AdmissionIsExact(files, rel, bytes, cap);
    SumsOfCharge(Content(files), held, |bytes|, 4096 * MissingCount(files, rel), cap);
    SatNone(0);
  }

  lemma SumsOfCharge(used: nat, held: nat, n: nat, overhead: nat, cap: nat)
    requires held <= used <= U64_MAX
    ensures SatAdd(SatSub(Sat(used), Sat(held)), SatAdd(n, Sat(overhead))) == Sat(used - held + n + overhead)
    ensures SatAdd(n, Sat(overhead)) == Sat(n + overhead)
  {
    hide Sat, SatAdd;
    SatNone(used);
    SatNone(held);
    SatStep(n, overhead);
    SatStep(used - held, n + overhead);
  }

  /** A cap of zero refuses every write, even of nothing, and even in place of what is there. */
  lemma CapZeroRefusesEverything(files: Node, rel: Path, newBytes: nat)
    requires files.Dir? && rel != [] && Content(files) <= U64_MAX
    ensures AdmissionOf(files, rel, newBytes, 0).Failure?
  {
    hide Sat, SatAdd, SatSub, Admit;
    if ChargeOf(files, rel).Success? {
      var held := if Look(files, rel).Found? then Content(Look(files, rel).node) else 0;
      MissingZeroIffFound(files, rel);
      if Look(files, rel).Found? {
        DropCost(files, rel);
      }
      SatNone(0);
      AdmitIsExact(Content(files), held, newBytes, ENTRY_COST * MissingCount(files, rel), 0);
    }
  }

  /** At the largest cap of all nothing is ever refused, however far the sum runs past 64 bits. */
  lemma NothingRefusedAtLargestCap(files: Node, rel: Path, newBytes: nat)
    requires files.Dir? && Open(files, rel) && !Look(files, rel).FoundDir()
    ensures AdmissionOf(files, rel, newBytes, U64_MAX).Success?
  {
  }

  /**
   * The running check of a download, against usage with the entry cost added in, is the check of a
   * whole write, because a destination never has both old bytes and missing names.
   */
  lemma StreamingCheckAgrees(files: Node, rel: Path, newBytes: nat, cap: nat)
    requires ChargeOf(files, rel).Success? && Open(files, rel)
    ensures var charge := ChargeOf(files, rel).value;
            Admit(SatAdd(charge.0, charge.2), charge.1, Sat(newBytes), cap).Success?
            <==> AdmissionOf(files, rel, newBytes, cap).Success?
  {
    hide Sat, SatAdd, SatSub;
    var (used, freed, overhead) := ChargeOf(files, rel).value;
    SatReorder(used, freed, overhead, newBytes);
  }
}
