/**
 * Path walking and file system calls as a Unix kernel does them: every link met on the way is
 * followed, a link in last position is followed by some calls and not by others, and at most
 * `limit` links are followed in one walk. A call that goes through a link therefore does reach the
 * link's target, wherever it is. Nothing here knows about a workspace.
 */
module Kernel {
  import opened Wrappers
  import opened FileTree

  datatype Errno = ENOENT | ENOTDIR | ELOOP | EISDIR | EEXIST | ENOTEMPTY | EINVAL

  function Steps(p: Path): (s: seq<Step>)
    ensures |s| == |p|
  {
    if p == [] then [] else [Into(p[0])] + Steps(p[1..])
  }

  function Up1(p: Path): Path {
    if p == [] then [] else Parent(p)
  }

  /**
   * Walk `todo` from the physical directory `at`. The result is a physical path whose last name may
   * be missing; every name before it is a directory.
   */
  function Walk(root: Node, at: Path, todo: seq<Step>, follow: bool, fuel: nat): Result<Path, Errno>
    decreases fuel, |todo|
  {
    if todo == [] then Success(at)
    else match Look(root, at)
      case Found(Dir(_)) => (
        match todo[0]
        case Up => Walk(root, Up1(at), todo[1..], follow, fuel)
        case Into(name) => (
          match Look(root, at + [name])
          case Found(Link(absolute, target)) =>
            if |todo| == 1 && !follow then Success(at + [name])
            else if fuel == 0 then Failure(ELOOP)
            else Walk(root, if absolute then [] else at, target + todo[1..], follow, fuel - 1)
          case Found(_) => Walk(root, at + [name], todo[1..], follow, fuel)
          case _ => if |todo| == 1 then Success(at + [name]) else Failure(ENOENT)))
      case Absent => Failure(ENOENT)
      case _ => Failure(ENOTDIR)
  }

  // ----- the calls

  /** `lstat`: the node named by `p`, without following a link in last position. */
  function Lstat(root: Node, p: Path, limit: nat): Result<Node, Errno> {
    var q :- Walk(root, [], Steps(p), false, limit);
    SeenNode(Look(root, q))
  }

  function SeenNode(s: Sight): Result<Node, Errno> {
    match s
    case Found(n) => Success(n)
    case Absent => Failure(ENOENT)
    case _ => Failure(ENOTDIR)
  }

  /** `realpath`: the physical path of an existing node, every link followed. */
  function RealPath(root: Node, p: Path, limit: nat): Result<Path, Errno> {
    RealPathFrom(root, [], Steps(p), limit)
  }

  function RealPathFrom(root: Node, at: Path, todo: seq<Step>, limit: nat): Result<Path, Errno> {
    var q :- Walk(root, at, todo, true, limit);
    if Look(root, q).Found? then Success(q) else Failure(ENOENT)
  }

  /** `open` for reading: the node at the end of every link. */
  function Stat(root: Node, p: Path, limit: nat): Result<Node, Errno> {
    var q :- Walk(root, [], Steps(p), true, limit);
    SeenNode(Look(root, q))
  }

  function MkdirCall(root: Node, p: Path, limit: nat): Result<Node, Errno> {
    var q :- Walk(root, [], Steps(p), false, limit);
    if Look(root, q).Found? then Failure(EEXIST) else Success(Deposit(root, q, EmptyDir))
  }

  function UnlinkCall(root: Node, p: Path, limit: nat): Result<Node, Errno> {
    var q :- Walk(root, [], Steps(p), false, limit);
    match Look(root, q)
    case Found(Dir(_)) => Failure(EISDIR)
    case Found(_) => Success(Drop(root, q))
    case _ => Failure(ENOENT)
  }

  function RmdirCall(root: Node, p: Path, limit: nat): Result<Node, Errno> {
    var q :- Walk(root, [], Steps(p), false, limit);
    match Look(root, q)
    case Found(Dir(es)) => if q == [] || es != map[] then Failure(ENOTEMPTY) else Success(Drop(root, q))
    case Found(_) => Failure(ENOTDIR)
    case _ => Failure(ENOENT)
  }

  /** `open` with create and truncate: the new root and the physical path of the open file. */
  function CreateCall(root: Node, p: Path, limit: nat): Result<(Node, Path), Errno> {
    var q :- Walk(root, [], Steps(p), true, limit);
    match Look(root, q)
    case Found(Dir(_)) => Failure(EISDIR)
    case _ => Success((Deposit(root, q, File([])), q))
  }

  /** `rename` of a file or a link. Renaming a directory is not needed here and is refused. */
  function RenameCall(root: Node, from: Path, to: Path, limit: nat): Result<Node, Errno> {
    var q :- Walk(root, [], Steps(from), false, limit);
    var r :- Walk(root, [], Steps(to), false, limit);
    match Look(root, q)
    case Found(Dir(_)) => Failure(EINVAL)
    case Found(n) => if Look(root, r).FoundDir() then Failure(EISDIR) else Success(Deposit(Drop(root, q), r, n))
    case _ => Failure(ENOENT)
  }

  // ----- walking a path that has no link among its parents

  /** No proper ancestor of `p` is a link. */
  predicate Plain(root: Node, p: Path) {
    !Look(root, p).BelowLink?
  }

  /** One step of a walk that does not follow a link. */
  lemma StepAlong(root: Node, at: Path, p: Path, follow: bool, fuel: nat)
    requires p != [] && (Look(root, at + [p[0]]).FoundLink() ==> |p| == 1 && !follow)
    ensures Walk(root, at, Steps(p), follow, fuel)
         == match Look(root, at)
            case Found(Dir(_)) => (
              match Look(root, at + [p[0]])
              case Found(_) =>
                if |p| == 1 then Success(at + p) else Walk(root, at + [p[0]], Steps(p[1..]), follow, fuel)
              case _ => if |p| == 1 then Success(at + p) else Failure(ENOENT))
            case Absent => Failure(ENOENT)
            case _ => Failure(ENOTDIR)
  {
    assert Steps(p) == [Into(p[0])] + Steps(p[1..]) && Steps(p)[1..] == Steps(p[1..]);
    assert |p| == 1 ==> p == [p[0]];
  }

  lemma {:induction false} WalkPlain(root: Node, at: Path, p: Path, follow: bool, fuel: nat)
    requires p != []
    requires Look(root, at).Found? && Plain(root, at + p)
    requires follow ==> !Look(root, at + p).FoundLink()
    ensures var w := Walk(root, at, Steps(p), follow, fuel);
            match Look(root, at + p)
            case Found(_) => w == Success(at + p)
            case Absent => if Look(root, Parent(at + p)).Found? then w == Success(at + p) else w == Failure(ENOENT)
            case _ => w == Failure(ENOTDIR)
    decreases |p|
  {
    hide Walk;
    var next := at + [p[0]];
    assert at + p == next + p[1..];
    LookSplit(root, next, p[1..]);
    StepAlong(root, at, p, follow, fuel);
    LookSplit(root, at, p);
    LookSplit(root, at, [p[0]]);
    if |p| == 1 {
      assert next == at + p && Parent(at + p) == at;
    } else if Look(root, at).FoundDir() {
      if Look(root, next).Found? {
        WalkPlain(root, next, p[1..], follow, fuel);
      } else {
        assert Parent(at + p) == next + Parent(p[1..]);
        LookSplit(root, next, Parent(p[1..]));
      }
    }
  }

  /** On a path with no link among its parents `lstat` sees exactly what is there. */
  lemma LstatPlain(root: Node, p: Path, limit: nat)
    requires Plain(root, p)
    ensures Lstat(root, p, limit) == SeenNode(Look(root, p))
  {
    if p != [] {
      assert [] + p == p;
      WalkPlain(root, [], p, false, limit);
    }
  }

  lemma StatPlain(root: Node, p: Path, limit: nat)
    requires Plain(root, p) && !Look(root, p).FoundLink()
    ensures Stat(root, p, limit) == SeenNode(Look(root, p))
  {
    if p != [] {
      assert [] + p == p;
      WalkPlain(root, [], p, true, limit);
    }
  }

  /** Where the parent directory exists and no link is on the way, the calls act at `p` itself. */
  lemma CallsPlain(root: Node, p: Path, limit: nat)
    requires p != [] && Look(root, Parent(p)).FoundDir()
    ensures Walk(root, [], Steps(p), false, limit) == Success(p)
    ensures !Look(root, p).FoundLink() ==> Walk(root, [], Steps(p), true, limit) == Success(p)
    ensures Open(root, p)
  {
    assert [] + p == p;
    LookParent(root, p);
    WalkPlain(root, [], p, false, limit);
    if !Look(root, p).FoundLink() {
      WalkPlain(root, [], p, true, limit);
    }
  }

  lemma {:induction false} StepsSplit(p: Path, q: Path)
    ensures Steps(p + q) == Steps(p) + Steps(q)
  {
    if p == [] {
      assert p + q == q;
    } else {
      assert (p + q)[0] == p[0] && (p + q)[1..] == p[1..] + q;
      StepsSplit(p[1..], q);
    }
  }

  /** Walking down existing directories is just moving the starting point. */
  lemma {:induction false} WalkDown(root: Node, at: Path, p: Path, b: seq<Step>, follow: bool, fuel: nat)
    requires Look(root, at + p).FoundDir()
    ensures Walk(root, at, Steps(p) + b, follow, fuel) == Walk(root, at + p, b, follow, fuel)
    decreases |p|
  {
    if p == [] {
      assert at + p == at && Steps(p) + b == b;
    } else {
      var next := at + [p[0]];
      assert at + p == next + p[1..];
      assert Steps(p) == [Into(p[0])] + Steps(p[1..]);
      assert (Steps(p) + b)[0] == Into(p[0]) && (Steps(p) + b)[1..] == Steps(p[1..]) + b;
      LookSplit(root, next, p[1..]);
      LookParent(root, next);
      assert Parent(next) == at;
      WalkDown(root, next, p[1..], b, follow, fuel);
    }
  }

  /** Where every link is followed the walk does not end on a link. */
  lemma {:induction false} WalkEndsOffLinks(root: Node, at: Path, todo: seq<Step>, fuel: nat)
    requires !Look(root, at).FoundLink() && Walk(root, at, todo, true, fuel).Success?
    ensures !Look(root, Walk(root, at, todo, true, fuel).value).FoundLink()
    decreases fuel, |todo|
  {
    if todo != [] {
      match todo[0]
      case Up =>
        if at != [] {
          LookParent(root, at);
        }
        WalkEndsOffLinks(root, Up1(at), todo[1..], fuel);
      case Into(name) =>
        match Look(root, at + [name])
        case Found(Link(absolute, target)) =>
          assert Look(root, at).FoundDir();
          LookFromTop(root, at);
          WalkEndsOffLinks(root, if absolute then [] else at, target + todo[1..], fuel - 1);
        case Found(_) => WalkEndsOffLinks(root, at + [name], todo[1..], fuel);
        case _ =>
    }
  }

  lemma LookFromTop(root: Node, at: Path)
    requires Look(root, at).FoundDir()
    ensures root.Dir?
  {
  }

  // ----- walks compose

  /** More fuel never hurts a walk that succeeds. */
  lemma {:induction false} WalkMoreFuel(root: Node, at: Path, todo: seq<Step>, follow: bool, f: nat, g: nat)
    requires f <= g && Walk(root, at, todo, follow, f).Success?
    ensures Walk(root, at, todo, follow, g) == Walk(root, at, todo, follow, f)
    decreases f, |todo|
  {
    if todo != [] {
      match todo[0]
      case Up => WalkMoreFuel(root, Up1(at), todo[1..], follow, f, g);
      case Into(name) =>
        match Look(root, at + [name])
        case Found(Link(absolute, target)) =>
          if !(|todo| == 1 && !follow) {
            WalkMoreFuel(root, if absolute then [] else at, target + todo[1..], follow, f - 1, g - 1);
          }
        case Found(_) => WalkMoreFuel(root, at + [name], todo[1..], follow, f, g);
        case _ =>
    }
  }

  /** How many links a walk with this much fuel follows. */
  function Links(root: Node, at: Path, todo: seq<Step>, fuel: nat): nat
    decreases fuel, |todo|
  {
    if todo == [] || !Look(root, at).FoundDir() then 0
    else match todo[0]
      case Up => Links(root, Up1(at), todo[1..], fuel)
      case Into(name) => (
        match Look(root, at + [name])
        case Found(Link(absolute, target)) =>
          if fuel == 0 then 0 else 1 + Links(root, if absolute then [] else at, target + todo[1..], fuel - 1)
        case Found(_) => Links(root, at + [name], todo[1..], fuel)
        case _ => 0)
  }

  /** A walk that succeeds with some limit succeeds with another exactly when that covers its links. */
  lemma {:induction false} WalkNeedsItsLinks(root: Node, at: Path, todo: seq<Step>, big: nat, limit: nat)
    requires Walk(root, at, todo, true, big).Success?
    ensures Walk(root, at, todo, true, limit)
         == if Links(root, at, todo, big) <= limit then Walk(root, at, todo, true, big) else Failure(ELOOP)
    decreases big, |todo|
  {
    if todo != [] {
      match todo[0]
      case Up => WalkNeedsItsLinks(root, Up1(at), todo[1..], big, limit);
      case Into(name) =>
        match Look(root, at + [name])
        case Found(Link(absolute, target)) =>
          if limit > 0 {
            WalkNeedsItsLinks(root, if absolute then [] else at, target + todo[1..], big - 1, limit - 1);
          }
        case Found(_) => WalkNeedsItsLinks(root, at + [name], todo[1..], big, limit);
        case _ =>
    }
  }

  /** A walk of `a` to an existing node, then a walk of `b` from there, is one walk of `a + b`. */
  lemma {:induction false} WalkJoin(root: Node, at: Path, a: seq<Step>, b: seq<Step>, follow: bool, f: nat, g: nat)
    requires Walk(root, at, a, true, f).Success?
    requires b != [] && Walk(root, Walk(root, at, a, true, f).value, b, follow, g).Success?
    ensures Walk(root, at, a + b, follow, f + g) == Walk(root, Walk(root, at, a, true, f).value, b, follow, g)
    decreases f, |a|
  {
    if a == [] {
      assert a + b == b;
      WalkMoreFuel(root, at, b, follow, g, f + g);
    } else {
      assert (a + b)[0] == a[0] && (a + b)[1..] == a[1..] + b;
      match a[0]
      case Up => WalkJoin(root, Up1(at), a[1..], b, follow, f, g);
      case Into(name) =>
        match Look(root, at + [name])
        case Found(Link(absolute, target)) =>
          assert target + (a[1..] + b) == (target + a[1..]) + b;
          WalkJoin(root, if absolute then [] else at, target + a[1..], b, follow, f - 1, g);
        case Found(Dir(_)) => WalkJoin(root, at + [name], a[1..], b, follow, f, g);
        case _ =>
    }
  }

  /** Conversely, a walk of `a + b` that succeeds passes through the end of a walk of `a`. */
  lemma {:induction false} WalkCut(root: Node, at: Path, a: seq<Step>, b: seq<Step>, f: nat)
    requires b != [] && Walk(root, at, a + b, true, f).Success?
    ensures Walk(root, at, a, true, f).Success?
    ensures var mid := Walk(root, at, a, true, f).value;
            && Look(root, mid).FoundDir()
            && Walk(root, mid, b, true, f) == Walk(root, at, a + b, true, f)
    decreases f, |a|
  {
    if a == [] {
      assert a + b == b;
    } else {
      assert (a + b)[0] == a[0] && (a + b)[1..] == a[1..] + b;
      match a[0]
      case Up => WalkCut(root, Up1(at), a[1..], b, f);
      case Into(name) =>
        match Look(root, at + [name])
        case Found(Link(absolute, target)) =>
          var base := if absolute then [] else at;
          assert target + (a[1..] + b) == (target + a[1..]) + b;
          WalkCut(root, base, target + a[1..], b, f - 1);
          var mid := Walk(root, base, target + a[1..], true, f - 1).value;
          WalkMoreFuel(root, mid, b, true, f - 1, f);
        case Found(Dir(_)) => WalkCut(root, at + [name], a[1..], b, f);
        case _ =>
    }
  }

  /** Every directory and every link of `before`, except what is at `spot`, is still there in `after`. */
  ghost predicate Keeps(before: Node, after: Node, spot: Path) {
    forall p :: p != spot ==>
      && (Look(before, p).FoundDir() ==> Look(after, p).FoundDir())
      && (Look(before, p).FoundLink() ==> Look(after, p) == Look(before, p))
  }

  /** The walk follows the link at `spot`. */
  predicate Crosses(root: Node, at: Path, todo: seq<Step>, fuel: nat, spot: Path)
    decreases fuel, |todo|
  {
    todo != [] && Look(root, at).FoundDir() &&
    match todo[0]
    case Up => Crosses(root, Up1(at), todo[1..], fuel, spot)
    case Into(name) => (
      match Look(root, at + [name])
      case Found(Link(absolute, target)) =>
        || at + [name] == spot
        || (fuel > 0 && Crosses(root, if absolute then [] else at, target + todo[1..], fuel - 1, spot))
      case Found(_) => Crosses(root, at + [name], todo[1..], fuel, spot)
      case _ => false)
  }

  /** A walk that ends in a directory is not disturbed while what it follows and passes through is kept. */
  lemma {:induction false} WalkKept(before: Node, after: Node, at: Path, todo: seq<Step>, fuel: nat, spot: Path)
    requires Keeps(before, after, spot) && !Look(before, spot).FoundDir() && !Crosses(before, at, todo, fuel, spot)
    requires Walk(before, at, todo, true, fuel).Success?
    requires Look(before, Walk(before, at, todo, true, fuel).value).FoundDir()
    ensures Walk(after, at, todo, true, fuel) == Walk(before, at, todo, true, fuel)
    decreases fuel, |todo|
  {
    if todo != [] {
      match todo[0]
      case Up => WalkKept(before, after, Up1(at), todo[1..], fuel, spot);
      case Into(name) =>
        match Look(before, at + [name])
        case Found(Link(absolute, target)) =>
          WalkKept(before, after, if absolute then [] else at, target + todo[1..], fuel - 1, spot);
        case Found(File(_)) =>
        case Found(Dir(_)) => WalkKept(before, after, at + [name], todo[1..], fuel, spot);
        case _ =>
    }
  }

  /** A walk that followed the link at `spot` gets no further than `spot` once a file is there. */
  lemma {:induction false} WalkBroken(before: Node, after: Node, at: Path, todo: seq<Step>, fuel: nat, spot: Path)
    requires Keeps(before, after, spot) && Look(after, spot).FoundFile() && !Look(before, spot).FoundDir()
    requires Crosses(before, at, todo, fuel, spot)
    ensures Walk(after, at, todo, true, fuel).Failure? || Walk(after, at, todo, true, fuel) == Success(spot)
    decreases fuel, |todo|
  {
    match todo[0]
    case Up => WalkBroken(before, after, Up1(at), todo[1..], fuel, spot);
    case Into(name) =>
      if at + [name] != spot {
        match Look(before, at + [name])
        case Found(Link(absolute, target)) =>
          WalkBroken(before, after, if absolute then [] else at, target + todo[1..], fuel - 1, spot);
        case Found(Dir(_)) => WalkBroken(before, after, at + [name], todo[1..], fuel, spot);
      }
  }

  /** Where there is no link, none is followed. */
  lemma {:induction false} NothingToCross(root: Node, at: Path, todo: seq<Step>, fuel: nat, spot: Path)
    requires !Look(root, spot).FoundLink()
    ensures !Crosses(root, at, todo, fuel, spot)
    decreases fuel, |todo|
  {
    if Crosses(root, at, todo, fuel, spot) {
      match todo[0]
      case Up => NothingToCross(root, Up1(at), todo[1..], fuel, spot);
      case Into(name) =>
        match Look(root, at + [name])
        case Found(Link(absolute, target)) =>
          NothingToCross(root, if absolute then [] else at, target + todo[1..], fuel - 1, spot);
        case Found(Dir(_)) => NothingToCross(root, at + [name], todo[1..], fuel, spot);
    }
  }

  // ----- where one link leads

  /** A link to a target of its own directory, of the directory above, or counted from the top of the disk. */
  lemma LinkLeads(root: Node, p: Path, name: Name, q: Path, limit: nat)
    requires Look(root, p).FoundDir() && Look(root, p + [name]).FoundLink() && limit > 0
    ensures Look(root, p + [name]) == Found(Link(true, Steps(q))) && Look(root, q).FoundDir() ==>
              RealPath(root, p + [name], limit) == Success(q)
    ensures Look(root, p + [name]) == Found(Link(false, Steps(q))) && Look(root, p + q).FoundDir() ==>
              RealPath(root, p + [name], limit) == Success(p + q)
    ensures p != [] && Look(root, p + [name]) == Found(Link(false, [Up] + Steps(q)))
            && Look(root, Parent(p) + q).FoundDir() ==>
              RealPath(root, p + [name], limit) == Success(Parent(p) + q)
  {
    var first := [Into(name)];
    StepsSplit(p, [name]);
    assert Steps([name]) == first && [] + p == p && first[1..] == [] && [] + q == q;
    WalkDown(root, [], p, first, true, limit);
    OneLinkStep(root, p, name, limit);
    match Look(root, p + [name])
    case Found(Link(absolute, target)) =>
      if absolute && target == Steps(q) && Look(root, q).FoundDir() {
        DownTo(root, [], q, limit - 1);
      } else if !absolute && target == Steps(q) && Look(root, p + q).FoundDir() {
        DownTo(root, p, q, limit - 1);
      } else if !absolute && p != [] && target == [Up] + Steps(q) && Look(root, Parent(p) + q).FoundDir() {
        assert target[1..] == Steps(q);
        DownTo(root, Parent(p), q, limit - 1);
      }
  }

  lemma OneLinkStep(root: Node, p: Path, name: Name, limit: nat)
    requires Look(root, p).FoundDir() && Look(root, p + [name]).FoundLink() && limit > 0
    ensures var link := Look(root, p + [name]).node;
            Walk(root, p, [Into(name)], true, limit)
            == Walk(root, if link.absolute then [] else p, link.target, true, limit - 1)
  {
    var target := Look(root, p + [name]).node.target;
    assert [Into(name)][1..] == [] && target + [] == target;
  }

  lemma DownTo(root: Node, at: Path, q: Path, fuel: nat)
    requires Look(root, at + q).FoundDir()
    ensures Walk(root, at, Steps(q), true, fuel) == Success(at + q)
  {
    assert Steps(q) + [] == Steps(q);
    WalkDown(root, at, q, [], true, fuel);
  }
}
