/**
 * The file system a workspace lives in, as a value: an inductive tree of files,
 * directories and symbolic links, addressed by absolute physical paths.
 *
 * `Look` descends through directories only. It never follows a link; following is the
 * business of module Kernel.
 */
module FileTree {

  /** A name a directory can hold. The kernel stores no other. */
  type Name = s: string | s != "" && s != "." && s != ".." && '/' !in s && '\0' !in s witness "a"
  type Path = seq<Name>

  newtype byte = x: int | 0 <= x < 256

  /** One component of a link target. A target is relative or absolute. */
  datatype Step = Up | Into(name: Name)

  datatype Node =
    | File(bytes: seq<byte>)
    | Dir(entries: map<Name, Node>)
    | Link(absolute: bool, target: seq<Step>)

  const EmptyDir: Node := Dir(map[])

  /** What a physical path meets: a node, a missing name, or a file or link used as a parent. */
  datatype Sight = Found(node: Node) | Absent | BelowFile | BelowLink {
    predicate FoundDir() { Found? && node.Dir? }
    predicate FoundFile() { Found? && node.File? }
    predicate FoundLink() { Found? && node.Link? }
  }

  function Look(n: Node, p: Path): Sight {
    if p == [] then Found(n)
    else match n
      case File(_) => BelowFile
      case Link(_, _) => BelowLink
      case Dir(es) => if p[0] in es then Look(es[p[0]], p[1..]) else Absent
  }

  /** A path can be created or replaced when no file or link stands among its parents. */
  predicate Open(n: Node, p: Path) {
    Look(n, p).Found? || Look(n, p).Absent?
  }

  function Child(es: map<Name, Node>, name: Name): Node {
    if name in es then es[name] else EmptyDir
  }

  /** Put `x` at `p`, creating the parents that are missing. */
  function Deposit(n: Node, p: Path, x: Node): Node
    decreases |p|
  {
    if p == [] then x
    else match n
      case Dir(es) => Dir(es[p[0] := Deposit(Child(es, p[0]), p[1..], x)])
      case _ => n
  }

  /** Create every directory of `p` that is missing. */
  function MakeDirs(n: Node, p: Path): Node
    decreases |p|
  {
    if p == [] then n
    else match n
      case Dir(es) => Dir(es[p[0] := MakeDirs(Child(es, p[0]), p[1..])])
      case _ => n
  }

  /** Take the entry named by `p` out of its directory. */
  function Drop(n: Node, p: Path): Node {
    match n
    case Dir(es) =>
      if p == [] || p[0] !in es then n
      else if |p| == 1 then Dir(es - {p[0]})
      else Dir(es[p[0] := Drop(es[p[0]], p[1..])])
    case _ => n
  }

  function Parent(p: Path): Path
    requires p != []
  {
    p[..|p| - 1]
  }

  // ----- looking through a split path

  lemma {:induction false} LookSplit(n: Node, p: Path, q: Path)
    ensures Look(n, p + q) == match Look(n, p) case Found(m) => Look(m, q) case other => other
  {
    if p == [] {
      assert p + q == q;
    } else {
      assert (p + q)[0] == p[0] && (p + q)[1..] == p[1..] + q;
      if n.Dir? && p[0] in n.entries {
        LookSplit(n.entries[p[0]], p[1..], q);
      }
    }
  }

  lemma LookParent(n: Node, p: Path)
    requires p != []
    ensures Look(n, p).Found? ==> Look(n, Parent(p)).FoundDir()
    ensures Open(n, p) ==> Open(n, Parent(p)) && !Look(n, Parent(p)).FoundFile() && !Look(n, Parent(p)).FoundLink()
    ensures Look(n, p).BelowLink? <==> Look(n, Parent(p)).BelowLink? || Look(n, Parent(p)).FoundLink()
    ensures Look(n, p).BelowFile? <==> Look(n, Parent(p)).BelowFile? || Look(n, Parent(p)).FoundFile()
  {
    var name := p[|p| - 1];
    assert p == Parent(p) + [name];
    LookSplit(n, Parent(p), [name]);
  }

  // ----- what a deposit changes, and what it does not

  lemma {:induction false} LookDeposit(n: Node, p: Path, x: Node)
    requires Open(n, p)
    ensures Look(Deposit(n, p, x), p) == Found(x)
    decreases |p|
  {
    if p != [] {
      LookDeposit(Child(n.entries, p[0]), p[1..], x);
    }
  }

  /** A path that is neither above nor below `p` sees the same thing before and after. */
  lemma {:induction false} LookDepositElsewhere(n: Node, p: Path, x: Node, q: Path)
    requires Apart(p, q)
    ensures Look(Deposit(n, p, x), q) == Look(n, q)
    decreases |p|
  {
    if n.Dir? && p[0] == q[0] {
      assert p == [p[0]] + p[1..] && q == [q[0]] + q[1..];
      LookDepositElsewhere(Child(n.entries, p[0]), p[1..], x, q[1..]);
    }
  }

  /** Directories above the deposit stay directories; missing ones become directories. */
  lemma {:induction false} LookDepositAbove(n: Node, p: Path, x: Node, q: Path)
    requires Open(n, p) && q < p
    ensures Look(Deposit(n, p, x), q).FoundDir()
    decreases |p|
  {
    if q != [] {
      assert p[0] == q[0] && q[1..] < p[1..];
      LookDepositAbove(Child(n.entries, p[0]), p[1..], x, q[1..]);
    }
  }

  lemma {:induction false} DepositSplit(n: Node, p: Path, q: Path, x: Node)
    requires Look(n, p).Found?
    ensures Deposit(n, p + q, x) == Deposit(n, p, Deposit(Look(n, p).node, q, x))
  {
    if p == [] {
      assert p + q == q;
    } else {
      assert (p + q)[0] == p[0] && (p + q)[1..] == p[1..] + q;
      DepositSplit(n.entries[p[0]], p[1..], q, x);
    }
  }

  lemma {:induction false} MakeDirsSplit(n: Node, p: Path, q: Path)
    requires Look(n, p).Found?
    ensures MakeDirs(n, p + q) == Deposit(n, p, MakeDirs(Look(n, p).node, q))
  {
    if p == [] {
      assert p + q == q;
    } else {
      assert (p + q)[0] == p[0] && (p + q)[1..] == p[1..] + q;
      MakeDirsSplit(n.entries[p[0]], p[1..], q);
    }
  }

  lemma {:induction false} DropSplit(n: Node, p: Path, q: Path)
    requires Look(n, p).Found? && q != []
    ensures Drop(n, p + q) == Deposit(n, p, Drop(Look(n, p).node, q))
  {
    if p == [] {
      assert p + q == q;
    } else {
      assert (p + q)[0] == p[0] && (p + q)[1..] == p[1..] + q;
      DropSplit(n.entries[p[0]], p[1..], q);
    }
  }

  lemma UpdateTwice(es: map<Name, Node>, k: Name, x: Node, y: Node)
    ensures var once: map<Name, Node> := es[k := x]; once[k := y] == es[k := y]
  {
  }

  lemma DepositEntry(es: map<Name, Node>, k: Name, x: Node)
    ensures Deposit(Dir(es), [k], x) == Dir(es[k := x])
  {
  }

  /** The last deposit at a path wins. */
  lemma {:induction false} DepositTwice(n: Node, p: Path, x: Node, y: Node)
    requires Open(n, p)
    ensures Deposit(Deposit(n, p, x), p, y) == Deposit(n, p, y)
    decreases |p|
  {
    if p != [] {
      DepositTwice(Child(n.entries, p[0]), p[1..], x, y);
      var es := n.entries;
      UpdateTwice(es, p[0], Deposit(Child(es, p[0]), p[1..], x), Deposit(Child(es, p[0]), p[1..], y));
    }
  }

  /** Depositing what is already there changes nothing. */
  lemma {:induction false} DepositSame(n: Node, p: Path)
    requires Look(n, p).Found?
    ensures Deposit(n, p, Look(n, p).node) == n
  {
    if p != [] {
      DepositSame(n.entries[p[0]], p[1..]);
      assert n.entries[p[0] := n.entries[p[0]]] == n.entries;
    }
  }

  // ----- creating parents

  lemma {:induction false} MakeDirsFound(n: Node, p: Path)
    requires Look(n, p).Found?
    ensures MakeDirs(n, p) == n
  {
    if p != [] {
      MakeDirsFound(n.entries[p[0]], p[1..]);
      assert n.entries[p[0] := n.entries[p[0]]] == n.entries;
    }
  }

  /** One more level: after its parent exists, a missing directory is one deposit. */
  lemma {:induction false} MakeDirsSnoc(n: Node, p: Path, name: Name)
    requires n.Dir? && (Look(n, p).FoundDir() || Look(n, p).Absent?)
    ensures var m := MakeDirs(n, p);
            && Look(m, p).FoundDir()
            && Look(m, p + [name]) == (if Look(n, p).Found? then Look(n, p + [name]) else Absent)
            && (Look(m, p + [name]).Absent? ==> Deposit(m, p + [name], EmptyDir) == MakeDirs(n, p + [name]))
            && (Look(m, p + [name]).Found? ==> m == MakeDirs(n, p + [name]))
    decreases |p|
  {
    if p == [] {
      assert p + [name] == [name];
      if name in n.entries {
        assert n.entries[name := n.entries[name]] == n.entries;
      }
    } else {
      assert (p + [name])[0] == p[0] && (p + [name])[1..] == p[1..] + [name];
      var es := n.entries;
      var child := Child(es, p[0]);
      MakeDirsSnoc(child, p[1..], name);
      var m := MakeDirs(child, p[1..]);
      UpdateTwice(es, p[0], m, Deposit(m, p[1..] + [name], EmptyDir));
      if Look(n, p).Absent? && p[0] in es {
        LookSplit(n, p, [name]);
      }
    }
  }

  /** Creating the parents first and then the file is one deposit. */
  lemma {:induction false} DepositAfterMakeDirs(n: Node, p: Path, x: Node)
    requires p != [] && Open(n, p)
    ensures Open(MakeDirs(n, Parent(p)), p)
    ensures Deposit(MakeDirs(n, Parent(p)), p, x) == Deposit(n, p, x)
    ensures Look(MakeDirs(n, Parent(p)), p) == Look(n, p)
    decreases |p|
  {
    if |p| > 1 {
      assert Parent(p)[0] == p[0] && Parent(p)[1..] == Parent(p[1..]);
      var es := n.entries;
      var child := Child(es, p[0]);
      DepositAfterMakeDirs(child, p[1..], x);
      UpdateTwice(es, p[0], MakeDirs(child, Parent(p[1..])), Deposit(child, p[1..], x));
    }
  }

  // ----- removing

  lemma {:induction false} LookDrop(n: Node, p: Path)
    requires p != [] && Look(n, p).Found?
    ensures Look(Drop(n, p), p) == Absent
    ensures Look(Drop(n, p), Parent(p)).FoundDir()
  {
    if |p| > 1 {
      assert Parent(p)[0] == p[0] && Parent(p)[1..] == Parent(p[1..]);
      LookDrop(n.entries[p[0]], p[1..]);
    }
  }

  /** Every path that does not go through the dropped entry sees the same kind of thing. */
  lemma {:induction false} LookDropElsewhere(n: Node, p: Path, q: Path)
    requires p != [] && Apart(p, q)
    ensures Look(Drop(n, p), q) == Look(n, q)
  {
    if n.Dir? && p[0] in n.entries && |p| > 1 && p[0] == q[0] {
      assert p == [p[0]] + p[1..] && q == [q[0]] + q[1..];
      LookDropElsewhere(n.entries[p[0]], p[1..], q[1..]);
    }
  }

  /** Replacing an entry: dropping it and then depositing is the same as depositing over it. */
  lemma {:induction false} DepositAfterDrop(n: Node, p: Path, x: Node)
    requires p != [] && Look(n, p).Found?
    ensures Deposit(Drop(n, p), p, x) == Deposit(n, p, x)
  {
    var es := n.entries;
    if |p| == 1 {
      assert (es - {p[0]})[p[0] := x] == es[p[0] := x];
    } else {
      DepositAfterDrop(es[p[0]], p[1..], x);
      UpdateTwice(es, p[0], Drop(es[p[0]], p[1..]), Deposit(es[p[0]], p[1..], x));
    }
  }

  /** Dropping an entry forgets whatever was last deposited there. */
  lemma {:induction false} DropAfterDeposit(n: Node, p: Path, x: Node)
    requires p != [] && Look(n, p).Found?
    ensures Drop(Deposit(n, p, x), p) == Drop(n, p)
  {
    var es := n.entries;
    if |p| == 1 {
      assert es[p[0] := x] - {p[0]} == es - {p[0]};
    } else {
      DropAfterDeposit(es[p[0]], p[1..], x);
      UpdateTwice(es, p[0], Deposit(es[p[0]], p[1..], x), Drop(es[p[0]], p[1..]));
    }
  }

  // ----- two paths, neither above the other, do not disturb each other

  predicate Apart(p: Path, q: Path) {
    !(p <= q) && !(q <= p)
  }

  lemma {:induction false} LookMakeDirsElsewhere(n: Node, p: Path, q: Path)
    requires Apart(p, q)
    ensures Look(MakeDirs(n, p), q) == Look(n, q)
    decreases |p|
  {
    if n.Dir? && p[0] == q[0] {
      assert p == [p[0]] + p[1..] && q == [q[0]] + q[1..];
      LookMakeDirsElsewhere(Child(n.entries, p[0]), p[1..], q[1..]);
    }
  }

  lemma {:induction false} DropMakeDirs(n: Node, p: Path, q: Path)
    requires Apart(p, q) && Look(n, p).Found?
    ensures Drop(MakeDirs(n, q), p) == MakeDirs(Drop(n, p), q)
    decreases |p|
  {
    var es := n.entries;
    var made := MakeDirs(Child(es, q[0]), q[1..]);
    if p[0] == q[0] {
      assert p == [p[0]] + p[1..] && q == [q[0]] + q[1..];
      DropMakeDirs(es[p[0]], p[1..], q[1..]);
      UpdateTwice(es, p[0], made, Drop(made, p[1..]));
      UpdateTwice(es, p[0], Drop(es[p[0]], p[1..]), MakeDirs(Drop(es[p[0]], p[1..]), q[1..]));
    } else if |p| == 1 {
      assert es[q[0] := made] - {p[0]} == (es - {p[0]})[q[0] := made];
    } else {
      var gone := Drop(es[p[0]], p[1..]);
      assert es[q[0] := made][p[0] := gone] == es[p[0] := gone][q[0] := made];
    }
  }

  /** A new entry that is dropped again leaves no trace. */
  lemma {:induction false} DropNewEntry(n: Node, p: Path, x: Node)
    requires p != [] && Look(n, Parent(p)).FoundDir() && Look(n, p).Absent?
    ensures Drop(Deposit(n, p, x), p) == n
    decreases |p|
  {
    var es := n.entries;
    if |p| == 1 {
      assert es[p[0] := x] - {p[0]} == es;
    } else {
      assert Parent(p)[0] == p[0] && Parent(p)[1..] == Parent(p[1..]);
      DropNewEntry(es[p[0]], p[1..], x);
      UpdateTwice(es, p[0], Deposit(es[p[0]], p[1..], x), es[p[0]]);
      assert es[p[0] := es[p[0]]] == es;
    }
  }
}
