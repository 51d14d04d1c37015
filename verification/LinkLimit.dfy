/** A disk on which the resolver accepts a path that one `realpath` under the same link limit does not reach. */
module LinkLimit {
  import opened Wrappers
  import opened FileTree
  import opened Kernel
  import opened Sandbox

  /** `b` a link to the directory `c` next to it. */
  function Inner(): Node {
    Dir(map["b" := Link(false, [Into("c")]), "c" := EmptyDir])
  }

  /** `a` a link to the directory `d` next to it. */
  function Outer(): Node {
    Dir(map["a" := Link(false, [Into("d")]), "d" := Inner()])
  }

  function TwoLinks(): Node {
    Dir(map["f" := Outer()])
  }

  /** At a limit of one link, `a/b/x` is resolved, and one `realpath` of `a/b` runs into the limit. */
  lemma ResolvedBeyondTheLimit(x: Name)
    ensures WalkOf(TwoLinks(), ["f"], ["a", "b", x], 1) == Success(["f", "d", "c", x])
    ensures RealPath(TwoLinks(), ["f", "a", "b"], 1) == Failure(ELOOP)
  {
    var root := TwoLinks();
    TwoLinksSeen();
    assert ["f"] + ["a"] == ["f", "a"] && ["f"] + ["d"] == ["f", "d"];
    assert ["f", "d"] + ["b"] == ["f", "d", "b"] && ["f", "d"] + ["c"] == ["f", "d", "c"];
    hide TwoLinks, Look, Walk, WalkOf, FollowAll;
    OneLink(root, ["f"], ["f"], "a", "d");
    OneLink(root, ["f"], ["f", "d"], "b", "c");
    FollowTwo(root, ["f"], ["f"], "a", "b", ["f", "d"], ["f", "d", "c"], 1);
    WalkOfParents(root, ["f"], ["a", "b"], x, ["f", "d", "c"], 1);
    assert ["a", "b"] + [x] == ["a", "b", x] && ["f", "d", "c"] + [x] == ["f", "d", "c", x];
    RealPathBelow(root, ["f"], ["a", "b"], 1);
    LinkAfterLink(root, ["f"], "a", "d", "b");
    assert ["f"] + ["a", "b"] == ["f", "a", "b"];
  }

  lemma TwoLinksSeen()
    ensures Look(TwoLinks(), ["f"]).FoundDir() && Look(TwoLinks(), ["f", "d"]).FoundDir()
    ensures Look(TwoLinks(), ["f", "a"]) == Found(Link(false, [Into("d")]))
    ensures Look(TwoLinks(), ["f", "d", "b"]) == Found(Link(false, [Into("c")]))
    ensures Look(TwoLinks(), ["f", "d", "c"]).FoundDir()
  {
    OuterSeen();
    hide TwoLinks, Look;
    assert ["f", "d"] + ["b"] == ["f", "d", "b"] && ["f", "d"] + ["c"] == ["f", "d", "c"];
    LookEntry(TwoLinks(), ["f", "d"], "b");
    LookEntry(TwoLinks(), ["f", "d"], "c");
  }

  lemma OuterSeen()
    ensures Look(TwoLinks(), ["f"]) == Found(Outer())
    ensures Look(TwoLinks(), ["f", "a"]) == Found(Link(false, [Into("d")]))
    ensures Look(TwoLinks(), ["f", "d"]) == Found(Inner())
  {
    assert Look(TwoLinks(), []) == Found(TwoLinks());
    hide Inner, Look;
    assert [] + ["f"] == ["f"] && ["f"] + ["a"] == ["f", "a"] && ["f"] + ["d"] == ["f", "d"];
    LookEntry(TwoLinks(), [], "f");
    LookEntry(TwoLinks(), ["f"], "a");
    LookEntry(TwoLinks(), ["f"], "d");
  }

  lemma LookEntry(n: Node, p: Path, name: Name)
    requires Look(n, p).FoundDir()
    ensures var es := Look(n, p).node.entries;
            Look(n, p + [name]) == if name in es then Found(es[name]) else Absent
  {
    LookSplit(n, p, [name]);
  }

  lemma OneLink(root: Node, files: Path, acc: Path, name: Name, target: Name)
    requires Look(root, acc).FoundDir() && Look(root, acc + [name]) == Found(Link(false, [Into(target)]))
    requires files <= acc && Look(root, acc + [target]).FoundDir()
    ensures PushFollowed(root, files, acc, name, 1) == Success(acc + [target])
  {
    PushAgainstKernel(root, files, acc, name, 1);
    assert [Into(name)][1..] == [] && [Into(target)] + [] == [Into(target)] && [Into(target)][1..] == [];
    assert Walk(root, acc + [target], [], true, 0) == Success(acc + [target]);
    assert Walk(root, acc, [Into(target)], true, 0) == Success(acc + [target]);
  }

  lemma FollowTwo(root: Node, files: Path, acc: Path, x: Name, y: Name, middle: Path, end: Path, limit: nat)
    requires PushFollowed(root, files, acc, x, limit) == Success(middle)
    requires PushFollowed(root, files, middle, y, limit) == Success(end)
    ensures FollowAll(root, files, acc, [x, y], limit) == Success(end)
  {
    hide PushFollowed;
    assert [x, y][1..] == [y] && [y][1..] == [];
    assert FollowAll(root, files, end, [], limit) == Success(end);
    assert FollowAll(root, files, middle, [y], limit) == Success(end);
  }

  lemma WalkOfParents(root: Node, files: Path, parents: Path, last: Name, end: Path, limit: nat)
    requires FollowAll(root, files, files, parents, limit) == Success(end)
    ensures WalkOf(root, files, parents + [last], limit) == Success(end + [last])
  {
    assert Parent(parents + [last]) == parents;
  }

  lemma LinkAfterLink(root: Node, at: Path, x: Name, target: Name, y: Name)
    requires Look(root, at).FoundDir() && Look(root, at + [x]) == Found(Link(false, [Into(target)]))
    requires Look(root, at + [target]).FoundDir() && Look(root, at + [target] + [y]).FoundLink()
    ensures RealPathFrom(root, at, Steps([x, y]), 1) == Failure(ELOOP)
  {
    assert [x, y][1..] == [y] && [y][1..] == [];
    assert Steps([x, y]) == [Into(x)] + Steps([y]) && Steps([y]) == [Into(y)];
    assert [Into(x), Into(y)][1..] == [Into(y)] && [Into(target), Into(y)][1..] == [Into(y)];
    assert Walk(root, at + [target], [Into(y)], true, 0) == Failure(ELOOP);
    assert Walk(root, at, [Into(target)] + [Into(y)], true, 0) == Failure(ELOOP);
  }
}
