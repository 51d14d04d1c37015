/** What the states an operation passes through leave alone. */
module Frame {
  import opened FileTree
  import opened DiskModel
  import opened Sandbox
  import opened Entries

  /** `files` is still a directory, and every path apart from it sees what it saw. */
  ghost predicate Inside(s: Node, before: Node, files: Path) {
    Look(s, files).FoundDir() && forall q :: Apart(files, q) ==> Look(s, q) == Look(before, q)
  }

  /** The same, except that something may have happened at `incoming`. */
  ghost predicate InsideOrAt(s: Node, before: Node, files: Path, incoming: Path) {
    Look(s, files).FoundDir() && forall q :: Apart(files, q) && Apart(incoming, q) ==> Look(s, q) == Look(before, q)
  }

  lemma NothingTouched(root: Node, files: Path)
    requires Look(root, files).FoundDir()
    ensures Inside(root, root, files)
  {
  }

  lemma NothingTouchedAt(root: Node, files: Path, incoming: Path)
    requires Look(root, files).FoundDir()
    ensures InsideOrAt(root, root, files, incoming)
  {
  }

  /** What happens inside of a state that itself came about inside came about inside. */
  lemma InsideTwice(s: Node, middle: Node, before: Node, files: Path, incoming: Path)
    requires InsideOrAt(middle, before, files, incoming)
    requires Inside(s, middle, files) || InsideOrAt(s, middle, files, incoming)
    ensures InsideOrAt(s, before, files, incoming)
  {
  }

  lemma ApartBelow(files: Path, p: Path, q: Path)
    requires files <= p && Apart(files, q)
    ensures Apart(p, q)
  {
  }

  lemma DepositIsInside(root: Node, files: Path, p: Path, x: Node)
    requires files < p && Open(root, p)
    ensures Inside(Deposit(root, p, x), root, files)
  {
    LookDepositAbove(root, p, x, files);
    forall q | Apart(files, q)
      ensures Look(Deposit(root, p, x), q) == Look(root, q)
    {
      ApartBelow(files, p, q);
      LookDepositElsewhere(root, p, x, q);
    }
  }

  lemma DropIsInside(root: Node, files: Path, p: Path)
    requires files < p && Look(root, files).FoundDir() && Look(root, p).Found?
    ensures Inside(Drop(root, p), root, files)
  {
    var rel := p[|files|..];
    assert p == files + rel;
    DropSplit(root, files, rel);
    LookDeposit(root, files, Drop(Look(root, files).node, rel));
    forall q | Apart(files, q)
      ensures Look(Drop(root, p), q) == Look(root, q)
    {
      ApartBelow(files, p, q);
      LookDropElsewhere(root, p, q);
    }
  }

  lemma MakingParentsIsInside(s: Node, root: Node, files: Path, dest: Path)
    requires Look(root, files).FoundDir() && files < dest && PartlyMade(s, root, Parent(dest))
    ensures Inside(s, root, files)
  {
    var k :| 0 <= k <= |Parent(dest)| && s == MakeDirs(root, Parent(dest)[..k]);
    var made := dest[..k];
    assert Parent(dest)[..k] == made;
    if k <= |files| {
      assert files == made + files[k..];
      LookSplit(root, made, files[k..]);
      MakeDirsFound(root, made);
    } else {
      assert made == files + made[|files|..];
      MakeDirsSplit(root, files, made[|files|..]);
      LookDeposit(root, files, MakeDirs(Look(root, files).node, made[|files|..]));
      forall q | Apart(files, q)
        ensures Look(s, q) == Look(root, q)
      {
        ApartBelow(files, made, q);
        LookMakeDirsElsewhere(root, made, q);
      }
    }
  }

  lemma WritingIsInside(s: Node, root: Node, files: Path, dest: Path, bytes: seq<byte>)
    requires Look(root, files).FoundDir() && files < dest && Open(root, dest)
    requires WriteStep(s, MakeDirs(root, Parent(dest)), dest, bytes)
    ensures Inside(s, root, files)
  {
    hide Inside, Deposit, Drop, MakeDirs, Look;
    var made := MakeDirs(root, Parent(dest));
    DepositAfterMakeDirs(root, dest, EmptyDir);
    if PartlyWritten(s, made, dest, bytes) {
      var k :| 0 <= k <= |bytes| && s == Deposit(made, dest, File(bytes[..k]));
      DepositAfterMakeDirs(root, dest, File(bytes[..k]));
      DepositIsInside(root, files, dest, File(bytes[..k]));
    } else {
      LookParent(root, dest);
      MakeDirsFound(root, Parent(dest));
      DropIsInside(root, files, dest);
    }
  }

  lemma RemovingIsInside(s: Node, root: Node, files: Path, path: Path)
    requires Look(root, files).FoundDir() && files < path && Look(root, path).Found? && PartlyRemoved(s, root, path)
    ensures Inside(s, root, files)
  {
    if s == Drop(root, path) {
      DropIsInside(root, files, path);
    } else {
      var x: Node :| s == Deposit(root, path, x);
      DepositIsInside(root, files, path, x);
    }
  }

  /** Whatever is put at or taken from the incoming path, `files` is not disturbed. */
  lemma IncomingIsAllowed(root: Node, files: Path, incoming: Path, x: Node)
    requires Look(root, files).FoundDir() && Apart(incoming, files)
    ensures InsideOrAt(Deposit(root, incoming, x), root, files, incoming)
    ensures InsideOrAt(Drop(root, incoming), root, files, incoming)
  {
    assert incoming != [];
    forall q | Apart(incoming, q)
      ensures Look(Deposit(root, incoming, x), q) == Look(root, q)
      ensures Look(Drop(root, incoming), q) == Look(root, q)
    {
      LookDepositElsewhere(root, incoming, x, q);
      LookDropElsewhere(root, incoming, q);
    }
  }
}
