/** The "." of every directory: a directory that still has it is not freed with entries in it, and the calls keep it but
    for renames of "." itself and for entries added to a directory that has been removed. */
module FsDots {
  import opened FiniteSum
  import opened FsTree

  predicate HasDot(names: map<string, Ptr>, d: Ptr) {
    "." in names && names["."] == d
  }

  /** Every directory with entries has its own ".". */
  ghost predicate WithDots(inodes: Inodes) {
    forall d | d in inodes && Full(inodes[d].body) :: HasDot(NamesOf(inodes[d].body), d)
  }

  /** A directory, if it is one, that has not been removed. */
  predicate Addable(inodes: Inodes, d: Ptr) {
    IsDir(inodes, d) ==> Full(inodes[d].body)
  }

  // ---- Directories with their dots are not freed full -------------------------------------------------------

  lemma {:induction false} MapValue(es: seq<Dirent>, name: string) returns (i: nat)
    requires name in NameMap(es)
    ensures i < |es| && es[i] == Dirent(name, NameMap(es)[name])
    decreases |es|
  {
    var n := |es| - 1;
    if es[n].name == name {
      i := n;
    } else {
      i := MapValue(es[..n], name);
    }
  }

  lemma DotNames(inodes: Inodes, d: Ptr)
    requires WithDots(inodes) && d in inodes && Full(inodes[d].body)
    ensures BodyNaming(inodes[d].body, d) >= 1
  {
    var i := MapValue(inodes[d].body.entries, ".");
    if CountIn(inodes[d].body.entries, d) == 0 {
      CountZero(inodes[d].body.entries, d);
    }
  }

  /** A directory with entries has a reference besides those of any other directory. */
  lemma DotCounts(s: Fs, n: Ptr, d: Ptr)
    requires Inv(s, multiset{}, multiset{}) && WithDots(s.inodes) && d in s.inodes && Full(s.inodes[d].body)
    requires n in s.inodes && n != d
    ensures s.inodes[d].refcount > BodyNaming(s.inodes[n].body, d)
  {
    hide OpensExact, NoDangling, NoLeak, DirsWhole, Counted, WithDots, BodyNaming;
    DotNames(s.inodes, d);
    SumTake(s.inodes, n, Naming(d));
    SumBounds(s.inodes - {n}, Naming(d));
    assert d in s.inodes - {n} && Naming(d)((s.inodes - {n})[d]) == BodyNaming(s.inodes[d].body, d);
  }

  lemma DotKept(s: Fs, d: Ptr)
    requires Inv(s, multiset{}, multiset{}) && WithDots(s.inodes) && d in s.inodes && Full(s.inodes[d].body)
    ensures s.inodes[d].refcount >= 1
  {
    hide OpensExact, NoDangling, NoLeak, DirsWhole, Counted, WithDots, BodyNaming;
    DotNames(s.inodes, d);
    SumBounds(s.inodes, Naming(d));
    assert Naming(d)(s.inodes[d]) == BodyNaming(s.inodes[d].body, d);
  }

  /** Emptying a directory frees no directory with entries. */
  lemma NoOrphans(s: Fs, n: Ptr)
    requires Inv(s, multiset{}, multiset{}) && WithDots(s.inodes)
    ensures forall t :: !Orphaned(s.inodes, n, t)
  {
    hide Inv, WithDots;
    forall t | Orphaned(s.inodes, n, t)
      ensures false
    {
      DotCounts(s, n, t);
    }
  }

  /** A removed directory still open is empty, and an entry added to it is lost when its last handle goes: the directory
      is freed with the entry in it. */
  lemma RemovedDirectoryTrap(s: Fs, d: Ptr, f: Fid, e: Dirent)
    requires Inv(s, multiset{}, multiset{}) && WithDots(s.inodes) && IsDir(s.inodes, d) && s.inodes[d].refcount == 0
    requires OpenOn(s.files, f, d) && forall g | g in s.files && g != f :: s.files[g].inode != d
    ensures s.inodes[d].body.entries == []
    ensures DeleteTrap(SetBody(s.inodes, d, Added(s.inodes[d].body, e)), d)
  {
    hide Inv, WithDots;
    if Full(s.inodes[d].body) {
      DotKept(s, d);
    }
    OnlyHandle(s, d, f);
  }

  lemma OnlyHandle(s: Fs, d: Ptr, f: Fid)
    requires Inv(s, multiset{}, multiset{}) && d in s.inodes
    requires OpenOn(s.files, f, d) && forall g | g in s.files && g != f :: s.files[g].inode != d
    ensures s.inodes[d].openCount == 1
  {
    hide RefsExact, NoDangling, DirsWhole, Counted, NoLeak;
    SumTake(s.files, f, On(d));
    SumZero(s.files - {f}, On(d));
  }

  // ---- The calls keep the dots ------------------------------------------------------------------------------

  lemma DotsSame(a: Inodes, b: Inodes, n: Ptr)
    requires WithDots(a) && Kept(a, b, {n}) && (n in b ==> b[n].body == a[n].body || !Full(b[n].body))
    ensures WithDots(b)
  {
    hide HasDot, NamesOf;
  }

  lemma DotsGrown(a: Inodes, b: Inodes, d: Ptr, name: string, n1: Ptr)
    requires WithDots(a) && Grown(a, b, d, name, n1) && Addable(a, d) && name !in NamesOf(a[d].body)
    requires Full(b[n1].body) ==> HasDot(NamesOf(b[n1].body), n1)
    ensures WithDots(b)
  {
    hide NamesOf;
    forall p | p in b && Full(b[p].body)
      ensures HasDot(NamesOf(b[p].body), p)
    {
      if p != n1 {
        assert HasDot(NamesOf(a[p].body), p);
      }
    }
  }

  lemma DotsLinked(a: Inodes, b: Inodes, d: Ptr, name: string, t: Ptr)
    requires WithDots(a) && Linked(a, b, d, name, t) && Addable(a, d) && name !in NamesOf(a[d].body)
    ensures WithDots(b)
  {
    hide NamesOf;
    forall p | p in b && Full(b[p].body)
      ensures HasDot(NamesOf(b[p].body), p)
    {
      assert HasDot(NamesOf(a[p].body), p);
    }
  }

  lemma NamesFull(b: Body, name: string)
    requires name in NamesOf(b)
    ensures Full(b)
  {
  }

  lemma DotsUnlinked(a: Inodes, b: Inodes, d: Ptr, name: string)
    requires WithDots(a) && Unlinked(a, b, d, name) && name != "."
    ensures WithDots(b)
  {
    NamesFull(a[d].body, name);
    hide NamesOf;
    forall p | p in b && Full(b[p].body)
      ensures HasDot(NamesOf(b[p].body), p)
    {
      assert Full(a[p].body) && HasDot(NamesOf(a[p].body), p);
    }
  }

  lemma DotsRenamed(a: Inodes, b: Inodes, d: Ptr, name: string, e: Ptr, newName: string)
    requires WithDots(a) && Renamed(a, b, d, name, e, newName) && name != "." && Addable(a, e) && IsDir(a, e)
    requires RenameError(a, d, name, e, newName) == 0
    ensures WithDots(b)
  {
    NamesFull(a[d].body, name);
    hide NamesOf;
    assert HasDot(NamesOf(a[e].body), e);
    assert newName != ".";
    forall p | p in b && Full(b[p].body)
      ensures HasDot(NamesOf(b[p].body), p)
    {
      assert Full(a[p].body) && HasDot(NamesOf(a[p].body), p);
    }
  }
}
