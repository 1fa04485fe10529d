/** The inodes, directory entries and handles of the in-memory filesystem as values: what their counts must be, and what
    each small change does to them. */
module FsTree {
  import opened FiniteSum
  import opened Wrappers

  type Ptr = nat
  type Fid = nat

  const FS_BLOCK_SIZE := 4096
  const SIZEOF_DIRENTRY := 32

  const P9_EPERM := 1
  const P9_ENOENT := 2
  const P9_EEXIST := 17
  const P9_ENOTDIR := 20
  const P9_EINVAL := 22
  const P9_ENOTEMPTY := 39

  const FT_FIFO := 1
  const FT_CHR := 2
  const FT_DIR := 4
  const FT_BLK := 6
  const FT_REG := 8
  const FT_LNK := 10
  const FT_SOCK := 12

  datatype Dirent = Dirent(name: string, inode: Ptr)

  datatype Body =
    | Reg(size: nat)
    | Dir(entries: seq<Dirent>, dirSize: int)
    | Symlink(target: string)
    | Dev(major: nat, minor: nat)
    | Other

  datatype FSINode = FSINode(refcount: int, openCount: int, fileType: nat, mode: nat, uid: nat, gid: nat, body: Body)

  datatype FSFile = FSFile(uid: nat, inode: Ptr, isOpened: bool, openFlags: nat)

  type Inodes = map<Ptr, FSINode>

  // ---- Directories ------------------------------------------------------------------------------------------

  function Without(es: seq<Dirent>, i: nat): seq<Dirent>
    requires i < |es|
  {
    es[..i] + es[i + 1..]
  }

  /** How many entries name `p`. */
  function CountIn(es: seq<Dirent>, p: Ptr): nat {
    if es == [] then 0 else CountIn(es[..|es| - 1], p) + if es[|es| - 1].inode == p then 1 else 0
  }

  predicate Dotted(name: string) {
    name == "." || name == ".."
  }

  function EntrySize(name: string): nat {
    SIZEOF_DIRENTRY + |name| + 1
  }

  function EntriesSize(es: seq<Dirent>): nat {
    if es == [] then 0 else EntriesSize(es[..|es| - 1]) + EntrySize(es[|es| - 1].name)
  }

  function NameChars(es: seq<Dirent>): nat {
    if es == [] then 0 else NameChars(es[..|es| - 1]) + |es[|es| - 1].name|
  }

  /** A directory takes a record and a byte after the name for each entry, and the characters of the names. */
  lemma {:induction false} EntriesTake(es: seq<Dirent>)
    ensures EntriesSize(es) == |es| * (SIZEOF_DIRENTRY + 1) + NameChars(es)
    decreases |es|
  {
    if es != [] {
      EntriesTake(es[..|es| - 1]);
    }
  }

  ghost predicate Named(es: seq<Dirent>, name: string) {
    exists i :: 0 <= i < |es| && es[i].name == name
  }

  ghost predicate Distinct(es: seq<Dirent>) {
    forall i, j :: 0 <= i < j < |es| ==> es[i].name != es[j].name
  }

  lemma CountAppend(es: seq<Dirent>, e: Dirent, p: Ptr)
    ensures CountIn(es + [e], p) == CountIn(es, p) + if e.inode == p then 1 else 0
  {
    assert (es + [e])[..|es|] == es;
  }

  lemma {:induction false} CountWithout(es: seq<Dirent>, i: nat, p: Ptr)
    requires i < |es|
    ensures CountIn(es, p) == CountIn(Without(es, i), p) + if es[i].inode == p then 1 else 0
    decreases |es|
  {
    var n := |es| - 1;
    if i == n {
      assert Without(es, i) == es[..n];
    } else {
      CountWithout(es[..n], i, p);
      assert Without(es, i) == Without(es[..n], i) + [es[n]];
      CountAppend(Without(es[..n], i), es[n], p);
    }
  }

  lemma {:induction false} CountZero(es: seq<Dirent>, p: Ptr)
    requires CountIn(es, p) == 0
    ensures forall i :: 0 <= i < |es| ==> es[i].inode != p
    decreases |es|
  {
    if es != [] {
      CountZero(es[..|es| - 1], p);
      assert forall i :: 0 <= i < |es| - 1 ==> es[i] == es[..|es| - 1][i];
    }
  }

  lemma {:induction false} NotCounted(es: seq<Dirent>, p: Ptr)
    requires forall i :: 0 <= i < |es| ==> es[i].inode != p
    ensures CountIn(es, p) == 0
    decreases |es|
  {
    if es != [] {
      NotCounted(es[..|es| - 1], p);
    }
  }

  lemma SizeAppend(es: seq<Dirent>, e: Dirent)
    ensures EntriesSize(es + [e]) == EntriesSize(es) + EntrySize(e.name)
  {
    assert (es + [e])[..|es|] == es;
  }

  lemma {:induction false} SizeWithout(es: seq<Dirent>, i: nat)
    requires i < |es|
    ensures EntriesSize(es) == EntriesSize(Without(es, i)) + EntrySize(es[i].name)
    decreases |es|
  {
    hide EntriesSize, EntrySize;
    var n := |es| - 1;
    assert es == es[..n] + [es[n]];
    SizeAppend(es[..n], es[n]);
    if i == n {
      assert Without(es, i) == es[..n];
    } else {
      SizeWithout(es[..n], i);
      assert Without(es, i) == Without(es[..n], i) + [es[n]];
      SizeAppend(Without(es[..n], i), es[n]);
    }
  }

  // ---- What the counts count --------------------------------------------------------------------------------

  function ToBlocks(size: int): int {
    (size + FS_BLOCK_SIZE - 1) / FS_BLOCK_SIZE
  }

  /** The blocks hold the bytes, and one fewer would not. */
  lemma BlocksCover(size: nat)
    ensures var b := ToBlocks(size); size <= b * FS_BLOCK_SIZE && (b > 0 ==> (b - 1) * FS_BLOCK_SIZE < size) && b >= 0
  {
  }

  function BodyBlocks(b: Body): int {
    match b
    case Reg(size) => ToBlocks(size)
    case Dir(_, size) => ToBlocks(size)
    case _ => 0
  }

  function BodyNaming(b: Body, p: Ptr): nat {
    if b.Dir? then CountIn(b.entries, p) else 0
  }

  ghost function Blocks(): FSINode -> int {
    (n: FSINode) => BodyBlocks(n.body)
  }

  ghost function Naming(p: Ptr): FSINode -> int {
    (n: FSINode) => BodyNaming(n.body, p)
  }

  ghost function On(p: Ptr): FSFile -> int {
    (f: FSFile) => if f.inode == p then 1 else 0
  }

  /** Directory entries naming `p`, plus one for the root. */
  ghost function Links(inodes: Inodes, root: Ptr, p: Ptr): int {
    Sum(inodes, Naming(p)) + if p == root then 1 else 0
  }

  ghost function Handles(files: map<Fid, FSFile>, p: Ptr): int {
    Sum(files, On(p))
  }

  // ---- The invariant, in parts ------------------------------------------------------------------------------

  datatype Fs = Fs(inodes: Inodes, files: map<Fid, FSFile>, root: Ptr, fsBlocks: int, inodeCount: int,
      inodeNumAlloc: nat)

  /** Every reference count is exact; `held` are the references running code holds outside any directory. */
  ghost predicate RefsExact(s: Fs, held: multiset<Ptr>) {
    forall p | p in s.inodes :: s.inodes[p].refcount == Links(s.inodes, s.root, p) + held[p]
  }

  /** Every open count is exact; `pinned` are the counts running code holds outside any handle. */
  ghost predicate OpensExact(s: Fs, pinned: multiset<Ptr>) {
    forall p | p in s.inodes :: s.inodes[p].openCount == Handles(s.files, p) + pinned[p]
  }

  ghost predicate EntriesLive(inodes: Inodes) {
    forall d, i | d in inodes && inodes[d].body.Dir? && 0 <= i < |inodes[d].body.entries| ::
      inodes[d].body.entries[i].inode in inodes
  }

  ghost predicate FilesLive(s: Fs) {
    forall f | f in s.files :: s.files[f].inode in s.inodes
  }

  /** Nothing points to a freed inode. */
  ghost predicate NoDangling(s: Fs, held: multiset<Ptr>, pinned: multiset<Ptr>) {
    && s.root in s.inodes
    && (forall p | p in held :: p in s.inodes)
    && (forall p | p in pinned :: p in s.inodes)
    && FilesLive(s) && EntriesLive(s.inodes)
  }

  /** Every inode is in use. */
  ghost predicate NoLeak(inodes: Inodes) {
    forall p | p in inodes :: inodes[p].refcount > 0 || inodes[p].openCount > 0
  }

  ghost predicate DirWhole(b: Body) {
    b.Dir? ==> b.dirSize == EntriesSize(b.entries) && Distinct(b.entries)
  }

  /** Directory sizes are right and names occur once. */
  ghost predicate DirsWhole(inodes: Inodes) {
    forall d | d in inodes :: DirWhole(inodes[d].body)
  }

  ghost predicate Counted(s: Fs) {
    && s.fsBlocks == Sum(s.inodes, Blocks())
    && s.inodeCount == |s.inodes|
    && (forall p | p in s.inodes :: p < s.inodeNumAlloc)
  }

  ghost predicate Inv(s: Fs, held: multiset<Ptr>, pinned: multiset<Ptr>) {
    && RefsExact(s, held) && OpensExact(s, pinned) && NoDangling(s, held, pinned)
    && NoLeak(s.inodes) && DirsWhole(s.inodes) && Counted(s)
  }

  // ---- Changing one inode -----------------------------------------------------------------------------------

  /** The same inodes with the same contents; only counts and attributes differ. */
  ghost predicate SameBodies(a: Inodes, b: Inodes) {
    a.Keys == b.Keys && forall p | p in a :: b[p].body == a[p].body
  }

  lemma {:induction false} SumSame<V>(a: map<Ptr, V>, b: map<Ptr, V>, f: V -> int)
    requires a.Keys == b.Keys && forall p | p in a :: f(b[p]) == f(a[p])
    ensures Sum(b, f) == Sum(a, f)
    decreases |a|
  {
    if a != map[] {
      var p :| p in a;
      SumTake(a, p, f);
      SumTake(b, p, f);
      SumSame(a - {p}, b - {p}, f);
    } else {
      assert b == map[];
    }
  }

  lemma LinksSame(a: Inodes, b: Inodes, root: Ptr, p: Ptr)
    requires SameBodies(a, b)
    ensures Links(b, root, p) == Links(a, root, p)
  {
    SumSame(a, b, Naming(p));
  }

  lemma CountedSame(s: Fs, b: Inodes)
    requires SameBodies(s.inodes, b) && Counted(s)
    ensures Counted(s.(inodes := b))
  {
    SumSame(s.inodes, b, Blocks());
    assert |b| == |b.Keys| == |s.inodes.Keys|;
  }

  lemma EntriesLiveSame(a: Inodes, b: Inodes)
    requires SameBodies(a, b) && EntriesLive(a)
    ensures EntriesLive(b)
  {
    forall d, i | d in b && b[d].body.Dir? && 0 <= i < |b[d].body.entries|
      ensures b[d].body.entries[i].inode in b
    {
      assert a[d].body.entries[i].inode in a;
    }
  }

  lemma DirsWholeSame(a: Inodes, b: Inodes)
    requires SameBodies(a, b) && DirsWhole(a)
    ensures DirsWhole(b)
  {
    hide DirWhole;
  }

  /** `b` has `k` more of `p` than `a`, and the same of everything else. */
  ghost predicate More(a: multiset<Ptr>, b: multiset<Ptr>, p: Ptr, k: int) {
    forall q :: b[q] as int == a[q] as int + if q == p then k else 0
  }

  lemma RefsChanged(s: Fs, p: Ptr, n: FSINode, held: multiset<Ptr>, held': multiset<Ptr>)
    requires p in s.inodes && n.body == s.inodes[p].body && RefsExact(s, held)
    requires More(held, held', p, n.refcount - s.inodes[p].refcount)
    ensures RefsExact(s.(inodes := s.inodes[p := n]), held')
  {
    hide Links;
    var b := s.inodes[p := n];
    forall q | q in b
      ensures b[q].refcount == Links(b, s.root, q) + held'[q]
    {
      LinksSame(s.inodes, b, s.root, q);
    }
  }

  lemma OpensChanged(s: Fs, p: Ptr, n: FSINode, pinned: multiset<Ptr>, pinned': multiset<Ptr>)
    requires p in s.inodes && OpensExact(s, pinned)
    requires More(pinned, pinned', p, n.openCount - s.inodes[p].openCount)
    ensures OpensExact(s.(inodes := s.inodes[p := n]), pinned')
  {
    hide Handles;
  }

  lemma LiveChanged(s: Fs, p: Ptr, n: FSINode, held: multiset<Ptr>, held': multiset<Ptr>,
                    pinned: multiset<Ptr>, pinned': multiset<Ptr>, k: int, l: int)
    requires p in s.inodes && n.body == s.inodes[p].body && NoDangling(s, held, pinned)
    requires More(held, held', p, k) && More(pinned, pinned', p, l)
    ensures NoDangling(s.(inodes := s.inodes[p := n]), held', pinned')
  {
    hide EntriesLive;
    var b := s.inodes[p := n];
    assert SameBodies(s.inodes, b);
    EntriesLiveSame(s.inodes, b);
    forall q | q in held'
      ensures q in b
    {
      assert held'[q] as int == held[q] as int + if q == p then k else 0;
    }
    forall q | q in pinned'
      ensures q in b
    {
      assert pinned'[q] as int == pinned[q] as int + if q == p then l else 0;
    }
  }

  /** The counts of one inode change, along with the references held and pinned. */
  lemma CountsChanged(s: Fs, p: Ptr, n: FSINode, held: multiset<Ptr>, held': multiset<Ptr>,
                      pinned: multiset<Ptr>, pinned': multiset<Ptr>)
    requires Inv(s, held, pinned)
    requires p in s.inodes && n.body == s.inodes[p].body && (n.refcount > 0 || n.openCount > 0)
    requires More(held, held', p, n.refcount - s.inodes[p].refcount)
    requires More(pinned, pinned', p, n.openCount - s.inodes[p].openCount)
    ensures Inv(s.(inodes := s.inodes[p := n]), held', pinned')
  {
    hide RefsExact, OpensExact, NoDangling, DirsWhole, Counted, More, NoLeak;
    RefsChanged(s, p, n, held, held');
    OpensChanged(s, p, n, pinned, pinned');
    LiveChanged(s, p, n, held, held', pinned, pinned', n.refcount - s.inodes[p].refcount,
        n.openCount - s.inodes[p].openCount);
    ContentsUnchanged(s, p, n);
  }

  lemma ContentsUnchanged(s: Fs, p: Ptr, n: FSINode)
    requires NoLeak(s.inodes) && DirsWhole(s.inodes) && Counted(s)
    requires p in s.inodes && n.body == s.inodes[p].body && (n.refcount > 0 || n.openCount > 0)
    ensures var b := s.inodes[p := n]; NoLeak(b) && DirsWhole(b) && Counted(s.(inodes := b))
  {
    var b := s.inodes[p := n];
    assert SameBodies(s.inodes, b);
    hide DirsWhole, Counted;
    CountedSame(s, b);
    DirsWholeSame(s.inodes, b);
  }

  // ---- Changing what one inode holds ------------------------------------------------------------------------

  ghost predicate NamesMore(b: Body, b': Body, t: Ptr, k: int) {
    forall q :: BodyNaming(b', q) == BodyNaming(b, q) + if q == t then k else 0
  }

  ghost predicate BodyLive(inodes: Inodes, b: Body) {
    b.Dir? ==> forall i :: 0 <= i < |b.entries| ==> b.entries[i].inode in inodes
  }

  function SetBody(inodes: Inodes, d: Ptr, b: Body): Inodes
    requires d in inodes
  {
    inodes[d := inodes[d].(body := b)]
  }

  lemma RefsMoved(s: Fs, d: Ptr, b: Body, t: Ptr, k: int, held: multiset<Ptr>, held': multiset<Ptr>)
    requires d in s.inodes && RefsExact(s, held)
    requires NamesMore(s.inodes[d].body, b, t, k) && More(held, held', t, -k)
    ensures RefsExact(s.(inodes := SetBody(s.inodes, d, b)), held')
  {
    hide BodyNaming;
    var m := SetBody(s.inodes, d, b);
    forall q | q in m
      ensures m[q].refcount == Links(m, s.root, q) + held'[q]
    {
      SumPut(s.inodes, d, m[d], Naming(q));
      assert BodyNaming(b, q) == BodyNaming(s.inodes[d].body, q) + if q == t then k else 0;
      assert held'[q] as int == held[q] as int + if q == t then -k else 0;
    }
  }

  lemma OpensKept(s: Fs, d: Ptr, b: Body, pinned: multiset<Ptr>)
    requires d in s.inodes && OpensExact(s, pinned)
    ensures OpensExact(s.(inodes := SetBody(s.inodes, d, b)), pinned)
  {
    hide Handles;
  }

  lemma EntriesStayLive(inodes: Inodes, d: Ptr, b: Body)
    requires d in inodes && EntriesLive(inodes) && BodyLive(inodes, b)
    ensures EntriesLive(SetBody(inodes, d, b))
  {
    var m := SetBody(inodes, d, b);
    forall e, i | e in m && m[e].body.Dir? && 0 <= i < |m[e].body.entries|
      ensures m[e].body.entries[i].inode in m
    {
      if e != d {
        assert inodes[e].body.entries[i].inode in inodes;
      }
    }
  }

  lemma LiveMoved(s: Fs, d: Ptr, b: Body, t: Ptr, k: int, held: multiset<Ptr>, held': multiset<Ptr>,
      pinned: multiset<Ptr>)
    requires d in s.inodes && NoDangling(s, held, pinned) && BodyLive(s.inodes, b)
    requires t in s.inodes && More(held, held', t, k)
    ensures NoDangling(s.(inodes := SetBody(s.inodes, d, b)), held', pinned)
  {
    hide EntriesLive, BodyLive;
    EntriesStayLive(s.inodes, d, b);
    forall q | q in held'
      ensures q in s.inodes
    {
      assert held'[q] as int == held[q] as int + if q == t then k else 0;
    }
  }

  lemma WholeMoved(inodes: Inodes, d: Ptr, b: Body)
    requires d in inodes && DirsWhole(inodes) && NoLeak(inodes) && DirWhole(b)
    ensures DirsWhole(SetBody(inodes, d, b)) && NoLeak(SetBody(inodes, d, b))
  {
    hide DirWhole;
  }

  lemma BlocksMoved(s: Fs, d: Ptr, b: Body)
    requires d in s.inodes && Counted(s)
    ensures Counted(s.(inodes := SetBody(s.inodes, d, b),
                       fsBlocks := s.fsBlocks + BodyBlocks(b) - BodyBlocks(s.inodes[d].body)))
  {
    hide BodyBlocks;
    SumPut(s.inodes, d, s.inodes[d].(body := b), Blocks());
    assert SetBody(s.inodes, d, b).Keys == s.inodes.Keys;
    assert |SetBody(s.inodes, d, b)| == |SetBody(s.inodes, d, b).Keys| == |s.inodes.Keys|;
  }

  /** The contents of `d` change, naming `t` `k` times more; as many held references to `t` are used up. */
  lemma BodyChanged(s: Fs, d: Ptr, b: Body, t: Ptr, k: int, held: multiset<Ptr>, held': multiset<Ptr>,
                    pinned: multiset<Ptr>)
    requires Inv(s, held, pinned) && d in s.inodes && t in s.inodes
    requires NamesMore(s.inodes[d].body, b, t, k) && More(held, held', t, -k) && BodyLive(s.inodes, b)
    requires DirWhole(b)
    ensures Inv(s.(inodes := SetBody(s.inodes, d, b), fsBlocks := s.fsBlocks
            + BodyBlocks(b) - BodyBlocks(s.inodes[d].body)),
                held', pinned)
  {
    hide RefsExact, OpensExact, NoDangling, DirsWhole, Counted, More, NoLeak, DirWhole, BodyBlocks, NamesMore, BodyLive;
    RefsMoved(s, d, b, t, k, held, held');
    OpensKept(s, d, b, pinned);
    LiveMoved(s, d, b, t, -k, held, held', pinned);
    WholeMoved(s.inodes, d, b);
    BlocksMoved(s, d, b);
    BlocksElsewhere(s.(inodes := SetBody(s.inodes, d, b)), s.fsBlocks
        + BodyBlocks(b) - BodyBlocks(s.inodes[d].body), held', pinned);
  }

  lemma BlocksElsewhere(s: Fs, fsBlocks: int, held: multiset<Ptr>, pinned: multiset<Ptr>)
    ensures RefsExact(s.(fsBlocks := fsBlocks), held) == RefsExact(s, held)
    ensures OpensExact(s.(fsBlocks := fsBlocks), pinned) == OpensExact(s, pinned)
    ensures NoDangling(s.(fsBlocks := fsBlocks), held, pinned) == NoDangling(s, held, pinned)
  {
    hide Links, Handles, EntriesLive;
  }

  // ---- Entries ----------------------------------------------------------------------------------------------

  function Added(b: Body, e: Dirent): Body
    requires b.Dir?
  {
    Dir(b.entries + [e], b.dirSize + EntrySize(e.name))
  }

  function Removed(b: Body, i: nat): Body
    requires b.Dir? && i < |b.entries|
  {
    Dir(Without(b.entries, i), b.dirSize - EntrySize(b.entries[i].name))
  }

  lemma AddedWhole(b: Body, e: Dirent)
    requires b.Dir? && DirWhole(b) && !Named(b.entries, e.name)
    ensures DirWhole(Added(b, e))
  {
    hide EntrySize;
    var es := b.entries + [e];
    SizeAppend(b.entries, e);
    assert forall i :: 0 <= i < |b.entries| ==> es[i] == b.entries[i];
  }

  /** A directory entry takes over a held reference. */
  lemma EntryAdded(s: Fs, d: Ptr, e: Dirent, held: multiset<Ptr>, held': multiset<Ptr>, pinned: multiset<Ptr>)
    requires Inv(s, held, pinned) && d in s.inodes && e.inode in s.inodes && More(held, held', e.inode, -1)
    requires var b := s.inodes[d].body;
             b.Dir? && !Named(b.entries, e.name)
    ensures var b := s.inodes[d].body;
            Inv(s.(inodes := SetBody(s.inodes, d, Added(b, e)), fsBlocks := s.fsBlocks
                + BodyBlocks(Added(b, e)) - BodyBlocks(b)),
                held', pinned)
  {
    hide RefsExact, OpensExact, Counted, More, NoLeak, BodyBlocks, NamesMore, DirWhole, SetBody;
    var b := s.inodes[d].body;
    AddedNames(b, e);
    AddedLive(s.inodes, d, e);
    AddedWhole(b, e);
    BodyChanged(s, d, Added(b, e), e.inode, 1, held, held', pinned);
  }

  lemma AddedNames(b: Body, e: Dirent)
    requires b.Dir?
    ensures NamesMore(b, Added(b, e), e.inode, 1)
  {
    forall q
      ensures BodyNaming(Added(b, e), q) == BodyNaming(b, q) + if q == e.inode then 1 else 0
    {
      CountAppend(b.entries, e, q);
    }
  }

  lemma AddedLive(inodes: Inodes, d: Ptr, e: Dirent)
    requires d in inodes && inodes[d].body.Dir? && EntriesLive(inodes) && e.inode in inodes
    ensures BodyLive(inodes, Added(inodes[d].body, e))
  {
    hide EntrySize;
  }

  lemma RemovedWhole(b: Body, i: nat)
    requires b.Dir? && i < |b.entries| && DirWhole(b)
    ensures DirWhole(Removed(b, i))
  {
    hide EntrySize;
    SizeWithout(b.entries, i);
    var es := Without(b.entries, i);
    assert forall j :: 0 <= j < |es| ==> es[j] == b.entries[if j < i then j else j + 1];
  }

  lemma RemovedNames(b: Body, i: nat)
    requires b.Dir? && i < |b.entries|
    ensures NamesMore(b, Removed(b, i), b.entries[i].inode, -1)
  {
    hide EntrySize, Without;
    forall q
      ensures BodyNaming(Removed(b, i), q) == BodyNaming(b, q) + if q == b.entries[i].inode then -1 else 0
    {
      CountWithout(b.entries, i, q);
    }
  }

  lemma RemovedLive(inodes: Inodes, d: Ptr, i: nat)
    requires d in inodes && inodes[d].body.Dir? && EntriesLive(inodes) && i < |inodes[d].body.entries|
    ensures BodyLive(inodes, Removed(inodes[d].body, i)) && inodes[d].body.entries[i].inode in inodes
  {
    hide EntrySize;
    var es := inodes[d].body.entries;
    assert forall j :: 0 <= j < |es| - 1 ==> Without(es, i)[j] == es[if j < i then j else j + 1];
  }

  /** An entry goes; the reference it was is now held. */
  lemma EntryRemoved(s: Fs, d: Ptr, i: nat, held: multiset<Ptr>, held': multiset<Ptr>, pinned: multiset<Ptr>)
    requires Inv(s, held, pinned) && d in s.inodes && s.inodes[d].body.Dir? && i < |s.inodes[d].body.entries|
    requires More(held, held', s.inodes[d].body.entries[i].inode, 1)
    ensures var b := s.inodes[d].body;
            Inv(s.(inodes := SetBody(s.inodes, d, Removed(b, i)), fsBlocks := s.fsBlocks
                + BodyBlocks(Removed(b, i)) - BodyBlocks(b)),
                held', pinned)
  {
    hide RefsExact, OpensExact, Counted, More, NoLeak, BodyBlocks, NamesMore, DirWhole, SetBody, EntriesLive, Removed;
    var b := s.inodes[d].body;
    RemovedNames(b, i);
    RemovedLive(s.inodes, d, i);
    RemovedWhole(b, i);
    BodyChanged(s, d, Removed(b, i), b.entries[i].inode, -1, held, held', pinned);
  }

  // ---- Directories as maps from names -----------------------------------------------------------------------

  function NameMap(es: seq<Dirent>): map<string, Ptr> {
    if es == [] then map[] else NameMap(es[..|es| - 1])[es[|es| - 1].name := es[|es| - 1].inode]
  }

  function NamesOf(b: Body): map<string, Ptr> {
    if b.Dir? then NameMap(b.entries) else map[]
  }

  /** Where the path `names` leads from `p`. */
  ghost function Follow(inodes: Inodes, p: Ptr, names: seq<string>): Option<Ptr> {
    if names == [] then Some(p)
    else
      var d := Follow(inodes, p, names[..|names| - 1]);
      var name := names[|names| - 1];
      if d.Some? && d.value in inodes && name in NamesOf(inodes[d.value].body)
      then Some(NamesOf(inodes[d.value].body)[name]) else None
  }

  lemma {:induction false} MapNames(es: seq<Dirent>, name: string)
    ensures Named(es, name) <==> name in NameMap(es)
    decreases |es|
  {
    if es != [] {
      var front := es[..|es| - 1];
      MapNames(front, name);
      assert Named(front, name) ==> Named(es, name) by {
        if Named(front, name) {
          var i :| 0 <= i < |front| && front[i].name == name;
          assert es[i].name == name;
        }
      }
      if Named(es, name) && es[|es| - 1].name != name {
        var i :| 0 <= i < |es| && es[i].name == name;
        assert front[i].name == name;
      }
    }
  }

  lemma {:induction false} MapEntry(es: seq<Dirent>, i: nat)
    requires Distinct(es) && i < |es|
    ensures es[i].name in NameMap(es) && NameMap(es)[es[i].name] == es[i].inode
    decreases |es|
  {
    if i < |es| - 1 {
      DistinctFront(es);
      MapEntry(es[..|es| - 1], i);
    }
  }

  lemma DistinctFront(es: seq<Dirent>)
    requires Distinct(es) && es != []
    ensures Distinct(es[..|es| - 1])
  {
  }

  lemma MapAppend(es: seq<Dirent>, e: Dirent)
    ensures NameMap(es + [e]) == NameMap(es)[e.name := e.inode]
  {
    assert (es + [e])[..|es|] == es;
  }

  lemma {:induction false} MapWithout(es: seq<Dirent>, i: nat)
    requires Distinct(es) && i < |es|
    ensures NameMap(Without(es, i)) == NameMap(es) - {es[i].name}
    decreases |es|
  {
    hide NameMap;
    var n := |es| - 1;
    assert es == es[..n] + [es[n]];
    MapAppend(es[..n], es[n]);
    if i == n {
      assert Without(es, i) == es[..n];
      MapNames(es[..n], es[n].name);
      assert !Named(es[..n], es[n].name);
    } else {
      DistinctFront(es);
      MapWithout(es[..n], i);
      assert Without(es, i) == Without(es[..n], i) + [es[n]];
      MapAppend(Without(es[..n], i), es[n]);
      assert es[i].name != es[n].name;
    }
  }

  lemma AddedMap(b: Body, e: Dirent)
    requires b.Dir?
    ensures NamesOf(Added(b, e)) == NamesOf(b)[e.name := e.inode]
  {
    assert (b.entries + [e])[..|b.entries|] == b.entries;
  }

  lemma RemovedMap(b: Body, i: nat)
    requires b.Dir? && i < |b.entries| && Distinct(b.entries)
    ensures NamesOf(Removed(b, i)) == NamesOf(b) - {b.entries[i].name}
    ensures b.entries[i].name in NamesOf(b) && NamesOf(b)[b.entries[i].name] == b.entries[i].inode
  {
    MapWithout(b.entries, i);
    MapEntry(b.entries, i);
  }

  /** What the invariant says of one directory. */
  lemma OneDirectory(s: Fs, held: multiset<Ptr>, pinned: multiset<Ptr>, d: Ptr)
    requires Inv(s, held, pinned) && d in s.inodes && s.inodes[d].body.Dir?
    ensures var es := s.inodes[d].body.entries;
            && Distinct(es)
            && (forall i :: 0 <= i < |es| ==> es[i].inode in s.inodes)
  {
    hide RefsExact, OpensExact, Counted, NoLeak;
    assert DirWhole(s.inodes[d].body);
  }

  // ---- The life of an inode ---------------------------------------------------------------------------------

  function ContentBlocks(b: Body): int {
    if b.Reg? then ToBlocks(b.size) else 0
  }

  /** A directory with entries. */
  predicate Full(b: Body) {
    b.Dir? && b.entries != []
  }

  /** An inode on its last reference is named by nothing. */
  lemma LastReference(s: Fs, p: Ptr, held: multiset<Ptr>, held': multiset<Ptr>, pinned: multiset<Ptr>,
                      pinned': multiset<Ptr>)
    requires Inv(s, held, pinned) && p in s.inodes
    requires More(held, held', p, -s.inodes[p].refcount) && More(pinned, pinned', p, -s.inodes[p].openCount)
    ensures p != s.root && p !in held' && p !in pinned'
    ensures forall d | d in s.inodes :: BodyNaming(s.inodes[d].body, p) == 0
    ensures forall f | f in s.files :: s.files[f].inode != p
    ensures !Full(s.inodes[p].body) ==> BodyBlocks(s.inodes[p].body) == ContentBlocks(s.inodes[p].body)
  {
    hide NoDangling, Counted, NoLeak, ToBlocks, EntriesSize, Distinct, BodyNaming;
    NotNamed(s, p, held, held');
    NotOpen(s, p, pinned, pinned');
    assert DirWhole(s.inodes[p].body);
    EmptySize();
  }

  lemma EmptySize()
    ensures EntriesSize([]) == 0 && ToBlocks(0) == 0
  {
  }

  lemma NotNamed(s: Fs, p: Ptr, held: multiset<Ptr>, held': multiset<Ptr>)
    requires RefsExact(s, held) && p in s.inodes && More(held, held', p, -s.inodes[p].refcount)
    ensures p != s.root && p !in held'
    ensures forall d | d in s.inodes :: BodyNaming(s.inodes[d].body, p) == 0
  {
    hide BodyNaming;
    SumBounds(s.inodes, Naming(p));
    assert held'[p] as int == held[p] as int - s.inodes[p].refcount;
    forall d | d in s.inodes
      ensures BodyNaming(s.inodes[d].body, p) == 0
    {
      assert Naming(p)(s.inodes[d]) <= 0;
    }
  }

  lemma NotOpen(s: Fs, p: Ptr, pinned: multiset<Ptr>, pinned': multiset<Ptr>)
    requires OpensExact(s, pinned) && p in s.inodes && More(pinned, pinned', p, -s.inodes[p].openCount)
    ensures p !in pinned'
    ensures forall f | f in s.files :: s.files[f].inode != p
  {
    SumBounds(s.files, On(p));
    assert pinned'[p] as int == pinned[p] as int - s.inodes[p].openCount;
    forall f | f in s.files
      ensures s.files[f].inode != p
    {
      assert On(p)(s.files[f]) <= 0;
    }
  }

  function Freed(s: Fs, p: Ptr): Fs
    requires p in s.inodes
  {
    s.(inodes := s.inodes - {p}, fsBlocks := s.fsBlocks - ContentBlocks(s.inodes[p].body),
        inodeCount := s.inodeCount - 1)
  }

  lemma RefsFreed(s: Fs, p: Ptr, held: multiset<Ptr>, held': multiset<Ptr>, k: int)
    requires RefsExact(s, held) && p in s.inodes && More(held, held', p, k) && !Full(s.inodes[p].body)
    ensures RefsExact(Freed(s, p), held')
  {
    hide ContentBlocks;
    forall q | q in s.inodes && q != p
      ensures s.inodes[q].refcount == Links(s.inodes - {p}, s.root, q) + held'[q]
    {
      SumTake(s.inodes, p, Naming(q));
      assert held'[q] as int == held[q] as int + if q == p then k else 0;
    }
  }

  lemma OpensFreed(s: Fs, p: Ptr, pinned: multiset<Ptr>, pinned': multiset<Ptr>, k: int)
    requires OpensExact(s, pinned) && p in s.inodes && More(pinned, pinned', p, k)
    ensures OpensExact(Freed(s, p), pinned')
  {
    hide Handles, ContentBlocks;
  }

  lemma LiveFreed(s: Fs, p: Ptr, held: multiset<Ptr>, held': multiset<Ptr>, pinned: multiset<Ptr>,
      pinned': multiset<Ptr>,
                  k: int, l: int)
    requires NoDangling(s, held, pinned) && p in s.inodes && p != s.root && p !in held' && p !in pinned'
    requires More(held, held', p, k) && More(pinned, pinned', p, l)
    requires forall d | d in s.inodes :: BodyNaming(s.inodes[d].body, p) == 0
    requires forall f | f in s.files :: s.files[f].inode != p
    ensures NoDangling(Freed(s, p), held', pinned')
  {
    hide ContentBlocks, EntriesLive, BodyNaming;
    forall q | q in held'
      ensures q in s.inodes
    {
      assert held'[q] as int == held[q] as int + if q == p then k else 0;
    }
    forall q | q in pinned'
      ensures q in s.inodes
    {
      assert pinned'[q] as int == pinned[q] as int + if q == p then l else 0;
    }
    EntriesFreed(s.inodes, p);
  }

  lemma EntriesFreed(inodes: Inodes, p: Ptr)
    requires EntriesLive(inodes) && forall d | d in inodes :: BodyNaming(inodes[d].body, p) == 0
    ensures EntriesLive(inodes - {p})
  {
    var m := inodes - {p};
    forall d, i | d in m && m[d].body.Dir? && 0 <= i < |m[d].body.entries|
      ensures m[d].body.entries[i].inode in m
    {
      assert BodyNaming(inodes[d].body, p) == 0;
      CountZero(inodes[d].body.entries, p);
      assert inodes[d].body.entries[i].inode in inodes;
    }
  }

  lemma CountedFreed(s: Fs, p: Ptr)
    requires Counted(s) && p in s.inodes && BodyBlocks(s.inodes[p].body) == ContentBlocks(s.inodes[p].body)
    ensures Counted(Freed(s, p))
  {
    hide BodyBlocks, ContentBlocks;
    SumTake(s.inodes, p, Blocks());
    assert (s.inodes - {p}).Keys == s.inodes.Keys - {p};
    assert |s.inodes - {p}| == |(s.inodes - {p}).Keys| && |s.inodes| == |s.inodes.Keys|;
  }

  /** An inode is freed with its last reference, if it is not a directory with entries. */
  lemma InodeFreed(s: Fs, p: Ptr, held: multiset<Ptr>, held': multiset<Ptr>, pinned: multiset<Ptr>,
                   pinned': multiset<Ptr>)
    requires Inv(s, held, pinned) && p in s.inodes && !Full(s.inodes[p].body)
    requires More(held, held', p, -s.inodes[p].refcount) && More(pinned, pinned', p, -s.inodes[p].openCount)
    ensures Inv(Freed(s, p), held', pinned')
  {
    hide RefsExact, OpensExact, NoDangling, Counted, More, BodyBlocks, ContentBlocks, DirWhole, BodyNaming;
    LastReference(s, p, held, held', pinned, pinned');
    RefsFreed(s, p, held, held', -s.inodes[p].refcount);
    OpensFreed(s, p, pinned, pinned', -s.inodes[p].openCount);
    LiveFreed(s, p, held, held', pinned, pinned', -s.inodes[p].refcount, -s.inodes[p].openCount);
    CountedFreed(s, p);
  }

  /** Freeing an inode without references keeps the counts exactly if it is not a directory with entries: what its
      entries named would keep a reference too many. `inode_free` asserts it. */
  lemma FreedExactly(s: Fs, p: Ptr, held: multiset<Ptr>)
    requires RefsExact(s, held) && EntriesLive(s.inodes) && p in s.inodes && s.inodes[p].refcount == 0
    ensures RefsExact(Freed(s, p), held) <==> !Full(s.inodes[p].body)
  {
    if Full(s.inodes[p].body) {
      var q := s.inodes[p].body.entries[0].inode;
      assert q in s.inodes;
      NamedCounts(s, held, p, 0);
      SumTake(s.inodes, p, Naming(q));
      if CountIn(s.inodes[p].body.entries, q) == 0 {
        CountZero(s.inodes[p].body.entries, q);
      }
      assert Freed(s, p).inodes[q].refcount != Links(Freed(s, p).inodes, s.root, q) + held[q];
    } else {
      NoneMore(held, p);
      RefsFreed(s, p, held, held, 0);
    }
  }

  function Born(s: Fs, n: FSINode): Fs {
    s.(inodes := s.inodes[s.inodeNumAlloc := n], inodeCount := s.inodeCount + 1, inodeNumAlloc := s.inodeNumAlloc + 1)
  }

  predicate Empty(b: Body) {
    match b
    case Reg(size) => size == 0
    case Dir(entries, dirSize) => entries == [] && dirSize == 0
    case _ => true
  }

  lemma NewUnnamed(s: Fs, p: Ptr, held: multiset<Ptr>, pinned: multiset<Ptr>)
    requires NoDangling(s, held, pinned) && p !in s.inodes
    ensures Links(s.inodes, s.root, p) == 0 && Handles(s.files, p) == 0 && held[p] == 0 && pinned[p] == 0
  {
    forall d | d in s.inodes
      ensures Naming(p)(s.inodes[d]) == 0
    {
      if s.inodes[d].body.Dir? {
        forall i | 0 <= i < |s.inodes[d].body.entries|
          ensures s.inodes[d].body.entries[i].inode != p
        {
          assert s.inodes[d].body.entries[i].inode in s.inodes;
        }
        NotCounted(s.inodes[d].body.entries, p);
      }
    }
    SumZero(s.inodes, Naming(p));
    SumZero(s.files, On(p));
  }

  lemma RefsBorn(s: Fs, n: FSINode, held: multiset<Ptr>, held': multiset<Ptr>)
    requires RefsExact(s, held) && s.inodeNumAlloc !in s.inodes && Empty(n.body) && n.refcount == 1
    requires Links(s.inodes, s.root, s.inodeNumAlloc) == 0 && held[s.inodeNumAlloc] == 0
    requires More(held, held', s.inodeNumAlloc, 1)
    ensures RefsExact(Born(s, n), held')
  {
    var p := s.inodeNumAlloc;
    var m := s.inodes[p := n];
    forall q | q in m
      ensures m[q].refcount == Links(m, s.root, q) + held'[q]
    {
      SumPut(s.inodes, p, n, Naming(q));
      assert held'[q] as int == held[q] as int + if q == p then 1 else 0;
    }
  }

  lemma LiveBorn(s: Fs, n: FSINode, held: multiset<Ptr>, held': multiset<Ptr>, pinned: multiset<Ptr>)
    requires NoDangling(s, held, pinned) && s.inodeNumAlloc !in s.inodes && Empty(n.body)
    requires More(held, held', s.inodeNumAlloc, 1)
    ensures NoDangling(Born(s, n), held', pinned)
  {
    var p := s.inodeNumAlloc;
    var m := s.inodes[p := n];
    forall q | q in held'
      ensures q in m
    {
      assert held'[q] as int == held[q] as int + if q == p then 1 else 0;
    }
    forall d, i | d in m && m[d].body.Dir? && 0 <= i < |m[d].body.entries|
      ensures m[d].body.entries[i].inode in m
    {
      assert d != p;
      assert s.inodes[d].body.entries[i].inode in s.inodes;
    }
  }

  lemma CountedBorn(s: Fs, n: FSINode)
    requires Counted(s) && s.inodeNumAlloc !in s.inodes && Empty(n.body)
    ensures Counted(Born(s, n))
  {
    SumPut(s.inodes, s.inodeNumAlloc, n, Blocks());
    assert s.inodes[s.inodeNumAlloc := n].Keys == s.inodes.Keys + {s.inodeNumAlloc};
    assert |s.inodes| == |s.inodes.Keys| && |s.inodes[s.inodeNumAlloc := n]| == |s.inodes.Keys + {s.inodeNumAlloc}|;
  }

  /** A new inode is held once. */
  lemma InodeBorn(s: Fs, n: FSINode, held: multiset<Ptr>, held': multiset<Ptr>, pinned: multiset<Ptr>)
    requires Inv(s, held, pinned) && Empty(n.body) && n.refcount == 1 && n.openCount == 0
    requires More(held, held', s.inodeNumAlloc, 1)
    ensures s.inodeNumAlloc !in s.inodes
    ensures Inv(Born(s, n), held', pinned)
  {
    hide RefsExact, NoDangling, More, Links, Handles;
    assert s.inodeNumAlloc !in s.inodes;
    NewUnnamed(s, s.inodeNumAlloc, held, pinned);
    RefsBorn(s, n, held, held');
    LiveBorn(s, n, held, held', pinned);
    CountedBorn(s, n);
    hide Counted;
    NewWhole(n.body);
  }

  lemma NewWhole(b: Body)
    requires Empty(b)
    ensures DirWhole(b)
  {
  }

  // ---- Handles ----------------------------------------------------------------------------------------------

  /** A handle appears or changes; `pinned` gives up what it now counts and takes what it did. */
  lemma FilesChanged(s: Fs, f: Fid, file: FSFile, held: multiset<Ptr>, pinned: multiset<Ptr>, pinned': multiset<Ptr>)
    requires Inv(s, held, pinned) && f !in s.files && file.inode in s.inodes
    requires More(pinned, pinned', file.inode, -1)
    ensures Inv(s.(files := s.files[f := file]), held, pinned')
  {
    hide Links, EntriesLive, DirsWhole, Counted;
    forall q | q in s.inodes
      ensures s.inodes[q].openCount == Handles(s.files[f := file], q) + pinned'[q]
    {
      SumPut(s.files, f, file, On(q));
      assert pinned'[q] as int == pinned[q] as int + if q == file.inode then -1 else 0;
    }
    forall q | q in pinned'
      ensures q in s.inodes
    {
      assert pinned'[q] as int == pinned[q] as int + if q == file.inode then -1 else 0;
    }
    FilesElsewhere(s, s.files[f := file], held);
  }

  lemma FileRemoved(s: Fs, f: Fid, held: multiset<Ptr>, pinned: multiset<Ptr>, pinned': multiset<Ptr>)
    requires Inv(s, held, pinned) && f in s.files
    requires More(pinned, pinned', s.files[f].inode, 1)
    ensures Inv(s.(files := s.files - {f}), held, pinned')
  {
    hide Links, EntriesLive, DirsWhole, Counted;
    forall q | q in s.inodes
      ensures s.inodes[q].openCount == Handles(s.files - {f}, q) + pinned'[q]
    {
      SumTake(s.files, f, On(q));
      assert pinned'[q] as int == pinned[q] as int + if q == s.files[f].inode then 1 else 0;
    }
    forall q | q in pinned'
      ensures q in s.inodes
    {
      assert pinned'[q] as int == pinned[q] as int + if q == s.files[f].inode then 1 else 0;
    }
    FilesElsewhere(s, s.files - {f}, held);
  }

  lemma FilesElsewhere(s: Fs, files: map<Fid, FSFile>, held: multiset<Ptr>)
    ensures RefsExact(s.(files := files), held) == RefsExact(s, held)
    ensures Counted(s.(files := files)) == Counted(s)
  {
    hide Links;
  }

  // ---- What the invariant means -----------------------------------------------------------------------------

  ghost predicate NamedBy(inodes: Inodes, p: Ptr, d: Ptr, i: nat) {
    d in inodes && inodes[d].body.Dir? && i < |inodes[d].body.entries| && inodes[d].body.entries[i].inode == p
  }

  ghost predicate OpenBy(s: Fs, p: Ptr, f: Fid) {
    f in s.files && s.files[f].inode == p
  }

  ghost predicate Referenced(s: Fs, p: Ptr) {
    p == s.root || (exists d, i :: NamedBy(s.inodes, p, d, i)) || (exists f :: OpenBy(s, p, f))
  }

  /** Between calls the inodes that exist are exactly those the root, an entry or a handle refers to. */
  lemma LiveExactly(s: Fs, p: Ptr)
    requires Inv(s, multiset{}, multiset{})
    ensures p in s.inodes <==> Referenced(s, p)
  {
    hide DirsWhole, Counted;
    if p in s.inodes && !Referenced(s, p) {
      forall d | d in s.inodes
        ensures Naming(p)(s.inodes[d]) == 0
      {
        if s.inodes[d].body.Dir? {
          forall i | 0 <= i < |s.inodes[d].body.entries|
            ensures s.inodes[d].body.entries[i].inode != p
          {
            assert !NamedBy(s.inodes, p, d, i);
          }
          NotCounted(s.inodes[d].body.entries, p);
        }
      }
      SumZero(s.inodes, Naming(p));
      forall f | f in s.files
        ensures On(p)(s.files[f]) == 0
      {
        assert !OpenBy(s, p, f);
      }
      SumZero(s.files, On(p));
    }
  }

  /** A named inode has a reference besides those held. */
  lemma NamedCounts(s: Fs, held: multiset<Ptr>, d: Ptr, i: nat)
    requires RefsExact(s, held) && d in s.inodes && s.inodes[d].body.Dir? && i < |s.inodes[d].body.entries|
    requires s.inodes[d].body.entries[i].inode in s.inodes
    ensures var p := s.inodes[d].body.entries[i].inode; s.inodes[p].refcount >= 1 + held[p]
  {
    var p := s.inodes[d].body.entries[i].inode;
    SumBounds(s.inodes, Naming(p));
    if CountIn(s.inodes[d].body.entries, p) == 0 {
      CountZero(s.inodes[d].body.entries, p);
    }
    assert Naming(p)(s.inodes[d]) <= Sum(s.inodes, Naming(p));
  }

  /** The accounts never go negative. */
  lemma AccountsNatural(s: Fs, held: multiset<Ptr>, pinned: multiset<Ptr>)
    requires Inv(s, held, pinned)
    ensures s.fsBlocks >= 0 && s.inodeCount >= 1
    ensures forall p | p in s.inodes :: s.inodes[p].refcount >= held[p] && s.inodes[p].openCount >= pinned[p]
  {
    hide RefsExact, OpensExact, DirWhole, BodyBlocks, EntriesLive;
    forall p | p in s.inodes
      ensures Blocks()(s.inodes[p]) >= 0 && s.inodes[p].refcount >= held[p] && s.inodes[p].openCount >= pinned[p]
    {
      CountsNatural(s, held, pinned, p);
      BlocksNatural(s.inodes[p].body);
    }
    SumBounds(s.inodes, Blocks());
    assert s.root in s.inodes.Keys && |s.inodes.Keys| > 0;
  }

  lemma CountsNatural(s: Fs, held: multiset<Ptr>, pinned: multiset<Ptr>, p: Ptr)
    requires RefsExact(s, held) && OpensExact(s, pinned) && p in s.inodes
    ensures s.inodes[p].refcount >= held[p] && s.inodes[p].openCount >= pinned[p]
  {
    hide BodyNaming;
    SumBounds(s.inodes, Naming(p));
    SumBounds(s.files, On(p));
  }

  lemma BlocksNatural(b: Body)
    requires DirWhole(b)
    ensures BodyBlocks(b) >= 0
  {
  }

  // ---- References held by running code ----------------------------------------------------------------------

  lemma OneMore(a: multiset<Ptr>, p: Ptr)
    ensures More(a, a + multiset{p}, p, 1)
  {
  }

  lemma OneLess(a: multiset<Ptr>, p: Ptr)
    requires p in a
    ensures More(a, a - multiset{p}, p, -1)
  {
  }

  lemma NoneMore(a: multiset<Ptr>, p: Ptr)
    ensures More(a, a, p, 0)
  {
  }

  // ---- What the calls promise -------------------------------------------------------------------------------

  /** Counting down first and freeing then is freeing. */
  lemma FreedNow(s: Fs, p: Ptr, n: FSINode)
    requires p in s.inodes && n.body == s.inodes[p].body
    ensures Freed(s.(inodes := s.inodes[p := n]), p) == Freed(s, p)
  {
    assert s.inodes[p := n] - {p} == s.inodes - {p};
  }

  /** What an inode is, apart from its contents and counts. */
  datatype Attributes = Attributes(fileType: nat, mode: nat, uid: nat, gid: nat)

  function Attrs(n: FSINode): Attributes {
    Attributes(n.fileType, n.mode, n.uid, n.gid)
  }

  /** No inode appears, and only those in `but` change their contents; none changes its attributes. */
  ghost predicate Kept(a: Inodes, b: Inodes, but: set<Ptr>) {
    forall p | p in b :: p in a && Attrs(b[p]) == Attrs(a[p]) && (p !in but ==> b[p].body == a[p].body)
  }

  lemma HeldLive(s: Fs, held: multiset<Ptr>, pinned: multiset<Ptr>, p: Ptr)
    requires Inv(s, held, pinned) && p in held
    ensures p in s.inodes
  {
    hide RefsExact, OpensExact, DirsWhole, Counted, NoLeak;
  }

  /** A name keeps the inode, whatever else is held. */
  lemma StillNamed(s: Fs, held: multiset<Ptr>, pinned: multiset<Ptr>, n: Ptr, d: Ptr, j: nat)
    requires Inv(s, held, pinned) && NamedBy(s.inodes, n, d, j)
    ensures n in s.inodes && s.inodes[n].refcount >= 1 + held[n]
  {
    hide RefsExact, OpensExact, DirWhole, Counted, NoLeak;
    assert s.inodes[d].body.entries[j].inode in s.inodes;
    NamedCounts(s, held, d, j);
  }

  /** A handle keeps the inode. */
  lemma StillOpen(s: Fs, held: multiset<Ptr>, f: Fid)
    requires Inv(s, held, multiset{}) && f in s.files
    ensures s.files[f].inode in s.inodes && s.inodes[s.files[f].inode].openCount >= 1
  {
    hide RefsExact, DirsWhole, Counted, NoLeak, EntriesLive;
    SumBounds(s.files, On(s.files[f].inode));
    assert On(s.files[f].inode)(s.files[f]) == 1;
  }

  lemma EmptyDir(s: Fs, held: multiset<Ptr>, n: Ptr)
    requires Inv(s, held, multiset{}) && n in s.inodes && s.inodes[n].body.Dir? && s.inodes[n].body.entries == []
    ensures s.inodes[n].body == Dir([], 0)
  {
    hide RefsExact, OpensExact, NoDangling, Counted, NoLeak, Distinct, EntriesSize;
    EmptySize();
    assert DirWhole(s.inodes[n].body);
  }

  lemma DotMap(b: Body, n: Ptr, n1: Ptr)
    requires b == Dir([], 0)
    ensures Added(Added(b, Dirent(".", n1)), Dirent("..", n)).Dir?
    ensures NamesOf(Added(Added(b, Dirent(".", n1)), Dirent("..", n))) == map["." := n1, ".." := n]
  {
    AddedMap(b, Dirent(".", n1));
    AddedMap(Added(b, Dirent(".", n1)), Dirent("..", n));
  }

  lemma FileLive(s: Fs, f: Fid)
    requires Inv(s, multiset{}, multiset{}) && f in s.files
    ensures s.files[f].inode in s.inodes
  {
    hide RefsExact, OpensExact, DirsWhole, Counted, NoLeak;
  }

  lemma RootLive(s: Fs)
    requires Inv(s, multiset{}, multiset{})
    ensures s.root in s.inodes
  {
    hide RefsExact, OpensExact, DirsWhole, Counted, NoLeak;
  }

  /** A search finds what the map of names holds. */
  lemma SearchMap(s: Fs, n: Ptr, name: string, i: int)
    requires Inv(s, multiset{}, multiset{}) && n in s.inodes
    requires i >= 0 <==> s.inodes[n].body.Dir? && Named(s.inodes[n].body.entries, name)
    requires i >= 0 ==> i < |s.inodes[n].body.entries| && s.inodes[n].body.entries[i].name == name
    ensures i >= 0 <==> name in NamesOf(s.inodes[n].body)
    ensures i >= 0 ==> var p := s.inodes[n].body.entries[i].inode; NamesOf(s.inodes[n].body)[name] == p && p in s.inodes
  {
    if s.inodes[n].body.Dir? {
      OneDirectory(s, multiset{}, multiset{}, n);
      hide Inv, NameMap;
      MapNames(s.inodes[n].body.entries, name);
      if i >= 0 {
        MapEntry(s.inodes[n].body.entries, i);
      }
    }
  }

  /** `n1` is a new directory, which directory `d` calls `name`. */
  ghost predicate Made(a: Inodes, b: Inodes, d: Ptr, name: string, n1: Ptr, attrs: Attributes) {
    Grown(a, b, d, name, n1) && Attrs(b[n1]) == attrs && b[n1].body.Dir?
        && NamesOf(b[n1].body) == map["." := n1, ".." := d]
  }

  /** What adding `name` to `d` returns. */
  ghost function AddError(inodes: Inodes, d: Ptr, name: string, notDir: int): int {
    if d !in inodes || !inodes[d].body.Dir? then -notDir else if name in NamesOf(inodes[d].body) then -P9_EEXIST else 0
  }

  /** `b` is `a` with one new inode `n1`, which directory `d` calls `name`; every other directory and file is as
      before. */
  ghost predicate Grown(a: Inodes, b: Inodes, d: Ptr, name: string, n1: Ptr) {
    && d in a && n1 !in a && b.Keys == a.Keys + {n1}
    && (forall p | p in a :: Attrs(b[p]) == Attrs(a[p]) && (p != d ==> b[p].body == a[p].body))
    && a[d].body.Dir? && b[d].body.Dir? && NamesOf(b[d].body) == NamesOf(a[d].body)[name := n1]
  }

  lemma GrownBy(a: Inodes, b: Inodes, d: Ptr, name: string, n1: Ptr)
    requires d in a && a[d].body.Dir? && n1 !in a && b.Keys == a.Keys + {n1}
    requires forall p | p in a :: Attrs(b[p]) == Attrs(a[p]) && (p != d ==> b[p].body == a[p].body)
    requires b[d].body == Added(a[d].body, Dirent(name, n1))
    ensures Grown(a, b, d, name, n1)
  {
    AddedMap(a[d].body, Dirent(name, n1));
  }

  predicate IsDir(inodes: Inodes, n: Ptr) {
    n in inodes && inodes[n].body.Dir?
  }

  predicate IsReg(inodes: Inodes, n: Ptr) {
    n in inodes && inodes[n].body.Reg?
  }

  ghost predicate OpenOn(files: map<Fid, FSFile>, f: Fid, n: Ptr) {
    f in files && files[f].inode == n
  }

  /** What linking `t` as `name` in `d` returns. */
  ghost function LinkError(inodes: Inodes, d: Ptr, t: Ptr, name: string): int {
    if IsDir(inodes, t) then -P9_EPERM else AddError(inodes, d, name, P9_ENOTDIR)
  }

  ghost predicate Holds(inodes: Inodes, n: Ptr, b: Body) {
    n in inodes && inodes[n].body == b
  }

  ghost predicate Has(inodes: Inodes, n: Ptr, attrs: Attributes) {
    n in inodes && Attrs(inodes[n]) == attrs
  }

  /** `b` is `a` but that directory `d` calls `t` `name`. */
  ghost predicate Linked(a: Inodes, b: Inodes, d: Ptr, name: string, t: Ptr) {
    && d in a && b.Keys == a.Keys
    && (forall p | p in a :: Attrs(b[p]) == Attrs(a[p]) && (p != d ==> b[p].body == a[p].body))
    && a[d].body.Dir? && b[d].body.Dir? && NamesOf(b[d].body) == NamesOf(a[d].body)[name := t]
  }

  /** The type bits of a mode. */
  function FileType(mode: nat): nat {
    mode / 4096 % 16
  }

  function NodeBody(fileType: nat, major: nat, minor: nat): Option<Body> {
    if fileType == FT_CHR || fileType == FT_BLK then Some(Dev(major, minor))
    else if fileType == FT_REG then Some(Reg(0))
    else if fileType == FT_FIFO || fileType == FT_SOCK then Some(Other)
    else None
  }

  lemma Resized(s: Fs, n: Ptr, size: nat)
    requires Inv(s, multiset{}, multiset{}) && n in s.inodes && s.inodes[n].body.Reg?
    ensures Inv(s.(inodes := SetBody(s.inodes, n, Reg(size)),
                   fsBlocks := s.fsBlocks + ToBlocks(size) - ToBlocks(s.inodes[n].body.size)), multiset{}, multiset{})
  {
    hide Inv, ToBlocks;
    BodyChanged(s, n, Reg(size), n, 0, multiset{}, multiset{}, multiset{});
  }

  /** A directory of nothing but "." and "..". */
  ghost predicate Bare(b: Body) {
    forall name | name in NamesOf(b) :: Dotted(name)
  }

  ghost function UnlinkError(inodes: Inodes, d: Ptr, name: string): int {
    if name == "." || name == ".." || d !in inodes || name !in NamesOf(inodes[d].body) then -P9_ENOENT
    else
      var n := NamesOf(inodes[d].body)[name];
      if IsDir(inodes, n) && !Bare(inodes[n].body) then -P9_ENOTEMPTY else 0
  }

  /** Directory `d` no longer has `name`; what it named is emptied if a directory, and may be gone. */
  ghost predicate Unlinked(a: Inodes, b: Inodes, d: Ptr, name: string) {
    && d in a && d in b && name in NamesOf(a[d].body)
    && b[d].body.Dir? && NamesOf(b[d].body) == NamesOf(a[d].body) - {name}
    && var n := NamesOf(a[d].body)[name];
       n != d && Kept(a, b, {d, n}) && (n in b ==> b[n].body == if a[n].body.Dir? then Dir([], 0) else a[n].body)
  }

  lemma EmptyMap(s: Fs, n: Ptr, empty: bool)
    requires Inv(s, multiset{}, multiset{}) && n in s.inodes && s.inodes[n].body.Dir?
    requires empty <==> forall i :: 0 <= i < |s.inodes[n].body.entries| ==> Dotted(s.inodes[n].body.entries[i].name)
    ensures empty <==> Bare(s.inodes[n].body)
  {
    hide Inv, NameMap, Dotted;
    OneDirectory(s, multiset{}, multiset{}, n);
    var es := s.inodes[n].body.entries;
    if empty {
      forall name | name in NameMap(es)
        ensures Dotted(name)
      {
        MapNames(es, name);
      }
    } else {
      var i :| 0 <= i < |es| && !Dotted(es[i].name);
      MapEntry(es, i);
    }
  }

  ghost predicate EntryAt(inodes: Inodes, n: Ptr, i: nat) {
    IsDir(inodes, n) && i < |inodes[n].body.entries|
  }

  predicate NamesDir(inodes: Inodes, d: Ptr, name: string) {
    d in inodes && name in NamesOf(inodes[d].body) && IsDir(inodes, NamesOf(inodes[d].body)[name])
  }

  function RenameError(inodes: Inodes, d: Ptr, name: string, e: Ptr, newName: string): int {
    if d !in inodes || name !in NamesOf(inodes[d].body) then -P9_ENOENT
    else if NamesDir(inodes, e, newName) then -P9_EEXIST
    else 0
  }

  /** A rename that is not refused is to a directory, as `inode_dir_add` asserts, and not onto itself. */
  predicate Movable(inodes: Inodes, d: Ptr, name: string, e: Ptr, newName: string) {
    RenameError(inodes, d, name, e, newName) == 0 ==> IsDir(inodes, e) && (d == e ==> name != newName)
  }

  /** `name` of `d` is now `newName` of `e`; no other name changes. */
  ghost predicate Renamed(a: Inodes, b: Inodes, d: Ptr, name: string, e: Ptr, newName: string) {
    && d in a && e in a && IsDir(b, d) && IsDir(b, e) && Kept(a, b, {d, e}) && name in NamesOf(a[d].body)
    && var t := NamesOf(a[d].body)[name];
       if d == e then NamesOf(b[d].body) == (NamesOf(a[d].body) - {name})[newName := t]
       else NamesOf(b[d].body) == NamesOf(a[d].body) - {name} && NamesOf(b[e].body) == NamesOf(a[e].body)[newName := t]
  }

  lemma MapMoved(m: map<string, Ptr>, m': map<string, Ptr>, name: string, newName: string, t: Ptr)
    ensures name != newName ==> (m - {newName})[newName := t] - {name} == (m - {name})[newName := t]
    ensures name != newName ==> m[newName := t] - {name} == (m - {name})[newName := t]
    ensures (m' - {newName})[newName := t] == m'[newName := t]
  {
  }

  /** An entry removed leaves its name free. */
  lemma DropLemma(s: Fs, m: Ptr, k: nat)
    requires Inv(s, multiset{}, multiset{}) && EntryAt(s.inodes, m, k)
    ensures !Named(Removed(s.inodes[m].body, k).entries, s.inodes[m].body.entries[k].name)
  {
    hide Inv, EntrySize;
    OneDirectory(s, multiset{}, multiset{}, m);
    var es := s.inodes[m].body.entries;
    assert forall l :: 0 <= l < |es| - 1 ==> Without(es, k)[l] == es[if l < k then l else l + 1];
  }

  lemma EntryLive(s: Fs, held: multiset<Ptr>, n: Ptr, i: nat)
    requires Inv(s, held, multiset{}) && EntryAt(s.inodes, n, i)
    ensures var t := s.inodes[n].body.entries[i].inode; t in s.inodes && s.inodes[t].refcount >= 1
  {
    hide RefsExact, OpensExact, DirsWhole, Counted, NoLeak;
    assert s.inodes[n].body.entries[i].inode in s.inodes;
    NamedCounts(s, held, n, i);
  }

  lemma Shrunk(s: Fs, held: multiset<Ptr>, d: Ptr, i: nat)
    requires Inv(s, held, multiset{}) && EntryAt(s.inodes, d, i)
    ensures Removed(s.inodes[d].body, i).Dir?
    ensures NamesOf(Removed(s.inodes[d].body, i)) == NamesOf(s.inodes[d].body) - {s.inodes[d].body.entries[i].name}
  {
    hide Inv, EntrySize;
    OneDirectory(s, held, multiset{}, d);
    RemovedMap(s.inodes[d].body, i);
  }

  lemma RootAlone()
    ensures Inv(Fs(map[1 := FSINode(1, 0, FT_DIR, 511, 0, 0, Dir([], 0))], map[], 1, 0, 1, 2), multiset{}, multiset{})
  {
    var n := FSINode(1, 0, FT_DIR, 511, 0, 0, Dir([], 0));
    var none: Inodes := map[];
    assert map[1 := n] == none[1 := n];
    SumPut(none, 1, n, Blocks());
    SumPut(none, 1, n, Naming(1));
  }

  // ---- Directories freed with entries -----------------------------------------------------------------------

  /** An inode is about to be freed that still has entries: the assertion of `inode_free` fails. */
  ghost predicate Broken(inodes: Inodes) {
    exists p | p in inodes :: inodes[p].refcount == 0 && inodes[p].openCount == 0 && Full(inodes[p].body)
  }

  /** Dropping this inode's one reference frees it with entries in it. */
  predicate Doomed(n: FSINode) {
    n.refcount == 1 && n.openCount == 0 && Full(n.body)
  }

  /** A directory with entries to which nothing refers but the entries of `n`. */
  ghost predicate Orphaned(inodes: Inodes, n: Ptr, t: Ptr) {
    && n in inodes && t in inodes && t != n && Full(inodes[t].body) && inodes[t].openCount == 0
    && inodes[t].refcount == BodyNaming(inodes[n].body, t) > 0
  }

  /** That is: it is not the root, no other directory names it, and nobody has it open. */
  lemma OrphanedMeans(s: Fs, n: Ptr, t: Ptr)
    requires Inv(s, multiset{}, multiset{}) && n in s.inodes && t in s.inodes && t != n && Full(s.inodes[t].body)
    requires BodyNaming(s.inodes[n].body, t) > 0
    ensures Orphaned(s.inodes, n, t) <==>
              && t != s.root && (forall d, i: nat | NamedBy(s.inodes, t, d, i) :: d == n)
              && forall f :: !OpenBy(s, t, f)
  {
    hide NoDangling, NoLeak, DirsWhole, Counted;
    var rest := s.inodes - {n};
    SumTake(s.inodes, n, Naming(t));
    SumBounds(rest, Naming(t));
    SumBounds(s.files, On(t));
    if Orphaned(s.inodes, n, t) {
      forall d, i: nat | NamedBy(s.inodes, t, d, i)
        ensures d == n
      {
        if d != n {
          assert d in rest && Naming(t)(rest[d]) == 0;
          CountZero(s.inodes[d].body.entries, t);
        }
      }
      forall f
        ensures !OpenBy(s, t, f)
      {
        assert f in s.files ==> On(t)(s.files[f]) <= 0;
      }
    } else if t != s.root && (forall d, i: nat | NamedBy(s.inodes, t, d, i) :: d == n) && forall f :: !OpenBy(s, t, f) {
      NoOtherNames(s.inodes, n, t);
      assert forall f | f in s.files :: !OpenBy(s, t, f);
      SumZero(s.files, On(t));
    }
  }

  lemma NoOtherNames(inodes: Inodes, n: Ptr, t: Ptr)
    requires forall d, i: nat | NamedBy(inodes, t, d, i) :: d == n
    ensures Sum(inodes - {n}, Naming(t)) == 0
  {
    var rest := inodes - {n};
    forall d | d in rest
      ensures Naming(t)(rest[d]) == 0
    {
      if rest[d].body.Dir? {
        forall i | 0 <= i < |rest[d].body.entries|
          ensures rest[d].body.entries[i].inode != t
        {
          assert !NamedBy(inodes, t, d, i);
        }
        NotCounted(rest[d].body.entries, t);
      }
    }
    SumZero(rest, Naming(t));
  }

  /** The inodes after a reference to `t` is dropped. */
  function Dropped(inodes: Inodes, t: Ptr): Inodes
    requires t in inodes
  {
    if inodes[t].refcount == 1 && inodes[t].openCount == 0 then inodes - {t}
    else inodes[t := inodes[t].(refcount := inodes[t].refcount - 1)]
  }

  /** The inodes after entry `i` of `n` is deleted. */
  function EntryDropped(inodes: Inodes, n: Ptr, i: nat): Inodes
    requires IsDir(inodes, n) && i < |inodes[n].body.entries| && inodes[n].body.entries[i].inode in inodes
  {
    Dropped(SetBody(inodes, n, Removed(inodes[n].body, i)), inodes[n].body.entries[i].inode)
  }

  /** Deleting an entry, unless that frees a directory with entries, leaves the rest as orphaned as they were. */
  lemma OrphansKept(a: Inodes, n: Ptr, i: nat)
    requires EntryAt(a, n, i) && a[n].body.entries[i].inode in a && !Doomed(a[a[n].body.entries[i].inode])
    requires n in EntryDropped(a, n, i)
    ensures forall t :: Orphaned(EntryDropped(a, n, i), n, t) <==> Orphaned(a, n, t)
  {
    var b := EntryDropped(a, n, i);
    forall t
      ensures Orphaned(b, n, t) <==> Orphaned(a, n, t)
    {
      CountWithout(a[n].body.entries, i, t);
    }
  }

  /** The entry whose deletion frees a directory with entries is that of an orphan. */
  lemma DoomedOrphan(s: Fs, held: multiset<Ptr>, n: Ptr, i: nat)
    requires Inv(s, held, multiset{}) && EntryAt(s.inodes, n, i) && s.inodes[n].body.entries[i].inode in s.inodes
    requires s.inodes[n].body.entries[i].inode != n && Doomed(s.inodes[s.inodes[n].body.entries[i].inode])
    ensures Orphaned(s.inodes, n, s.inodes[n].body.entries[i].inode)
  {
    hide OpensExact, NoDangling, NoLeak, DirsWhole, Counted;
    var t := s.inodes[n].body.entries[i].inode;
    SumBounds(s.inodes, Naming(t));
    assert Naming(t)(s.inodes[n]) <= 1;
    CountWithout(s.inodes[n].body.entries, i, t);
  }

  /** Closing this inode's one handle frees it. */
  predicate LastOpen(n: FSINode) {
    n.refcount == 0 && n.openCount == 1
  }

  /** Emptying the directory to be unlinked frees a directory with entries. */
  ghost predicate UnlinkTrap(inodes: Inodes, d: Ptr, name: string) {
    UnlinkError(inodes, d, name) == 0 && exists t :: Orphaned(inodes, NamesOf(inodes[d].body)[name], t)
  }

  /** The handle that creates a file is all that keeps the directory. */
  ghost predicate CreateTrap(inodes: Inodes, d: Ptr, name: string) {
    AddError(inodes, d, name, P9_ENOTDIR) == 0 && LastOpen(inodes[d])
  }

  /** The handle is all that keeps a directory with entries. */
  ghost predicate DeleteTrap(inodes: Inodes, n: Ptr) {
    n in inodes && LastOpen(inodes[n]) && Full(inodes[n].body)
  }

  lemma NamedTwice(s: Fs, held: multiset<Ptr>, n: Ptr, i: nat, d: Ptr, j: nat)
    requires Inv(s, held, multiset{}) && NamedBy(s.inodes, n, n, i) && NamedBy(s.inodes, n, d, j) && d != n
    ensures s.inodes[n].refcount >= 2
  {
    hide OpensExact, NoDangling, NoLeak, DirsWhole, Counted, BodyNaming;
    EntryCounts(s.inodes, n, n, i);
    EntryCounts(s.inodes, n, d, j);
    SumTake(s.inodes, n, Naming(n));
    SumBounds(s.inodes - {n}, Naming(n));
    assert d in s.inodes - {n} && Naming(n)((s.inodes - {n})[d]) == BodyNaming(s.inodes[d].body, n);
  }

  lemma EntryCounts(inodes: Inodes, p: Ptr, d: Ptr, i: nat)
    requires NamedBy(inodes, p, d, i)
    ensures BodyNaming(inodes[d].body, p) >= 1
  {
    if CountIn(inodes[d].body.entries, p) == 0 {
      CountZero(inodes[d].body.entries, p);
    }
  }

  lemma NotNamedYet(b: Body, e: Dirent, name: string)
    requires b == Dir([], 0) && e.name != name
    ensures Added(b, e).Dir? && !Named(Added(b, e).entries, name) && !Named(b.entries, e.name)
  {
  }

  lemma NotBare(b: Body, name: string)
    requires Bare(b) && !Dotted(name)
    ensures name !in NamesOf(b)
  {
  }

  lemma NoneOrphaned(inodes: Inodes, n: Ptr)
    requires n in inodes ==> !inodes[n].body.Dir? || inodes[n].body.entries == []
    ensures forall t :: !Orphaned(inodes, n, t)
  {
  }

  /** Deleting an entry of `n` leaves an entry of another directory, and every other body, alone. */
  lemma FlushStep(a: Inodes, n: Ptr, d: Ptr, j: nat)
    requires EntryAt(a, n, 0) && a[n].body.entries[0].inode in a && d != n && NamedBy(a, n, d, j)
    requires n in EntryDropped(a, n, 0) && d in EntryDropped(a, n, 0)
    ensures var b := EntryDropped(a, n, 0);
            && Kept(a, b, {n}) && NamedBy(b, n, d, j) && b[n].body.Dir?
            && |b[n].body.entries| < |a[n].body.entries|
  {
  }
}
