/** The in-memory filesystem's loading of files: transfers, the cache, preloads and opens. */
module FsOpen {
  import opened FsLoad
  import opened FiniteSum
  import opened Wrappers

  const P9_EIO := 5
  const P9_ENOTDIR := 20
  const P9_EINVAL := 22

  datatype PreloadFile = PreloadFile(isArchive: bool, name: string)

  datatype ArchiveFile = ArchiveFile(name: string, size: nat, fileId: nat)

  /** Truncating a file that is not loaded makes it local, if it has contents. */
  predicate Cuttable(n: Node) {
    n.state == UNLOADED && n.size != 0
  }

  /** Part `i` of archive `p`, now `n`, has left the archive's list. */
  function Parted(nodes: Nodes, p: Ptr, i: nat, n: Node): Nodes
    requires p in nodes && i < |Files(nodes, p)|
  {
    nodes[Files(nodes, p)[i] := n][p := WithFiles(nodes[p], Without(Files(nodes, p), i))]
  }

  /** What preloading may do to a file: a load may start, an archive that is loading get more parts, and a loaded file
      be given up. */
  ghost predicate Moved(a: Node, b: Node) {
    || b == a
    || (Idle(a) && Begins(a, b))
    || (a.state == LOADED && b == Node(UNLOADED, a.size, []))
    || (LoadsArchive(a) && LoadsArchive(b) && a.state.info.kind.files <= b.state.info.kind.files
        && b == WithFiles(a, b.state.info.kind.files))
  }

  /** A load starts, for nobody yet. */
  predicate Begins(a: Node, b: Node) {
    b.state.LOADING? && b.state.info.curPos == 0 && b.state.info.waiter == None && |b.fbuf| == b.size == a.size
  }

  function TotalSize(list: seq<ArchiveFile>): nat {
    if list == [] then 0 else TotalSize(list[..|list| - 1]) + list[|list| - 1].size
  }

  /** `bytes` is the contents of the listed files, one after the other. */
  ghost predicate Concatenated(content: nat -> Bytes, list: seq<ArchiveFile>, bytes: Bytes) {
    if list == [] then bytes == []
    else
      var last := list[|list| - 1];
      && last.size <= |bytes| && bytes[|bytes| - last.size..] == content(last.fileId)
      && Concatenated(content, list[..|list| - 1], bytes[..|bytes| - last.size])
  }

  /** Where in an archive a listed file is. */
  lemma {:induction false} PartAt(content: nat -> Bytes, list: seq<ArchiveFile>, bytes: Bytes, k: nat)
    requires Concatenated(content, list, bytes) && k < |list|
    ensures |bytes| == TotalSize(list) && |content(list[k].fileId)| == list[k].size
    ensures TotalSize(list[..k]) + list[k].size <= |bytes|
    ensures bytes[TotalSize(list[..k])..TotalSize(list[..k]) + list[k].size] == content(list[k].fileId)
    decreases |list|
  {
    var n := |list| - 1;
    var size := list[n].size;
    var front := bytes[..|bytes| - size];
    if n > 0 {
      PartAt(content, list[..n], front, if k < n then k else 0);
    } else {
      assert list[..n] == [];
    }
    assert |front| == TotalSize(list[..n]);
    if k < n {
      var o := TotalSize(list[..k]);
      assert list[..n][..k] == list[..k];
      assert front[o..o + list[k].size] == bytes[o..o + list[k].size];
    } else {
      assert bytes[|front|..|front| + size] == bytes[|bytes| - size..];
    }
  }

  lemma {:induction false} PartFits(list: seq<ArchiveFile>, k: nat)
    requires k < |list|
    ensures TotalSize(list[..k]) + list[k].size <= TotalSize(list)
    decreases |list|
  {
    var n := |list| - 1;
    if k < n {
      PartFits(list[..n], k);
      assert list[..n][..k] == list[..k];
    }
  }

  /** The files of a list that are in use. */
  function UsedOnly(files: map<Fid, File>, s: seq<Ptr>): seq<Ptr> {
    if s == [] then [] else (if InUse(files, s[0]) then [s[0]] else []) + UsedOnly(files, s[1..])
  }

  /** Loaded files that nobody uses may be given up; nothing else changes. */
  ghost predicate Trimmed(a: Nodes, b: Nodes, files: map<Fid, File>) {
    && a.Keys == b.Keys
    && forall p | p in a :: b[p] == a[p]
        || (a[p].state == LOADED && !InUse(files, p) && b[p] == Node(UNLOADED, a[p].size, []))
  }

  /** Preloading starts nothing for which there is no memory. */
  ghost predicate AllMoved(a: Nodes, b: Nodes, short: set<Ptr>) {
    && a.Keys == b.Keys
    && forall p | p in a :: Moved(a[p], b[p]) && (a[p].state == UNLOADED && !Fits(a, short, p) ==> b[p] == a[p])
  }

  /** Outside `on`, nothing but loaded files that nobody uses is given up; files in use stay loaded. */
  ghost predicate Confined(a: Nodes, b: Nodes, files: map<Fid, File>, on: set<Ptr>) {
    && a.Keys == b.Keys
    && forall p | p in a ::
         && (a[p].state == LOADED && InUse(files, p) ==> b[p] == a[p])
         && (p in on || b[p] == a[p]
             || (a[p].state == LOADED && !InUse(files, p) && b[p] == Node(UNLOADED, a[p].size, [])))
  }

  /** The file a path leads to, if any. */
  function Led(lookup: map<string, Ptr>, name: string): set<Ptr> {
    if name in lookup then {lookup[name]} else {}
  }

  function AllLed(lookup: map<string, Ptr>, pa: seq<ArchiveFile>): set<Ptr> {
    set k | 0 <= k < |pa| && pa[k].name in lookup :: lookup[pa[k].name]
  }

  lemma LedAt(lookup: map<string, Ptr>, pa: seq<ArchiveFile>, k: nat)
    requires k < |pa|
    ensures Led(lookup, pa[k].name) <= AllLed(lookup, pa)
  {
  }

  lemma Unconfined(a: Nodes, files: map<Fid, File>, on: set<Ptr>)
    ensures Confined(a, a, files, on)
  {
    hide InUse;
  }

  lemma ConfinedOn(a: Nodes, b: Nodes, c: Nodes, files: map<Fid, File>, s: set<Ptr>, t: set<Ptr>, on: set<Ptr>)
    requires Confined(a, b, files, s) && Confined(b, c, files, t) && s <= on && t <= on
    ensures Confined(a, c, files, on)
  {
    hide InUse;
  }

  lemma ConfinedIn(a: Nodes, b: Nodes, files: map<Fid, File>, s: set<Ptr>, on: set<Ptr>)
    requires Confined(a, b, files, s) && s <= on
    ensures Confined(a, b, files, on)
  {
    hide InUse;
  }

  lemma TrimmedConfined(a: Nodes, b: Nodes, files: map<Fid, File>, p: Ptr)
    requires p in a && p in b && Trimmed(a, b[p := a[p]], files) && a[p].state != LOADED
    ensures Confined(a, b, files, {p})
  {
    hide InUse;
    forall q | q in a && q != p
      ensures q in b && b[p := a[p]][q] == b[q]
    {
    }
    assert b.Keys == b[p := a[p]].Keys;
  }

  lemma MemberConfined(a: Nodes, was: Nodes, b: Nodes, files: map<Fid, File>, p: Ptr, q: Ptr)
    requires Trimmed(a, was, files) && p in a && q in a && p in b && q in b && LoadsArchive(a[p])
    requires a[q].state == UNLOADED && b == was[q := b[q]][p := b[p]]
    ensures Confined(a, b, files, {p, q})
  {
    hide InUse;
  }

  /** A path leads to a regular file that has not been loaded. */
  predicate ToLoad(nodes: Nodes, lookup: map<string, Ptr>, name: string) {
    name in lookup && lookup[name] in nodes && nodes[lookup[name]].state == UNLOADED
  }

  predicate AnyToLoad(nodes: Nodes, lookup: map<string, Ptr>, pa: seq<ArchiveFile>) {
    exists k | 0 <= k < |pa| :: ToLoad(nodes, lookup, pa[k].name)
  }

  /** Not loaded, or loaded so that it may be given up. */
  predicate Idle(n: Node) {
    n.state == UNLOADED || n.state == LOADED
  }

  predicate LoadsArchive(n: Node) {
    n.state.LOADING? && n.state.info.kind.Archive?
  }

  predicate LoadsAlone(n: Node) {
    n.state.LOADING? && n.state.info.kind == Single
  }

  /** File `q` is being loaded as the part of archive `p` at `offset`. */
  predicate LoadsFrom(nodes: Nodes, q: Ptr, p: Ptr, offset: nat) {
    q in nodes && nodes[q].state.LOADING? && nodes[q].state.info.kind == Member(p, offset) && q in Files(nodes, p)
  }

  lemma Joined(a: Nodes, b: Nodes, p: Ptr, q: Ptr, offset: nat)
    requires p in a && LoadsArchive(a[p]) && q in a && a[q].state == UNLOADED && q in b && p in b
    requires b[p] == WithFiles(a[p], Files(a, p) + [q])
    requires b[q].state.LOADING? && b[q].state.info.kind == Member(p, offset)
    ensures LoadsFrom(b, q, p, offset)
  {
  }

  /** No other file that was to be loaded is touched. */
  ghost predicate Spared(a: Nodes, b: Nodes, q: Ptr) {
    forall r | r in a && r != q && a[r].state == UNLOADED :: r in b && b[r] == a[r]
  }

  predicate LeadsTo(lookup: map<string, Ptr>, name: string, q: Ptr) {
    name in lookup && lookup[name] == q
  }

  /** No file that was to be loaded is touched but for those listed. */
  ghost predicate AllSpared(a: Nodes, b: Nodes, lookup: map<string, Ptr>, pa: seq<ArchiveFile>) {
    forall r | r in a && a[r].state == UNLOADED && (forall j | 0 <= j < |pa| :: !LeadsTo(lookup, pa[j].name, r)) ::
      r in b && b[r] == a[r]
  }

  lemma NoneSpared(a: Nodes, lookup: map<string, Ptr>, pa: seq<ArchiveFile>)
    ensures AllSpared(a, a, lookup, pa)
  {
  }

  lemma NextSpared(a: Nodes, b: Nodes, c: Nodes, lookup: map<string, Ptr>, pa: seq<ArchiveFile>, k: nat)
    requires k < |pa| && AllSpared(a, b, lookup, pa[..k])
    requires b == c || (pa[k].name in lookup && Spared(b, c, lookup[pa[k].name]))
    ensures AllSpared(a, c, lookup, pa[..k + 1])
  {
    var front := pa[..k + 1];
    forall r | r in a && a[r].state == UNLOADED && (forall j | 0 <= j < |front| :: !LeadsTo(lookup, front[j].name, r))
      ensures r in c && c[r] == a[r]
    {
      assert front[k] == pa[k] && front[..k] == pa[..k];
      forall j | 0 <= j < k
        ensures !LeadsTo(lookup, pa[..k][j].name, r)
      {
        assert front[j] == pa[..k][j];
      }
    }
  }

  lemma TrimmedSpares(a: Nodes, b: Nodes, files: map<Fid, File>, p: Ptr)
    requires p in a && p in b && Trimmed(a, b[p := a[p]], files)
    ensures Spared(a, b, p)
  {
    forall r | r in a && r != p && a[r].state == UNLOADED
      ensures r in b && b[r] == a[r]
    {
      assert r in b[p := a[p]] && b[p := a[p]][r] == b[r];
    }
  }

  lemma MemberSpares(a: Nodes, was: Nodes, b: Nodes, files: map<Fid, File>, p: Ptr, q: Ptr)
    requires Trimmed(a, was, files) && p in a && q in a && p in b && q in b && LoadsArchive(a[p])
    requires b == was[q := b[q]][p := b[p]]
    ensures Spared(a, b, q)
  {
  }

  /** The allocator delivers a buffer for the file. */
  predicate Fits(nodes: Nodes, short: set<Ptr>, p: Ptr)
    requires p in nodes
  {
    p !in short || nodes[p].size == 0
  }

  /** If the file was to be loaded and there is memory for it, it is being loaded. */
  ghost predicate Started(a: Nodes, b: Nodes, lookup: map<string, Ptr>, short: set<Ptr>, name: string) {
    ToLoad(a, lookup, name) && Fits(a, short, lookup[name]) ==> lookup[name] in b && b[lookup[name]].state.LOADING?
  }

  ghost predicate AllStarted(a: Nodes, b: Nodes, lookup: map<string, Ptr>, short: set<Ptr>, pa: seq<ArchiveFile>) {
    forall k | 0 <= k < |pa| :: Started(a, b, lookup, short, pa[k].name)
  }

  /** A load that has started goes on while others start. */
  lemma StartedOn(a: Nodes, b: Nodes, c: Nodes, lookup: map<string, Ptr>, short: set<Ptr>, name: string)
    requires AllMoved(a, b, short) && AllMoved(b, c, short)
    requires Started(a, b, lookup, short, name) || Started(b, c, lookup, short, name)
    ensures Started(a, c, lookup, short, name)
  {
    if ToLoad(a, lookup, name) {
      var p := lookup[name];
      assert Moved(a[p], b[p]) && Moved(b[p], c[p]);
    }
  }

  lemma AllStartedOn(a: Nodes, b: Nodes, c: Nodes, lookup: map<string, Ptr>, short: set<Ptr>, pa: seq<ArchiveFile>)
    requires AllMoved(a, b, short) && AllMoved(b, c, short)
             && (AllStarted(a, b, lookup, short, pa) || AllStarted(b, c, lookup, short, pa))
    ensures AllStarted(a, c, lookup, short, pa)
  {
    hide AllMoved, Started;
    forall k | 0 <= k < |pa|
      ensures Started(a, c, lookup, short, pa[k].name)
    {
      StartedOn(a, b, c, lookup, short, pa[k].name);
    }
  }

  lemma Unmoved(a: Nodes, short: set<Ptr>)
    ensures AllMoved(a, a, short)
  {
  }

  lemma SizeKept(a: Nodes, b: Nodes, p: Ptr, short: set<Ptr>)
    requires AllMoved(a, b, short) && p in a
    ensures p in b && b[p].size == a[p].size
    ensures LoadsArchive(a[p]) ==> LoadsArchive(b[p])
    ensures a[p].state == UNLOADED && !Fits(a, short, p) ==> b[p] == a[p]
  {
  }

  lemma MovedTwice(a: Node, b: Node, c: Node)
    requires Moved(a, b) && Moved(b, c)
    ensures Moved(a, c)
  {
  }

  lemma MovedOn(a: Nodes, b: Nodes, c: Nodes, short: set<Ptr>)
    requires AllMoved(a, b, short) && AllMoved(b, c, short)
    ensures AllMoved(a, c, short)
  {
    forall p | p in a
      ensures Moved(a[p], c[p])
    {
      MovedTwice(a[p], b[p], c[p]);
    }
    assert forall p | p in a :: Moved(a[p], b[p]);
    hide Moved;
  }

  /** Of the files in the cache, those given up are the least recently used that nobody uses. */
  ghost predicate Recent(files: map<Fid, File>, c: seq<Ptr>, d: seq<Ptr>) {
    exists k: nat | k <= |c| :: d == RecentFrom(files, c, k)
  }

  ghost function RecentFrom(files: map<Fid, File>, c: seq<Ptr>, k: nat): seq<Ptr>
    requires k <= |c|
  {
    c[..k] + UsedOnly(files, c[k..])
  }

  lemma AllRecent(files: map<Fid, File>, c: seq<Ptr>)
    ensures Recent(files, c, c)
  {
    assert RecentFrom(files, c, |c|) == c;
  }

  lemma {:induction false} UsedSplit(files: map<Fid, File>, c: seq<Ptr>, j: nat)
    requires j <= |c|
    ensures UsedOnly(files, c) == UsedOnly(files, c[..j]) + UsedOnly(files, c[j..])
    decreases |c|
  {
    if j == 0 {
      assert c[..0] == [] && c[0..] == c;
    } else {
      UsedSplit(files, c[1..], j - 1);
      assert c[1..][j - 1..] == c[j..] && c[..j][1..] == c[1..][..j - 1];
    }
  }

  lemma {:induction false} UsedAgain(files: map<Fid, File>, c: seq<Ptr>)
    requires forall p | p in c :: InUse(files, p)
    ensures UsedOnly(files, c) == c
    decreases |c|
  {
    if c != [] {
      UsedAgain(files, c[1..]);
    }
  }

  lemma RecentOn(files: map<Fid, File>, c: seq<Ptr>, d: seq<Ptr>, e: seq<Ptr>)
    requires Recent(files, c, d) && Recent(files, d, e)
    ensures Recent(files, c, e)
  {
    hide UsedOnly, InUse;
    var k: nat :| k <= |c| && d == RecentFrom(files, c, k);
    var j: nat :| j <= |d| && e == RecentFrom(files, d, j);
    UsedAll(files, c[k..]);
    if j >= k {
      assert d[j..] == UsedOnly(files, c[k..])[j - k..];
      UsedAgain(files, d[j..]);
      assert e == d;
    } else {
      UsedSplit(files, d[j..], k - j);
      UsedSplit(files, c[j..], k - j);
      UsedAgain(files, UsedOnly(files, c[k..]));
      assert d[j..][..k - j] == c[j..][..k - j] && d[j..][k - j..] == UsedOnly(files, c[k..]);
      assert c[j..][k - j..] == c[k..];
      assert e == RecentFrom(files, c, j);
    }
  }

  lemma TrimmedMoved(a: Nodes, b: Nodes, files: map<Fid, File>, short: set<Ptr>, p: Ptr)
    requires p in a && p in b && Trimmed(a, b[p := a[p]], files)
    requires a[p].state == UNLOADED && (b[p] == a[p] || (Begins(a[p], b[p]) && Fits(a, short, p)))
    ensures AllMoved(a, b, short)
  {
    forall q | q in a
      ensures q in b && Moved(a[q], b[q])
    {
      if q != p {
        assert b[p := a[p]][q] == b[q];
      }
    }
    assert b.Keys == b[p := a[p]].Keys;
  }

  lemma NoneTrimmed(nodes: Nodes, files: map<Fid, File>, s: seq<Ptr>)
    ensures Trimmed(nodes, nodes, files) && s == s[..|s|] + UsedOnly(files, s[|s|..])
  {
  }

  lemma TrimmedKeeps(a: Nodes, b: Nodes, files: map<Fid, File>, p: Ptr)
    requires Trimmed(a, b, files) && p in a && a[p].state != LOADED
    ensures p in b && b[p] == a[p]
  {
  }

  lemma TrimmedArchive(a: Nodes, b: Nodes, files: map<Fid, File>, p: Ptr)
    requires Trimmed(a, b, files) && p in a
    ensures p in b && (LoadsArchive(b[p]) <==> LoadsArchive(a[p])) && (LoadsArchive(a[p]) ==> b[p] == a[p])
  {
  }

  lemma TrimmedSince(a: Nodes, b: Nodes, files: map<Fid, File>, p: Ptr)
    requires Trimmed(a, b, files)
    ensures p in b && b[p].state == LOADED ==> p in a && b[p] == a[p]
  {
  }

  lemma TrimmedOn(a: Nodes, b: Nodes, files: map<Fid, File>, p: Ptr)
    requires Trimmed(a, b, files) && !InUse(files, p)
    ensures p in b && b[p].state == LOADED ==> Trimmed(a, b[p := Node(UNLOADED, b[p].size, [])], files)
  {
  }

  /** The list after one more file is passed: it stays if it is in use. */
  lemma OneMoreSeen(files: map<Fid, File>, s: seq<Ptr>, i: nat)
    requires i < |s|
    ensures var c := s[..i + 1] + UsedOnly(files, s[i + 1..]);
            c[i] == s[i] && s[..i] + UsedOnly(files, s[i..]) == if InUse(files, s[i]) then c else Without(c, i)
  {
    hide InUse, Without;
    assert s[i..][1..] == s[i + 1..] && s[..i + 1] == s[..i] + [s[i]];
    WithoutMiddle(s[..i], s[i], UsedOnly(files, s[i + 1..]));
  }

  lemma WithoutMiddle(a: seq<Ptr>, x: Ptr, b: seq<Ptr>)
    ensures Without(a + [x] + b, |a|) == a + b
  {
  }

  lemma {:induction false} UsedAll(files: map<Fid, File>, s: seq<Ptr>)
    ensures forall p | p in UsedOnly(files, s) :: InUse(files, p)
    decreases |s|
  {
    if s != [] {
      UsedAll(files, s[1..]);
    }
  }

  /** `Arrive` is the server sending the next `count` bytes of a file (`err` 1: more will come, 0: the last, -1: an
      error), `Free` an inode whose last name and last handle are gone, `Names` any change of what paths lead to, and
      `Memory` of which files the allocator has no memory for. */
  datatype Event =
    | AddFile(p: Ptr, size: nat)
    | AddHandle(f: Fid, p: Ptr)
    | DeleteHandle(f: Fid)
    | Close(f: Fid)
    | Open(f: Fid, directory: bool, truncate: bool)
    | Edit(p: Ptr, fbuf: Bytes)
    | Resize(p: Ptr, size: nat)
    | Arrive(p: Ptr, err: int, count: nat)
    | Free(p: Ptr)
    | Names(lookup: map<string, Ptr>)
    | Memory(short: set<Ptr>)

  predicate IsSlice(bytes: Bytes, whole: Bytes, o: nat) {
    o + |bytes| <= |whole| && whole[o..o + |bytes|] == bytes
  }

  lemma SliceOfSlice(whole: Bytes, at: nat, len: nat, o: nat, n: nat)
    requires at + len <= |whole| && o + n <= len
    ensures whole[at..at + len][o..o + n] == whole[at + o..at + o + n]
  {
    var part := whole[at..at + len];
    var a, b := part[o..o + n], whole[at + o..at + o + n];
    forall i | 0 <= i < n
      ensures a[i] == b[i]
    {
      assert a[i] == part[o + i] == whole[at + (o + i)];
    }
  }

  /** Part of a file the server holds. */
  ghost predicate Served(content: nat -> Bytes, bytes: Bytes) {
    exists id, o: nat :: IsSlice(bytes, content(id), o)
  }

  lemma ServedWhole(content: nat -> Bytes, id: nat)
    ensures Served(content, content(id))
  {
    assert IsSlice(content(id), content(id), 0);
  }

  lemma ServedPart(content: nat -> Bytes, bytes: Bytes, o: nat, n: nat)
    requires Served(content, bytes) && o + n <= |bytes|
    ensures Served(content, bytes[o..o + n])
  {
    var id, at: nat :| IsSlice(bytes, content(id), at);
    assert IsSlice(bytes[o..o + n], content(id), at + o) by { SliceOfSlice(content(id), at, |bytes|, o, n); }
  }

  /** An open of `f` is pending. */
  predicate Pending(nodes: Nodes, f: Fid) {
    exists p :: p in nodes && WaiterOf(nodes[p]).Some? && WaiterOf(nodes[p]).value.f == f
  }

  /** A token is taken by an open that is told to wait. */
  function Asked(ret: Option<int>): nat {
    if ret == Some(1) then 1 else 0
  }

  function AllAsked(rets: seq<Option<int>>): nat {
    if rets == [] then 0 else AllAsked(rets[..|rets| - 1]) + Asked(rets[|rets| - 1])
  }

  lemma NoneAsked()
    ensures AllAsked([]) == 0 && Asked(None) == 0
  {
  }

  lemma OneMoreAsked(rets: seq<Option<int>>, ret: Option<int>)
    ensures AllAsked(rets + [ret]) == AllAsked(rets) + Asked(ret)
  {
    assert (rets + [ret])[..|rets|] == rets;
  }

  /** Everything but where bytes come from. */
  datatype Moment = Moment(fs: Fs, lookup: map<string, Ptr>, short: set<Ptr>)

  /** The cache after the files of a list have been put in front, one after the other. */
  function Pushed(c: seq<Ptr>, list: seq<Ptr>): seq<Ptr> {
    if list == [] then c else [list[|list| - 1]] + Pushed(c, list[..|list| - 1])
  }

  lemma OneMorePushed(c: seq<Ptr>, list: seq<Ptr>, k: nat)
    requires k < |list|
    ensures Pushed(c, list[..k + 1]) == [list[k]] + Pushed(c, list[..k])
  {
    assert list[..k + 1][..k] == list[..k];
  }

  lemma NonePushed(c: seq<Ptr>, list: seq<Ptr>)
    ensures Pushed(c, list[..0]) == c && (list == [] ==> Pushed(c, list) == c)
  {
  }

  /** The open of `f` known as `token` waits for the file. */
  predicate AwaitedBy(nodes: Nodes, p: Ptr, f: Fid, token: nat) {
    p in nodes && WaiterOf(nodes[p]) == Some(Waiter(f, token))
  }

  function Closed(files: map<Fid, File>, f: Fid): map<Fid, File>
    requires f in files
  {
    files[f := File(files[f].inode, false)]
  }

  predicate SameContents(s: Fs, t: Fs) {
    t.nodes == s.nodes && t.cache == s.cache && t.got == s.got
  }

  /** The list without a file that was on it. */
  ghost predicate Lost(c: seq<Ptr>, d: seq<Ptr>, p: Ptr) {
    exists i: nat | i < |c| :: c[i] == p && d == Without(c, i)
  }

  ghost predicate InFront(c: seq<Ptr>, d: seq<Ptr>, p: Ptr) {
    d != [] && d[0] == p && Lost(c, d[1..], p)
  }

  /** The load without its waiting open, and with one. */
  function Unawaited(n: Node): Node {
    if n.state.LOADING? then n.(state := LOADING(n.state.info.(waiter := None))) else n
  }

  function Awaited(n: Node, f: Fid, token: nat): Node
    requires n.state.LOADING?
  {
    n.(state := LOADING(n.state.info.(waiter := Some(Waiter(f, token)))))
  }

  class FSDeviceMem {
    var nodes: Nodes
    var files: map<Fid, File>
    var cache: seq<Ptr>            // most recently used first
    var cacheSize: int
    var completed: seq<Call>       // the completion calls made
    var nextToken: nat             // opens told to wait
    var got: map<Ptr, nat>         // how much the server has sent of each file being loaded
    var lookup: map<string, Ptr>   // what paths lead to
    var short: set<Ptr>            // files for which there is no memory
    var stopped: bool              // a load record that does not exist was used
    ghost var source: Ptr -> Bytes // where the bytes of each file come from
    const cacheLimit: int
    const content: nat -> Bytes    // what the server holds, by file id
    const fileId: Ptr -> nat
    const isDir: Ptr -> bool       // of what is not a regular file
    const preloads: map<nat, seq<PreloadFile>>
    const archives: map<string, seq<ArchiveFile>>

    function View(): Fs
      reads this
    {
      Fs(nodes, files, cache, cacheSize, completed, nextToken, got)
    }

    ghost predicate Valid()
      reads this
    {
      !stopped && Inv(View(), source) && SourcesOk()
    }

    /** What is being transferred comes from its own file on the server, and all else from some part of one. */
    ghost predicate SourcesOk()
      reads this`got, this`source
    {
      && (forall p | p in got :: source(p) == content(fileId(p)))
      && (forall p :: Served(content, source(p)))
    }

    /** Every file's bytes are, or will be, those of its own file on the server. */
    ghost predicate Own()
      reads this`source
    {
      forall p :: source(p) == content(fileId(p))
    }

    /** A listed file, or every file of a listed archive, that was to be loaded is being loaded. */
    ghost predicate Preloaded(a: Nodes, b: Nodes, lookup: map<string, Ptr>, short: set<Ptr>, pf: PreloadFile) {
      if pf.isArchive then pf.name in archives ==> AllStarted(a, b, lookup, short, archives[pf.name])
      else Started(a, b, lookup, short, pf.name)
    }

    lemma PreloadedOn(a: Nodes, b: Nodes, c: Nodes, lookup: map<string, Ptr>, short: set<Ptr>, pf: PreloadFile)
      requires AllMoved(a, b, short) && AllMoved(b, c, short)
      requires Preloaded(a, b, lookup, short, pf) || Preloaded(b, c, lookup, short, pf)
      ensures Preloaded(a, c, lookup, short, pf)
    {
      hide AllMoved, Started, AllStarted;
      if pf.isArchive {
        if pf.name in archives {
          AllStartedOn(a, b, c, lookup, short, archives[pf.name]);
        }
      } else {
        StartedOn(a, b, c, lookup, short, pf.name);
      }
    }

    /** The files that an entry may cause to be loaded. */
    ghost function ListedBy(lookup: map<string, Ptr>, pf: PreloadFile): set<Ptr> {
      Led(lookup, pf.name) + if pf.isArchive && pf.name in archives then AllLed(lookup, archives[pf.name]) else {}
    }

    /** The files that are listed with a file id. */
    ghost function ListedFor(lookup: map<string, Ptr>, id: nat): set<Ptr> {
      if id in preloads then set k, q | 0 <= k < |preloads[id]| && q in ListedBy(lookup, preloads[id][k]) :: q else {}
    }

    /** Every archive is the concatenation of its listed files. */
    ghost predicate Concatenations(lookup: map<string, Ptr>) {
      forall name | name in archives && name in lookup ::
        Concatenated(content, archives[name], content(fileId(lookup[name])))
    }

    /** A listed file that may come from archive `p`, being neither loading nor local, when there is no memory for one
        of the two. */
    ghost predicate Blocked(a: Nodes, p: Ptr, paf: ArchiveFile)
      reads this`lookup, this`short
    {
      && p in a && paf.name in lookup && lookup[paf.name] in a && Idle(a[lookup[paf.name]])
      && Matches(a, lookup[paf.name], paf) && !(Fits(a, short, p) && Fits(a, short, lookup[paf.name]))
    }

    /** An archive of the size of its files may be loaded, and one of its files with it, when there is no memory for one
        of the two. The code goes on as if there were. */
    ghost predicate Starved(a: Nodes, name: string)
      reads this`lookup, this`short
    {
      && name in archives && name in lookup && lookup[name] in a && Idle(a[lookup[name]])
      && a[lookup[name]].size == TotalSize(archives[name]) && SomeBlocked(a, lookup[name], archives[name])
    }

    ghost predicate SomeBlocked(a: Nodes, p: Ptr, pa: seq<ArchiveFile>)
      reads this`lookup, this`short
    {
      exists k | 0 <= k < |pa| :: Blocked(a, p, pa[k])
    }

    /** The first entry for a file that is to be loaded from archive `p`, when there is no memory for one of the two. */
    ghost predicate SurelyBlocked(a: Nodes, p: Ptr, pa: seq<ArchiveFile>, k: nat)
      reads this`lookup, this`short
    {
      && k < |pa| && Blocked(a, p, pa[k]) && a[lookup[pa[k].name]].state == UNLOADED
      && forall j | 0 <= j < k :: !LeadsTo(lookup, pa[j].name, lookup[pa[k].name])
    }

    /** So it is with an archive listed with a file id. */
    ghost predicate ShortFor(a: Nodes, id: nat)
      reads this`lookup, this`short
    {
      id in preloads && exists j | 0 <= j < |preloads[id]| :: StarvedBy(a, preloads[id][j])
    }

    ghost predicate StarvedBy(a: Nodes, pf: PreloadFile)
      reads this`lookup, this`short
    {
      pf.isArchive && Starved(a, pf.name)
    }

    /** The file is as the list of an archive says. */
    predicate Matches(a: Nodes, q: Ptr, paf: ArchiveFile)
      requires q in a
    {
      a[q].size == paf.size && fileId(q) == paf.fileId
    }

    lemma BlockedBefore(a: Nodes, b: Nodes, p: Ptr, paf: ArchiveFile)
      requires AllMoved(a, b, short) && Blocked(b, p, paf)
      ensures Blocked(a, p, paf)
    {
      assert Moved(a[p], b[p]) && Moved(a[lookup[paf.name]], b[lookup[paf.name]]);
    }

    lemma StillBlocked(a: Nodes, b: Nodes, p: Ptr, pa: seq<ArchiveFile>, k: nat)
      requires k < |pa| && AllSpared(a, b, lookup, pa[..k]) && p in b && (p in a ==> b[p].size == a[p].size)
      ensures SurelyBlocked(a, p, pa, k) ==> ToLoad(b, lookup, pa[k].name) && Blocked(b, p, pa[k])
    {
      if SurelyBlocked(a, p, pa, k) {
        var q := lookup[pa[k].name];
        assert q in b && b[q] == a[q];
      }
    }

    /** After the load of the archive has begun, what was surely blocked is. */
    lemma BlockedSince(a: Nodes, b: Nodes, p: Ptr, pa: seq<ArchiveFile>)
      requires Spared(a, b, p) && p in a && p in b && b[p].size == a[p].size && (!Fits(a, short, p) ==> b[p] == a[p])
      ensures forall k: nat :: SurelyBlocked(a, p, pa, k) ==> SurelyBlocked(b, p, pa, k)
    {
    }

    /** A surely blocked file is still to be loaded. */
    lemma NoneBlocked(a: Nodes, p: Ptr, pa: seq<ArchiveFile>)
      requires forall k | 0 <= k < |pa| :: !ToLoad(a, lookup, pa[k].name)
      ensures (forall k: nat :: !SurelyBlocked(a, p, pa, k)) && AllStarted(a, a, lookup, short, pa)
    {
    }

    lemma SomeBlockedBefore(a: Nodes, b: Nodes, p: Ptr, pa: seq<ArchiveFile>)
      requires AllMoved(a, b, short) && SomeBlocked(b, p, pa)
      ensures SomeBlocked(a, p, pa)
    {
      hide AllMoved, Blocked;
      var k :| 0 <= k < |pa| && Blocked(b, p, pa[k]);
      BlockedBefore(a, b, p, pa[k]);
    }

    lemma StarvedBefore(a: Nodes, b: Nodes, pf: PreloadFile)
      requires AllMoved(a, b, short) && StarvedBy(b, pf)
      ensures StarvedBy(a, pf)
    {
      hide SomeBlocked;
      SomeBlockedBefore(a, b, lookup[pf.name], archives[pf.name]);
      assert Moved(a[lookup[pf.name]], b[lookup[pf.name]]);
    }

    constructor (cacheLimit: int, content: nat -> Bytes, fileId: Ptr -> nat, isDir: Ptr -> bool,
                 preloads: map<nat, seq<PreloadFile>>, archives: map<string, seq<ArchiveFile>>)
      ensures Valid() && Own() && nodes == map[] && files == map[] && lookup == map[] && short == {} && completed == []
      ensures this.content == content && this.fileId == fileId && this.isDir == isDir
      ensures this.preloads == preloads && this.archives == archives && this.cacheLimit == cacheLimit
    {
      this.cacheLimit, this.content, this.fileId, this.isDir := cacheLimit, content, fileId, isDir;
      this.preloads, this.archives := preloads, archives;
      nodes, files, cache, cacheSize, completed, nextToken, got := map[], map[], [], 0, [], 0, map[];
      lookup, short, stopped := map[], {}, false;
      source := (p: Ptr) => content(fileId(p));
      new;
      forall p
        ensures Served(content, source(p))
      {
        ServedWhole(content, fileId(p));
      }
    }

    /** Make room for `addedSize` bytes: give up loaded files, least recently used first, that nobody uses. */
    method TrimCache(addedSize: nat) returns (ghost k: nat)
      requires Valid()
      modifies this`nodes, this`cache, this`cacheSize
      ensures cacheSize + addedSize <= cacheLimit || forall p | p in cache :: InUse(files, p)
      ensures k <= |old(cache)| && cache == old(cache)[..k] + UsedOnly(files, old(cache)[k..])
      ensures old(cacheSize) + addedSize <= cacheLimit ==> nodes == old(nodes) && cache == old(cache)
      ensures old(cacheSize) + addedSize > cacheLimit && cacheSize + addedSize <= cacheLimit ==>
                && k < |old(cache)| && !InUse(files, old(cache)[k]) && old(cache)[k] in old(nodes)
                && cacheSize + old(nodes)[old(cache)[k]].size + addedSize > cacheLimit
      ensures Trimmed(old(nodes), nodes, files)
      ensures Valid()
    {
      hide Inv, InUse, SourcesOk, UsedOnly, Without, Trimmed;
      k := |cache|;
      NoneTrimmed(nodes, files, cache);
      if cacheSize + addedSize <= cacheLimit {
        return;
      }
      var i := |cache|;
      while i > 0
        invariant 0 <= i <= |old(cache)| && cache == old(cache)[..i] + UsedOnly(files, old(cache)[i..])
        invariant cacheSize + addedSize > cacheLimit
        invariant Valid() && Trimmed(old(nodes), nodes, files)
      {
        i := i - 1;
        k := i;
        var p := cache[i];
        OneMoreSeen(files, old(cache), i);
        if InUse(files, p) {
          continue;
        }
        TrimmedOn(old(nodes), nodes, files, p);
        TrimmedSince(old(nodes), nodes, files, p);
        Unload(i);
        if cacheSize + addedSize <= cacheLimit {
          return;
        }
      }
      k := 0;
      UsedAll(files, old(cache));
      assert old(cache)[..0] == [] && old(cache)[0..] == old(cache);
    }

    /** Give up the loaded file at position `i` of the cache. */
    method Unload(i: nat)
      requires i < |cache| && !InUse(files, cache[i])
      requires Valid()
      modifies this`nodes, this`cache, this`cacheSize
      ensures old(cache)[i] in old(nodes) && old(nodes)[old(cache)[i]].state == LOADED
      ensures cache == Without(old(cache), i)
      ensures cacheSize == old(cacheSize) - old(nodes)[old(cache)[i]].size
      ensures nodes == old(nodes)[old(cache)[i] := Node(UNLOADED, old(nodes)[old(cache)[i]].size, [])]
      ensures Valid()
    {
      hide CacheOk, BuffersOk, ArchivesOk, OpenedOk, WaitersOk, TokensOk;
      var p := cache[i];
      InCache(nodes, cache, cacheSize, i);
      var n := Node(UNLOADED, nodes[p].size, []);
      CacheLess(nodes, cache, cacheSize, i, n);
      BuffersIdle(nodes, got, source, p, n);
      ArchivesLoose(nodes, source, p, n);
      OpenedChanged(nodes, files, p, n);
      WaitersSame(nodes, files, completed, nextToken, p, n);
      cacheSize := cacheSize - nodes[p].size;
      nodes := nodes[p := n];
      cache := Without(cache, i);
    }

    /** A buffer of `size` bytes, holding anything, if the allocator delivers. */
    method FileBufferResize(size: nat, granted: bool) returns (ok: bool, buf: Bytes)
      ensures ok == (granted || size == 0) && (ok ==> |buf| == size)
    {
      ok := granted || size == 0;
      buf := if ok then seq(size, _ => 0) else [];
    }

    /** Start a transfer for `p`, making room in the cache first. */
    method OpenWget(p: Ptr, kind: Kind) returns (ret: int)
      requires p in nodes && nodes[p].state == UNLOADED && (kind == Single || kind == Archive([]))
      requires Valid()
      modifies this`nodes, this`cache, this`cacheSize, this`got, this`source
      ensures ret == if Fits(old(nodes), short, p) then 0 else -P9_EIO
      ensures p in nodes && Trimmed(old(nodes), nodes[p := old(nodes)[p]], files) && nodes[p].size == old(nodes)[p].size
      ensures nodes[p] == if ret == 0 then nodes[p].(state := LOADING(OpenInfo(kind, 0, None))) else old(nodes)[p]
      ensures ret == 0 ==> Begins(old(nodes)[p], nodes[p])
      ensures Recent(files, old(cache), cache) && (old(Own()) ==> Own())
      ensures Valid()
    {
      hide Inv, SourcesOk, UsedOnly, InUse;
      ghost var k := TrimCache(nodes[p].size);
      assert cache == RecentFrom(files, old(cache), k);
      var ok, buf := FileBufferResize(nodes[p].size, p !in short);
      if !ok {
        assert nodes[p := nodes[p]] == nodes;
        return -P9_EIO;
      }
      ghost var was := nodes;
      Begin(p, kind, buf);
      assert nodes[p := was[p]] == was;
      return 0;
    }

    /** The transfer for `p` is requested. */
    method Begin(p: Ptr, kind: Kind, buf: Bytes)
      requires p in nodes && nodes[p].state == UNLOADED && (kind == Single || kind == Archive([]))
               && |buf| == nodes[p].size
      requires Valid()
      modifies this`nodes, this`got, this`source
      ensures nodes == old(nodes)[p := Node(LOADING(OpenInfo(kind, 0, None)), |buf|, buf)]
      ensures got == old(got)[p := 0] && source == Redirected(old(source), p, content(fileId(p)))
      ensures Valid()
    {
      hide CacheOk, BuffersOk, ArchivesOk, OpenedOk, WaitersOk, TokensOk, Served;
      ServedWhole(content, fileId(p));
      SourceChanged(nodes, got, source, p, content(fileId(p)));
      source := Redirected(source, p, content(fileId(p)));
      var n := Node(LOADING(OpenInfo(kind, 0, None)), |buf|, buf);
      CacheSame(nodes, cache, cacheSize, p, n);
      BuffersChanged(nodes, got, source, p, n, 0);
      ArchivesLoose(nodes, source, p, n);
      OpenedChanged(nodes, files, p, n);
      WaitersSame(nodes, files, completed, nextToken, p, n);
      nodes := nodes[p := n];
      got := got[p := 0];
    }

    /** The load of `p` ends: the file is loaded, or given up, and whoever waits is told. */
    method EndLoad(p: Ptr, ok: bool)
      requires p in nodes && nodes[p].state.LOADING? && Loose(nodes[p])
      requires ok ==> BufferOk(nodes[p].(state := LOADED), 0, source(p))
      requires Valid()
      modifies this`nodes, this`files, this`cache, this`cacheSize, this`completed
      ensures nodes
              == old(nodes)[p := if ok then old(nodes)[p].(state := LOADED) else Node(UNLOADED, old(nodes)[p].size, [])]
      ensures cache == if ok then [p] + old(cache) else old(cache)
      ensures completed == Answers(old(completed), WaiterOf(old(nodes)[p]), if ok then 0 else -P9_EIO)
      ensures files == AfterAnswer(old(files), WaiterOf(old(nodes)[p]), ok)
      ensures old(completed) <= completed
      ensures Valid()
    {
      hide CacheOk, BuffersOk, ArchivesOk, OpenedOk, WaitersOk, TokensOk, WaiterOf, Answers, AfterAnswer, BufferOk;
      var n := if ok then nodes[p].(state := LOADED) else Node(UNLOADED, nodes[p].size, []);
      GivenUp(nodes[p].size, source(p));
      CacheAnswered(nodes, cache, cacheSize, p, n, ok);
      BuffersIdle(nodes, got, source, p, n);
      ArchivesLoose(nodes, source, p, n);
      OpenedAnswered(nodes, files, p, n, ok);
      AnswerAny(nodes, files, completed, nextToken, p, n, if ok then 0 else -P9_EIO);
      WaitersAnswered(nodes[p := n], files, WaiterOf(nodes[p]), ok);
      Tell(p, n, ok);
    }

    /** Store the new state and call the completion function, if there is one. */
    method Tell(p: Ptr, n: Node, ok: bool)
      requires p in nodes && nodes[p].state.LOADING?
      requires WaiterOf(nodes[p]).Some? ==>
                 !Told(completed, WaiterOf(nodes[p]).value.token) && WaiterOf(nodes[p]).value.f in files
      modifies this`nodes, this`files, this`cache, this`cacheSize, this`completed
      ensures nodes == old(nodes)[p := n]
      ensures cache == (if ok then [p] + old(cache) else old(cache))
      ensures cacheSize == (if ok then old(cacheSize) + n.size else old(cacheSize))
      ensures completed == Answers(old(completed), WaiterOf(old(nodes)[p]), if ok then 0 else -P9_EIO)
      ensures old(completed) <= completed
      ensures files == AfterAnswer(old(files), WaiterOf(old(nodes)[p]), ok)
    {
      var w := nodes[p].state.info.waiter;
      nodes := nodes[p := n];
      if ok {
        cache := [p] + cache;
        cacheSize := cacheSize + n.size;
      }
      if w.Some? {
        if ok {
          files := files[w.value.f := files[w.value.f].(isOpened := true)];
        }
        completed := completed + [Call(w.value.token, if ok then 0 else -P9_EIO)];
      }
    }

    /** The load of part `i` of archive `p` ends, and it leaves the archive's list. */
    method EndMember(p: Ptr, i: nat, ok: bool)
      requires p in nodes && i < |Files(nodes, p)|
      requires var q := Files(nodes, p)[i]; q in nodes && p != q && nodes[q].state.LOADING? &&
                                            (ok ==> BufferOk(nodes[q].(state := LOADED), 0, source(q)))
      requires Valid()
      modifies this`nodes, this`files, this`cache, this`cacheSize, this`completed
      ensures var q := Files(old(nodes), p)[i];
              && completed == Answers(old(completed), WaiterOf(old(nodes)[q]), if ok then 0 else -P9_EIO)
              && nodes == Parted(old(nodes), p, i, if ok then old(nodes)[q].(state := LOADED)
                  else Node(UNLOADED, old(nodes)[q].size, []))
      ensures cache == if ok then [Files(old(nodes), p)[i]] + old(cache) else old(cache)
      ensures !ok ==> files == old(files)
      ensures Valid()
    {
      hide CacheOk, BuffersOk, ArchivesOk, OpenedOk, WaitersOk, TokensOk, WaiterOf, Answers, BufferOk, Without,
          SourcesOk;
      var q := Files(nodes, p)[i];
      var n := if ok then nodes[q].(state := LOADED) else Node(UNLOADED, nodes[q].size, []);
      GivenUp(nodes[q].size, source(q));
      CacheAnswered(nodes, cache, cacheSize, q, n, ok);
      BuffersIdle(nodes, got, source, q, n);
      MemberRemoved(nodes, source, p, i, n);
      OpenedAnswered(nodes, files, q, n, ok);
      AnswerAny(nodes, files, completed, nextToken, q, n, if ok then 0 else -P9_EIO);
      WaitersAnswered(nodes[q := n], files, WaiterOf(nodes[q]), ok);
      Tell(q, n, ok);
      var rest := Without(Files(nodes, p), i);
      ListEdited(nodes, files, cache, cacheSize, completed, nextToken, got, source, p, rest);
      nodes := nodes[p := WithFiles(nodes[p], rest)];
    }

    /** Copy the part of archive `p` that is file `q`, a kilobyte at a time. */
    method CopyMember(p: Ptr, q: Ptr, offset: nat)
      requires p in nodes && q in nodes && p != q && |nodes[q].fbuf| == nodes[q].size
      requires offset + nodes[q].size <= |nodes[p].fbuf|
      modifies this`nodes
      ensures nodes == old(nodes)[q := old(nodes)[q].(fbuf := old(nodes)[p].fbuf[offset..offset + old(nodes)[q].size])]
    {
      var size := nodes[q].size;
      ghost var src := nodes[p].fbuf;
      var pos1 := 0;
      while pos1 < size
        invariant pos1 <= size && q in nodes && |nodes[q].fbuf| == size
        invariant nodes == old(nodes)[q := old(nodes)[q].(fbuf := nodes[q].fbuf)]
        invariant nodes[q].fbuf[..pos1] == src[offset..offset + pos1]
      {
        var l := if size - pos1 > 1024 then 1024 else size - pos1;
        var buf := nodes[p].fbuf[offset + pos1..offset + pos1 + l];
        var f := nodes[q].fbuf;
        var f' := f[..pos1] + buf + f[pos1 + l..];
        assert f'[..pos1 + l] == f[..pos1] + buf;
        assert src[offset..offset + pos1] + buf == src[offset..offset + (pos1 + l)];
        nodes := nodes[q := nodes[q].(fbuf := f')];
        pos1 := pos1 + l;
      }
      assert nodes[q].fbuf[..size] == nodes[q].fbuf;
    }

    /** Storing in the buffer of a part disturbs nothing. */
    method FillMember(p: Ptr, q: Ptr)
      requires q in Files(nodes, p) && p in nodes && nodes[p].size <= |source(p)|
               && nodes[p].fbuf == source(p)[..nodes[p].size]
      requires Valid()
      modifies this`nodes
      ensures q in nodes && p in nodes && p != q && nodes[p] == old(nodes)[p] && nodes[q].state.LOADING?
      ensures BufferOk(nodes[q].(state := LOADED), 0, source(q))
      ensures q in old(nodes) && nodes == old(nodes)[q := old(nodes)[q].(fbuf := nodes[q].fbuf)]
      ensures Valid()
    {
      hide CacheOk, BuffersOk, OpenedOk, WaitersOk, TokensOk, ArchivesOk, BufferOk;
      MemberFacts(nodes, got, source, p, q);
      ghost var buf := nodes[p].fbuf[nodes[q].state.info.kind.offset..nodes[q].state.info.kind.offset + nodes[q].size];
      ghost var n := nodes[q].(fbuf := buf);
      CacheSame(nodes, cache, cacheSize, q, n);
      BuffersIdle(nodes, got, source, q, n);
      ArchivesSame(nodes, source, q, n);
      OpenedChanged(nodes, files, q, n);
      WaitersSame(nodes, files, completed, nextToken, q, n);
      CopyMember(p, q, nodes[q].state.info.kind.offset);
    }

    /** The next part gets its bytes and is loaded. */
    method LoadPart(p: Ptr)
      requires p in nodes && Files(nodes, p) != []
      requires nodes[p].size <= |source(p)| && nodes[p].fbuf == source(p)[..nodes[p].size]
      requires Valid()
      modifies this`nodes, this`files, this`cache, this`cacheSize, this`completed
      ensures var q := Files(old(nodes), p)[0];
              && q in old(nodes) && q in nodes && nodes[q].state == LOADED && nodes[q].size == old(nodes)[q].size
              && nodes == Parted(old(nodes), p, 0, nodes[q])
              && completed == Answers(old(completed), WaiterOf(old(nodes)[q]), 0) && cache == [q] + old(cache)
      ensures Valid()
    {
      hide Inv, BufferOk, Answers;
      var q := Files(nodes, p)[0];
      assert q in Files(nodes, p);
      PartOf(View(), source, p, q);
      FillMember(p, q);
      EndMember(p, 0, true);
    }

    /** The archive is there: every part gets its bytes and is loaded. */
    method ReadArchive(p: Ptr)
      requires p in nodes && nodes[p].state.LOADING? && nodes[p].state.info.kind.Archive?
      requires nodes[p].size <= |source(p)| && nodes[p].fbuf == source(p)[..nodes[p].size]
      requires Valid()
      modifies this`nodes, this`files, this`cache, this`cacheSize, this`completed
      ensures PartsDone(old(nodes), nodes, p, Files(old(nodes), p), |Files(old(nodes), p)|, true)
      ensures completed == old(completed) + PartAnswers(old(nodes), Files(old(nodes), p), 0)
      ensures cache == Pushed(old(cache), Files(old(nodes), p))
      ensures Valid()
    {
      hide Inv, BufferOk, PartsDone, Answers;
      ghost var list, k := Files(nodes, p), 0;
      ListFacts(View(), source, p);
      NoneDone(nodes, p, true);
      while Files(nodes, p) != []
        invariant k <= |list| && PartsDone(old(nodes), nodes, p, list, k, true) && Files(nodes, p) == list[k..]
        invariant p in nodes && nodes[p].size == old(nodes)[p].size && nodes[p].fbuf == old(nodes)[p].fbuf
        invariant completed == old(completed) + PartAnswers(old(nodes), list[..k], 0)
        invariant cache == Pushed(old(cache), list[..k])
        invariant Valid()
        decreases |Files(nodes, p)|
      {
        ghost var was := nodes;
        LoadPart(p);
        OneMoreDone(old(nodes), was, nodes, p, list, k, true);
        OneMoreAnswer(old(nodes), list, k, old(completed), 0);
        OneMorePushed(old(cache), list, k);
        k := k + 1;
      }
      assert list[..k] == list;
    }

    /** The archive did not come: neither do its parts. */
    method ErrorArchive(p: Ptr)
      requires p in nodes && nodes[p].state.LOADING? && nodes[p].state.info.kind.Archive?
      requires Valid()
      modifies this`nodes, this`files, this`cache, this`cacheSize, this`completed
      ensures PartsDone(old(nodes), nodes, p, Files(old(nodes), p), |Files(old(nodes), p)|, false)
      ensures completed == old(completed) + PartAnswers(old(nodes), Files(old(nodes), p), -P9_EIO)
      ensures cache == old(cache) && files == old(files)
      ensures Valid()
    {
      hide Inv, BufferOk, PartsDone, Answers;
      ghost var list, k := Files(nodes, p), 0;
      ListFacts(View(), source, p);
      NoneDone(nodes, p, false);
      while Files(nodes, p) != []
        invariant k <= |list| && PartsDone(old(nodes), nodes, p, list, k, false) && Files(nodes, p) == list[k..]
        invariant p in nodes && completed == old(completed) + PartAnswers(old(nodes), list[..k], -P9_EIO)
        invariant cache == old(cache) && files == old(files)
        invariant Valid()
        decreases |Files(nodes, p)|
      {
        ghost var was := nodes;
        PartOf(View(), source, p, Files(nodes, p)[0]);
        EndMember(p, 0, false);
        OneMoreDone(old(nodes), was, nodes, p, list, k, false);
        OneMoreAnswer(old(nodes), list, k, old(completed), -P9_EIO);
        k := k + 1;
      }
      assert list[..k] == list;
    }

    /** Data arrives for `p`. */
    method WriteCb(p: Ptr, data: Bytes)
      requires p in nodes && Transfers(nodes[p]) && p in got && got[p] + |data| <= |source(p)|
      requires data == source(p)[got[p]..got[p] + |data|]
      requires Valid()
      modifies this`nodes, this`got
      ensures p in nodes && Transfers(nodes[p]) && nodes[p].state.info.waiter == old(nodes)[p].state.info.waiter
      ensures nodes[p].size == old(nodes)[p].size && nodes[p].state.info.kind == old(nodes)[p].state.info.kind
      ensures nodes == old(nodes)[p := nodes[p]] && got == old(got)[p := old(got)[p] + |data|]
      ensures Valid()
    {
      hide CacheOk, BuffersOk, ArchivesOk, OpenedOk, WaitersOk, TokensOk, BufferOk;
      OneBuffer(nodes, got, source, p);
      DeliveredOk(nodes[p], got[p], source(p), data);
      var n := Delivered(nodes[p], data);
      CacheSame(nodes, cache, cacheSize, p, n);
      BuffersChanged(nodes, got, source, p, n, got[p] + |data|);
      ArchivesSame(nodes, source, p, n);
      OpenedChanged(nodes, files, p, n);
      WaitersSame(nodes, files, completed, nextToken, p, n);
      nodes := nodes[p := n];
      got := got[p := got[p] + |data|];
    }

    /** The transfer for `p` fails. */
    method Fail(p: Ptr)
      requires p in nodes && Transfers(nodes[p])
      requires Valid()
      modifies this`nodes, this`files, this`cache, this`cacheSize, this`completed
      ensures p in nodes && nodes.Keys == old(nodes).Keys && nodes[p] == Node(UNLOADED, old(nodes)[p].size, [])
      ensures Settled(old(nodes), nodes, p, false)
      ensures completed == old(completed) + EndAnswers(old(nodes), p, -P9_EIO)
      ensures cache == old(cache) && files == old(files)
      ensures Valid()
    {
      hide Inv, BufferOk, SourcesOk, PartAnswers, PartsDone, Settled;
      if nodes[p].state.info.kind.Archive? {
        ErrorArchive(p);
        AllDone(old(nodes), nodes, p, false);
      } else {
        NoAnswers(nodes, Files(nodes, p), -P9_EIO);
        NoParts(nodes, p, false);
      }
      PartsSettled(old(nodes), nodes, p, Node(UNLOADED, nodes[p].size, []), false);
      EndLoad(p, false);
    }

    /** A transfer's callback: more data, the last data, or an error. */
    method OpenCb(p: Ptr, err: int, data: Bytes)
      requires p in nodes && Transfers(nodes[p]) && p in got
      requires var bytes := content(fileId(p));
               && (err >= 0 ==> got[p] + |data| <= |bytes| && data == bytes[got[p]..got[p] + |data|])
               && (err == 0 ==> got[p] + |data| == |bytes|)
      requires Valid()
      modifies this`nodes, this`files, this`cache, this`cacheSize, this`completed, this`got
      ensures p in nodes && nodes[p].size == old(nodes)[p].size
      ensures err > 0 ==> Transfers(nodes[p]) && nodes == old(nodes)[p := nodes[p]] && completed == old(completed)
                          && got == old(got)[p := old(got)[p] + |data|] && cache == old(cache)
      ensures var bytes := content(fileId(p));
              && (err == 0 && nodes[p].size <= |bytes| ==>
                    && nodes[p] == Node(LOADED, nodes[p].size, bytes[..nodes[p].size])
                    && Settled(old(nodes), nodes, p, true)
                    && completed == old(completed) + EndAnswers(old(nodes), p, 0)
                    && cache == [p] + Pushed(old(cache), Files(old(nodes), p)))
              && (err < 0 || (err == 0 && nodes[p].size > |bytes|) ==>
                    && nodes[p] == Node(UNLOADED, nodes[p].size, [])
                    && Settled(old(nodes), nodes, p, false)
                    && completed == old(completed) + EndAnswers(old(nodes), p, -P9_EIO)
                    && cache == old(cache))
      ensures Valid()
    {
      hide Inv, BufferOk, EndAnswers, Served, Settled, Pushed;
      if err < 0 {
        Fail(p);
        return;
      }
      WriteCb(p, data);
      SameAnswers(old(nodes), nodes, p, 0);
      SameAnswers(old(nodes), nodes, p, -P9_EIO);
      if err == 0 {
        Progress(View(), source, p);
        ghost var was := nodes;
        if nodes[p].state.info.curPos != nodes[p].size {
          Fail(p);
          SettledSince(old(nodes), was, nodes, p, false);
          return;
        }
        Complete(p);
        SettledSince(old(nodes), was, nodes, p, true);
      }
    }

    /** The last byte of `p` is in place. */
    method Complete(p: Ptr)
      requires p in nodes && Transfers(nodes[p]) && p in got && nodes[p].state.info.curPos == nodes[p].size
      requires Valid()
      modifies this`nodes, this`files, this`cache, this`cacheSize, this`completed
      ensures p in nodes && nodes[p].size == old(nodes)[p].size && nodes[p].size <= |source(p)|
      ensures nodes[p] == Node(LOADED, nodes[p].size, source(p)[..nodes[p].size])
      ensures Settled(old(nodes), nodes, p, true)
      ensures completed == old(completed) + EndAnswers(old(nodes), p, 0)
      ensures cache == [p] + Pushed(old(cache), Files(old(nodes), p))
      ensures Valid()
    {
      hide Inv, BufferOk, PartsDone, Settled, PartAnswers, SourcesOk, Pushed;
      Progress(View(), source, p);
      FullOk(nodes[p], got[p], source(p));
      if nodes[p].state.info.kind.Archive? {
        ReadArchive(p);
        AllDone(old(nodes), nodes, p, true);
        LoadedAgain(nodes[p], old(nodes)[p], source(p));
      } else {
        NoAnswers(nodes, Files(nodes, p), 0);
        NonePushed(cache, Files(nodes, p));
        NoParts(nodes, p, true);
      }
      PartsSettled(old(nodes), nodes, p, nodes[p].(state := LOADED), true);
      EndLoad(p, true);
    }

    /** Start loading `q` as the part of archive `p` at `offset`. If the load of either could not be started, its record
        is used all the same. */
    method OpenMember(q: Ptr, p: Ptr, offset: nat)
      requires p in nodes && q in nodes && nodes[q].state == UNLOADED
      requires LoadsArchive(nodes[p]) ==> offset + nodes[q].size <= nodes[p].size
      requires Valid()
      modifies this`nodes, this`cache, this`cacheSize, this`got, this`source, this`stopped
      ensures stopped <==> !LoadsArchive(old(nodes)[p]) || !Fits(old(nodes), short, q)
      ensures !stopped ==> q in nodes && nodes[q].state.LOADING? && AllMoved(old(nodes), nodes, short)
      ensures !stopped ==> offset + old(nodes)[q].size <= old(nodes)[p].size
                           && source == Redirected(old(source), q, MemberSource(old(nodes), old(source), q, p, offset))
      ensures !stopped ==> Spared(old(nodes), nodes, q) && Confined(old(nodes), nodes, files, {p, q})
      ensures !stopped ==> LoadsFrom(nodes, q, p, offset) && Recent(files, old(cache), cache)
      ensures !stopped ==> Valid()
    {
      hide Inv, SourcesOk, Trimmed, AllMoved, Served, Files, UsedOnly, InUse, Spared, WithFiles, LoadsArchive,
          Redirected, Confined;
      ghost var k := TrimCache(nodes[q].size);
      assert cache == RecentFrom(files, old(cache), k);
      TrimmedKeeps(old(nodes), nodes, files, q);
      TrimmedArchive(old(nodes), nodes, files, p);
      var ok, buf := FileBufferResize(nodes[q].size, q !in short);
      if !ok || !LoadsArchive(nodes[p]) {
        stopped := true;
        return;
      }
      ghost var was := nodes;
      AddMember(q, p, offset, buf);
      MemberMoved(old(nodes), was, nodes, files, short, p, q, nodes[q], Files(was, p) + [q]);
      MemberSpares(old(nodes), was, nodes, files, p, q);
      MemberConfined(old(nodes), was, nodes, files, p, q);
      Joined(was, nodes, p, q, offset);
    }

    /** File `q`, with a buffer, becomes a part of archive `p`, and its bytes come from there. */
    method AddMember(q: Ptr, p: Ptr, offset: nat, buf: Bytes)
      requires p in nodes && q in nodes && nodes[q].state == UNLOADED && |buf| == nodes[q].size
      requires LoadsArchive(nodes[p]) && offset + nodes[q].size <= nodes[p].size
      requires Valid()
      modifies this`nodes, this`got, this`source
      ensures q in nodes && nodes[q] == Node(LOADING(OpenInfo(Member(p, offset), 0, None)), |buf|, buf)
      ensures nodes == old(nodes)[q := nodes[q]][p := WithFiles(old(nodes)[p], Files(old(nodes), p) + [q])]
      ensures source == Redirected(old(source), q, MemberSource(old(nodes), old(source), q, p, offset))
      ensures Valid()
    {
      hide Inv, Served, Files;
      MemberServed(q, p, offset);
      Redirect(q, MemberSource(nodes, source, q, p, offset));
      BeginMember(q, p, offset, buf);
    }

    /** File `q` is put on the list of archive `p`. */
    method BeginMember(q: Ptr, p: Ptr, offset: nat, buf: Bytes)
      requires p in nodes && q in nodes && p != q && nodes[q].state == UNLOADED && |buf| == nodes[q].size
      requires nodes[p].state.LOADING? && nodes[p].state.info.kind.Archive? && offset + nodes[q].size <= nodes[p].size
      requires nodes[p].size <= |source(p)| ==> source(q) == source(p)[offset..offset + nodes[q].size]
      requires Valid()
      modifies this`nodes
      ensures q in nodes && nodes[q] == Node(LOADING(OpenInfo(Member(p, offset), 0, None)), |buf|, buf)
      ensures nodes == old(nodes)[q := nodes[q]][p := WithFiles(old(nodes)[p], Files(old(nodes), p) + [q])]
      ensures Valid()
    {
      hide CacheOk, BuffersOk, ArchivesOk, OpenedOk, WaitersOk, TokensOk, BufferOk, SourcesOk;
      var n := Node(LOADING(OpenInfo(Member(p, offset), 0, None)), |buf|, buf);
      CacheSame(nodes, cache, cacheSize, q, n);
      PartBuffer(n, source(q));
      BuffersIdle(nodes, got, source, q, n);
      MemberAdded(nodes, source, p, q, n);
      OpenedChanged(nodes, files, q, n);
      WaitersSame(nodes, files, completed, nextToken, q, n);
      nodes := nodes[q := n];
      var list := Files(nodes, p) + [q];
      ListEdited(nodes, files, cache, cacheSize, completed, nextToken, got, source, p, list);
      nodes := nodes[p := WithFiles(nodes[p], list)];
    }

    /** The bytes of a part: those at its place in the archive, if the archive has them all. */
    ghost function MemberSource(nodes: Nodes, source: Ptr -> Bytes, q: Ptr, p: Ptr, offset: nat): Bytes
      requires p in nodes && q in nodes && offset + nodes[q].size <= nodes[p].size
    {
      if nodes[p].size <= |source(p)| then source(p)[offset..offset + nodes[q].size] else content(fileId(q))
    }

    lemma MemberServed(q: Ptr, p: Ptr, offset: nat)
      requires p in nodes && q in nodes && offset + nodes[q].size <= nodes[p].size && SourcesOk()
      ensures Served(content, MemberSource(nodes, source, q, p, offset))
    {
      hide Served;
      ServedWhole(content, fileId(q));
      if nodes[p].size <= |source(p)| {
        ServedPart(content, source(p), offset, nodes[q].size);
      }
    }

    /** The bytes of a file that is not being loaded will come from elsewhere. */
    method Redirect(q: Ptr, ghost bytes: Bytes)
      requires q in nodes && nodes[q].state == UNLOADED && Served(content, bytes)
      requires Valid()
      modifies this`got, this`source
      ensures got == old(got) - {q} && source == Redirected(old(source), q, bytes)
      ensures Valid()
    {
      hide CacheOk, BuffersOk, ArchivesOk, OpenedOk, WaitersOk, TokensOk, Served;
      SourceChanged(nodes, got, source, q, bytes);
      source := Redirected(source, q, bytes);
      GotDropped(nodes, got, source, q);
      got := got - {q};
    }

    /** Start loading a file by name, if that is possible. */
    method PreloadFile(name: string)
      requires Valid()
      modifies this`nodes, this`cache, this`cacheSize, this`got, this`source
      ensures Started(old(nodes), nodes, lookup, short, name)
      ensures AllMoved(old(nodes), nodes, short) && (old(Own()) ==> Own())
      ensures nodes == old(nodes) || (name in lookup && Spared(old(nodes), nodes, lookup[name]))
      ensures ToLoad(old(nodes), lookup, name) && Fits(old(nodes), short, lookup[name]) ==>
                lookup[name] in nodes && LoadsAlone(nodes[lookup[name]])
      ensures Confined(old(nodes), nodes, files, Led(lookup, name)) && Recent(files, old(cache), cache)
      ensures Valid()
    {
      hide Inv, Trimmed, Moved, Spared, Confined, Recent;
      Unmoved(nodes, short);
      Unconfined(nodes, files, Led(lookup, name));
      AllRecent(files, cache);
      if ToLoad(nodes, lookup, name) {
        var ret := OpenWget(lookup[name], Single);
        TrimmedMoved(old(nodes), nodes, files, short, lookup[name]);
        TrimmedSpares(old(nodes), nodes, files, lookup[name]);
        TrimmedConfined(old(nodes), nodes, files, lookup[name]);
      }
    }

    /** The sizes listed add up to `offset`; is any of the files still to be loaded? */
    method Survey(pa: seq<ArchiveFile>) returns (hasUnloaded: bool, offset: nat)
      ensures offset == TotalSize(pa)
      ensures hasUnloaded <==> AnyToLoad(nodes, lookup, pa)
    {
      hasUnloaded, offset := false, 0;
      for k := 0 to |pa|
        invariant offset == TotalSize(pa[..k])
        invariant hasUnloaded <==> exists j | 0 <= j < k :: ToLoad(nodes, lookup, pa[j].name)
      {
        if ToLoad(nodes, lookup, pa[k].name) {
          hasUnloaded := true;
        }
        assert pa[..k + 1][..k] == pa[..k];
        offset := offset + pa[k].size;
      }
      assert pa[..|pa|] == pa;
    }

    /** An archive of the size of its files is to be loaded, and one of its files. */
    ghost predicate ByArchive(a: Nodes, lookup: map<string, Ptr>, name: string) {
      && name in archives && ToLoad(a, lookup, name) && a[lookup[name]].size == TotalSize(archives[name])
      && AnyToLoad(a, lookup, archives[name])
    }

    /** The files that may be loaded with an archive, and the archive itself if it may. */
    ghost function ArchiveLed(a: Nodes, lookup: map<string, Ptr>, name: string): set<Ptr> {
      if name !in archives then {}
      else AllLed(lookup, archives[name]) + if ByArchive(a, lookup, name) then Led(lookup, name) else {}
    }

    /** Load an archive and the files in it that are not loaded; if it does not fit its list, load the files one by
        one. */
    method PreloadArchive(name: string)
      requires Valid()
      modifies this`nodes, this`cache, this`cacheSize, this`got, this`source, this`stopped
      ensures stopped ==> Starved(old(nodes), name)
      ensures !stopped && ToLoad(old(nodes), lookup, name) && Starved(old(nodes), name) ==>
                forall k: nat | k < |archives[name]| :: !SurelyBlocked(old(nodes), lookup[name], archives[name], k)
      ensures !stopped && name in archives ==> AllStarted(old(nodes), nodes, lookup, short, archives[name])
      ensures !stopped ==> AllMoved(old(nodes), nodes, short) && (old(Own()) && Concatenations(lookup) ==> Own())
      ensures !stopped ==> Confined(old(nodes), nodes, files, ArchiveLed(old(nodes), lookup, name))
      ensures !stopped ==> Recent(files, old(cache), cache)
      ensures !stopped && ByArchive(old(nodes), lookup, name) && Fits(old(nodes), short, lookup[name]) ==>
                lookup[name] in nodes && LoadsArchive(nodes[lookup[name]])
      ensures name in archives && ToLoad(old(nodes), lookup, name) && !AnyToLoad(old(nodes), lookup, archives[name]) ==>
                nodes == old(nodes)
      ensures !stopped ==> Valid()
    {
      hide Inv, AllMoved, AllStarted, Concatenated, Served, SomeBlocked, SurelyBlocked, Own, Confined, Recent;
      Unmoved(nodes, short);
      Unconfined(nodes, files, ArchiveLed(nodes, lookup, name));
      AllRecent(files, cache);
      if name !in archives {
        return;
      }
      var pa := archives[name];
      if ToLoad(nodes, lookup, name) {
        var p := lookup[name];
        var hasUnloaded, offset := Survey(pa);
        if !hasUnloaded {
          NoneBlocked(nodes, p, pa);
          return;
        }
        if offset == nodes[p].size {
          LoadArchive(pa, p);
          if !stopped {
            ConfinedIn(old(nodes), nodes, files, AllLed(lookup, pa) + {p}, ArchiveLed(old(nodes), lookup, name));
          }
          return;
        }
      }
      PreloadEach(pa);
      ConfinedIn(old(nodes), nodes, files, AllLed(lookup, pa), ArchiveLed(old(nodes), lookup, name));
    }

    /** Load an archive of the size of its files. */
    method LoadArchive(pa: seq<ArchiveFile>, p: Ptr)
      requires p in nodes && nodes[p].state == UNLOADED && nodes[p].size == TotalSize(pa)
      requires Valid()
      modifies this`nodes, this`cache, this`cacheSize, this`got, this`source, this`stopped
      ensures stopped ==> SomeBlocked(old(nodes), p, pa)
      ensures !stopped ==> forall k: nat | k < |pa| :: !SurelyBlocked(old(nodes), p, pa, k)
      ensures !stopped ==> AllStarted(old(nodes), nodes, lookup, short, pa) && AllMoved(old(nodes), nodes, short)
      ensures !stopped && old(Own()) && Concatenated(content, pa, content(fileId(p))) ==> Own()
      ensures !stopped ==> Confined(old(nodes), nodes, files, AllLed(lookup, pa) + {p})
      ensures !stopped ==> Recent(files, old(cache), cache)
      ensures !stopped && Fits(old(nodes), short, p) ==> p in nodes && LoadsArchive(nodes[p])
      ensures !stopped ==> Valid()
    {
      hide Inv, Trimmed, Moved, AllMoved, AllStarted, Concatenated, Served, SomeBlocked, SurelyBlocked, Spared, Own;
      hide Confined, Recent;
      ghost var c := cache;
      var ret := OpenWget(p, Archive([]));
      TrimmedConfined(old(nodes), nodes, files, p);
      ghost var d := cache;
      TrimmedMoved(old(nodes), nodes, files, short, p);
      TrimmedSpares(old(nodes), nodes, files, p);
      ghost var was := nodes;
      LoadParts(pa, p);
      if stopped {
        SomeBlockedBefore(old(nodes), was, p, pa);
        return;
      }
      BlockedSince(old(nodes), was, p, pa);
      ConfinedOn(old(nodes), was, nodes, files, {p}, AllLed(lookup, pa) + {p}, AllLed(lookup, pa) + {p});
      RecentOn(files, c, d, cache);
      SizeKept(was, nodes, p, short);
      MovedOn(old(nodes), was, nodes, short);
      AllStartedOn(old(nodes), was, nodes, lookup, short, pa);
    }

    /** The load of the archive has begun, or there was no memory for it. */
    predicate Begun(p: Ptr)
      reads this`nodes, this`short
    {
      p in nodes && if Fits(nodes, short, p) then LoadsArchive(nodes[p]) else nodes[p].state == UNLOADED
    }

    /** The first `k` listed files are being loaded, if they were to be. */
    ghost predicate Passed(a: Nodes, b: Nodes, p: Ptr, pa: seq<ArchiveFile>, k: nat)
      reads this`lookup, this`short, this`files
    {
      && Confined(a, b, files, AllLed(lookup, pa) + {p})
      && k <= |pa| && AllMoved(a, b, short) && AllStarted(a, b, lookup, short, pa[..k])
      && AllSpared(a, b, lookup, pa[..k]) && forall j: nat | j < k :: !SurelyBlocked(a, p, pa, j)
    }

    lemma NonePassed(a: Nodes, p: Ptr, pa: seq<ArchiveFile>)
      ensures Passed(a, a, p, pa, 0)
    {
      Unmoved(a, short);
      Unconfined(a, files, AllLed(lookup, pa) + {p});
      NoneSpared(a, lookup, pa[..0]);
    }

    lemma PartFails(a: Nodes, b: Nodes, p: Ptr, pa: seq<ArchiveFile>, k: nat)
      requires k < |pa| && Passed(a, b, p, pa, k) && Blocked(b, p, pa[k])
      ensures SomeBlocked(a, p, pa)
    {
      hide AllMoved, Blocked;
      BlockedBefore(a, b, p, pa[k]);
    }

    lemma PartPasses(a: Nodes, b: Nodes, c: Nodes, p: Ptr, pa: seq<ArchiveFile>, k: nat)
      requires k < |pa| && Passed(a, b, p, pa, k) && p in b && (p in a ==> b[p].size == a[p].size)
      requires !ToLoad(b, lookup, pa[k].name) ==> c == b
      requires ToLoad(b, lookup, pa[k].name) ==>
                 && !Blocked(b, p, pa[k]) && Started(b, c, lookup, short, pa[k].name) && AllMoved(b, c, short)
                 && (c == b || Spared(b, c, lookup[pa[k].name])) && Confined(b, c, files, {p} + Led(lookup, pa[k].name))
      ensures Passed(a, c, p, pa, k + 1)
    {
      hide AllMoved, Blocked, SurelyBlocked, AllSpared, Spared, Confined;
      Unconfined(b, files, {p} + Led(lookup, pa[k].name));
      LedAt(lookup, pa, k);
      ConfinedOn(a, b, c, files, AllLed(lookup, pa) + {p}, {p} + Led(lookup, pa[k].name), AllLed(lookup, pa) + {p});
      StillBlocked(a, b, p, pa, k);
      Unmoved(b, short);
      NextStarted(a, b, c, lookup, short, pa, k);
      NextSpared(a, b, c, lookup, pa, k);
      MovedOn(a, b, c, short);
    }

    lemma AllPassed(a: Nodes, b: Nodes, p: Ptr, pa: seq<ArchiveFile>)
      requires Passed(a, b, p, pa, |pa|)
      ensures AllStarted(a, b, lookup, short, pa) && AllMoved(a, b, short)
      ensures Confined(a, b, files, AllLed(lookup, pa) + {p})
      ensures forall k: nat | k < |pa| :: !SurelyBlocked(a, p, pa, k)
    {
      assert pa[..|pa|] == pa;
    }

    /** Every listed file that is as the list says is loaded from the archive, every other one on its own. */
    method LoadParts(pa: seq<ArchiveFile>, p: Ptr)
      requires p in nodes && Begun(p) && nodes[p].size == TotalSize(pa)
      requires Valid()
      modifies this`nodes, this`cache, this`cacheSize, this`got, this`source, this`stopped
      ensures stopped ==> SomeBlocked(old(nodes), p, pa)
      ensures !stopped ==> forall k: nat | k < |pa| :: !SurelyBlocked(old(nodes), p, pa, k)
      ensures !stopped ==> AllStarted(old(nodes), nodes, lookup, short, pa) && AllMoved(old(nodes), nodes, short)
      ensures !stopped && old(Own()) && Concatenated(content, pa, content(fileId(p))) ==> Own()
      ensures !stopped ==> Confined(old(nodes), nodes, files, AllLed(lookup, pa) + {p})
      ensures !stopped ==> Recent(files, old(cache), cache)
      ensures !stopped ==> Valid()
    {
      hide Inv, Trimmed, Moved, Concatenated, AllMoved, Served, Blocked, Begun, Spared, Passed, Started, SomeBlocked;
      hide SurelyBlocked, Own, Confined, Recent, Led, Matches, LoadsAlone, LoadsFrom, Fits;
      AllRecent(files, cache);
      ghost var exact := Concatenated(content, pa, content(fileId(p)));
      NonePassed(nodes, p, pa);
      var offset := 0;
      for k := 0 to |pa|
        invariant offset == TotalSize(pa[..k]) && Begun(p) && p in nodes && nodes[p].size == TotalSize(pa)
        invariant Passed(old(nodes), nodes, p, pa, k) && (old(Own()) && exact ==> Own())
        invariant Recent(files, old(cache), cache)
        invariant Valid()
      {
        PartFits(pa, k);
        if exact {
          PartAt(content, pa, content(fileId(p)), k);
        }
        ghost var was, c := nodes, cache;
        if ToLoad(nodes, lookup, pa[k].name) {
          LoadPartAt(pa[k], p, offset, exact);
          if stopped {
            PartFails(old(nodes), was, p, pa, k);
            return;
          }
          RecentOn(files, old(cache), c, cache);
        }
        PartPasses(old(nodes), was, nodes, p, pa, k);
        assert pa[..k + 1][..k] == pa[..k];
        offset := offset + pa[k].size;
      }
      AllPassed(old(nodes), nodes, p, pa);
    }

    method LoadPartAt(paf: ArchiveFile, p: Ptr, offset: nat, ghost exact: bool)
      requires ToLoad(nodes, lookup, paf.name) && Begun(p) && offset + paf.size <= nodes[p].size
      requires exact ==> var bytes := content(fileId(p));
                         offset + paf.size <= |bytes| && bytes[offset..offset + paf.size] == content(paf.fileId)
      requires Valid()
      modifies this`nodes, this`cache, this`cacheSize, this`got, this`source, this`stopped
      ensures stopped <==> Blocked(old(nodes), p, paf)
      ensures !stopped ==> Started(old(nodes), nodes, lookup, short, paf.name) && AllMoved(old(nodes), nodes, short)
      ensures !stopped ==> Begun(p) && p in nodes && nodes[p].size == old(nodes)[p].size
      ensures !stopped && old(Own()) && exact ==> Own()
      ensures !stopped ==> nodes == old(nodes) || Spared(old(nodes), nodes, lookup[paf.name])
      ensures !stopped && Matches(old(nodes), lookup[paf.name], paf) ==> LoadsFrom(nodes, lookup[paf.name], p, offset)
      ensures !stopped && !Matches(old(nodes), lookup[paf.name], paf) && Fits(old(nodes), short, lookup[paf.name]) ==>
                lookup[paf.name] in nodes && LoadsAlone(nodes[lookup[paf.name]])
      ensures !stopped ==> Confined(old(nodes), nodes, files, {p} + Led(lookup, paf.name))
      ensures !stopped ==> Recent(files, old(cache), cache)
      ensures !stopped ==> Valid()
    {
      hide Inv, Trimmed, Moved, Served, Spared, Confined, Recent;
      var n1 := lookup[paf.name];
      if nodes[n1].size == paf.size && fileId(n1) == paf.fileId {
        OpenMember(n1, p, offset);
      } else {
        PreloadFile(paf.name);
      }
      if !stopped {
        SizeKept(old(nodes), nodes, p, short);
        ConfinedIn(old(nodes), nodes, files,
            if Matches(old(nodes), n1, paf) then {p, n1} else Led(lookup, paf.name), {p} + Led(lookup, paf.name));
      }
    }

    method PreloadEach(pa: seq<ArchiveFile>)
      requires Valid()
      modifies this`nodes, this`cache, this`cacheSize, this`got, this`source
      ensures AllStarted(old(nodes), nodes, lookup, short, pa)
      ensures AllMoved(old(nodes), nodes, short) && (old(Own()) ==> Own())
      ensures Confined(old(nodes), nodes, files, AllLed(lookup, pa)) && Recent(files, old(cache), cache)
      ensures Valid()
    {
      hide Inv, Trimmed, Moved, AllMoved, SourcesOk, Confined, Recent, Led;
      Unmoved(nodes, short);
      Unconfined(nodes, files, AllLed(lookup, pa));
      AllRecent(files, cache);
      for k := 0 to |pa|
        invariant AllMoved(old(nodes), nodes, short) && AllStarted(old(nodes), nodes, lookup, short, pa[..k])
        invariant old(Own()) ==> Own()
        invariant Confined(old(nodes), nodes, files, AllLed(lookup, pa)) && Recent(files, old(cache), cache)
        invariant Valid()
      {
        ghost var was, c := nodes, cache;
        PreloadFile(pa[k].name);
        LedAt(lookup, pa, k);
        ConfinedOn(old(nodes), was, nodes, files, AllLed(lookup, pa), Led(lookup, pa[k].name), AllLed(lookup, pa));
        RecentOn(files, old(cache), c, cache);
        NextStarted(old(nodes), was, nodes, lookup, short, pa, k);
        MovedOn(old(nodes), was, nodes, short);
      }
      assert pa[..|pa|] == pa;
    }

    method PreloadOne(pf: PreloadFile)
      requires Valid()
      modifies this`nodes, this`cache, this`cacheSize, this`got, this`source, this`stopped
      ensures stopped ==> StarvedBy(old(nodes), pf)
      ensures !stopped ==> Preloaded(old(nodes), nodes, lookup, short, pf) && AllMoved(old(nodes), nodes, short)
      ensures !stopped && old(Own()) && Concatenations(lookup) ==> Own()
      ensures !stopped ==> Confined(old(nodes), nodes, files, ListedBy(lookup, pf)) && Recent(files, old(cache), cache)
      ensures !stopped ==> Valid()
    {
      hide Inv, AllMoved, AllStarted, Started, Concatenations, SourcesOk, Own, Starved, Confined, Recent, SurelyBlocked;
      if pf.isArchive {
        PreloadArchive(pf.name);
        if !stopped {
          ConfinedIn(old(nodes), nodes, files, ArchiveLed(old(nodes), lookup, pf.name), ListedBy(lookup, pf));
        }
      } else {
        PreloadFile(pf.name);
        ConfinedIn(old(nodes), nodes, files, Led(lookup, pf.name), ListedBy(lookup, pf));
      }
    }

    /** What is listed to be loaded along with a file id. */
    method PreloadFiles(id: nat)
      requires Valid()
      modifies this`nodes, this`cache, this`cacheSize, this`got, this`source, this`stopped
      ensures stopped ==> ShortFor(old(nodes), id)
      ensures !stopped && id in preloads ==>
                forall k | 0 <= k < |preloads[id]| :: Preloaded(old(nodes), nodes, lookup, short, preloads[id][k])
      ensures !stopped ==> AllMoved(old(nodes), nodes, short) && (old(Own()) && Concatenations(lookup) ==> Own())
      ensures !stopped ==> Confined(old(nodes), nodes, files, ListedFor(lookup, id)) && Recent(files, old(cache), cache)
      ensures !stopped ==> Valid()
    {
      hide Inv, Trimmed, Moved, AllMoved, Concatenations, SourcesOk, Own, StarvedBy, Confined, Recent, ListedBy;
      Unmoved(nodes, short);
      Unconfined(nodes, files, ListedFor(lookup, id));
      AllRecent(files, cache);
      if id !in preloads {
        return;
      }
      for k := 0 to |preloads[id]|
        invariant AllMoved(old(nodes), nodes, short)
                  && forall j | 0 <= j < k :: Preloaded(old(nodes), nodes, lookup, short, preloads[id][j])
        invariant old(Own()) && Concatenations(lookup) ==> Own()
        invariant Confined(old(nodes), nodes, files, ListedFor(lookup, id)) && Recent(files, old(cache), cache)
        invariant Valid()
      {
        ghost var was, c := nodes, cache;
        PreloadOne(preloads[id][k]);
        if stopped {
          StarvedBefore(old(nodes), was, preloads[id][k]);
          return;
        }
        ConfinedOn(old(nodes), was, nodes, files, ListedFor(lookup, id), ListedBy(lookup, preloads[id][k]),
            ListedFor(lookup, id));
        RecentOn(files, old(cache), c, cache);
        forall j | 0 <= j < k + 1
          ensures Preloaded(old(nodes), nodes, lookup, short, preloads[id][j])
        {
          PreloadedOn(old(nodes), was, nodes, lookup, short, preloads[id][j]);
        }
        MovedOn(old(nodes), was, nodes, short);
      }
    }

    /** The contents of `p` become its own: `size` bytes, no longer what the server holds. */
    method MakeLocal(p: Ptr, fbuf: Bytes)
      requires p in nodes && !nodes[p].state.LOADING?
      requires Valid()
      modifies this`nodes, this`cache, this`cacheSize
      ensures nodes == old(nodes)[p := Node(LOCAL, |fbuf|, fbuf)]
      ensures if old(nodes)[p].state == LOADED then Lost(old(cache), cache, p) else cache == old(cache)
      ensures Valid()
    {
      hide CacheOk, BuffersOk, ArchivesOk, OpenedOk, WaitersOk, TokensOk, BufferOk;
      var n := Node(LOCAL, |fbuf|, fbuf);
      LocalBuffer(n, source(p));
      BuffersIdle(nodes, got, source, p, n);
      ArchivesLoose(nodes, source, p, n);
      OpenedChanged(nodes, files, p, n);
      WaitersSame(nodes, files, completed, nextToken, p, n);
      if nodes[p].state == LOADED {
        var i := Position(p);
        CacheLess(nodes, cache, cacheSize, i, n);
        cacheSize := cacheSize - nodes[p].size;
        cache := Without(cache, i);
      } else {
        CacheSame(nodes, cache, cacheSize, p, n);
      }
      nodes := nodes[p := n];
    }

    /** Where the cache lists `p`. */
    method Position(p: Ptr) returns (i: nat)
      requires p in nodes && nodes[p].state == LOADED && CacheOk(nodes, cache, cacheSize)
      ensures i < |cache| && cache[i] == p
    {
      assert p in cache;
      i := 0;
      while cache[i] != p
        invariant i < |cache| && forall j | 0 <= j < i :: cache[j] != p
        decreases |cache| - i
      {
        i := i + 1;
      }
    }

    /** `fs_close`. */
    method Close(f: Fid)
      requires f in files
      requires Valid()
      modifies this`files
      ensures files == old(files)[f := File(old(files)[f].inode, false)]
      ensures Valid()
    {
      hide CacheOk, BuffersOk, ArchivesOk, TokensOk, WaiterOf;
      files := files[f := files[f].(isOpened := false)];
    }

    /** The open of `f` is told to wait for `p`. */
    method Wait(p: Ptr, f: Fid)
      requires f in files && p in nodes && nodes[p].state.LOADING? && nodes[p].state.info.waiter == None
               && files[f].inode == p
      requires Valid()
      modifies this`nodes, this`nextToken
      ensures nextToken == old(nextToken) + 1
      ensures nodes == old(nodes)[p := Awaited(old(nodes)[p], f, old(nextToken))]
      ensures Valid()
    {
      hide CacheOk, BuffersOk, ArchivesOk, OpenedOk, WaitersOk, TokensOk, BufferOk;
      var n := Awaited(nodes[p], f, nextToken);
      CacheSame(nodes, cache, cacheSize, p, n);
      AnyBuffer(nodes, got, source, p);
      WaitKeepsBuffer(nodes[p], n, Got(got, p), source(p));
      SameBuffers(nodes, got, source, p, n);
      ArchivesSame(nodes, source, p, n);
      OpenedChanged(nodes, files, p, n);
      WaiterAdded(nodes, files, completed, nextToken, p, n, f);
      nodes := nodes[p := n];
      nextToken := nextToken + 1;
    }

    /** Open a file: 0 if it is open, 1 if it will be, or an error. */
    method Open(f: Fid, directory: bool, truncate: bool) returns (ret: int)
      requires f in files
      requires Valid()
      modifies this`nodes, this`files, this`cache, this`cacheSize, this`nextToken, this`got, this`source, this`stopped
      ensures stopped ==> OpenStarved(old(nodes), old(files)[f].inode)
      ensures !stopped ==> f in files && files == old(files)[f := File(old(files)[f].inode, ret == 0)]
      ensures !stopped ==> nextToken == old(nextToken) + if ret == 1 then 1 else 0
      ensures !stopped && ret == 1 ==> AwaitedBy(nodes, old(files)[f].inode, f, old(nextToken))
      ensures !stopped ==> ret == OpenResult(old(nodes), short, old(files)[f].inode, directory, truncate)
      ensures !stopped ==> ContentsAfter(old(Now()), f, directory, truncate, View())
      ensures !stopped && old(Own()) && Concatenations(lookup) ==> Own()
      ensures !stopped ==> Valid()
    {
      hide Inv, Concatenations, SourcesOk, Own, ShortFor, Fetched, Recent, Lost, InFront;
      ghost var a := Now();
      Close(f);
      Unopened(a, Now(), f, directory, truncate);
      var p := files[f].inode;
      if directory {
        if p in nodes || !isDir(p) {
          return -P9_ENOTDIR;
        }
      } else if p !in nodes && !isDir(p) {
        return -P9_EINVAL;
      }
      if p !in nodes {
        OpenedDir(f);
        return 0;
      }
      ret := OpenReg(f, truncate);
    }

    /** The file is to be loaded, and with it an archive when there is no memory for the archive or a file in it. */
    ghost predicate OpenStarved(a: Nodes, p: Ptr)
      reads this`lookup, this`short
    {
      p in a && a[p].state == UNLOADED && ShortFor(a, fileId(p))
    }

    /** A file that was to be loaded is being loaded with what is listed with it, and what is not listed is not; `c` are
        the files when its open does not yet wait. */
    ghost predicate Fetched(a: Nodes, b: Nodes, files: map<Fid, File>, lookup: map<string, Ptr>, short: set<Ptr>,
        p: Ptr) {
      && p in a && p in b
      && var c := b[p := Unawaited(b[p])];
         && AllMoved(a, c, short) && Confined(a, c, files, ListedFor(lookup, fileId(p)) + {p})
         && (fileId(p) in preloads ==>
               forall k | 0 <= k < |preloads[fileId(p)]| :: Preloaded(a, c, lookup, short, preloads[fileId(p)][k]))
         && (Fits(a, short, p) <==> c[p].state.LOADING?)
    }

    /** What an open does to the contents of the files, and to the order of those in the cache. */
    ghost predicate ContentsAfter(a: Moment, f: Fid, directory: bool, truncate: bool, t: Fs)
      requires f in a.fs.files
    {
      var s, p := a.fs, a.fs.files[f].inode;
      if p !in s.nodes || directory then SameContents(s, t)
      else
        match s.nodes[p].state
        case LOADING(info) =>
          if info.waiter.Some? then SameContents(s, t)
          else SameContents(s.(nodes := s.nodes[p := Awaited(s.nodes[p], f, s.nextToken)]), t)
        case _ =>
          if truncate && s.nodes[p].size != 0 then
            && t.nodes == s.nodes[p := Node(LOCAL, 0, [])] && t.got == s.got
            && (if s.nodes[p].state == LOADED then Lost(s.cache, t.cache, p) else t.cache == s.cache)
          else if s.nodes[p].state == UNLOADED then
            && Fetched(s.nodes, t.nodes, Closed(s.files, f), a.lookup, a.short, p)
            && Recent(Closed(s.files, f), s.cache, t.cache)
          else
            && t.nodes == s.nodes && t.got == s.got
            && (if s.nodes[p].state == LOADED then InFront(s.cache, t.cache, p) else t.cache == s.cache)
    }

    /** What an open returns. */
    function OpenResult(nodes: Nodes, short: set<Ptr>, p: Ptr, directory: bool, truncate: bool): int {
      if directory && (p in nodes || !isDir(p)) then -P9_ENOTDIR
      else if p !in nodes then if isDir(p) then 0 else -P9_EINVAL
      else if Here(nodes[p]) || (truncate && Cuttable(nodes[p])) then 0
      else if WaiterOf(nodes[p]).Some? || (nodes[p].state == UNLOADED && !Fits(nodes, short, p)) then -P9_EIO
      else 1
    }

    /** Open a regular file. */
    /** Closing a handle first makes no difference to what its open does. */
    lemma Unopened(a: Moment, b: Moment, f: Fid, directory: bool, truncate: bool)
      requires f in a.fs.files && b == a.(fs := a.fs.(files := Closed(a.fs.files, f)))
      ensures forall t :: ContentsAfter(b, f, directory, truncate, t) ==> ContentsAfter(a, f, directory, truncate, t)
    {
      hide Fetched, Recent, Lost, InFront;
      assert Closed(b.fs.files, f) == Closed(a.fs.files, f);
    }

    method OpenReg(f: Fid, truncate: bool) returns (ret: int)
      requires f in files && !files[f].isOpened && files[f].inode in nodes
      requires Valid()
      modifies this`nodes, this`files, this`cache, this`cacheSize, this`nextToken, this`got, this`source, this`stopped
      ensures stopped ==> OpenStarved(old(nodes), old(files)[f].inode)
      ensures !stopped ==> files == old(files)[f := File(old(files)[f].inode, ret == 0)]
      ensures !stopped ==> nextToken == old(nextToken) + if ret == 1 then 1 else 0
      ensures !stopped && ret == 1 ==> AwaitedBy(nodes, old(files)[f].inode, f, old(nextToken))
      ensures !stopped ==> ret == OpenResult(old(nodes), short, old(files)[f].inode, false, truncate)
      ensures !stopped ==> ContentsAfter(old(Now()), f, false, truncate, View())
      ensures !stopped && old(Own()) && Concatenations(lookup) ==> Own()
      ensures !stopped ==> Valid()
    {
      hide Inv, Trimmed, AllMoved, Moved, Concatenations, SourcesOk, Own, ShortFor;
      var p := files[f].inode;
      if truncate && !nodes[p].state.LOADING? && nodes[p].size != 0 {
        MakeLocal(p, []);
      }
      match nodes[p].state {
        case UNLOADED =>
          ret := LoadAndWait(p, f);
        case LOADING(info) =>
          if info.waiter.Some? {
            return -P9_EIO;
          }
          Wait(p, f);
          return 1;
        case LOCAL =>
          Opened(f);
          return 0;
        case LOADED =>
          Touch(p);
          Opened(f);
          return 0;
      }
    }

    /** Load a file, with what is listed to be loaded along with it, and let the open of `f` wait. */
    method LoadAndWait(p: Ptr, f: Fid) returns (ret: int)
      requires f in files && files[f].inode == p && p in nodes && nodes[p].state == UNLOADED
      requires Valid()
      modifies this`nodes, this`cache, this`cacheSize, this`nextToken, this`got, this`source, this`stopped
      ensures stopped ==> ShortFor(old(nodes), fileId(p))
      ensures !stopped ==> ret == if Fits(old(nodes), short, p) then 1 else -P9_EIO
      ensures !stopped ==> nextToken == old(nextToken) + if ret == 1 then 1 else 0
      ensures !stopped && ret == 1 ==> AwaitedBy(nodes, p, f, old(nextToken))
      ensures !stopped ==> Fetched(old(nodes), nodes, files, lookup, short, p) && Recent(files, old(cache), cache)
      ensures !stopped && old(Own()) && Concatenations(lookup) ==> Own()
      ensures !stopped ==> Valid()
    {
      hide Inv, Trimmed, AllMoved, Moved, Concatenations, SourcesOk, Own, ShortFor;
      hide Confined, Recent, Preloaded, ListedFor, AwaitedBy, Fetched;
      ret := Fetch(p, f);
      if stopped {
        return;
      }
      if ret != 0 {
        FetchedNow(old(nodes), nodes, p);
        return;
      }
      ghost var c := nodes;
      Wait(p, f);
      FetchedAwaited(old(nodes), c, nodes, p, f, old(nextToken));
      return 1;
    }

    /** Load a file and what is listed with it. */
    method Fetch(p: Ptr, ghost f: Fid) returns (ret: int)
      requires f in files && files[f].inode == p && p in nodes && nodes[p].state == UNLOADED
      requires Valid()
      modifies this`nodes, this`cache, this`cacheSize, this`got, this`source, this`stopped
      ensures stopped ==> ShortFor(old(nodes), fileId(p))
      ensures !stopped ==> ret == if Fits(old(nodes), short, p) then 0 else -P9_EIO
      ensures !stopped ==> FetchedFor(old(nodes), nodes, p) && Recent(files, old(cache), cache)
      ensures !stopped && old(Own()) && Concatenations(lookup) ==> Own()
      ensures !stopped ==> Valid()
    {
      hide Inv, Trimmed, AllMoved, Moved, Concatenations, SourcesOk, Own, ShortFor, Confined, Recent, Preloaded,
          ListedFor;
      ghost var before := nodes;
      PreloadFiles(fileId(p));
      if stopped {
        return 0;
      }
      StillUnloaded(before, nodes, p, short);
      ghost var on := ListedFor(lookup, fileId(p));
      ConfinedIn(before, nodes, files, on, on + {p});
      if nodes[p].state.LOADING? {
        return 0;
      }
      ghost var was, c := nodes, cache;
      ret := OpenWget(p, Single);
      TrimmedMoved(was, nodes, files, short, p);
      TrimmedConfined(was, nodes, files, p);
      ConfinedOn(before, was, nodes, files, on, {p}, on + {p});
      RecentOn(files, old(cache), c, cache);
      AllPreloadedOn(before, was, nodes, fileId(p));
      MovedOn(before, was, nodes, short);
    }

    /** Nobody waits yet. */
    ghost predicate FetchedFor(a: Nodes, c: Nodes, p: Ptr)
      reads this`files, this`lookup, this`short
    {
      && p in a && a[p].state == UNLOADED && p in c
      && AllMoved(a, c, short) && Confined(a, c, files, ListedFor(lookup, fileId(p)) + {p})
      && (fileId(p) in preloads ==>
            forall k | 0 <= k < |preloads[fileId(p)]| :: Preloaded(a, c, lookup, short, preloads[fileId(p)][k]))
      && if Fits(a, short, p) then c[p].state.LOADING? && c[p].state.info.waiter == None else c[p] == a[p]
    }

    lemma AllPreloadedOn(a: Nodes, b: Nodes, c: Nodes, id: nat)
      requires AllMoved(a, b, short) && AllMoved(b, c, short)
      requires id in preloads ==> forall k | 0 <= k < |preloads[id]| :: Preloaded(a, b, lookup, short, preloads[id][k])
      ensures id in preloads ==> forall k | 0 <= k < |preloads[id]| :: Preloaded(a, c, lookup, short, preloads[id][k])
    {
      hide AllMoved, Preloaded;
      forall k | id in preloads && 0 <= k < |preloads[id]|
        ensures Preloaded(a, c, lookup, short, preloads[id][k])
      {
        PreloadedOn(a, b, c, lookup, short, preloads[id][k]);
      }
    }

    lemma FetchedNow(a: Nodes, c: Nodes, p: Ptr)
      requires FetchedFor(a, c, p)
      ensures Fetched(a, c, files, lookup, short, p)
    {
      assert c[p := Unawaited(c[p])] == c;
    }

    lemma FetchedAwaited(a: Nodes, c: Nodes, b: Nodes, p: Ptr, f: Fid, token: nat)
      requires FetchedFor(a, c, p) && c[p].state.LOADING? && b == c[p := Awaited(c[p], f, token)]
      ensures Fetched(a, b, files, lookup, short, p) && AwaitedBy(b, p, f, token)
    {
      assert b[p := Unawaited(b[p])] == c;
    }

    /** A directory is open at once. */
    method OpenedDir(f: Fid)
      requires f in files && files[f].inode !in nodes
      requires Valid()
      modifies this`files
      ensures files == old(files)[f := File(old(files)[f].inode, true)]
      ensures Valid()
    {
      hide CacheOk, BuffersOk, ArchivesOk, TokensOk, WaiterOf, SourcesOk;
      files := files[f := files[f].(isOpened := true)];
    }

    method Opened(f: Fid)
      requires f in files && files[f].inode in nodes && Here(nodes[files[f].inode])
      requires Valid()
      modifies this`files
      ensures files == old(files)[f := File(old(files)[f].inode, true)]
      ensures Valid()
    {
      hide CacheOk, BuffersOk, ArchivesOk, TokensOk, WaiterOf;
      files := files[f := files[f].(isOpened := true)];
    }

    /** A loaded file moves to the front of the cache. */
    method Touch(p: Ptr)
      requires p in nodes && nodes[p].state == LOADED
      requires Valid()
      modifies this`cache
      ensures InFront(old(cache), cache, p)
      ensures Valid()
    {
      hide BuffersOk, ArchivesOk, TokensOk, OpenedOk, WaitersOk, CacheOk;
      var i := Position(p);
      CacheTouch(nodes, cache, cacheSize, i);
      cache := [p] + Without(cache, i);
    }

    /** A new regular file: empty, or known by its size on the server. */
    method AddFile(p: Ptr, size: nat)
      requires p !in nodes && !InUse(files, p)
      requires Valid()
      modifies this`nodes
      ensures nodes == old(nodes)[p := Node(if size == 0 then LOCAL else UNLOADED, size, [])]
      ensures Valid()
    {
      var n := Node(if size == 0 then LOCAL else UNLOADED, size, []);
      FileAdded(View(), source, p, n);
      hide Inv;
      nodes := nodes[p := n];
    }

    method AddHandle(f: Fid, p: Ptr)
      requires f !in files
      requires Valid()
      modifies this`files
      ensures files == old(files)[f := File(p, false)]
      ensures Valid()
    {
      hide CacheOk, BuffersOk, ArchivesOk, TokensOk, WaiterOf;
      files := files[f := File(p, false)];
    }

    /** A handle goes away; none does while its open is pending. */
    method DeleteHandle(f: Fid)
      requires f in files && !Pending(nodes, f)
      requires Valid()
      modifies this`files
      ensures files == old(files) - {f}
      ensures Valid()
    {
      hide CacheOk, BuffersOk, ArchivesOk, TokensOk, WaiterOf;
      files := files - {f};
    }

    /** A resize of a file that is not loaded: to nothing, it becomes local; otherwise only the size to load changes. */
    method ResizeUnloaded(p: Ptr, size: nat)
      requires p in nodes && nodes[p].state == UNLOADED && size != nodes[p].size
      requires Valid()
      modifies this`nodes, this`cache, this`cacheSize
      ensures nodes == old(nodes)[p := if size == 0 then Node(LOCAL, 0, []) else old(nodes)[p].(size := size)]
      ensures cache == old(cache)
      ensures Valid()
    {
      hide Inv;
      if size == 0 {
        MakeLocal(p, []);
        return;
      }
      ChangeSize(p, size);
    }

    method ChangeSize(p: Ptr, size: nat)
      requires p in nodes && nodes[p].state == UNLOADED
      requires Valid()
      modifies this`nodes
      ensures nodes == old(nodes)[p := old(nodes)[p].(size := size)]
      ensures Valid()
    {
      hide CacheOk, BuffersOk, ArchivesOk, OpenedOk, WaitersOk, TokensOk, BufferOk;
      var n := nodes[p].(size := size);
      UnloadedBuffer(n, source(p));
      BuffersIdle(nodes, got, source, p, n);
      ArchivesLoose(nodes, source, p, n);
      OpenedChanged(nodes, files, p, n);
      WaitersSame(nodes, files, completed, nextToken, p, n);
      CacheSame(nodes, cache, cacheSize, p, n);
      nodes := nodes[p := n];
    }

    /** Give up the load of a file that is going away, and those of an archive's parts. */
    method StopLoad(p: Ptr)
      requires p in nodes && nodes[p].state.LOADING? && !InUse(files, p)
      requires Valid()
      modifies this`nodes, this`files, this`cache, this`cacheSize, this`completed
      ensures p in nodes && nodes[p] == Node(UNLOADED, old(nodes)[p].size, [])
      ensures nodes.Keys == old(nodes).Keys && files == old(files) && cache == old(cache)
      ensures Transfers(old(nodes)[p]) ==> Settled(old(nodes), nodes, p, false)
      ensures !Transfers(old(nodes)[p]) ==> Left(old(nodes), nodes, p)
      ensures completed == old(completed) + PartAnswers(old(nodes), Files(old(nodes), p), -P9_EIO)
      ensures Valid()
    {
      hide Inv, PartAnswers, InUse, Settled, Left, SourcesOk;
      NobodyWaiting(View(), source, p);
      match nodes[p].state.info.kind {
        case Member(a, _) =>
          ListedIn(View(), source, p);
          var i := PlaceIn(a, p);
          EndMember(a, i, false);
          PartLeft(View(), old(View()), source, a, p, i);
          NoAnswers(old(nodes), Files(old(nodes), p), -P9_EIO);
        case _ =>
          Fail(p);
      }
    }

    /** Where archive `a` lists its part `p`. */
    method PlaceIn(a: Ptr, p: Ptr) returns (i: nat)
      requires p in Files(nodes, a)
      ensures i < |Files(nodes, a)| && Files(nodes, a)[i] == p
    {
      var list := Files(nodes, a);
      i := 0;
      while list[i] != p
        invariant i < |list| && forall j | 0 <= j < i :: list[j] != p
        decreases |list| - i
      {
        i := i + 1;
      }
    }

    /** An inode goes, with what it has in the cache and what is being transferred for it. */
    method Free(p: Ptr)
      requires p in nodes && !InUse(files, p)
      requires Valid()
      modifies this`nodes, this`files, this`cache, this`cacheSize, this`completed
      ensures nodes.Keys == old(nodes).Keys - {p} && files == old(files)
      ensures !old(nodes)[p].state.LOADING? ==> nodes == old(nodes) - {p}
      ensures Transfers(old(nodes)[p]) ==> Settled(old(nodes), nodes[p := Node(UNLOADED, 0, [])], p, false)
      ensures old(nodes)[p].state.LOADING? && !Transfers(old(nodes)[p]) ==>
              Left(old(nodes), nodes[p := Node(UNLOADED, 0, [])], p)
      ensures completed == old(completed) + PartAnswers(old(nodes), Files(old(nodes), p), -P9_EIO)
      ensures if old(nodes)[p].state == LOADED
              then Lost(old(cache), cache, p) else cache == old(cache)
      ensures Valid()
    {
      hide Inv, PartAnswers, InUse, Without, Settled, Left, SourcesOk;
      match nodes[p].state {
        case LOADED =>
          Listed(View(), source);
          var i := Position(p);
          Unload(i);
        case LOADING(_) =>
          StopLoad(p);
        case _ =>
      }
      if !old(nodes)[p].state.LOADING? {
        NoAnswers(old(nodes), Files(old(nodes), p), -P9_EIO);
      }
      FileDropped(View(), source, p);
      GoneAfter(old(nodes), nodes, p);
      nodes := nodes - {p};
    }

    function Now(): Moment
      reads this
    {
      Moment(View(), lookup, short)
    }

    /** What may happen: handles are not deleted while their open is pending, and the server sends what it holds. */
    predicate Allowed(s: Fs, e: Event) {
      match e
      case AddFile(p, _) => p !in s.nodes && !InUse(s.files, p)
      case AddHandle(f, _) => f !in s.files
      case DeleteHandle(f) => f in s.files && !Pending(s.nodes, f)
      case Close(f) => f in s.files
      case Open(f, _, _) => f in s.files
      case Edit(p, _) => p in s.nodes && Here(s.nodes[p])
      case Resize(p, size) => p in s.nodes && s.nodes[p].state == UNLOADED && size != s.nodes[p].size
      case Arrive(p, err, count) =>
        p in s.nodes && Transfers(s.nodes[p]) && p in s.got && s.got[p] + count <= |content(fileId(p))|
        && (err == 0 ==> s.got[p] + count == |content(fileId(p))|)
      case Free(p) => p in s.nodes && !InUse(s.files, p)
      case Names(_) => true
      case Memory(_) => true
    }

    /** What an event changes, and what it returns if it is an open. */
    ghost predicate Effect(a: Moment, e: Event, ret: Option<int>, b: Moment)
      requires Allowed(a.fs, e)
    {
      var s, t := a.fs, b.fs;
      && b.lookup == (if e.Names? then e.lookup else a.lookup)
      && b.short == (if e.Memory? then e.short else a.short)
      && t.nextToken == s.nextToken + Asked(ret)
      && match e
         case AddFile(p, size) =>
           ret == None && t == s.(nodes := s.nodes[p := Node(if size == 0 then LOCAL else UNLOADED, size, [])])
         case AddHandle(f, p) => ret == None && t == s.(files := s.files[f := File(p, false)])
         case DeleteHandle(f) => ret == None && t == s.(files := s.files - {f})
         case Close(f) => ret == None && t == s.(files := s.files[f := File(s.files[f].inode, false)])
         case Open(f, directory, truncate) =>
           && ret == Some(OpenResult(s.nodes, a.short, s.files[f].inode, directory, truncate))
           && OpenedOrWaits(s, f, ret.value, t) && ContentsAfter(a, f, directory, truncate, t)
         case Edit(p, fbuf) => ret == None && Edited(s, t, p, s.nodes[p := Node(LOCAL, |fbuf|, fbuf)])
         case Resize(p, size) =>
           ret == None
           && Edited(s, t, p, s.nodes[p := if size == 0 then Node(LOCAL, 0, []) else s.nodes[p].(size := size)])
         case Arrive(p, err, count) => ret == None && Arrived(s, p, err, count, t)
         case Free(p) => ret == None && Freed(s, p, t)
         case Names(_) => ret == None && t == s
         case Memory(_) => ret == None && t == s
    }

    /** An event that can happen has its effect, and any other none. */
    ghost predicate Stepped(a: Moment, e: Event, ret: Option<int>, b: Moment) {
      if Allowed(a.fs, e) then Effect(a, e, ret, b) else ret == None && b == a
    }

    /** An open that succeeds opens its handle, and one that returns 1 takes the next token. */
    ghost predicate OpenedOrWaits(s: Fs, f: Fid, ret: int, t: Fs)
      requires f in s.files
    {
      && t.files == s.files[f := File(s.files[f].inode, ret == 0)] && t.completed == s.completed
      && (ret == 1 ==> AwaitedBy(t.nodes, s.files[f].inode, f, s.nextToken))
    }

    /** Only file `p` has changed. */
    ghost predicate Edited(s: Fs, t: Fs, p: Ptr, nodes: Nodes) {
      && t.nodes == nodes && t.files == s.files && t.completed == s.completed && t.got == s.got
      && if p in s.nodes && s.nodes[p].state == LOADED then Lost(s.cache, t.cache, p) else t.cache == s.cache
    }

    /** What the server sends is stored; at the end of the transfer the file is loaded, if enough has come, or given up,
        and so are the parts of an archive, and the opens that wait are answered. */
    ghost predicate Arrived(s: Fs, p: Ptr, err: int, count: nat, t: Fs)
      requires p in s.nodes && p in s.got
    {
      var bytes := content(fileId(p));
      && p in t.nodes && t.nodes[p].size == s.nodes[p].size
      && if err > 0 then
           && Transfers(t.nodes[p]) && t.nodes == s.nodes[p := t.nodes[p]]
           && t.got == s.got[p := s.got[p] + count] && t.completed == s.completed && t.cache == s.cache
         else if err == 0 && t.nodes[p].size <= |bytes| then
           && t.nodes[p] == Node(LOADED, t.nodes[p].size, bytes[..t.nodes[p].size])
           && Settled(s.nodes, t.nodes, p, true) && t.completed == s.completed + EndAnswers(s.nodes, p, 0)
           && t.cache == [p] + Pushed(s.cache, Files(s.nodes, p))
         else
           && t.nodes[p] == Node(UNLOADED, t.nodes[p].size, [])
           && Settled(s.nodes, t.nodes, p, false) && t.completed == s.completed + EndAnswers(s.nodes, p, -P9_EIO)
           && t.cache == s.cache
    }

    /** A file that goes takes with it what is being transferred for it; the opens of an archive's parts are
        answered. */
    ghost predicate Freed(s: Fs, p: Ptr, t: Fs)
      requires p in s.nodes
    {
      && t.nodes.Keys == s.nodes.Keys - {p} && t.files == s.files
      && t.completed == s.completed + PartAnswers(s.nodes, Files(s.nodes, p), -P9_EIO)
      && (if s.nodes[p].state == LOADED then Lost(s.cache, t.cache, p) else t.cache == s.cache)
      && if !s.nodes[p].state.LOADING? then t.nodes == s.nodes - {p}
         else if Transfers(s.nodes[p]) then Settled(s.nodes, t.nodes[p := Node(UNLOADED, 0, [])], p, false)
         else Left(s.nodes, t.nodes[p := Node(UNLOADED, 0, [])], p)
    }

    /** One event, and what it returns if it is an open. */
    method Do(e: Event) returns (ret: Option<int>)
      requires Allowed(View(), e)
      requires Valid()
      modifies this
      ensures stopped ==> e.Open? && e.f in old(files) && OpenStarved(old(nodes), old(files)[e.f].inode)
      ensures !stopped ==> Effect(old(Now()), e, ret, Now())
      ensures !stopped ==> old(completed) <= completed
      ensures !stopped && old(Own()) && Concatenations(old(lookup)) ==> Own()
      ensures !stopped ==> Valid()
    {
      hide Inv, Concatenations, SourcesOk, Own, ShortFor, InUse, Pending, Waits, OpenResult;
      ret := None;
      match e {
        case Open(f, directory, truncate) =>
          var r := Open(f, directory, truncate);
          ret := Some(r);
        case Names(names) => lookup := names;
        case Memory(files) => short := files;
        case _ => DoFile(e);
      }
    }

    /** An event at one file or handle. */
    method DoFile(e: Event)
      requires !e.Open? && !e.Names? && !e.Memory?
      requires Allowed(View(), e)
      requires Valid()
      modifies this`nodes, this`files, this`cache, this`cacheSize, this`completed, this`got
      ensures Effect(old(Now()), e, None, Now()) && old(completed) <= completed
      ensures Valid()
    {
      hide Inv, SourcesOk, InUse, Pending, Settled, Left, PartAnswers, EndAnswers, Transfers, Lost, Pushed, Files;
      match e {
        case AddFile(p, size) => AddFile(p, size);
        case AddHandle(f, p) => AddHandle(f, p);
        case DeleteHandle(f) => DeleteHandle(f);
        case Close(f) => Close(f);
        case Edit(p, fbuf) => MakeLocal(p, fbuf);
        case Resize(p, size) => ResizeUnloaded(p, size);
        case Arrive(p, err, count) => OpenCb(p, err, content(fileId(p))[got[p]..got[p] + count]);
        case Free(p) => Free(p);
        case _ =>
      }
    }

    lemma NextToken(a: Moment, e: Event, ret: Option<int>, b: Moment)
      requires Allowed(a.fs, e) && Effect(a, e, ret, b)
      ensures b.fs.nextToken == a.fs.nextToken + Asked(ret)
      ensures b.lookup == if e.Names? then e.lookup else a.lookup
    {
    }

    lemma LoadedServed()
      requires Valid()
      ensures forall p | p in nodes && nodes[p].state == LOADED ::
                |nodes[p].fbuf| == nodes[p].size && Served(content, nodes[p].fbuf)
    {
      hide CacheOk, ArchivesOk, OpenedOk, WaitersOk, TokensOk, Served;
      forall p | p in nodes && nodes[p].state == LOADED
        ensures |nodes[p].fbuf| == nodes[p].size && Served(content, nodes[p].fbuf)
      {
        AnyBuffer(nodes, got, source, p);
        ServedPart(content, source(p), 0, nodes[p].size);
      }
    }

    lemma LoadedOwn()
      requires Valid() && Own()
      ensures forall p | p in nodes && nodes[p].state == LOADED ::
                nodes[p].size <= |content(fileId(p))| && nodes[p].fbuf == content(fileId(p))[..nodes[p].size]
    {
      hide CacheOk, ArchivesOk, OpenedOk, WaitersOk, TokensOk, Served;
      forall p | p in nodes && nodes[p].state == LOADED
        ensures nodes[p].size <= |content(fileId(p))| && nodes[p].fbuf == content(fileId(p))[..nodes[p].size]
      {
        AnyBuffer(nodes, got, source, p);
      }
    }

    /** Throughout the run, what an archive's name leads to is the concatenation of the archive's files. */
    ghost predicate Faithful(events: seq<Event>)
      reads this`lookup
    {
      Concatenations(lookup) && forall e | e in events && e.Names? :: Concatenations(e.lookup)
    }

    /** Any run, of files that come and go under changing names, with what its opens return: the opens told to wait get
        their tokens in order; each is answered at most once, and once all transfers have ended exactly once; the cache
        holds the loaded files, whose sizes add up to its size; and a loaded file holds bytes of the server, its own
        ones if archives are what they should be. The run stops only at an open that loads an archive when there is no
        memory for the archive or a file in it. */
    method Run(events: seq<Event>) returns (rets: seq<Option<int>>, ghost trace: seq<Moment>)
      requires Valid()
      modifies this
      ensures |rets| <= |events| && (stopped <==> |rets| < |events|)
      ensures |trace| == |rets| + 1 && trace[0] == old(Now()) && (!stopped ==> trace[|rets|] == Now())
      ensures forall k | 0 <= k < |rets| :: Stepped(trace[k], events[k], rets[k], trace[k + 1])
      ensures stopped ==>
                var s, e := trace[|rets|].fs, events[|rets|];
                e.Open? && e.f in s.files && OpenStarved(s.nodes, s.files[e.f].inode)
      ensures !stopped ==> old(completed) <= completed && OnceEach(completed)
      ensures !stopped ==> nextToken == old(nextToken) + AllAsked(rets)
      ensures !stopped && (forall p | p in nodes :: !Transfers(nodes[p])) ==>
                forall t: nat :: t < nextToken <==> Told(completed, t)
      ensures !stopped ==> NoDup(cache) && forall p :: p in cache <==> p in nodes && nodes[p].state == LOADED
      ensures !stopped ==> cacheSize == Sum(nodes, LoadedSize())
      ensures !stopped ==> forall p | p in nodes && nodes[p].state == LOADED ::
                  |nodes[p].fbuf| == nodes[p].size && Served(content, nodes[p].fbuf)
      ensures !stopped && old(Own() && Faithful(events)) ==>
                forall p | p in nodes && nodes[p].state == LOADED ::
                  nodes[p].size <= |content(fileId(p))| && nodes[p].fbuf == content(fileId(p))[..nodes[p].size]
      ensures !stopped ==> Valid()
    {
      hide Inv, Concatenations, Allowed, SourcesOk, Own, OpenStarved, AllAsked, Asked;
      rets, trace := [], [Now()];
      NoneAsked();
      for k := 0 to |events|
        invariant |rets| == k && |trace| == k + 1 && trace[0] == old(Now()) && trace[k] == Now()
        invariant forall j | 0 <= j < k :: Stepped(trace[j], events[j], rets[j], trace[j + 1])
        invariant old(completed) <= completed && nextToken == old(nextToken) + AllAsked(rets)
        invariant old(Own() && Faithful(events)) ==> Own() && Concatenations(lookup)
        invariant Valid()
      {
        hide Effect;
        var ret: Option<int> := None;
        if Allowed(View(), events[k]) {
          ret := Do(events[k]);
          if stopped {
            return;
          }
          NextToken(trace[k], events[k], ret, Now());
        }
        OneMoreAsked(rets, ret);
        rets := rets + [ret];
        trace := trace + [Now()];
      }
      Outcome(View(), source);
      LoadedServed();
      if old(Own() && Faithful(events)) {
        LoadedOwn();
      }
    }
  }

  /** Nobody waits for a file that nobody uses. */
  lemma NobodyWaiting(s: Fs, want: Ptr -> Bytes, p: Ptr)
    requires Inv(s, want) && p in s.nodes && !InUse(s.files, p)
    ensures WaiterOf(s.nodes[p]) == None
  {
    hide CacheOk, BuffersOk, ArchivesOk, OpenedOk, WaitersOk, TokensOk, InUse;
    NobodyWaits(s.nodes, s.files, p);
  }

  lemma ListedIn(s: Fs, want: Ptr -> Bytes, p: Ptr)
    requires Inv(s, want) && p in s.nodes && s.nodes[p].state.LOADING? && s.nodes[p].state.info.kind.Member?
    ensures var a := s.nodes[p].state.info.kind.archive;
            a in s.nodes && a != p && p in Files(s.nodes, a) && Files(s.nodes, p) == []
  {
    hide CacheOk, BuffersOk, OpenedOk, WaitersOk, TokensOk, MemberOk;
    MemberIs(s.nodes, want, s.nodes[p].state.info.kind.archive, p);
  }

  lemma Listed(s: Fs, want: Ptr -> Bytes)
    requires Inv(s, want)
    ensures CacheOk(s.nodes, s.cache, s.cacheSize)
  {
  }

  lemma NoAnswers(nodes: Nodes, list: seq<Ptr>, err: int)
    requires list == []
    ensures PartAnswers(nodes, list, err) == []
  {
  }

  /** What the invariant says at the end of a run. */
  lemma Outcome(s: Fs, want: Ptr -> Bytes)
    requires Inv(s, want)
    ensures CacheOk(s.nodes, s.cache, s.cacheSize) && OnceEach(s.completed)
    ensures forall t: nat | Told(s.completed, t) :: t < s.nextToken
    ensures (forall p | p in s.nodes :: !Transfers(s.nodes[p])) ==>
            forall t: nat | t < s.nextToken :: Told(s.completed, t)
  {
    hide CacheOk, BuffersOk, ArchivesOk, OpenedOk, WaitersOk;
    if forall p | p in s.nodes :: !Transfers(s.nodes[p]) {
      forall t: nat | t < s.nextToken
        ensures Told(s.completed, t)
      {
        Answered(s, want, t);
      }
    }
  }

  lemma GivenUp(size: nat, want: Bytes)
    ensures BufferOk(Node(UNLOADED, size, []), 0, want)
  {
  }

  lemma PartOf(s: Fs, want: Ptr -> Bytes, p: Ptr, q: Ptr)
    requires Inv(s, want) && p in s.nodes && q in Files(s.nodes, p)
    ensures q in s.nodes && p != q && s.nodes[q].state.LOADING?
  {
    hide CacheOk, BuffersOk, OpenedOk, WaitersOk, TokensOk, MemberOk;
    MemberIs(s.nodes, want, p, q);
  }

  /** A part, given its bytes, is what it should be. */
  lemma MemberFacts(nodes: Nodes, got: map<Ptr, nat>, want: Ptr -> Bytes, p: Ptr, q: Ptr)
    requires BuffersOk(nodes, got, want) && ArchivesOk(nodes, want) && p in nodes && q in Files(nodes, p)
    requires nodes[p].size <= |want(p)| && nodes[p].fbuf == want(p)[..nodes[p].size]
    ensures q in nodes && p != q && nodes[q].state.LOADING? && nodes[q].state.info.kind.Member?
    ensures nodes[q].state.info.kind.offset + nodes[q].size <= |nodes[p].fbuf| && |nodes[q].fbuf| == nodes[q].size
    ensures var o := nodes[q].state.info.kind.offset;
            var n := nodes[q].(fbuf := nodes[p].fbuf[o..o + nodes[q].size]);
            BufferOk(n, 0, want(q)) && BufferOk(n.(state := LOADED), 0, want(q)) && !Transfers(n)
  {
    assert MemberOk(nodes, want, p, q);
    assert BufferOk(nodes[q], Got(got, q), want(q));
    var o := nodes[q].state.info.kind.offset;
    assert want(p)[..nodes[p].size][o..o + nodes[q].size] == want(p)[o..o + nodes[q].size];
  }

  lemma ListFacts(s: Fs, want: Ptr -> Bytes, p: Ptr)
    requires Inv(s, want) && p in s.nodes
    ensures NoDup(Files(s.nodes, p)) && forall q | q in Files(s.nodes, p) :: q in s.nodes && q != p
  {
    hide CacheOk, BuffersOk, OpenedOk, WaitersOk, TokensOk, MemberOk, NoDup;
    forall q | q in Files(s.nodes, p)
      ensures q in s.nodes && q != p
    {
      MemberIs(s.nodes, want, p, q);
    }
  }

  /** Of the parts listed with archive `p`, the first `k` are loaded, or given up; nothing else has changed. */
  ghost predicate PartsDone(a: Nodes, b: Nodes, p: Ptr, list: seq<Ptr>, k: nat, ok: bool) {
    && k <= |list| && p in a && p in b && a.Keys == b.Keys && a[p].state.LOADING? && a[p].state.info.kind.Archive?
    && b[p] == WithFiles(a[p], list[k..])
    && forall q | q in a && q != p ::
         if q in list[..k] then b[q].size == a[q].size
             && (if ok then b[q].state == LOADED else b[q] == Node(UNLOADED, a[q].size, []))
         else b[q] == a[q]
  }

  /** The load of `p` has ended, and with it those of the files listed with it; no other file has changed. */
  ghost predicate Settled(a: Nodes, b: Nodes, p: Ptr, ok: bool) {
    && a.Keys == b.Keys
    && forall q | q in a && q != p ::
         if q in Files(a, p) then b[q].size == a[q].size
             && (if ok then b[q].state == LOADED else b[q] == Node(UNLOADED, a[q].size, []))
         else b[q] == a[q]
  }

  /** Part `p` has left the list of its archive; nothing else has changed. */
  ghost predicate Left(a: Nodes, b: Nodes, p: Ptr) {
    && a.Keys == b.Keys && p in a && a[p].state.LOADING? && a[p].state.info.kind.Member?
    && var r := a[p].state.info.kind.archive;
       && (forall q | q in a && q != p && q != r :: b[q] == a[q])
       && r in a && a[r].state.LOADING? && a[r].state.info.kind.Archive? && p in Files(a, r)
       && exists i: nat | i < |Files(a, r)| :: Files(a, r)[i] == p && b[r] == WithFiles(a[r], Without(Files(a, r), i))
  }

  lemma AllDone(a: Nodes, b: Nodes, p: Ptr, ok: bool)
    requires PartsDone(a, b, p, Files(a, p), |Files(a, p)|, ok)
    ensures a.Keys == b.Keys && p in a && a[p].state.LOADING? && a[p].state.info.kind.Archive?
    ensures p in b && b[p] == WithFiles(a[p], [])
  {
    assert Files(a, p)[|Files(a, p)|..] == [];
  }

  lemma NoParts(a: Nodes, p: Ptr, ok: bool)
    requires p in a && Files(a, p) == []
    ensures Settled(a, a, p, ok)
  {
  }

  lemma PartsSettled(a: Nodes, b: Nodes, p: Ptr, n: Node, ok: bool)
    requires PartsDone(a, b, p, Files(a, p), |Files(a, p)|, ok) || Settled(a, b, p, ok)
    requires p in a && p in b
    ensures Settled(a, b[p := n], p, ok)
  {
    assert Files(a, p)[..|Files(a, p)|] == Files(a, p);
  }

  lemma SettledSince(a: Nodes, b: Nodes, c: Nodes, p: Ptr, ok: bool)
    requires p in a && p in b && b == a[p := b[p]] && Files(a, p) == Files(b, p) && Settled(b, c, p, ok)
    ensures Settled(a, c, p, ok)
  {
  }

  lemma PartLeft(s: Fs, s0: Fs, want: Ptr -> Bytes, a: Ptr, p: Ptr, i: nat)
    requires p in s0.nodes && s0.nodes[p].state.LOADING? && s0.nodes[p].state.info.kind.Member?
    requires a == s0.nodes[p].state.info.kind.archive && a in s0.nodes && a != p && i < |Files(s0.nodes, a)|
             && Files(s0.nodes, a)[i] == p
    requires s.nodes == Parted(s0.nodes, a, i, Node(UNLOADED, s0.nodes[p].size, []))
    ensures Left(s0.nodes, s.nodes, p)
  {
  }

  lemma GoneAfter(a: Nodes, b: Nodes, p: Ptr)
    requires p in a && p in b
    ensures var c := (b - {p})[p := Node(UNLOADED, 0, [])];
            && (Settled(a, b, p, false) ==> Settled(a, c, p, false))
            && (Left(a, b, p) ==> Left(a, c, p))
  {
    var c := (b - {p})[p := Node(UNLOADED, 0, [])];
    if Settled(a, b, p, false) {
      PartsSettled(a, b, p, c[p], false);
      assert c == b[p := c[p]];
    }
    if Left(a, b, p) {
      assert a[p].state.info.kind.archive != p;
    }
  }

  lemma NoneDone(a: Nodes, p: Ptr, ok: bool)
    requires p in a && a[p].state.LOADING? && a[p].state.info.kind.Archive?
    ensures PartsDone(a, a, p, Files(a, p), 0, ok)
  {
    assert Files(a, p)[0..] == Files(a, p);
  }

  lemma OneMoreDone(a: Nodes, b: Nodes, c: Nodes, p: Ptr, list: seq<Ptr>, k: nat, ok: bool)
    requires PartsDone(a, b, p, list, k, ok) && k < |list| && NoDup(list) && p !in list && p in b
             && Files(b, p) == list[k..]
    requires list[k] in b && list[k] in c && c == Parted(b, p, 0, c[list[k]])
    requires c[list[k]].size == b[list[k]].size
    requires if ok then c[list[k]].state == LOADED else c[list[k]] == Node(UNLOADED, b[list[k]].size, [])
    ensures PartsDone(a, c, p, list, k + 1, ok) && Files(c, p) == list[k + 1..]
    ensures list[k] in a && b[list[k]] == a[list[k]]
  {
    assert Without(list[k..], 0) == list[k + 1..];
    assert list[..k + 1] == list[..k] + [list[k]];
    assert list[k] !in list[..k];
  }

  /** Whoever waits for a part of an archive is told, in the order of the parts. */
  function PartAnswers(nodes: Nodes, list: seq<Ptr>, err: int): seq<Call> {
    if list == [] then []
    else
      var last := list[|list| - 1];
      PartAnswers(nodes, list[..|list| - 1], err) + if last in nodes then Answers([], WaiterOf(nodes[last]), err)
          else []
  }

  lemma OneMoreAnswer(nodes: Nodes, list: seq<Ptr>, k: nat, completed: seq<Call>, err: int)
    requires k < |list| && list[k] in nodes
    ensures Answers(completed + PartAnswers(nodes, list[..k], err), WaiterOf(nodes[list[k]]), err)
         == completed + PartAnswers(nodes, list[..k + 1], err)
  {
    assert list[..k + 1][..k] == list[..k];
  }

  /** The calls made when the transfer for `p` ends. */
  function EndAnswers(nodes: Nodes, p: Ptr, err: int): seq<Call>
    requires p in nodes
  {
    PartAnswers(nodes, Files(nodes, p), err) + Answers([], WaiterOf(nodes[p]), err)
  }

  lemma {:induction false} SamePartAnswers(a: Nodes, b: Nodes, list: seq<Ptr>, err: int)
    requires a.Keys == b.Keys && forall q | q in a :: WaiterOf(a[q]) == WaiterOf(b[q])
    ensures PartAnswers(a, list, err) == PartAnswers(b, list, err)
  {
    hide WaiterOf;
    if list != [] {
      SamePartAnswers(a, b, list[..|list| - 1], err);
    }
  }

  lemma SameAnswers(a: Nodes, b: Nodes, p: Ptr, err: int)
    requires p in a && p in b && b == a[p := b[p]] && WaiterOf(a[p]) == WaiterOf(b[p]) && Files(a, p) == Files(b, p)
    ensures EndAnswers(a, p, err) == EndAnswers(b, p, err)
  {
    hide WaiterOf;
    SamePartAnswers(a, b, Files(a, p), err);
  }

  lemma AnyBuffer(nodes: Nodes, got: map<Ptr, nat>, want: Ptr -> Bytes, p: Ptr)
    requires BuffersOk(nodes, got, want) && p in nodes
    ensures BufferOk(nodes[p], Got(got, p), want(p))
  {
    hide BufferOk;
  }

  lemma OneBuffer(nodes: Nodes, got: map<Ptr, nat>, want: Ptr -> Bytes, p: Ptr)
    requires BuffersOk(nodes, got, want) && p in nodes && p in got
    ensures BufferOk(nodes[p], got[p], want(p))
  {
    hide BufferOk;
    assert BufferOk(nodes[p], Got(got, p), want(p));
  }

  /** How far a transfer has come. */
  lemma Progress(s: Fs, want: Ptr -> Bytes, p: Ptr)
    requires Inv(s, want) && p in s.nodes && Transfers(s.nodes[p]) && p in s.got
    ensures BufferOk(s.nodes[p], s.got[p], want(p))
    ensures s.nodes[p].state.info.curPos == Min(s.got[p], s.nodes[p].size) && s.got[p] <= |want(p)|
  {
    hide CacheOk, ArchivesOk, OpenedOk, WaitersOk, TokensOk;
    OneBuffer(s.nodes, s.got, want, p);
  }

  lemma LoadedAgain(n: Node, n0: Node, want: Bytes)
    requires n.size == n0.size && n.fbuf == n0.fbuf && n0.size <= |want| && n0.fbuf == want[..n0.size]
    ensures BufferOk(n.(state := LOADED), 0, want)
  {
  }

  lemma PartBuffer(n: Node, want: Bytes)
    requires n.state.LOADING? && n.state.info.kind.Member? && |n.fbuf| == n.size
    ensures BufferOk(n, 0, want) && !Transfers(n)
  {
  }

  lemma MemberMoved(a: Nodes, was: Nodes, b: Nodes, files: map<Fid, File>, short: set<Ptr>, p: Ptr, q: Ptr, n: Node,
      list: seq<Ptr>)
    requires Trimmed(a, was, files) && p in a && q in a && a[q].state == UNLOADED
    requires Begins(a[q], n) && Fits(a, short, q) && LoadsArchive(a[p]) && Files(was, p) <= list
    requires b == was[q := n][p := WithFiles(a[p], list)]
    ensures AllMoved(a, b, short)
  {
  }

  lemma LocalBuffer(n: Node, want: Bytes)
    requires n.state == LOCAL
    ensures BufferOk(n, 0, want) && !Transfers(n)
  {
  }

  lemma WaitKeepsBuffer(a: Node, b: Node, got: nat, want: Bytes)
    requires BufferOk(a, got, want) && a.state.LOADING? && b.state.LOADING?
    requires b == a.(state := LOADING(a.state.info.(waiter := b.state.info.waiter)))
    ensures BufferOk(b, got, want) && Transfers(b) == Transfers(a)
  {
  }

  lemma SameBuffers(nodes: Nodes, got: map<Ptr, nat>, want: Ptr -> Bytes, p: Ptr, n: Node)
    requires BuffersOk(nodes, got, want) && p in nodes && BufferOk(n, Got(got, p), want(p))
             && Transfers(n) == Transfers(nodes[p])
    ensures BuffersOk(nodes[p := n], got, want)
  {
    hide BufferOk;
  }

  /** After preloading, a file that was not loaded still is not, or is being loaded and nobody waits for it. */
  lemma StillUnloaded(a: Nodes, b: Nodes, p: Ptr, short: set<Ptr>)
    requires AllMoved(a, b, short) && p in a && a[p].state == UNLOADED
    ensures p in b && Fits(b, short, p) == Fits(a, short, p)
    ensures b[p].state == UNLOADED ==> b[p] == a[p]
    ensures b[p].state == UNLOADED || (b[p].state.LOADING? && b[p].state.info.waiter == None && Fits(b, short, p))
  {
  }

  lemma UnloadedBuffer(n: Node, want: Bytes)
    requires n.state == UNLOADED
    ensures BufferOk(n, 0, want) && !Transfers(n)
  {
  }

  lemma NextStarted(a: Nodes, b: Nodes, c: Nodes, lookup: map<string, Ptr>, short: set<Ptr>, pa: seq<ArchiveFile>,
      k: nat)
    requires k < |pa| && AllMoved(a, b, short) && AllMoved(b, c, short) && AllStarted(a, b, lookup, short, pa[..k])
    requires Started(b, c, lookup, short, pa[k].name)
    ensures AllStarted(a, c, lookup, short, pa[..k + 1])
  {
    hide AllMoved, Started;
    AllStartedOn(a, b, c, lookup, short, pa[..k]);
    StartedOn(a, b, c, lookup, short, pa[k].name);
    var s := pa[..k + 1];
    forall j | 0 <= j < |s|
      ensures Started(a, c, lookup, short, s[j].name)
    {
      if j < k {
        assert pa[..k][j] == pa[j];
      }
    }
  }
}
