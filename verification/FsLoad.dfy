/** Files whose contents come over the network: the states of a file, the cache of loaded files, and the opens that
    wait. */
module FsLoad {
  import opened FiniteSum
  import opened Wrappers

  type Ptr = nat
  type Fid = nat
  type Bytes = seq<bv8>

  /** A transfer loads one file, or an archive and the files listed with it. */
  datatype Kind = Single | Archive(files: seq<Ptr>) | Member(archive: Ptr, offset: nat)

  /** Whom to tell when the file is loaded. */
  datatype Waiter = Waiter(f: Fid, token: nat)

  datatype OpenInfo = OpenInfo(kind: Kind, curPos: nat, waiter: Option<Waiter>)

  datatype State = LOCAL | UNLOADED | LOADING(info: OpenInfo) | LOADED

  datatype Node = Node(state: State, size: nat, fbuf: Bytes)

  datatype File = File(inode: Ptr, isOpened: bool)

  type Nodes = map<Ptr, Node>

  /** The completion function of the open known as `token` is called, with 0 or an error. */
  datatype Call = Call(token: nat, err: int)

  /** `completed` are the completion calls made, `got` how much of each file being transferred has been delivered. */
  datatype Fs = Fs(nodes: Nodes, files: map<Fid, File>, cache: seq<Ptr>, cacheSize: int,
                   completed: seq<Call>, nextToken: nat, got: map<Ptr, nat>)

  // ---- The invariant, in parts ------------------------------------------------------------------------------

  predicate NoDup(s: seq<Ptr>) {
    forall i, j :: 0 <= i < j < |s| ==> s[i] != s[j]
  }

  function Without(s: seq<Ptr>, i: nat): seq<Ptr>
    requires i < |s|
  {
    s[..i] + s[i + 1..]
  }

  lemma WithoutOne(s: seq<Ptr>, i: nat)
    requires NoDup(s) && i < |s|
    ensures NoDup(Without(s, i)) && forall q :: q in Without(s, i) <==> q in s && q != s[i]
  {
    var w := Without(s, i);
    forall q | q in s && q != s[i]
      ensures q in w
    {
      var j :| 0 <= j < |s| && s[j] == q;
      assert w[if j < i then j else j - 1] == q;
    }
  }

  ghost function LoadedSize(): Node -> int {
    (n: Node) => if n.state == LOADED then n.size else 0
  }

  /** The cache list holds each loaded file once, and their sizes add up. */
  ghost predicate CacheOk(nodes: Nodes, cache: seq<Ptr>, cacheSize: int) {
    && NoDup(cache)
    && (forall p :: p in cache <==> p in nodes && nodes[p].state == LOADED)
    && cacheSize == Sum(nodes, LoadedSize())
  }

  predicate Transfers(n: Node) {
    n.state.LOADING? && !n.state.info.kind.Member?
  }

  function Min(a: nat, b: nat): nat {
    if a < b then a else b
  }

  /** A loaded file is the first `size` bytes of its source; of a file being loaded, those delivered are in place. */
  ghost predicate BufferOk(n: Node, got: nat, want: Bytes) {
    && (n.state == LOADED ==> n.size <= |want| && n.fbuf == want[..n.size])
    && (n.state.LOADING? ==> |n.fbuf| == n.size)
    && (Transfers(n) ==>
          && got <= |want| && n.state.info.curPos == Min(got, n.size)
          && n.fbuf[..n.state.info.curPos] == want[..n.state.info.curPos])
  }

  ghost predicate BuffersOk(nodes: Nodes, got: map<Ptr, nat>, want: Ptr -> Bytes) {
    forall p | p in nodes :: (Transfers(nodes[p]) ==> p in got) && BufferOk(nodes[p], Got(got, p), want(p))
  }

  function Got(got: map<Ptr, nat>, p: Ptr): nat {
    if p in got then got[p] else 0
  }

  /** `q` waits for archive `p`, of whose contents it is a part. */
  ghost predicate MemberOk(nodes: Nodes, want: Ptr -> Bytes, p: Ptr, q: Ptr) {
    && p in nodes && q in nodes && p != q
    && nodes[q].state.LOADING? && nodes[q].state.info.kind.Member? && nodes[q].state.info.kind.archive == p
    && var offset := nodes[q].state.info.kind.offset;
       && offset + nodes[q].size <= nodes[p].size
       && (nodes[p].size <= |want(p)| ==>
             nodes[q].size <= |want(q)| && want(p)[offset..offset + nodes[q].size] == want(q)[..nodes[q].size])
  }

  /** The files an archive being loaded is loading with it. */
  function Files(nodes: Nodes, p: Ptr): seq<Ptr> {
    if p in nodes && nodes[p].state.LOADING? && nodes[p].state.info.kind.Archive? then nodes[p].state.info.kind.files
    else []
  }

  ghost predicate ArchivesOk(nodes: Nodes, want: Ptr -> Bytes) {
    && (forall p | p in nodes ::
          NoDup(Files(nodes, p)) && forall q | q in Files(nodes, p) :: MemberOk(nodes, want, p, q))
    && (forall q | q in nodes && nodes[q].state.LOADING? && nodes[q].state.info.kind.Member? ::
          q in Files(nodes, nodes[q].state.info.kind.archive))
  }

  /** Files open on an inode, opened or not: the inode's open count. */
  predicate InUse(files: map<Fid, File>, p: Ptr) {
    exists f :: f in files && files[f].inode == p
  }

  /** A handle is opened only on contents that are there. */
  ghost predicate OpenedOk(nodes: Nodes, files: map<Fid, File>) {
    forall f | f in files && files[f].isOpened && files[f].inode in nodes ::
      nodes[files[f].inode].state == LOCAL || nodes[files[f].inode].state == LOADED
  }

  function WaiterOf(n: Node): Option<Waiter> {
    if n.state.LOADING? then n.state.info.waiter else None
  }

  ghost predicate Waits(nodes: Nodes, p: Ptr, t: nat) {
    p in nodes && WaiterOf(nodes[p]).Some? && WaiterOf(nodes[p]).value.token == t
  }

  /** A handle that waits is open on the file it waits for. */
  ghost predicate WaitersOk(nodes: Nodes, files: map<Fid, File>) {
    forall p | p in nodes && WaiterOf(nodes[p]).Some? ::
      WaiterOf(nodes[p]).value.f in files && files[WaiterOf(nodes[p]).value.f].inode == p
  }

  predicate Told(completed: seq<Call>, t: nat) {
    exists i :: 0 <= i < |completed| && completed[i].token == t
  }

  /** No open is answered twice. */
  predicate OnceEach(completed: seq<Call>) {
    forall i, j :: 0 <= i < j < |completed| ==> completed[i].token != completed[j].token
  }

  lemma ToldMore(completed: seq<Call>, c: Call, t: nat)
    ensures Told(completed + [c], t) <==> Told(completed, t) || t == c.token
  {
    if Told(completed, t) {
      var i :| 0 <= i < |completed| && completed[i].token == t;
      assert (completed + [c])[i].token == t;
    }
    if t == c.token {
      assert (completed + [c])[|completed|].token == t;
    }
  }

  /** Every open that was told to wait has been answered, once, or is still waited for, in one place. */
  ghost predicate TokensOk(nodes: Nodes, completed: seq<Call>, nextToken: nat) {
    && OnceEach(completed) && (forall i :: 0 <= i < |completed| ==> completed[i].token < nextToken)
    && (forall t: nat | t < nextToken && !Told(completed, t) :: exists p :: Waits(nodes, p, t))
    && (forall p, t: nat | Waits(nodes, p, t) :: t < nextToken && !Told(completed, t))
    && (forall p, q, t: nat | Waits(nodes, p, t) && Waits(nodes, q, t) :: p == q)
  }

  ghost predicate Inv(s: Fs, want: Ptr -> Bytes) {
    && CacheOk(s.nodes, s.cache, s.cacheSize) && BuffersOk(s.nodes, s.got, want) && ArchivesOk(s.nodes, want)
    && OpenedOk(s.nodes, s.files) && WaitersOk(s.nodes, s.files) && TokensOk(s.nodes, s.completed, s.nextToken)
  }

  /** An open that was told to wait has been answered, or some transfer is still under way. */
  lemma Answered(s: Fs, want: Ptr -> Bytes, t: nat)
    requires Inv(s, want) && t < s.nextToken
    ensures Told(s.completed, t) || exists p :: p in s.nodes && Transfers(s.nodes[p])
  {
    hide CacheOk, BuffersOk, OpenedOk, Told;
    if !Told(s.completed, t) {
      var p :| Waits(s.nodes, p, t);
      if !Transfers(s.nodes[p]) {
        var a := s.nodes[p].state.info.kind.archive;
        assert p in Files(s.nodes, a);
        assert a in s.nodes && Transfers(s.nodes[a]);
      }
    }
  }

  // ---- One file changes state -------------------------------------------------------------------------------

  lemma CacheSame(nodes: Nodes, cache: seq<Ptr>, cacheSize: int, p: Ptr, n: Node)
    requires CacheOk(nodes, cache, cacheSize) && p in nodes && n.state != LOADED && nodes[p].state != LOADED
    ensures CacheOk(nodes[p := n], cache, cacheSize)
  {
    SumPut(nodes, p, n, LoadedSize());
  }

  /** The file leaves the cache. */
  lemma CacheLess(nodes: Nodes, cache: seq<Ptr>, cacheSize: int, i: nat, n: Node)
    requires CacheOk(nodes, cache, cacheSize) && i < |cache| && n.state != LOADED
    ensures CacheOk(nodes[cache[i] := n], Without(cache, i), cacheSize - nodes[cache[i]].size)
  {
    var p := cache[i];
    assert p in cache;
    SumPut(nodes, p, n, LoadedSize());
    WithoutOne(cache, i);
  }

  /** The file enters the cache, in front. */
  lemma CacheMore(nodes: Nodes, cache: seq<Ptr>, cacheSize: int, p: Ptr, n: Node)
    requires CacheOk(nodes, cache, cacheSize) && p in nodes && nodes[p].state != LOADED && n.state == LOADED
    ensures CacheOk(nodes[p := n], [p] + cache, cacheSize + n.size)
  {
    SumPut(nodes, p, n, LoadedSize());
    assert p !in cache;
  }

  /** The file moves to the front. */
  lemma CacheTouch(nodes: Nodes, cache: seq<Ptr>, cacheSize: int, i: nat)
    requires CacheOk(nodes, cache, cacheSize) && i < |cache|
    ensures CacheOk(nodes, [cache[i]] + Without(cache, i), cacheSize)
  {
    WithoutOne(cache, i);
    var c := [cache[i]] + Without(cache, i);
    assert forall q :: q in c <==> q == cache[i] || q in Without(cache, i);
  }

  lemma BuffersChanged(nodes: Nodes, got: map<Ptr, nat>, want: Ptr -> Bytes, p: Ptr, n: Node, g: nat)
    requires BuffersOk(nodes, got, want) && BufferOk(n, g, want(p))
    ensures BuffersOk(nodes[p := n], got[p := g], want)
  {
    hide BufferOk;
  }

  lemma BuffersIdle(nodes: Nodes, got: map<Ptr, nat>, want: Ptr -> Bytes, p: Ptr, n: Node)
    requires BuffersOk(nodes, got, want) && !Transfers(n) && BufferOk(n, 0, want(p))
    ensures BuffersOk(nodes[p := n], got, want)
  {
    forall q | q in nodes[p := n]
      ensures (Transfers(nodes[p := n][q]) ==> q in got) && BufferOk(nodes[p := n][q], Got(got, q), want(q))
    {
    }
  }

  /** Not part of an archive being loaded, nor an archive with parts. */
  predicate Loose(n: Node) {
    n.state.LOADING? ==> n.state.info.kind.Single? || n.state.info.kind == Archive([])
  }

  predicate SameKind(a: Node, b: Node) {
    && a.size == b.size && a.state.LOADING? == b.state.LOADING?
    && (a.state.LOADING? ==> a.state.info.kind == b.state.info.kind)
  }

  lemma ArchivesLoose(nodes: Nodes, want: Ptr -> Bytes, p: Ptr, n: Node)
    requires ArchivesOk(nodes, want) && p in nodes && Loose(nodes[p]) && Loose(n)
    ensures ArchivesOk(nodes[p := n], want)
  {
    var m := nodes[p := n];
    forall a | a in m
      ensures NoDup(Files(m, a)) && forall q | q in Files(m, a) :: MemberOk(m, want, a, q)
    {
      if a != p {
        forall q | q in Files(m, a)
          ensures MemberOk(m, want, a, q)
        {
          assert MemberOk(nodes, want, a, q);
        }
      }
    }
    forall q | q in m && m[q].state.LOADING? && m[q].state.info.kind.Member?
      ensures q in Files(m, m[q].state.info.kind.archive)
    {
      assert q in Files(nodes, nodes[q].state.info.kind.archive);
    }
  }

  lemma ArchivesSame(nodes: Nodes, want: Ptr -> Bytes, p: Ptr, n: Node)
    requires ArchivesOk(nodes, want) && p in nodes && SameKind(nodes[p], n)
    ensures ArchivesOk(nodes[p := n], want)
  {
    var m := nodes[p := n];
    forall a | a in m
      ensures Files(m, a) == Files(nodes, a)
    {
    }
    forall a, q | a in m && q in Files(m, a)
      ensures MemberOk(m, want, a, q)
    {
      assert MemberOk(nodes, want, a, q);
    }
    forall q | q in m && m[q].state.LOADING? && m[q].state.info.kind.Member?
      ensures q in Files(m, m[q].state.info.kind.archive)
    {
      assert q in Files(nodes, nodes[q].state.info.kind.archive);
    }
  }

  function Here(n: Node): bool {
    n.state == LOCAL || n.state == LOADED
  }

  lemma OpenedChanged(nodes: Nodes, files: map<Fid, File>, p: Ptr, n: Node)
    requires OpenedOk(nodes, files) && p in nodes
    requires Here(n) || !Here(nodes[p]) || !InUse(files, p)
    ensures OpenedOk(nodes[p := n], files)
  {
    forall f | f in files && files[f].isOpened && files[f].inode == p
      ensures Here(n)
    {
      assert InUse(files, p);
    }
  }

  lemma WaitersSame(nodes: Nodes, files: map<Fid, File>, completed: seq<Call>, nextToken: nat, p: Ptr, n: Node)
    requires WaitersOk(nodes, files) && TokensOk(nodes, completed, nextToken) && p in nodes
             && WaiterOf(n) == WaiterOf(nodes[p])
    ensures WaitersOk(nodes[p := n], files) && TokensOk(nodes[p := n], completed, nextToken)
  {
    hide WaiterOf;
    var m := nodes[p := n];
    forall q, t: nat
      ensures Waits(m, q, t) == Waits(nodes, q, t)
    {
    }
    forall t: nat | t < nextToken && !Told(completed, t)
      ensures exists q :: Waits(m, q, t)
    {
      var q :| Waits(nodes, q, t);
      assert Waits(m, q, t);
    }
  }

  /** A new open waits. */
  lemma WaiterAdded(nodes: Nodes, files: map<Fid, File>, completed: seq<Call>, nextToken: nat, p: Ptr, n: Node, f: Fid)
    requires WaitersOk(nodes, files) && TokensOk(nodes, completed, nextToken) && p in nodes
             && WaiterOf(nodes[p]) == None
    requires WaiterOf(n) == Some(Waiter(f, nextToken)) && f in files && files[f].inode == p
    ensures WaitersOk(nodes[p := n], files) && TokensOk(nodes[p := n], completed, nextToken + 1)
  {
    hide WaiterOf;
    var m := nodes[p := n];
    assert Waits(m, p, nextToken);
    forall q, t: nat
      ensures Waits(m, q, t) == (Waits(nodes, q, t) || (q == p && t == nextToken))
    {
    }
    forall t: nat | t < nextToken && !Told(completed, t)
      ensures exists q :: Waits(m, q, t)
    {
      var q :| Waits(nodes, q, t);
      assert Waits(m, q, t);
    }
  }

  /** The open that waits for `p` is answered, and only it. */
  lemma WaiterAnswered(nodes: Nodes, files: map<Fid, File>, completed: seq<Call>, nextToken: nat, p: Ptr, n: Node,
      err: int)
    requires WaitersOk(nodes, files) && TokensOk(nodes, completed, nextToken) && p in nodes && WaiterOf(n) == None
    requires WaiterOf(nodes[p]).Some?
    ensures !Told(completed, WaiterOf(nodes[p]).value.token)
    ensures WaitersOk(nodes[p := n], files)
    ensures TokensOk(nodes[p := n], completed + [Call(WaiterOf(nodes[p]).value.token, err)], nextToken)
  {
    hide WaiterOf;
    var m, w := nodes[p := n], WaiterOf(nodes[p]).value.token;
    assert Waits(nodes, p, w);
    forall q, t: nat
      ensures Waits(m, q, t) == (Waits(nodes, q, t) && q != p)
    {
    }
    var more := completed + [Call(w, err)];
    forall t: nat
      ensures Told(more, t) <==> Told(completed, t) || t == w
    {
      ToldMore(completed, Call(w, err), t);
    }
    forall i | 0 <= i < |completed|
      ensures completed[i].token != w
    {
    }
    forall t: nat | t < nextToken && !Told(more, t)
      ensures exists q :: Waits(m, q, t)
    {
      var q :| Waits(nodes, q, t);
      assert Waits(m, q, t);
    }
  }

  // ---- Archives and their parts -----------------------------------------------------------------------------

  function WithFiles(n: Node, files: seq<Ptr>): Node
    requires n.state.LOADING? && n.state.info.kind.Archive?
  {
    n.(state := LOADING(n.state.info.(kind := Archive(files))))
  }

  lemma MemberKept(nodes: Nodes, m: Nodes, want: Ptr -> Bytes, p: Ptr, q: Ptr)
    requires MemberOk(nodes, want, p, q) && p in m && q in m && m[p].size == nodes[p].size && SameKind(nodes[q], m[q])
    ensures MemberOk(m, want, p, q)
  {
  }

  lemma MemberIs(nodes: Nodes, want: Ptr -> Bytes, p: Ptr, q: Ptr)
    requires MemberOk(nodes, want, p, q)
    ensures p in nodes && q in nodes && p != q && nodes[q].state.LOADING? && nodes[q].state.info.kind.Member?
    ensures nodes[q].state.info.kind.archive == p && Files(nodes, q) == []
  {
  }

  /** File `q` starts loading as a part of archive `p`. */
  lemma MemberAdded(nodes: Nodes, want: Ptr -> Bytes, p: Ptr, q: Ptr, n: Node)
    requires ArchivesOk(nodes, want) && p in nodes && q in nodes && !nodes[q].state.LOADING?
    requires nodes[p].state.LOADING? && nodes[p].state.info.kind.Archive?
    requires MemberOk(nodes[q := n], want, p, q)
    ensures ArchivesOk(nodes[q := n][p := WithFiles(nodes[p], Files(nodes, p) + [q])], want)
  {
    hide MemberOk, Files;
    MemberIs(nodes[q := n], want, p, q);
    var m := nodes[q := n][p := WithFiles(nodes[p], Files(nodes, p) + [q])];
    MemberKept(nodes[q := n], m, want, p, q);
    FilesAdded(nodes, p, q, n);
    forall a, r | a in nodes && r in Files(nodes, a)
      ensures MemberOk(m, want, a, r) && r != q
    {
      MemberIs(nodes, want, a, r);
      MemberKept(nodes, m, want, a, r);
    }
    forall r | r in m && m[r].state.LOADING? && m[r].state.info.kind.Member? && r != q
      ensures r in Files(m, m[r].state.info.kind.archive)
    {
      assert r in Files(nodes, nodes[r].state.info.kind.archive);
    }
  }

  lemma FilesAdded(nodes: Nodes, p: Ptr, q: Ptr, n: Node)
    requires p in nodes && q in nodes && p != q && !nodes[q].state.LOADING? && Files(nodes[q := n], q) == []
    requires nodes[p].state.LOADING? && nodes[p].state.info.kind.Archive?
    ensures var m := nodes[q := n][p := WithFiles(nodes[p], Files(nodes, p) + [q])];
            forall a :: Files(m, a) == if a == p then Files(nodes, p) + [q] else Files(nodes, a)
    ensures Files(nodes, q) == []
  {
  }

  /** Part `i` of archive `p` is done with. */
  lemma MemberRemoved(nodes: Nodes, want: Ptr -> Bytes, p: Ptr, i: nat, n: Node)
    requires ArchivesOk(nodes, want) && p in nodes && i < |Files(nodes, p)| && Loose(n)
    ensures var q := Files(nodes, p)[i];
            && q in nodes && q != p
            && ArchivesOk(nodes[q := n][p := WithFiles(nodes[p], Without(Files(nodes, p), i))], want)
  {
    hide MemberOk, Files, Without, NoDup;
    var q, rest := Files(nodes, p)[i], Without(Files(nodes, p), i);
    assert q in Files(nodes, p);
    MemberIs(nodes, want, p, q);
    FilesRemoved(nodes, p, q, rest, n);
    var m := nodes[q := n][p := WithFiles(nodes[p], rest)];
    WithoutOne(Files(nodes, p), i);
    forall a, r | a in m && r in Files(m, a)
      ensures MemberOk(m, want, a, r)
    {
      MemberIs(nodes, want, a, r);
      MemberKept(nodes, m, want, a, r);
    }
    OwnersRemoved(nodes, p, q, rest, n);
  }

  lemma OwnersRemoved(nodes: Nodes, p: Ptr, q: Ptr, rest: seq<Ptr>, n: Node)
    requires p in nodes && q in nodes && p != q && q in Files(nodes, p) && Loose(n)
    requires forall r :: r in rest <==> r in Files(nodes, p) && r != q
    requires forall r | r in nodes && nodes[r].state.LOADING? && nodes[r].state.info.kind.Member? ::
               r in Files(nodes, nodes[r].state.info.kind.archive)
    ensures var m := nodes[q := n][p := WithFiles(nodes[p], rest)];
            (forall a :: Files(m, a) == if a == p then rest else Files(nodes, a)) ==>
              forall r | r in m && m[r].state.LOADING? && m[r].state.info.kind.Member? ::
                r in Files(m, m[r].state.info.kind.archive)
  {
  }

  lemma FilesRemoved(nodes: Nodes, p: Ptr, q: Ptr, rest: seq<Ptr>, n: Node)
    requires p in nodes && q in nodes && p != q && Files(nodes, p) != [] && Loose(n)
    requires Files(nodes, q) == []
    ensures nodes[p].state.LOADING? && nodes[p].state.info.kind.Archive?
    ensures var m := nodes[q := n][p := WithFiles(nodes[p], rest)];
            forall a :: Files(m, a) == if a == p then rest else Files(nodes, a)
  {
  }

  lemma InCache(nodes: Nodes, cache: seq<Ptr>, cacheSize: int, i: nat)
    requires CacheOk(nodes, cache, cacheSize) && i < |cache|
    ensures cache[i] in nodes && nodes[cache[i]].state == LOADED
  {
    assert cache[i] in cache;
  }

  // ---- Transfers --------------------------------------------------------------------------------------------

  /** Bytes delivered go in place, except those beyond the size. */
  function Delivered(n: Node, data: Bytes): Node
    requires n.state.LOADING? && n.state.info.curPos <= |n.fbuf| == n.size
  {
    var pos := n.state.info.curPos;
    var len := Min(n.size - pos, |data|);
    n.(fbuf := n.fbuf[..pos] + data[..len] + n.fbuf[pos + len..], state := LOADING(n.state.info.(curPos := pos + len)))
  }

  lemma DeliveredOk(n: Node, got: nat, want: Bytes, data: Bytes)
    requires BufferOk(n, got, want) && Transfers(n) && got + |data| <= |want| && data == want[got..got + |data|]
    ensures n.state.info.curPos <= |n.fbuf| == n.size
    ensures BufferOk(Delivered(n, data), got + |data|, want)
  {
    var pos := n.state.info.curPos;
    var len := Min(n.size - pos, |data|);
    assert want[..pos] + data[..len] == want[..pos + len];
    assert Delivered(n, data).fbuf[..pos + len] == n.fbuf[..pos] + data[..len];
  }

  /** When all has been delivered and the file is full, it is what it should be. */
  lemma FullOk(n: Node, got: nat, want: Bytes)
    requires BufferOk(n, got, want) && Transfers(n) && n.state.info.curPos == n.size
    ensures n.size <= |want| && n.fbuf == want[..n.size]
    ensures BufferOk(n.(state := LOADED), 0, want)
  {
    assert n.fbuf[..n.size] == n.fbuf;
  }

  /** The handles after an open is answered: it is open if the file was loaded. */
  function AfterAnswer(files: map<Fid, File>, w: Option<Waiter>, ok: bool): map<Fid, File> {
    if w.Some? && w.value.f in files && ok then files[w.value.f := files[w.value.f].(isOpened := true)] else files
  }

  function Answers(completed: seq<Call>, w: Option<Waiter>, err: int): seq<Call> {
    if w.Some? then completed + [Call(w.value.token, err)] else completed
  }

  /** Whoever waits for `p` is told. */
  lemma AnswerAny(nodes: Nodes, files: map<Fid, File>, completed: seq<Call>, nextToken: nat, p: Ptr, n: Node, err: int)
    requires WaitersOk(nodes, files) && TokensOk(nodes, completed, nextToken) && p in nodes && !n.state.LOADING?
    ensures WaiterOf(nodes[p]).Some? ==>
              !Told(completed, WaiterOf(nodes[p]).value.token) && WaiterOf(nodes[p]).value.f in files
    ensures WaitersOk(nodes[p := n], files)
    ensures TokensOk(nodes[p := n], Answers(completed, WaiterOf(nodes[p]), err), nextToken)
  {
    hide TokensOk;
    if WaiterOf(nodes[p]).Some? {
      WaiterAnswered(nodes, files, completed, nextToken, p, n, err);
    } else {
      WaitersSame(nodes, files, completed, nextToken, p, n);
    }
  }

  lemma OpenedAnswered(nodes: Nodes, files: map<Fid, File>, p: Ptr, n: Node, ok: bool)
    requires OpenedOk(nodes, files) && WaitersOk(nodes, files) && p in nodes && nodes[p].state.LOADING?
    requires n.state == if ok then LOADED else UNLOADED
    ensures OpenedOk(nodes[p := n], AfterAnswer(files, WaiterOf(nodes[p]), ok))
  {
    OpenedChanged(nodes, files, p, n);
  }

  lemma WaitersAnswered(nodes: Nodes, files: map<Fid, File>, w: Option<Waiter>, ok: bool)
    requires WaitersOk(nodes, files)
    ensures WaitersOk(nodes, AfterAnswer(files, w, ok))
  {
    hide WaiterOf;
  }

  lemma CacheAnswered(nodes: Nodes, cache: seq<Ptr>, cacheSize: int, p: Ptr, n: Node, ok: bool)
    requires CacheOk(nodes, cache, cacheSize) && p in nodes && nodes[p].state.LOADING?
    requires n.state == if ok then LOADED else UNLOADED
    ensures CacheOk(nodes[p := n], if ok then [p] + cache else cache, if ok then cacheSize + n.size else cacheSize)
  {
    hide CacheOk;
    if ok {
      CacheMore(nodes, cache, cacheSize, p, n);
    } else {
      CacheSame(nodes, cache, cacheSize, p, n);
    }
  }

  /** An archive's list of parts may change without anything else noticing. */
  lemma ListEdited(nodes: Nodes, files: map<Fid, File>, cache: seq<Ptr>, cacheSize: int, completed: seq<Call>,
                   nextToken: nat, got: map<Ptr, nat>, want: Ptr -> Bytes, p: Ptr, list: seq<Ptr>)
    requires p in nodes && nodes[p].state.LOADING? && nodes[p].state.info.kind.Archive?
    requires CacheOk(nodes, cache, cacheSize) && BuffersOk(nodes, got, want) && OpenedOk(nodes, files)
    requires WaitersOk(nodes, files) && TokensOk(nodes, completed, nextToken)
    ensures var m := nodes[p := WithFiles(nodes[p], list)];
            && CacheOk(m, cache, cacheSize) && BuffersOk(m, got, want) && OpenedOk(m, files)
            && WaitersOk(m, files) && TokensOk(m, completed, nextToken)
  {
    hide CacheOk, OpenedOk, WaitersOk, TokensOk;
    var n := WithFiles(nodes[p], list);
    CacheSame(nodes, cache, cacheSize, p, n);
    OpenedChanged(nodes, files, p, n);
    WaitersSame(nodes, files, completed, nextToken, p, n);
    ListKeepsBuffer(nodes[p], list, Got(got, p), want(p));
    assert got[p := Got(got, p)] == got;
    BuffersChanged(nodes, got, want, p, n, Got(got, p));
  }

  lemma ListKeepsBuffer(n: Node, list: seq<Ptr>, got: nat, want: Bytes)
    requires n.state.LOADING? && n.state.info.kind.Archive? && BufferOk(n, got, want)
    ensures BufferOk(WithFiles(n, list), got, want)
  {
  }

  // ---- New files --------------------------------------------------------------------------------------------

  lemma FileAdded(s: Fs, want: Ptr -> Bytes, p: Ptr, n: Node)
    requires Inv(s, want) && p !in s.nodes && !InUse(s.files, p) && (n.state == LOCAL || n.state == UNLOADED)
    ensures Inv(s.(nodes := s.nodes[p := n]), want)
  {
    hide BufferOk, WaitersOk, TokensOk, ArchivesOk, OpenedOk;
    SumPut(s.nodes, p, n, LoadedSize());
    assert BufferOk(n, Got(s.got, p), want(p)) by { IdleBuffer(n, Got(s.got, p), want(p)); }
    ArchivesAdded(s.nodes, want, p, n);
    OpenedAdded(s.nodes, s.files, p, n);
    WaitersAdded(s.nodes, s.files, s.completed, s.nextToken, p, n);
  }

  lemma IdleBuffer(n: Node, got: nat, want: Bytes)
    requires n.state == LOCAL || n.state == UNLOADED
    ensures BufferOk(n, got, want) && !Transfers(n)
  {
  }

  lemma ArchivesAdded(nodes: Nodes, want: Ptr -> Bytes, p: Ptr, n: Node)
    requires ArchivesOk(nodes, want) && p !in nodes && !n.state.LOADING?
    ensures ArchivesOk(nodes[p := n], want)
  {
    var m := nodes[p := n];
    forall a, q | a in m && q in Files(m, a)
      ensures MemberOk(m, want, a, q)
    {
      assert MemberOk(nodes, want, a, q);
    }
    forall q | q in m && m[q].state.LOADING? && m[q].state.info.kind.Member?
      ensures q in Files(m, m[q].state.info.kind.archive)
    {
      assert q in Files(nodes, nodes[q].state.info.kind.archive);
    }
  }

  lemma OpenedAdded(nodes: Nodes, files: map<Fid, File>, p: Ptr, n: Node)
    requires OpenedOk(nodes, files) && !InUse(files, p)
    ensures OpenedOk(nodes[p := n], files)
  {
    forall f | f in files
      ensures files[f].inode != p
    {
    }
  }

  lemma WaitersAdded(nodes: Nodes, files: map<Fid, File>, completed: seq<Call>, nextToken: nat, p: Ptr, n: Node)
    requires WaitersOk(nodes, files) && TokensOk(nodes, completed, nextToken) && p !in nodes && !n.state.LOADING?
    ensures WaitersOk(nodes[p := n], files) && TokensOk(nodes[p := n], completed, nextToken)
  {
    var m := nodes[p := n];
    forall q, t: nat
      ensures Waits(m, q, t) == Waits(nodes, q, t)
    {
    }
    forall t: nat | t < nextToken && !Told(completed, t)
      ensures exists q :: Waits(m, q, t)
    {
      var q :| Waits(nodes, q, t);
      assert Waits(m, q, t);
    }
  }

  // ---- Files that go ----------------------------------------------------------------------------------------

  /** A file nobody uses, and that is neither loaded nor being loaded, goes. */
  lemma FileDropped(s: Fs, want: Ptr -> Bytes, p: Ptr)
    requires Inv(s, want) && p in s.nodes && !InUse(s.files, p)
             && (s.nodes[p].state == LOCAL || s.nodes[p].state == UNLOADED)
    ensures Inv(s.(nodes := s.nodes - {p}), want)
  {
    hide BufferOk, WaitersOk, TokensOk, ArchivesOk, OpenedOk;
    SumTake(s.nodes, p, LoadedSize());
    ArchivesDropped(s.nodes, want, p);
    OpenedDropped(s.nodes, s.files, p);
    WaitersDropped(s.nodes, s.files, s.completed, s.nextToken, p);
  }

  lemma ArchivesDropped(nodes: Nodes, want: Ptr -> Bytes, p: Ptr)
    requires ArchivesOk(nodes, want) && p in nodes && !nodes[p].state.LOADING?
    ensures ArchivesOk(nodes - {p}, want)
  {
    var m := nodes - {p};
    forall a, q | a in m && q in Files(m, a)
      ensures MemberOk(m, want, a, q)
    {
      assert MemberOk(nodes, want, a, q);
    }
    forall q | q in m && m[q].state.LOADING? && m[q].state.info.kind.Member?
      ensures q in Files(m, m[q].state.info.kind.archive)
    {
      assert q in Files(nodes, nodes[q].state.info.kind.archive);
    }
  }

  lemma OpenedDropped(nodes: Nodes, files: map<Fid, File>, p: Ptr)
    requires OpenedOk(nodes, files)
    ensures OpenedOk(nodes - {p}, files)
  {
  }

  lemma WaitersDropped(nodes: Nodes, files: map<Fid, File>, completed: seq<Call>, nextToken: nat, p: Ptr)
    requires WaitersOk(nodes, files) && TokensOk(nodes, completed, nextToken) && p in nodes && !nodes[p].state.LOADING?
    ensures WaitersOk(nodes - {p}, files) && TokensOk(nodes - {p}, completed, nextToken)
  {
    hide Told, OnceEach;
    var m := nodes - {p};
    forall q, t: nat
      ensures Waits(m, q, t) == Waits(nodes, q, t)
    {
    }
    forall t: nat | t < nextToken && !Told(completed, t)
      ensures exists q :: Waits(m, q, t)
    {
      var q :| Waits(nodes, q, t);
      assert Waits(m, q, t);
    }
  }

  /** Nobody waits for a file that nobody uses. */
  lemma NobodyWaits(nodes: Nodes, files: map<Fid, File>, p: Ptr)
    requires WaitersOk(nodes, files) && p in nodes && !InUse(files, p)
    ensures WaiterOf(nodes[p]) == None
  {
    hide WaiterOf;
  }

  // ---- Where a file's bytes come from -----------------------------------------------------------------------

  function Redirected(want: Ptr -> Bytes, p: Ptr, bytes: Bytes): Ptr -> Bytes {
    (q: Ptr) => if q == p then bytes else want(q)
  }

  /** Where the bytes of a file will come from is open until it is being loaded. */
  lemma SourceChanged(nodes: Nodes, got: map<Ptr, nat>, want: Ptr -> Bytes, p: Ptr, bytes: Bytes)
    requires BuffersOk(nodes, got, want) && ArchivesOk(nodes, want) && p in nodes && nodes[p].state == UNLOADED
    ensures BuffersOk(nodes, got, Redirected(want, p, bytes)) && ArchivesOk(nodes, Redirected(want, p, bytes))
  {
    hide BufferOk;
    IdleBuffer(nodes[p], Got(got, p), bytes);
    forall a, q | a in nodes && q in Files(nodes, a)
      ensures MemberOk(nodes, Redirected(want, p, bytes), a, q)
    {
      assert MemberOk(nodes, want, a, q);
    }
  }

  /** No more of a file that is not being transferred is expected. */
  lemma GotDropped(nodes: Nodes, got: map<Ptr, nat>, want: Ptr -> Bytes, p: Ptr)
    requires BuffersOk(nodes, got, want) && p in nodes && nodes[p].state == UNLOADED
    ensures BuffersOk(nodes, got - {p}, want)
  {
    hide BufferOk;
    IdleBuffer(nodes[p], 0, want(p));
  }
}
