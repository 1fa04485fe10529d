/** A run of calls that frees a directory with a file in it. It renames "." of the directory, and with it and its name
    takes the place of ".." in two other directories, which are then removed. */
module FsTrap {
  import opened FsDots
  import opened FsNames
  import opened FsTree
  import opened Wrappers

  type Names = map<string, Ptr>

  function With(names: Names, name: string, p: Ptr): Names {
    names[name := p]
  }

  function Dots(d: Ptr, up: Ptr): Names {
    map["." := d, ".." := up]
  }

  /** The directories and what they name; a directory of `m` may have been freed. */
  ghost predicate Tree(inodes: Inodes, m: map<Ptr, Names>) {
    forall p | p in inodes :: (IsDir(inodes, p) <==> p in m) && (p in m ==> NamesOf(inodes[p].body) == m[p])
  }

  ghost predicate Handles(files: map<Fid, FSFile>, h: map<Fid, Ptr>) {
    files.Keys == h.Keys && forall f | f in files :: files[f].inode == h[f]
  }

  ghost predicate Known(s: Fs, m: map<Ptr, Names>, h: map<Fid, Ptr>) {
    Tree(s.inodes, m) && Handles(s.files, h) && forall p | p in m :: p < s.inodeNumAlloc
  }

  // ---- What the calls do to the names -----------------------------------------------------------------------

  /** What a live directory names is live, and referred to. */
  lemma NameLive(s: Fs, m: map<Ptr, Names>, d: Ptr, name: string)
    requires Inv(s, multiset{}, multiset{}) && Tree(s.inodes, m) && d in s.inodes && d in m && name in m[d]
    ensures m[d][name] in s.inodes && s.inodes[m[d][name]].refcount >= 1
  {
    hide Inv, NameMap;
    var i := MapValue(s.inodes[d].body.entries, name);
    EntryLive(s, multiset{}, d, i);
  }

  lemma HandleLive(s: Fs, m: map<Ptr, Names>, h: map<Fid, Ptr>, f: Fid)
    requires Inv(s, multiset{}, multiset{}) && Known(s, m, h) && f in h && h[f] in m
    ensures f in s.files && s.files[f].inode == h[f] && h[f] in s.inodes && IsDir(s.inodes, h[f])
    ensures NamesOf(s.inodes[h[f]].body) == m[h[f]]
  {
    hide Inv, NamesOf;
    FileLive(s, f);
  }

  lemma Numbers(s: Fs)
    requires Inv(s, multiset{}, multiset{})
    ensures forall p | p in s.inodes :: p < s.inodeNumAlloc
  {
    hide RefsExact, OpensExact, NoDangling, DirsWhole, NoLeak;
  }

  method MakeDir(fs: FSDeviceMem, f: Fid, name: string, ghost m: map<Ptr, Names>, ghost h: map<Fid, Ptr>)
      returns (ghost p: Ptr, ghost m': map<Ptr, Names>)
    requires fs.Valid() && Known(fs.View(), m, h) && f in h && h[f] in m && name !in m[h[f]]
    modifies fs
    ensures fs.Valid() && Known(fs.View(), m', h) && p !in m && p in m' && fs.root == old(fs.root)
    ensures m' == m[h[f] := With(m[h[f]], name, p)][p := Dots(p, h[f])]
  {
    hide Inv, NamesOf;
    HandleLive(fs.View(), m, h, f);
    p := fs.inodeNumAlloc;
    m' := m[h[f] := With(m[h[f]], name, p)][p := Dots(p, h[f])];
    var ret := fs.Mkdir(f, name, 511, 0);
    Numbers(fs.View());
  }

  method MakeFile(fs: FSDeviceMem, f: Fid, name: string, ghost m: map<Ptr, Names>, ghost h: map<Fid, Ptr>, ghost d: Ptr,
                  ghost dName: string)
      returns (ghost p: Ptr, ghost m': map<Ptr, Names>)
    requires fs.Valid() && Known(fs.View(), m, h) && f in h && h[f] in m && name !in m[h[f]]
    requires d in fs.inodes && d in m && dName in m[d] && m[d][dName] == h[f]
    modifies fs
    ensures fs.Valid() && p !in m && m' == m[h[f] := With(m[h[f]], name, p)] && Known(fs.View(), m', h[f := p])
    ensures fs.root == old(fs.root)
  {
    hide Inv, NamesOf;
    HandleLive(fs.View(), m, h, f);
    NameLive(fs.View(), m, d, dName);
    p := fs.inodeNumAlloc;
    m' := m[h[f] := With(m[h[f]], name, p)];
    var ret := fs.Create(f, name, 0, 420, 0);
    Numbers(fs.View());
  }

  method OpenName(fs: FSDeviceMem, f: Fid, name: string, ghost m: map<Ptr, Names>, ghost h: map<Fid, Ptr>)
      returns (g: Fid, ghost h': map<Fid, Ptr>)
    requires fs.Valid() && Known(fs.View(), m, h) && f in h && h[f] in m && name in m[h[f]]
    modifies fs
    ensures g !in h && h' == h[g := m[h[f]][name]] && fs.Valid() && Known(fs.View(), m, h')
    ensures fs.root == old(fs.root)
  {
    hide Inv, NamesOf;
    HandleLive(fs.View(), m, h, f);
    ghost var s := fs.inodes;
    var i;
    g, i := fs.Walk(f, [name]);
    h' := h[g := m[h[f]][name]];
    OneName(s, h[f], name);
    assert [name][..0] == [] && [name][..1] == [name];
  }

  lemma OneName(inodes: Inodes, p: Ptr, name: string)
    requires p in inodes && name in NamesOf(inodes[p].body)
    ensures Follow(inodes, p, [name]) == Some(NamesOf(inodes[p].body)[name])
  {
    hide NamesOf;
    assert [name][..0] == [];
  }

  method Move(fs: FSDeviceMem, f: Fid, name: string, g: Fid, newName: string, ghost m: map<Ptr, Names>,
              ghost h: map<Fid, Ptr>)
      returns (ghost m': map<Ptr, Names>)
    requires fs.Valid() && Known(fs.View(), m, h) && f in h && g in h && h[f] in m && h[g] in m && h[f] != h[g]
    requires name in m[h[f]] && newName !in m[h[g]]
    modifies fs
    ensures m'.Keys == m.Keys && forall d | d in m && d != h[f] && d != h[g] :: m'[d] == m[d]
    ensures m'[h[f]] == m[h[f]] - {name} && m'[h[g]] == With(m[h[g]], newName, m[h[f]][name])
    ensures fs.Valid() && Known(fs.View(), m', h) && fs.root == old(fs.root)
  {
    hide Inv, NamesOf;
    HandleLive(fs.View(), m, h, f);
    HandleLive(fs.View(), m, h, g);
    m' := m[h[f] := m[h[f]] - {name}][h[g] := With(m[h[g]], newName, m[h[f]][name])];
    var ret := fs.RenameAt(f, name, g, newName, h[f], h[g]);
  }

  method CloseName(fs: FSDeviceMem, f: Fid, ghost m: map<Ptr, Names>, ghost h: map<Fid, Ptr>, ghost d: Ptr,
                   ghost name: string)
      returns (ghost h': map<Fid, Ptr>)
    requires fs.Valid() && Known(fs.View(), m, h) && f in h && h[f] in m
    requires d in fs.inodes && d in m && name in m[d] && m[d][name] == h[f]
    modifies fs
    ensures h' == h - {f} && fs.Valid() && Known(fs.View(), m, h') && fs.root == old(fs.root)
  {
    hide Inv, NamesOf;
    HandleLive(fs.View(), m, h, f);
    NameLive(fs.View(), m, d, name);
    h' := h - {f};
    fs.Delete(f);
  }

  /** Remove a directory of "." and ".."; what its ".." names is also named elsewhere. */
  method Remove(fs: FSDeviceMem, f: Fid, name: string, ghost m: map<Ptr, Names>, ghost h: map<Fid, Ptr>, ghost n: Ptr,
                ghost up: Ptr, ghost d: Ptr, ghost dName: string)
      returns (ghost m': map<Ptr, Names>)
    requires fs.Valid() && Known(fs.View(), m, h) && f in h && h[f] in m && name in m[h[f]] && !Dotted(name)
    requires n == m[h[f]][name] && n in m && n != h[f] && m[n] == Dots(n, up)
    requires d in fs.inodes && d in m && d != n && dName in m[d] && m[d][dName] == up
    modifies fs
    ensures m' == m[h[f] := m[h[f]] - {name}][n := map[]]
    ensures fs.Valid() && Known(fs.View(), m', h) && fs.root == old(fs.root)
  {
    hide Inv, NamesOf, Orphaned;
    HandleLive(fs.View(), m, h, f);
    NameLive(fs.View(), m, h[f], name);
    NotOrphaned(fs.View(), m, n, up, d, dName);
    m' := m[h[f] := m[h[f]] - {name}][n := map[]];
    assert Bare(fs.inodes[n].body);
    var ret := fs.UnlinkAt(f, name, h[f]);
    NoNames();
  }

  lemma NoNames()
    ensures NamesOf(Dir([], 0)) == map[]
  {
  }

  /** What a directory names, its map of names names. */
  lemma NamedIn(s: Fs, n: Ptr, t: Ptr)
    requires Inv(s, multiset{}, multiset{}) && n in s.inodes && BodyNaming(s.inodes[n].body, t) > 0
    ensures exists name :: name in NamesOf(s.inodes[n].body) && NamesOf(s.inodes[n].body)[name] == t
  {
    OneDirectory(s, multiset{}, multiset{}, n);
    hide Inv, NameMap;
    var es := s.inodes[n].body.entries;
    var i := Counted1(es, t);
    MapEntry(es, i);
    assert es[i].name in NamesOf(s.inodes[n].body) && NamesOf(s.inodes[n].body)[es[i].name] == t;
  }

  lemma Counted1(es: seq<Dirent>, t: Ptr) returns (i: nat)
    requires CountIn(es, t) > 0
    ensures i < |es| && es[i].inode == t
  {
    if forall i :: 0 <= i < |es| ==> es[i].inode != t {
      NotCounted(es, t);
    }
    i :| i < |es| && es[i].inode == t;
  }

  lemma NotOrphaned(s: Fs, m: map<Ptr, Names>, n: Ptr, up: Ptr, d: Ptr, name: string)
    requires Inv(s, multiset{}, multiset{}) && Tree(s.inodes, m) && n in m && m[n] == Dots(n, up)
    requires n in s.inodes && d in s.inodes && d in m && d != n && name in m[d] && m[d][name] == up
    ensures forall t :: !Orphaned(s.inodes, n, t)
  {
    hide Inv, NamesOf, NameMap;
    forall t | Orphaned(s.inodes, n, t)
      ensures false
    {
      NamedIn(s, n, t);
      NamedElsewhere(s, m, d, name);
      OrphanedMeans(s, n, t);
    }
  }

  lemma NamedElsewhere(s: Fs, m: map<Ptr, Names>, d: Ptr, name: string)
    requires Tree(s.inodes, m) && d in s.inodes && d in m && name in m[d]
    ensures exists i: nat :: NamedBy(s.inodes, m[d][name], d, i)
  {
    var i := MapValue(s.inodes[d].body.entries, name);
    assert NamedBy(s.inodes, m[d][name], d, i);
  }

  /** Nothing but ".." of `n` names `c`, and nobody has it open. */
  lemma IsOrphaned(s: Fs, m: map<Ptr, Names>, h: map<Fid, Ptr>, n: Ptr, c: Ptr)
    requires Inv(s, multiset{}, multiset{}) && Known(s, m, h) && n in s.inodes && n in m && n != c && c != s.root
    requires ".." in m[n] && m[n][".."] == c && c in m && m[c] != map[]
    requires forall d, name | d in m && d != n && name in m[d] :: m[d][name] != c
    requires forall f | f in h :: h[f] != c
    ensures Orphaned(s.inodes, n, c)
  {
    hide Inv;
    NameLive(s, m, n, "..");
    hide NameMap;
    var i := MapValue(s.inodes[n].body.entries, "..");
    EntryCounts(s.inodes, c, n, i);
    forall d, j: nat | NamedBy(s.inodes, c, d, j)
      ensures d == n
    {
      OneDirectory(s, multiset{}, multiset{}, d);
      MapEntry(s.inodes[d].body.entries, j);
    }
    assert Full(s.inodes[c].body);
    OrphanedMeans(s, n, c);
  }

  // ---- The run ----------------------------------------------------------------------------------------------

  /** The root, and the directories `a`, `b` and `c` in it. */
  datatype Places = Places(root: Ptr, a: Ptr, b: Ptr, c: Ptr)

  predicate Apart(p: Places) {
    p.root != p.a && p.root != p.b && p.root != p.c && p.a != p.b && p.a != p.c && p.b != p.c
  }

  predicate OnlyIn(m: map<Ptr, Names>, p: Places) {
    m.Keys == {p.root, p.a, p.b, p.c}
  }

  function Three(p: Places): Names {
    map["." := p.root, ".." := p.root, "a" := p.a, "b" := p.b, "c" := p.c]
  }

  method ThreeDirs() returns (fs: FSDeviceMem, r: Fid, ghost p: Places, ghost m: map<Ptr, Names>,
                              ghost h: map<Fid, Ptr>)
    ensures fs.Valid() && Known(fs.View(), m, h) && fresh(fs) && Apart(p) && OnlyIn(m, p) && fs.root == p.root
    ensures h == map[r := p.root] && m[p.root] == Three(p)
    ensures m[p.a] == Dots(p.a, p.root) && m[p.b] == Dots(p.b, p.root) && m[p.c] == Dots(p.c, p.root)
  {
    hide Inv, NamesOf, Known;
    fs := new FSDeviceMem();
    ghost var root := fs.root;
    m := map[root := Dots(root, root)];
    r := fs.Attach(0);
    h := map[r := root];
    RootKnown(fs.View(), r, m, h);
    p, m := MakeThree(fs, r, m, h);
  }

  method MakeThree(fs: FSDeviceMem, r: Fid, ghost m: map<Ptr, Names>, ghost h: map<Fid, Ptr>)
      returns (ghost p: Places, ghost m': map<Ptr, Names>)
    requires fs.Valid() && Known(fs.View(), m, h)
    requires m == map[fs.root := Dots(fs.root, fs.root)] && h == map[r := fs.root]
    modifies fs
    ensures fs.Valid() && Known(fs.View(), m', h) && fs.root == old(fs.root) == p.root && Apart(p) && OnlyIn(m', p)
    ensures m'[p.root] == Three(p)
    ensures m'[p.a] == Dots(p.a, p.root) && m'[p.b] == Dots(p.b, p.root) && m'[p.c] == Dots(p.c, p.root)
  {
    hide Inv, NamesOf, Known;
    ghost var root := fs.root;
    ghost var a, b, c;
    a, m' := MakeDir(fs, r, "a", m, h);
    b, m' := MakeDir(fs, r, "b", m', h);
    c, m' := MakeDir(fs, r, "c", m', h);
    p := Places(root, a, b, c);
    assert m'[root] == Three(p);
  }

  lemma RootKnown(s: Fs, r: Fid, m: map<Ptr, Names>, h: map<Fid, Ptr>)
    requires Inv(s, multiset{}, multiset{}) && s.inodes.Keys == {s.root} && IsDir(s.inodes, s.root)
    requires m == map[s.root := NamesOf(s.inodes[s.root].body)] && h == map[r := s.root]
    requires s.files.Keys == {r} && s.files[r].inode == s.root
    ensures Known(s, m, h)
  {
    hide Inv, NamesOf;
    Numbers(s);
  }

  /** A handle on each directory. */
  method OpenThree(fs: FSDeviceMem, r: Fid, ghost p: Places, ghost m: map<Ptr, Names>, ghost h: map<Fid, Ptr>)
      returns (fa: Fid, fb: Fid, fc: Fid, ghost h': map<Fid, Ptr>)
    requires fs.Valid() && Known(fs.View(), m, h) && Apart(p) && OnlyIn(m, p) && fs.root == p.root
    requires h == map[r := p.root] && m[p.root] == Three(p)
    modifies fs
    ensures fs.Valid() && Known(fs.View(), m, h') && fs.root == p.root
    ensures r in h' && fa in h' && fb in h' && fc in h'
    ensures h'[r] == p.root && h'[fa] == p.a && h'[fb] == p.b && h'[fc] == p.c
    ensures forall f | f in h' && f != fc :: h'[f] != p.c
  {
    hide Inv, NamesOf, Known;
    fa, h' := OpenName(fs, r, "a", m, h);
    fb, h' := OpenName(fs, r, "b", m, h');
    fc, h' := OpenName(fs, r, "c", m, h');
  }

  /** A file in `c`; the handle that creates it moves to it. */
  method FileInC(fs: FSDeviceMem, r: Fid, fc: Fid, ghost p: Places, ghost m: map<Ptr, Names>, ghost h: map<Fid, Ptr>)
      returns (ghost m': map<Ptr, Names>, ghost h': map<Fid, Ptr>)
    requires fs.Valid() && Known(fs.View(), m, h) && OnlyIn(m, p) && fs.root == p.root
    requires r in h && h[r] == p.root && m[p.root] == Three(p) && m[p.c] == Dots(p.c, p.root)
    requires forall f | f in h && f != fc :: h[f] != p.c
    modifies fs
    ensures fs.Valid() && Known(fs.View(), m', h') && fs.root == p.root
    ensures h.Keys <= h'.Keys && (forall f | f in h :: h'[f] == h[f]) && forall f | f in h' && f != fc :: h'[f] != p.c
    ensures exists file | file !in m :: m' == m[p.c := With(Dots(p.c, p.root), "f", file)]
  {
    hide Inv, NamesOf, Known;
    var g;
    g, h' := OpenName(fs, r, "c", m, h);
    RootIn(fs.View());
    ghost var file;
    ghost var h1 := h';
    file, m' := MakeFile(fs, g, "f", m, h', p.root, "c");
    h' := h1[g := file];
  }

  /** A handle on each directory, and a file in `c`. */
  method OpenAll(fs: FSDeviceMem, r: Fid, ghost p: Places, ghost m: map<Ptr, Names>, ghost h: map<Fid, Ptr>)
      returns (fa: Fid, fb: Fid, fc: Fid, ghost m': map<Ptr, Names>, ghost h': map<Fid, Ptr>)
    requires fs.Valid() && Known(fs.View(), m, h) && Apart(p) && OnlyIn(m, p) && fs.root == p.root
    requires h == map[r := p.root] && m[p.root] == Three(p) && m[p.c] == Dots(p.c, p.root)
    modifies fs
    ensures fs.Valid() && Known(fs.View(), m', h') && fs.root == p.root && OnlyIn(m', p)
    ensures r in h' && fa in h' && fb in h' && fc in h'
    ensures h'[r] == p.root && h'[fa] == p.a && h'[fb] == p.b && h'[fc] == p.c
    ensures forall f | f in h' && f != fc :: h'[f] != p.c
    ensures m'[p.root] == m[p.root] && m'[p.a] == m[p.a] && m'[p.b] == m[p.b] && "f" in m'[p.c]
    ensures m'[p.c] - {"f"} == Dots(p.c, p.root) && m'[p.c]["f"] !in m'
  {
    hide Inv, NamesOf, Known;
    fa, fb, fc, h' := OpenThree(fs, r, p, m, h);
    m', h' := FileInC(fs, r, fc, p, m, h');
  }

  lemma RootIn(s: Fs)
    requires Inv(s, multiset{}, multiset{})
    ensures s.root in s.inodes
  {
    hide Inv;
    RootLive(s);
  }

  /** What a directory calls ".." moves to the root, as `newName`. */
  method MoveUp(fs: FSDeviceMem, r: Fid, f: Fid, newName: string, ghost m: map<Ptr, Names>, ghost h: map<Fid, Ptr>)
      returns (ghost m': map<Ptr, Names>)
    requires fs.Valid() && Known(fs.View(), m, h) && f in h && r in h && h[f] != h[r] && h[f] in m && h[r] in m
    requires m[h[f]] == Dots(h[f], h[r]) && newName !in m[h[r]]
    modifies fs
    ensures fs.Valid() && Known(fs.View(), m', h) && fs.root == old(fs.root)
    ensures m'.Keys == m.Keys && forall d | d in m && d != h[f] && d != h[r] :: m'[d] == m[d]
    ensures m'[h[f]] == map["." := h[f]] && m'[h[r]] == With(m[h[r]], newName, h[r])
  {
    hide Inv, NamesOf, Known;
    m' := Move(fs, f, "..", r, newName, m, h);
  }

  /** "." of `c`, and `c` in the root, become ".." of `a` and of `b`. */
  method MoveC(fs: FSDeviceMem, r: Fid, fa: Fid, fb: Fid, fc: Fid, ghost p: Places, ghost m: map<Ptr, Names>,
               ghost h: map<Fid, Ptr>)
      returns (ghost m': map<Ptr, Names>)
    requires fs.Valid() && Known(fs.View(), m, h) && Apart(p) && OnlyIn(m, p)
    requires r in h && fa in h && fb in h && fc in h
    requires h[r] == p.root && h[fa] == p.a && h[fb] == p.b && h[fc] == p.c
    requires m[p.a] == map["." := p.a] && m[p.b] == map["." := p.b] && "." in m[p.c] && m[p.c]["."] == p.c
    requires "c" in m[p.root] && m[p.root]["c"] == p.c
    modifies fs
    ensures fs.Valid() && Known(fs.View(), m', h) && fs.root == old(fs.root) && OnlyIn(m', p)
    ensures m'[p.root] == m[p.root] - {"c"} && m'[p.c] == m[p.c] - {"."}
    ensures m'[p.a] == Dots(p.a, p.c) && m'[p.b] == Dots(p.b, p.c)
  {
    hide Inv, NamesOf, Known;
    m' := Move(fs, fc, ".", fa, "..", m, h);
    m' := Move(fs, r, "c", fb, "..", m', h);
  }

  /** `c` is then named by ".." of `a` and of `b` alone; when these are removed, it is freed with its file in it. */
  method MovedDots() returns (fs: FSDeviceMem)
    ensures fs.stopped && Broken(fs.inodes)
  {
    hide Inv, NamesOf, Known, Broken, Apart, OnlyIn;
    var r, fa, fb, fc;
    ghost var p, m, h;
    fs, r, p, m, h := ThreeDirs();
    fa, fb, fc, m, h := OpenAll(fs, r, p, m, h);
    MoveAndRemove(fs, r, fa, fb, fc, p, m, h);
  }

  method MoveAndRemove(fs: FSDeviceMem, r: Fid, fa: Fid, fb: Fid, fc: Fid, ghost p: Places, ghost m: map<Ptr, Names>,
                       ghost h: map<Fid, Ptr>)
    requires fs.Valid() && Known(fs.View(), m, h) && Apart(p) && OnlyIn(m, p) && fs.root == p.root
    requires r in h && fa in h && fb in h && fc in h
    requires h[r] == p.root && h[fa] == p.a && h[fb] == p.b && h[fc] == p.c
    requires forall f | f in h && f != fc :: h[f] != p.c
    requires m[p.root] == Three(p) && m[p.a] == Dots(p.a, p.root) && m[p.b] == Dots(p.b, p.root)
    requires "f" in m[p.c] && m[p.c] - {"f"} == Dots(p.c, p.root) && m[p.c]["f"] !in m
    modifies fs
    ensures fs.stopped && Broken(fs.inodes)
  {
    hide Inv, NamesOf, Known, Broken;
    ghost var m1 := MoveUp(fs, r, fa, "x", m, h);
    ghost var m2 := MoveUp(fs, r, fb, "y", m1, h);
    CNames(m, p);
    ghost var m3 := MoveC(fs, r, fa, fb, fc, p, m2, h);
    FinalNames(m, m3, p);
    RemoveBoth(fs, r, fb, fc, p, m3, h);
  }

  lemma CNames(m: map<Ptr, Names>, p: Places)
    requires p.c in m && "f" in m[p.c] && m[p.c] - {"f"} == Dots(p.c, p.root)
    ensures m[p.c].Keys == {".", "..", "f"} && m[p.c]["."] == p.c && m[p.c][".."] == p.root
  {
    assert "." in m[p.c] - {"f"} && ".." in m[p.c] - {"f"};
    assert (m[p.c] - {"f"})["."] == m[p.c]["."] && (m[p.c] - {"f"})[".."] == m[p.c][".."];
    assert Dots(p.c, p.root).Keys == {".", ".."};
    forall name | name in m[p.c]
      ensures name in {".", "..", "f"}
    {
      assert name == "f" || name in m[p.c] - {"f"};
    }
  }

  /** Only `a` and `b` still name `c`. */
  lemma FinalNames(m: map<Ptr, Names>, m': map<Ptr, Names>, p: Places)
    requires Apart(p) && OnlyIn(m, p) && OnlyIn(m', p)
    requires m[p.root] == Three(p) && m[p.c].Keys == {".", "..", "f"} && m[p.c][".."] == p.root && m[p.c]["f"] !in m
    requires m'[p.root] == With(With(m[p.root], "x", p.root), "y", p.root) - {"c"} && m'[p.c] == m[p.c] - {"."}
    requires m'[p.a] == Dots(p.a, p.c) && m'[p.b] == Dots(p.b, p.c)
    ensures "a" in m'[p.root] && m'[p.root]["a"] == p.a && "b" in m'[p.root] && m'[p.root]["b"] == p.b
    ensures "f" in m'[p.c]
    ensures forall name | name in m'[p.root] :: m'[p.root][name] != p.c
    ensures forall name | name in m'[p.c] :: m'[p.c][name] != p.c
  {
    assert p.c in m;
  }

  method RemoveBoth(fs: FSDeviceMem, r: Fid, fb: Fid, fc: Fid, ghost p: Places, ghost m: map<Ptr, Names>,
                    ghost h: map<Fid, Ptr>)
    requires fs.Valid() && Known(fs.View(), m, h) && Apart(p) && OnlyIn(m, p) && fs.root == p.root
    requires r in h && fb in h && fc in h && h[r] == p.root && h[fb] == p.b && h[fc] == p.c
    requires forall f | f in h && f != fc :: h[f] != p.c
    requires m[p.a] == Dots(p.a, p.c) && m[p.b] == Dots(p.b, p.c)
    requires "a" in m[p.root] && m[p.root]["a"] == p.a && "b" in m[p.root] && m[p.root]["b"] == p.b && "f" in m[p.c]
    requires forall name | name in m[p.root] :: m[p.root][name] != p.c
    requires forall name | name in m[p.c] :: m[p.c][name] != p.c
    modifies fs
    ensures fs.stopped && Broken(fs.inodes)
  {
    hide Inv, NamesOf, Known, Broken;
    HandleLive(fs.View(), m, h, fb);
    ghost var h1 := CloseName(fs, fc, m, h, p.b, "..");
    HandleLive(fs.View(), m, h1, fb);
    ghost var m1 := Remove(fs, r, "a", m, h1, p.a, p.c, p.b, "..");
    RemoveLast(fs, r, p.b, p.c, m1, h1);
  }

  method RemoveLast(fs: FSDeviceMem, r: Fid, ghost b: Ptr, ghost c: Ptr, ghost m: map<Ptr, Names>,
                    ghost h: map<Fid, Ptr>)
    requires fs.Valid() && Known(fs.View(), m, h) && r in h && h[r] == fs.root && h[r] in m && b != h[r] && c != h[r]
    requires "b" in m[h[r]] && m[h[r]]["b"] == b && b != c
    requires b in m && m[b] == Dots(b, c) && c in m && m[c] != map[]
    requires forall d, name | d in m && d != b && name in m[d] :: m[d][name] != c
    requires forall f | f in h :: h[f] != c
    modifies fs
    ensures fs.stopped && Broken(fs.inodes)
  {
    hide Inv, NamesOf, Broken, Orphaned;
    HandleLive(fs.View(), m, h, r);
    NameLive(fs.View(), m, h[r], "b");
    assert Bare(fs.inodes[b].body);
    IsOrphaned(fs.View(), m, h, b, c);
    var ret := fs.UnlinkAt(r, "b", h[r]);
  }
}
