/** The in-memory filesystem: a table of inodes changed by the calls of the filesystem interface. */
module FsNames {
  import opened FsDots
  import opened FsTree
  import opened Wrappers

  datatype Op =
    | Attach(uid: nat)
    | Walk(f: Fid, names: seq<string>)
    | Mkdir(f: Fid, name: string, mode: nat, gid: nat)
    | Create(f: Fid, name: string, flags: nat, mode: nat, gid: nat)
    | Link(df: Fid, f: Fid, name: string)
    | SymlinkAt(f: Fid, name: string, target: string, gid: nat)
    | Mknod(f: Fid, name: string, mode: nat, major: nat, minor: nat, gid: nat)
    | RenameAt(f: Fid, name: string, g: Fid, newName: string)
    | UnlinkAt(f: Fid, name: string)
    | SetSize(f: Fid, size: nat)
    | Delete(f: Fid)

  function At(s: Fs, f: Fid): Ptr {
    if f in s.files then s.files[f].inode else 0
  }

  /** What each call asks of its caller: entries are added to directories, as `inode_dir_add` asserts. */
  predicate Allowed(s: Fs, op: Op) {
    match op
    case Attach(_) => true
    case Walk(f, _) => f in s.files
    case Mkdir(f, _, _, _) => f in s.files
    case Create(f, _, _, _, _) => f in s.files
    case Link(df, f, _) => df in s.files && f in s.files && (IsDir(s.inodes, At(s, f)) || IsDir(s.inodes, At(s, df)))
    case SymlinkAt(f, _, _, _) => f in s.files && IsDir(s.inodes, At(s, f))
    case Mknod(f, _, _, _, _, _) => f in s.files && IsDir(s.inodes, At(s, f))
    case RenameAt(f, name, g, newName) =>
      f in s.files && g in s.files && Movable(s.inodes, At(s, f), name, At(s, g), newName)
    case UnlinkAt(f, _) => f in s.files
    case SetSize(f, _) => f in s.files && IsReg(s.inodes, At(s, f))
    case Delete(f) => f in s.files
  }

  // ---- What the calls do ------------------------------------------------------------------------------------

  function UidOf(s: Fs, f: Fid): nat {
    if f in s.files then s.files[f].uid else 0
  }

  /** One more handle; inodes are as they were. */
  ghost predicate HandleAdded(s: Fs, t: Fs, f: Fid, n: Ptr, uid: nat) {
    && f !in s.files && t.files == s.files[f := FSFile(uid, n, false, 0)]
    && Kept(s.inodes, t.inodes, {}) && t.inodes.Keys == s.inodes.Keys
  }

  /** The longest prefix of a path that exists leads to `n`. */
  ghost predicate LeadsTo(inodes: Inodes, from: Ptr, names: seq<string>, n: Ptr) {
    exists i: nat | i <= |names| ::
      Follow(inodes, from, names[..i]) == Some(n) && (i < |names| ==> Follow(inodes, from, names[..i + 1]) == None)
  }

  ghost predicate Walked(s: Fs, t: Fs, f: Fid, names: seq<string>, g: Fid) {
    g in t.files && HandleAdded(s, t, g, t.files[g].inode, UidOf(s, f))
    && LeadsTo(s.inodes, At(s, f), names, t.files[g].inode)
  }

  /** A new inode in the directory of `f`, with the next number. */
  ghost predicate Entered(s: Fs, t: Fs, f: Fid, name: string, body: Body, attrs: Attributes) {
    && Grown(s.inodes, t.inodes, At(s, f), name, s.inodeNumAlloc)
    && Holds(t.inodes, s.inodeNumAlloc, body) && Has(t.inodes, s.inodeNumAlloc, attrs)
  }

  /** What a new node of a type holds: a device its numbers, a file nothing, a pipe or socket nothing to hold. */
  predicate NodeHolds(fileType: nat, major: nat, minor: nat, b: Body) {
    if fileType == FT_CHR || fileType == FT_BLK then b == Dev(major, minor)
    else if fileType == FT_REG then b == Reg(0)
    else fileType in {FT_FIFO, FT_SOCK} && b == Body.Other
  }

  ghost function MknodError(s: Fs, f: Fid, name: string, fileType: nat): int {
    if fileType !in {FT_FIFO, FT_CHR, FT_BLK, FT_REG, FT_SOCK} then -P9_EINVAL else ErrorOfAdding(s, f, name)
  }

  ghost function ErrorOfAdding(s: Fs, f: Fid, name: string): int {
    AddError(s.inodes, At(s, f), name, P9_ENOTDIR)
  }

  /** What a call changes. One that fails changes nothing. */
  ghost predicate Effect(s: Fs, op: Op, t: Fs) {
    match op
    case Attach(uid) => exists f :: HandleAdded(s, t, f, s.root, uid)
    case Walk(f, names) => exists g :: Walked(s, t, f, names, g)
    case Mkdir(f, name, mode, gid) =>
      if ErrorOfAdding(s, f, name) != 0 then t == s
      else
        t.files == s.files
        && Made(s.inodes, t.inodes, At(s, f), name, s.inodeNumAlloc,
                Attributes(FT_DIR, mode % 4096, UidOf(s, f), gid))
    case Create(f, name, flags, mode, gid) =>
      if ErrorOfAdding(s, f, name) != 0 then t == s
      else
        t.files == s.files[f := FSFile(UidOf(s, f), s.inodeNumAlloc, true, flags)]
        && Entered(s, t, f, name, Reg(0), Attributes(FT_REG, mode % 4096, UidOf(s, f), gid))
    case Link(df, f, name) =>
      if LinkError(s.inodes, At(s, df), At(s, f), name) != 0 then t == s
      else t.files == s.files && Linked(s.inodes, t.inodes, At(s, df), name, At(s, f))
    case SymlinkAt(f, name, target, gid) =>
      if ErrorOfAdding(s, f, name) != 0 then t == s
      else
        t.files == s.files && Entered(s, t, f, name, Symlink(target), Attributes(FT_LNK, 511, UidOf(s, f), gid))
    case Mknod(f, name, mode, major, minor, gid) =>
      var fileType := mode / 4096 % 16;
      if MknodError(s, f, name, fileType) != 0 then t == s
      else
        t.files == s.files
        && exists b :: NodeHolds(fileType, major, minor, b)
                       && Entered(s, t, f, name, b, Attributes(fileType, mode % 4096, UidOf(s, f), gid))
    case RenameAt(f, name, g, newName) =>
      if RenameError(s.inodes, At(s, f), name, At(s, g), newName) != 0 then t == s
      else t.files == s.files && Renamed(s.inodes, t.inodes, At(s, f), name, At(s, g), newName)
    case UnlinkAt(f, name) =>
      if UnlinkError(s.inodes, At(s, f), name) != 0 then t == s
      else t.files == s.files && Unlinked(s.inodes, t.inodes, At(s, f), name)
    case SetSize(f, size) =>
      && t.files == s.files && t.inodes.Keys == s.inodes.Keys && Kept(s.inodes, t.inodes, {At(s, f)})
      && Holds(t.inodes, At(s, f), Reg(size))
    case Delete(f) =>
      && t.files == s.files - {f} && Kept(s.inodes, t.inodes, {})
      && s.inodes.Keys - {At(s, f)} <= t.inodes.Keys
  }

  /** The call frees a directory with entries. */
  ghost predicate Trap(s: Fs, op: Op) {
    match op
    case UnlinkAt(f, name) => UnlinkTrap(s.inodes, At(s, f), name)
    case Create(f, name, _, _, _) => CreateTrap(s.inodes, At(s, f), name)
    case Delete(f) => DeleteTrap(s.inodes, At(s, f))
    case _ => false
  }

  /** A call that is made has its effect and frees no directory with entries; a call that is not made has none. */
  ghost predicate Stepped(s: Fs, op: Op, t: Fs) {
    if Allowed(s, op) then !Trap(s, op) && Effect(s, op, t) else t == s
  }

  /** The call does not rename "." or add an entry to a directory that has been removed. */
  predicate Tame(s: Fs, op: Op) {
    match op
    case Mkdir(f, _, _, _) => Addable(s.inodes, At(s, f))
    case Create(f, _, _, _, _) => Addable(s.inodes, At(s, f))
    case Link(df, _, _) => Addable(s.inodes, At(s, df))
    case SymlinkAt(f, _, _, _) => Addable(s.inodes, At(s, f))
    case Mknod(f, _, _, _, _, _) => Addable(s.inodes, At(s, f))
    case RenameAt(f, name, g, newName) =>
      RenameError(s.inodes, At(s, f), name, At(s, g), newName) == 0 ==> name != "." && Addable(s.inodes, At(s, g))
    case _ => true
  }

  /** A directory that has its "." is not freed with entries. */
  lemma TameSafe(s: Fs, op: Op)
    requires Inv(s, multiset{}, multiset{}) && WithDots(s.inodes) && Tame(s, op)
    ensures !Trap(s, op)
  {
    hide Inv, WithDots, Orphaned;
    match op {
      case UnlinkAt(f, name) =>
        if UnlinkTrap(s.inodes, At(s, f), name) {
          NoOrphans(s, NamesOf(s.inodes[At(s, f)].body)[name]);
        }
      case Create(f, name, _, _, _) =>
        if CreateTrap(s.inodes, At(s, f), name) {
          DotKept(s, At(s, f));
        }
      case Delete(f) =>
        if DeleteTrap(s.inodes, At(s, f)) {
          DotKept(s, At(s, f));
        }
      case _ =>
    }
  }

  class FSDeviceMem {
    var inodes: Inodes
    var files: map<Fid, FSFile>    // the handles given out and not yet deleted
    var root: Ptr
    var fsBlocks: int
    var inodeCount: int
    var inodeNumAlloc: nat
    var fileAlloc: nat
    var stopped: bool              // an assertion has failed and ended the program

    function View(): Fs
      reads this
    {
      Fs(inodes, files, root, fsBlocks, inodeCount, inodeNumAlloc)
    }

    /** What holds inside a call that holds references `held` and pins `pinned`. */
    ghost predicate Running(held: multiset<Ptr>, pinned: multiset<Ptr>)
      reads this
    {
      !stopped && Inv(View(), held, pinned) && forall f | f in files :: f < fileAlloc
    }

    ghost predicate Valid()
      reads this
    {
      Running(multiset{}, multiset{})
    }

    /** A filesystem of one empty directory, its own parent. */
    constructor ()
      ensures Valid() && files == map[] && inodes.Keys == {root} && IsDir(inodes, root)
      ensures NamesOf(inodes[root].body) == map["." := root, ".." := root] && WithDots(inodes)
    {
      inodes := map[1 := FSINode(1, 0, FT_DIR, 511, 0, 0, Dir([], 0))];
      files, root, fsBlocks, inodeCount, inodeNumAlloc, fileAlloc := map[], 1, 0, 1, 2, 0;
      stopped := false;
      new;
      hide Inv, NamesOf, WithDots, Kept;
      RootAlone();
      FillRoot();
    }

    method FillRoot()
      requires inodes.Keys == {root} && inodes[root].body == Dir([], 0)
      requires Valid()
      modifies this`inodes, this`fsBlocks
      ensures inodes.Keys == {root} && IsDir(inodes, root)
      ensures NamesOf(inodes[root].body) == map["." := root, ".." := root] && WithDots(inodes)
      ensures Valid()
    {
      hide Inv, NamesOf, WithDots, Kept;
      FillDir(root, root, multiset{});
      RootDots(inodes, root);
    }

    method InodeIncref(n: Ptr, ghost held: multiset<Ptr>, ghost pinned: multiset<Ptr>)
      requires Running(held, pinned) && n in inodes
      modifies this`inodes
      ensures Running(held + multiset{n}, pinned)
      ensures inodes == old(inodes)[n := old(inodes)[n].(refcount := old(inodes)[n].refcount + 1)]
    {
      hide Inv, More;
      var n' := inodes[n].(refcount := inodes[n].refcount + 1);
      AccountsNatural(View(), held, pinned);
      OneMore(held, n);
      NoneMore(pinned, n);
      CountsChanged(View(), n, n', held, held + multiset{n}, pinned, pinned);
      inodes := inodes[n := n'];
    }

    method InodeIncOpen(n: Ptr, ghost held: multiset<Ptr>, ghost pinned: multiset<Ptr>)
      requires Running(held, pinned) && n in inodes
      modifies this`inodes
      ensures Running(held, pinned + multiset{n})
      ensures inodes == old(inodes)[n := old(inodes)[n].(openCount := old(inodes)[n].openCount + 1)]
    {
      hide Inv, More;
      var n' := inodes[n].(openCount := inodes[n].openCount + 1);
      AccountsNatural(View(), held, pinned);
      OneMore(pinned, n);
      NoneMore(held, n);
      CountsChanged(View(), n, n', held, held, pinned, pinned + multiset{n});
      inodes := inodes[n := n'];
    }

    /** An inode without references is freed; with entries in it, the assertion fails. */
    method InodeFree(n: Ptr)
      requires n in inodes && inodes[n].refcount == 0 && inodes[n].openCount == 0 && !stopped
      modifies this`inodes, this`fsBlocks, this`inodeCount, this`stopped
      ensures stopped <==> Full(old(inodes)[n].body)
      ensures View() == if stopped then old(View()) else Freed(old(View()), n)
    {
      match inodes[n].body {
        case Reg(size) => fsBlocks := fsBlocks - ToBlocks(size);
        case Dir(entries, _) =>
          if entries != [] {
            stopped := true;
            return;
          }
        case _ =>
      }
      inodes := inodes - {n};
      inodeCount := inodeCount - 1;
    }

    method InodeDecref(n: Ptr, ghost held: multiset<Ptr>, ghost pinned: multiset<Ptr>)
      requires Running(held, pinned) && n in held && n in inodes
      modifies this`inodes, this`fsBlocks, this`inodeCount, this`stopped
      ensures stopped <==> Doomed(old(inodes)[n])
      ensures stopped ==> Broken(inodes)
      ensures !stopped ==> inodes == Dropped(old(inodes), n) && Running(held - multiset{n}, pinned)
    {
      hide Inv, More, ContentBlocks;
      ghost var s := View();
      AccountsNatural(s, held, pinned);
      OneLess(held, n);
      NoneMore(pinned, n);
      var n' := inodes[n].(refcount := inodes[n].refcount - 1);
      if n'.refcount <= 0 && n'.openCount <= 0 {
        if !Full(n'.body) {
          InodeFreed(s, n, held, held - multiset{n}, pinned, pinned);
        }
        inodes := inodes[n := n'];
        FreedNow(s, n, n');
        InodeFree(n);
      } else {
        CountsChanged(s, n, n', held, held - multiset{n}, pinned, pinned);
        inodes := inodes[n := n'];
      }
    }

    method InodeDecOpen(n: Ptr, ghost held: multiset<Ptr>, ghost pinned: multiset<Ptr>)
      requires Running(held, pinned) && n in pinned && n in inodes
      modifies this`inodes, this`fsBlocks, this`inodeCount, this`stopped
      ensures stopped <==> LastOpen(old(inodes)[n]) && Full(old(inodes)[n].body)
      ensures stopped ==> Broken(inodes)
      ensures !stopped ==> Running(held, pinned - multiset{n})
      ensures !stopped ==>
                inodes == var was := old(inodes)[n];
                          if LastOpen(was) then old(inodes) - {n}
                          else old(inodes)[n := was.(openCount := was.openCount - 1)]
    {
      hide Inv, More, ContentBlocks;
      ghost var s := View();
      AccountsNatural(s, held, pinned);
      OneLess(pinned, n);
      NoneMore(held, n);
      var n' := inodes[n].(openCount := inodes[n].openCount - 1);
      if n'.openCount <= 0 && n'.refcount <= 0 {
        if !Full(n'.body) {
          InodeFreed(s, n, held, held, pinned, pinned - multiset{n});
        }
        inodes := inodes[n := n'];
        FreedNow(s, n, n');
        InodeFree(n);
      } else {
        CountsChanged(s, n, n', held, held, pinned, pinned - multiset{n});
        inodes := inodes[n := n'];
      }
    }

    /** A new inode, its one reference held by the caller. */
    method InodeNew(fileType: nat, mode: nat, uid: nat, gid: nat, body: Body,
                    ghost held: multiset<Ptr>, ghost pinned: multiset<Ptr>) returns (n: Ptr)
      requires Running(held, pinned) && Empty(body)
      modifies this`inodes, this`inodeCount, this`inodeNumAlloc
      ensures n == old(inodeNumAlloc) && n !in old(inodes) && inodeNumAlloc == n + 1
      ensures Running(held + multiset{n}, pinned)
      ensures inodes == old(inodes)[n := FSINode(1, 0, fileType, mode % 4096, uid, gid, body)]
    {
      hide Inv, More, Empty;
      n := inodeNumAlloc;
      var node := FSINode(1, 0, fileType, mode % 4096, uid, gid, body);
      OneMore(held, n);
      InodeBorn(View(), node, held, held + multiset{n}, pinned);
      inodeNumAlloc := inodeNumAlloc + 1;
      inodes := inodes[n := node];
      inodeCount := inodeCount + 1;
    }

    /** The held reference to `n1` becomes an entry of `n`. */
    method InodeDirAdd(n: Ptr, name: string, n1: Ptr, ghost held: multiset<Ptr>, ghost pinned: multiset<Ptr>)
      requires Running(held, pinned) && n1 in held && n1 in inodes
      requires n in inodes && inodes[n].body.Dir? && !Named(inodes[n].body.entries, name)
      modifies this`inodes, this`fsBlocks
      ensures Running(held - multiset{n1}, pinned)
      ensures inodes == SetBody(old(inodes), n, Added(old(inodes)[n].body, Dirent(name, n1)))
    {
      hide Inv, More, ToBlocks, Named;
      OneLess(held, n1);
      EntryAdded(View(), n, Dirent(name, n1), held, held - multiset{n1}, pinned);
      var dir := inodes[n].body;
      var newSize := dir.dirSize + EntrySize(name);
      fsBlocks := fsBlocks + ToBlocks(newSize) - ToBlocks(dir.dirSize);
      inodes := SetBody(inodes, n, Dir(dir.entries + [Dirent(name, n1)], newSize));
    }

    method InodeDirentDeleteNoDecref(n: Ptr, i: nat, ghost held: multiset<Ptr>, ghost pinned: multiset<Ptr>)
      requires Running(held, pinned)
      requires n in inodes && inodes[n].body.Dir? && i < |inodes[n].body.entries|
      modifies this`inodes, this`fsBlocks
      ensures Running(held + multiset{old(inodes)[n].body.entries[i].inode}, pinned)
      ensures inodes == SetBody(old(inodes), n, Removed(old(inodes)[n].body, i))
    {
      hide Inv, More, ToBlocks;
      var dir := inodes[n].body;
      var de := dir.entries[i];
      OneMore(held, de.inode);
      EntryRemoved(View(), n, i, held, held + multiset{de.inode}, pinned);
      var newSize := dir.dirSize - EntrySize(de.name);
      fsBlocks := fsBlocks + ToBlocks(newSize) - ToBlocks(dir.dirSize);
      inodes := SetBody(inodes, n, Dir(Without(dir.entries, i), newSize));
    }

    /** The first entry with a name, or -1. */
    method InodeSearch(n: Ptr, name: string) returns (i: int)
      requires n in inodes
      ensures -1 <= i && (i >= 0 <==> inodes[n].body.Dir? && Named(inodes[n].body.entries, name))
      ensures i >= 0 ==> i < |inodes[n].body.entries| && inodes[n].body.entries[i].name == name
    {
      if !inodes[n].body.Dir? {
        return -1;
      }
      var es := inodes[n].body.entries;
      for k := 0 to |es|
        invariant forall j :: 0 <= j < k ==> es[j].name != name
      {
        if es[k].name == name {
          return k;
        }
      }
      return -1;
    }

    method IsEmptyDir(n: Ptr) returns (empty: bool)
      requires n in inodes && inodes[n].body.Dir?
      ensures empty <==> forall i :: 0 <= i < |inodes[n].body.entries| ==> Dotted(inodes[n].body.entries[i].name)
    {
      var es := inodes[n].body.entries;
      for k := 0 to |es|
        invariant forall j :: 0 <= j < k ==> Dotted(es[j].name)
      {
        if es[k].name != "." && es[k].name != ".." {
          return false;
        }
      }
      return true;
    }

    /** Delete entry `i` of `n` and drop its reference. `n` itself stays. */
    method InodeDirentDelete(n: Ptr, i: nat, ghost held: multiset<Ptr>, ghost f: Fid, ghost j: nat)
      requires EntryAt(inodes, n, i) && inodes[n].body.entries[i].inode in inodes
      requires f in files && (files[f].inode != n ==> NamedBy(inodes, n, files[f].inode, j))
      requires Running(held, multiset{})
      modifies this`inodes, this`fsBlocks, this`inodeCount, this`stopped
      ensures stopped <==> Doomed(old(inodes)[old(inodes)[n].body.entries[i].inode])
      ensures stopped ==> Broken(inodes)
      ensures stopped ==> old(inodes)[n].body.entries[i].inode != n
      ensures !stopped ==> n in inodes && inodes == EntryDropped(old(inodes), n, i)
      ensures !stopped ==> Running(held, multiset{})
    {
      hide Inv, More, Removed;
      ghost var a := inodes;
      var n1 := inodes[n].body.entries[i].inode;
      Anchor(held, n, i, f, j);
      InodeDirentDeleteNoDecref(n, i, held, multiset{});
      ghost var held' := held + multiset{n1};
      InodeDecref(n1, held', multiset{});
      assert held' - multiset{n1} == held;
    }

    /** Deleting one of its entries does not free `n`. */
    lemma Anchor(held: multiset<Ptr>, n: Ptr, i: nat, f: Fid, j: nat)
      requires EntryAt(inodes, n, i) && inodes[n].body.entries[i].inode in inodes
      requires f in files && (files[f].inode != n ==> NamedBy(inodes, n, files[f].inode, j))
      requires Running(held, multiset{})
      ensures inodes[n].openCount >= 1 || (inodes[n].body.entries[i].inode == n ==> inodes[n].refcount >= 2)
    {
      hide Inv;
      if files[f].inode == n {
        StillOpen(View(), held, f);
      } else if inodes[n].body.entries[i].inode == n {
        NamedTwice(View(), held, n, i, files[f].inode, j);
      }
    }

    /** Delete every entry of a directory that entry `j` of an open directory names. */
    method FlushDir(n: Ptr, ghost f: Fid, ghost j: nat)
      requires IsDir(inodes, n) && f in files && files[f].inode != n && NamedBy(inodes, n, files[f].inode, j)
      requires Valid()
      modifies this`inodes, this`fsBlocks, this`inodeCount, this`stopped
      ensures stopped <==> exists t :: Orphaned(old(inodes), n, t)
      ensures stopped ==> Broken(inodes)
      ensures !stopped ==> Kept(old(inodes), inodes, {n}) && NamedBy(inodes, n, files[f].inode, j)
      ensures !stopped ==> n in inodes && inodes[n].body == Dir([], 0)
      ensures !stopped ==> Valid()
    {
      hide Inv, Removed, Orphaned, Doomed, EntryDropped, Broken;
      while inodes[n].body.entries != []
        invariant Valid() && Kept(old(inodes), inodes, {n})
        invariant n in inodes && inodes[n].body.Dir? && NamedBy(inodes, n, files[f].inode, j)
        invariant forall t :: Orphaned(inodes, n, t) <==> Orphaned(old(inodes), n, t)
        decreases |inodes[n].body.entries|
      {
        EntryLive(View(), multiset{}, n, 0);
        ghost var a := inodes;
        if a[n].body.entries[0].inode != n && Doomed(a[a[n].body.entries[0].inode]) {
          DoomedOrphan(View(), multiset{}, n, 0);
        }
        InodeDirentDelete(n, 0, multiset{}, f, j);
        if stopped {
          return;
        }
        FileLive(View(), f);
        FlushStep(a, n, files[f].inode, j);
        OrphansKept(a, n, 0);
      }
      NoneOrphaned(inodes, n);
      EmptyDir(View(), multiset{}, n);
    }

    method FidCreate(n: Ptr, uid: nat) returns (f: Fid)
      requires Valid() && n in inodes
      modifies this`inodes, this`files, this`fileAlloc
      ensures Valid() && Kept(old(inodes), inodes, {}) && inodes.Keys == old(inodes).Keys
      ensures f !in old(files) && files == old(files)[f := FSFile(uid, n, false, 0)]
    {
      hide Inv, More;
      f := fileAlloc;
      InodeIncOpen(n, multiset{}, multiset{});
      assert multiset{} + multiset{n} == multiset{n} && multiset{n} - multiset{n} == multiset{};
      OneLess(multiset{n}, n);
      FilesChanged(View(), f, FSFile(uid, n, false, 0), multiset{}, multiset{n}, multiset{});
      files := files[f := FSFile(uid, n, false, 0)];
      fileAlloc := fileAlloc + 1;
    }

    /** The handle goes away; its inode follows if that was the last reference. A removed directory to which entries
        have been added since makes the assertion fail. */
    method Delete(f: Fid)
      requires Valid() && f in files
      modifies this`inodes, this`files, this`fsBlocks, this`inodeCount, this`stopped
      ensures stopped <==> DeleteTrap(old(inodes), old(files)[f].inode)
      ensures stopped ==> Broken(inodes)
      ensures !stopped ==> Valid() && Kept(old(inodes), inodes, {}) && files == old(files) - {f}
      ensures !stopped ==> old(inodes).Keys - {old(files)[f].inode} <= inodes.Keys
    {
      hide Inv, More;
      var n := files[f].inode;
      Unpin(f);
      InodeDecOpen(n, multiset{}, multiset{n});
      assert multiset{n} - multiset{n} == multiset{};
    }

    /** Take a handle off the table, keeping the open count it stood for. */
    method Unpin(f: Fid)
      requires Valid() && f in files
      modifies this`files
      ensures Running(multiset{}, multiset{old(files)[f].inode}) && files == old(files) - {f}
      ensures old(files)[f].inode in inodes
    {
      hide Inv, More;
      var n := files[f].inode;
      FileLive(View(), f);
      OneMore(multiset{}, n);
      FileRemoved(View(), f, multiset{}, multiset{}, multiset{} + multiset{n});
      assert multiset{} + multiset{n} == multiset{n};
      files := files - {f};
    }

    method Attach(uid: nat) returns (f: Fid)
      requires Valid()
      modifies this`inodes, this`files, this`fileAlloc
      ensures Valid() && Kept(old(inodes), inodes, {}) && inodes.Keys == old(inodes).Keys
      ensures f !in old(files) && files == old(files)[f := FSFile(uid, root, false, 0)]
    {
      hide Inv;
      RootLive(View());
      f := FidCreate(root, uid);
    }

    /** A new handle on the inode the longest existing prefix of the path leads to. */
    method Walk(f: Fid, names: seq<string>) returns (g: Fid, i: nat)
      requires Valid() && f in files
      modifies this`inodes, this`files, this`fileAlloc
      ensures Valid() && Kept(old(inodes), inodes, {}) && inodes.Keys == old(inodes).Keys
      ensures i <= |names| && g !in old(files) && files.Keys == old(files).Keys + {g}
      ensures forall h | h in old(files) :: files[h] == old(files)[h]
      ensures files[g] == FSFile(old(files)[f].uid, files[g].inode, false, 0)
      ensures Follow(old(inodes), old(files)[f].inode, names[..i]) == Some(files[g].inode)
      ensures i < |names| ==> Follow(old(inodes), old(files)[f].inode, names[..i + 1]) == None
    {
      hide Inv, NamesOf;
      FileLive(View(), f);
      var n := files[f].inode;
      i := 0;
      while i < |names|
        modifies {}
        invariant i <= |names| && n in inodes && Follow(inodes, files[f].inode, names[..i]) == Some(n)
      {
        var k := InodeSearch(n, names[i]);
        assert names[..i + 1][..i] == names[..i];
        SearchMap(View(), n, names[i], k);
        if k < 0 {
          break;
        }
        n := inodes[n].body.entries[k].inode;
        i := i + 1;
      }
      g := FidCreate(n, files[f].uid);
    }

    method Mkdir(f: Fid, name: string, mode: nat, gid: nat) returns (ret: int)
      requires Valid() && f in files
      modifies this`inodes, this`fsBlocks, this`inodeCount, this`inodeNumAlloc
      ensures Valid()
      ensures ret == AddError(old(inodes), files[f].inode, name, P9_ENOTDIR)
      ensures ret != 0 ==> View() == old(View())
      ensures ret == 0 ==>
                Made(old(inodes), inodes, files[f].inode, name, old(inodeNumAlloc),
                     Attributes(FT_DIR, mode % 4096, files[f].uid, gid))
    {
      hide Inv, NamesOf, Added;
      FileLive(View(), f);
      var n := files[f].inode;
      if !inodes[n].body.Dir? {
        return -P9_ENOTDIR;
      }
      var i := InodeSearch(n, name);
      SearchMap(View(), n, name, i);
      if i >= 0 {
        return -P9_EEXIST;
      }
      var n1 := InodeNew(FT_DIR, mode, files[f].uid, gid, Dir([], 0), multiset{}, multiset{});
      assert multiset{} + multiset{n1} == multiset{n1};
      FillDir(n, n1, multiset{n1});
      InodeDirAdd(n, name, n1, multiset{n1}, multiset{});
      assert multiset{n1} - multiset{n1} == multiset{};
      GrownBy(old(inodes), inodes, n, name, n1);
      return 0;
    }

    /** "." and ".." of a new directory. */
    method FillDir(n: Ptr, n1: Ptr, ghost held: multiset<Ptr>)
      requires n in inodes && n1 in inodes && inodes[n1].body == Dir([], 0)
      requires Running(held, multiset{})
      modifies this`inodes, this`fsBlocks
      ensures inodes.Keys == old(inodes).Keys && Kept(old(inodes), inodes, {n1})
      ensures inodes[n1].body.Dir? && NamesOf(inodes[n1].body) == map["." := n1, ".." := n]
      ensures Running(held, multiset{})
    {
      hide Inv, NamesOf, Added, Named;
      DotMap(inodes[n1].body, n, n1);
      NotNamedYet(inodes[n1].body, Dirent(".", n1), "..");
      AddName(n1, ".", n1, held);
      AddName(n1, "..", n, held);
    }

    /** One more name for an inode. */
    method AddName(d: Ptr, name: string, n: Ptr, ghost held: multiset<Ptr>)
      requires n in inodes && IsDir(inodes, d) && !Named(inodes[d].body.entries, name)
      requires Running(held, multiset{})
      modifies this`inodes, this`fsBlocks
      ensures inodes.Keys == old(inodes).Keys && Kept(old(inodes), inodes, {d})
      ensures inodes[d].body == Added(old(inodes)[d].body, Dirent(name, n))
      ensures inodes[n].refcount == old(inodes)[n].refcount + 1
      ensures Running(held, multiset{})
    {
      hide Inv, Added, Named;
      InodeIncref(n, held, multiset{});
      InodeDirAdd(d, name, n, held + multiset{n}, multiset{});
      assert held + multiset{n} - multiset{n} == held;
    }

    /** A new file; the handle moves from the directory to it, open. */
    method Create(f: Fid, name: string, flags: nat, mode: nat, gid: nat) returns (ret: int)
      requires Valid() && f in files
      modifies this`inodes, this`files, this`fsBlocks, this`inodeCount, this`inodeNumAlloc, this`stopped
      ensures stopped <==> CreateTrap(old(inodes), old(files)[f].inode, name)
      ensures stopped ==> Broken(inodes)
      ensures !stopped ==> Valid()
      ensures ret == AddError(old(inodes), old(files)[f].inode, name, P9_ENOTDIR)
      ensures ret != 0 ==> View() == old(View())
      ensures ret == 0 && !stopped ==>
                && files == old(files)[f := FSFile(old(files)[f].uid, old(inodeNumAlloc), true, flags)]
                && Grown(old(inodes), inodes, old(files)[f].inode, name, old(inodeNumAlloc))
                && Holds(inodes, old(inodeNumAlloc), Reg(0))
                && Has(inodes, old(inodeNumAlloc), Attributes(FT_REG, mode % 4096, old(files)[f].uid, gid))
    {
      hide Inv, NamesOf, Added;
      FileLive(View(), f);
      var n := files[f].inode;
      if !inodes[n].body.Dir? {
        return -P9_ENOTDIR;
      }
      var i := InodeSearch(n, name);
      SearchMap(View(), n, name, i);
      if i >= 0 {
        return -P9_EEXIST;
      }
      var n1 := NewEntry(n, name, FT_REG, mode, files[f].uid, gid, Reg(0));
      MoveHandle(f, n1, flags);
      return 0;
    }

    /** A new inode of the given contents, named `name` in directory `n`. */
    method NewEntry(n: Ptr, name: string, fileType: nat, mode: nat, uid: nat, gid: nat, body: Body) returns (n1: Ptr)
      requires Valid() && n in inodes && inodes[n].body.Dir? && !Named(inodes[n].body.entries, name) && Empty(body)
      modifies this`inodes, this`fsBlocks, this`inodeCount, this`inodeNumAlloc
      ensures Valid() && n1 == old(inodeNumAlloc) && Grown(old(inodes), inodes, n, name, n1) && Holds(inodes, n1, body)
      ensures Has(inodes, n1, Attributes(fileType, mode % 4096, uid, gid))
      ensures Full(inodes[n].body) && inodes[n].refcount == old(inodes)[n].refcount
      ensures inodes[n].openCount == old(inodes)[n].openCount
    {
      hide Inv, NamesOf, Empty, Named, EntrySize;
      n1 := InodeNew(fileType, mode, uid, gid, body, multiset{}, multiset{});
      InodeDirAdd(n, name, n1, multiset{} + multiset{n1}, multiset{});
      assert multiset{} + multiset{n1} - multiset{n1} == multiset{};
      GrownBy(old(inodes), inodes, n, name, n1);
    }

    /** The handle closes, leaves its inode, a directory with entries, and opens `n1`. */
    method MoveHandle(f: Fid, n1: Ptr, flags: nat)
      requires Valid() && f in files && n1 in inodes && n1 != files[f].inode
      requires files[f].inode in inodes && Full(inodes[files[f].inode].body)
      modifies this`inodes, this`files, this`fsBlocks, this`inodeCount, this`stopped
      ensures stopped <==> LastOpen(old(inodes)[old(files)[f].inode])
      ensures stopped ==> Broken(inodes)
      ensures !stopped ==> Valid() && files == old(files)[f := FSFile(old(files)[f].uid, n1, true, flags)]
      ensures !stopped ==> inodes.Keys == old(inodes).Keys && Kept(old(inodes), inodes, {})
    {
      hide Inv, More;
      var uid, n := files[f].uid, files[f].inode;
      Unpin(f);
      InodeDecOpen(n, multiset{}, multiset{n});
      if stopped {
        return;
      }
      assert multiset{n} - multiset{n} == multiset{} && multiset{} + multiset{n1} == multiset{n1};
      assert multiset{n1} - multiset{n1} == multiset{};
      InodeIncOpen(n1, multiset{}, multiset{});
      OneLess(multiset{n1}, n1);
      FilesChanged(View(), f, FSFile(uid, n1, true, flags), multiset{}, multiset{n1}, multiset{});
      files := files[f := FSFile(uid, n1, true, flags)];
    }

    /** Another name for a file. The directory must be one, as `inode_dir_add` asserts. */
    method Link(df: Fid, f: Fid, name: string, ghost d: Ptr, ghost t: Ptr) returns (ret: int)
      requires OpenOn(files, df, d) && OpenOn(files, f, t)
      requires Valid() && (IsDir(inodes, t) || IsDir(inodes, d))
      modifies this`inodes, this`fsBlocks
      ensures Valid()
      ensures ret == LinkError(old(inodes), d, t, name)
      ensures ret != 0 ==> View() == old(View())
      ensures ret == 0 ==> Linked(old(inodes), inodes, d, name, t)
    {
      hide Inv, NamesOf, EntrySize;
      FileLive(View(), f);
      FileLive(View(), df);
      var n, n1 := files[df].inode, files[f].inode;
      if inodes[n1].body.Dir? {
        return -P9_EPERM;
      }
      var i := InodeSearch(n, name);
      SearchMap(View(), n, name, i);
      if i >= 0 {
        return -P9_EEXIST;
      }
      InodeIncref(n1, multiset{}, multiset{});
      InodeDirAdd(n, name, n1, multiset{} + multiset{n1}, multiset{});
      assert multiset{} + multiset{n1} - multiset{n1} == multiset{};
      AddedMap(old(inodes)[n].body, Dirent(name, n1));
      return 0;
    }

    method SymlinkAt(f: Fid, name: string, target: string, gid: nat) returns (ret: int)
      requires Valid() && f in files && IsDir(inodes, files[f].inode)
      modifies this`inodes, this`fsBlocks, this`inodeCount, this`inodeNumAlloc
      ensures Valid()
      ensures ret == AddError(old(inodes), files[f].inode, name, P9_ENOTDIR)
      ensures ret != 0 ==> View() == old(View())
      ensures ret == 0 ==>
                && Grown(old(inodes), inodes, files[f].inode, name, old(inodeNumAlloc))
                && Holds(inodes, old(inodeNumAlloc), Symlink(target))
                && Has(inodes, old(inodeNumAlloc), Attributes(FT_LNK, 511, files[f].uid, gid))
    {
      hide Inv, NamesOf;
      FileLive(View(), f);
      var n := files[f].inode;
      var i := InodeSearch(n, name);
      SearchMap(View(), n, name, i);
      if i >= 0 {
        return -P9_EEXIST;
      }
      var n1 := NewEntry(n, name, FT_LNK, 511, files[f].uid, gid, Symlink(target));
      return 0;
    }

    method Mknod(f: Fid, name: string, mode: nat, major: nat, minor: nat, gid: nat) returns (ret: int)
      requires Valid() && f in files && IsDir(inodes, files[f].inode)
      modifies this`inodes, this`fsBlocks, this`inodeCount, this`inodeNumAlloc
      ensures Valid()
      ensures ret == if NodeBody(FileType(mode), major, minor) == None then -P9_EINVAL
                     else AddError(old(inodes), files[f].inode, name, P9_ENOTDIR)
      ensures ret != 0 ==> View() == old(View())
      ensures ret == 0 ==>
                && Grown(old(inodes), inodes, files[f].inode, name, old(inodeNumAlloc))
                && Holds(inodes, old(inodeNumAlloc), NodeBody(FileType(mode), major, minor).value)
                && Has(inodes, old(inodeNumAlloc), Attributes(FileType(mode), mode % 4096, files[f].uid, gid))
    {
      hide Inv, NamesOf;
      FileLive(View(), f);
      var n := files[f].inode;
      var body := NodeBody(FileType(mode), major, minor);
      if body == None {
        return -P9_EINVAL;
      }
      var i := InodeSearch(n, name);
      SearchMap(View(), n, name, i);
      if i >= 0 {
        return -P9_EEXIST;
      }
      var n1 := NewEntry(n, name, FileType(mode), mode, files[f].uid, gid, body.value);
      return 0;
    }

    /** The accounts of a resize that succeeds. */
    method SetSize(f: Fid, size: nat, ghost n: Ptr)
      requires OpenOn(files, f, n) && IsReg(inodes, n)
      requires Valid()
      modifies this`inodes, this`fsBlocks
      ensures Valid() && inodes.Keys == old(inodes).Keys && Kept(old(inodes), inodes, {n})
              && Holds(inodes, n, Reg(size))
    {
      hide Inv, ToBlocks;
      var n1 := files[f].inode;
      Resized(View(), n1, size);
      fsBlocks := fsBlocks + ToBlocks(size) - ToBlocks(inodes[n1].body.size);
      inodes := SetBody(inodes, n1, Reg(size));
    }

    method UnlinkAt(f: Fid, name: string, ghost d: Ptr) returns (ret: int)
      requires OpenOn(files, f, d)
      requires Valid()
      modifies this`inodes, this`fsBlocks, this`inodeCount, this`stopped
      ensures ret == UnlinkError(old(inodes), d, name)
      ensures stopped <==> UnlinkTrap(old(inodes), d, name)
      ensures stopped ==> Broken(inodes)
      ensures ret != 0 ==> View() == old(View())
      ensures ret == 0 && !stopped ==> Unlinked(old(inodes), inodes, d, name)
      ensures !stopped ==> Valid()
    {
      hide Inv, NamesOf, Removed, Orphaned, Broken, Bare;
      if name == "." || name == ".." {
        return -P9_ENOENT;
      }
      FileLive(View(), f);
      var n := files[f].inode;
      var i := InodeSearch(n, name);
      SearchMap(View(), n, name, i);
      if i < 0 {
        return -P9_ENOENT;
      }
      var n1 := inodes[n].body.entries[i].inode;
      if inodes[n1].body.Dir? {
        var empty := IsEmptyDir(n1);
        EmptyMap(View(), n1, empty);
        if !empty {
          return -P9_ENOTEMPTY;
        }
        NotBare(inodes[n1].body, name);
        FlushDir(n1, f, i);
        if stopped {
          return 0;
        }
        StillOpen(View(), multiset{}, f);
      } else {
        NoneOrphaned(inodes, n1);
      }
      Shrunk(View(), multiset{}, n, i);
      InodeDirentDelete(n, i, multiset{}, f, 0);
      return 0;
    }

    /** Move a name. What had the new name, if not a directory, loses it. */
    method RenameAt(f: Fid, name: string, g: Fid, newName: string, ghost d: Ptr, ghost e: Ptr) returns (ret: int)
      requires OpenOn(files, f, d) && OpenOn(files, g, e)
      requires Movable(inodes, d, name, e, newName)
      requires Valid()
      modifies this`inodes, this`fsBlocks, this`inodeCount, this`stopped
      ensures ret == RenameError(old(inodes), d, name, e, newName)
      ensures ret != 0 ==> View() == old(View())
      ensures ret == 0 ==> Renamed(old(inodes), inodes, d, name, e, newName)
      ensures Valid()
    {
      hide Inv, NamesOf, Removed;
      FileLive(View(), f);
      FileLive(View(), g);
      var n, m := files[f].inode, files[g].inode;
      var i := InodeSearch(n, name);
      SearchMap(View(), n, name, i);
      if i < 0 {
        return -P9_ENOENT;
      }
      var k := InodeSearch(m, newName);
      SearchMap(View(), m, newName, k);
      if k >= 0 {
        var n1 := inodes[m].body.entries[k].inode;
        if inodes[n1].body.Dir? {
          return -P9_EEXIST;
        }
        MoveOver(n, i, m, k, f);
      } else {
        MoveEntry(n, i, m, newName, multiset{}, f);
      }
      MapMoved(NamesOf(old(inodes)[n].body), NamesOf(old(inodes)[m].body), name, newName,
          NamesOf(old(inodes)[n].body)[name]);
      return 0;
    }

    /** Entry `i` of `n` takes the place of entry `k` of `m`, which names no directory. */
    method MoveOver(n: Ptr, i: nat, m: Ptr, k: nat, ghost f: Fid)
      requires EntryAt(inodes, n, i) && EntryAt(inodes, m, k) && (n == m ==> i != k) && OpenOn(files, f, n)
      requires !IsDir(inodes, inodes[m].body.entries[k].inode)
      requires Valid()
      modifies this`inodes, this`fsBlocks, this`inodeCount, this`stopped
      ensures Kept(old(inodes), inodes, {n, m}) && IsDir(inodes, n) && IsDir(inodes, m)
      ensures var newName, t := old(inodes)[m].body.entries[k].name, old(inodes)[n].body.entries[i].inode;
              && NamesOf(inodes[n].body) ==
                   (if n == m then (NamesOf(old(inodes)[n].body) - {newName})[newName := t]
                       else NamesOf(old(inodes)[n].body))
                   - {old(inodes)[n].body.entries[i].name}
              && (n != m ==> NamesOf(inodes[m].body) == (NamesOf(old(inodes)[m].body) - {newName})[newName := t])
      ensures Valid()
    {
      hide Inv, NamesOf;
      var de := inodes[m].body.entries[k];
      var i' := DropTarget(n, i, m, k);
      MoveEntry(n, i', m, de.name, multiset{de.inode}, f);
      LetGo(de.inode, n, m);
    }

    /** The reference held to an inode that is no directory goes, and the directories `n` and `m` stay. */
    method LetGo(t: Ptr, ghost n: Ptr, ghost m: Ptr)
      requires !IsDir(inodes, t) && IsDir(inodes, n) && IsDir(inodes, m)
      requires Running(multiset{t}, multiset{})
      modifies this`inodes, this`fsBlocks, this`inodeCount, this`stopped
      ensures Kept(old(inodes), inodes, {}) && IsDir(inodes, n) && IsDir(inodes, m)
      ensures Valid()
    {
      hide Inv;
      HeldLive(View(), multiset{t}, multiset{}, t);
      InodeDecref(t, multiset{t}, multiset{});
      assert multiset{t} - multiset{t} == multiset{};
    }

    /** Delete entry `k` of `m`, keeping its reference; returns where entry `i` of `n` is then. */
    method DropTarget(n: Ptr, i: nat, m: Ptr, k: nat) returns (i': nat)
      requires EntryAt(inodes, n, i) && EntryAt(inodes, m, k) && (n == m ==> i != k)
      requires Valid()
      modifies this`inodes, this`fsBlocks
      ensures Kept(old(inodes), inodes, {m}) && inodes.Keys == old(inodes).Keys && EntryAt(inodes, n, i')
      ensures inodes[n].body.entries[i'] == old(inodes)[n].body.entries[i]
      ensures IsDir(inodes, m) && !Named(inodes[m].body.entries, old(inodes)[m].body.entries[k].name)
      ensures NamesOf(inodes[m].body) == NamesOf(old(inodes)[m].body) - {old(inodes)[m].body.entries[k].name}
      ensures Running(multiset{old(inodes)[m].body.entries[k].inode}, multiset{})
    {
      hide Inv, NamesOf, EntrySize;
      DropLemma(View(), m, k);
      Shrunk(View(), multiset{}, m, k);
      InodeDirentDeleteNoDecref(m, k, multiset{}, multiset{});
      assert multiset{} + multiset{old(inodes)[m].body.entries[k].inode}
          == multiset{old(inodes)[m].body.entries[k].inode};
      i' := if n == m && k < i then i - 1 else i;
    }

    method MoveEntry(n: Ptr, i: nat, m: Ptr, newName: string, ghost held: multiset<Ptr>, ghost f: Fid)
      requires EntryAt(inodes, n, i) && IsDir(inodes, m) && !Named(inodes[m].body.entries, newName)
      requires OpenOn(files, f, n)
      requires Running(held, multiset{})
      modifies this`inodes, this`fsBlocks, this`inodeCount, this`stopped
      ensures Kept(old(inodes), inodes, {n, m}) && IsDir(inodes, n) && IsDir(inodes, m)
      ensures NamesOf(inodes[n].body) ==
                (if n == m then NamesOf(old(inodes)[n].body)[newName := old(inodes)[n].body.entries[i].inode]
                 else NamesOf(old(inodes)[n].body)) - {old(inodes)[n].body.entries[i].name}
      ensures n != m ==>
              NamesOf(inodes[m].body) == NamesOf(old(inodes)[m].body)[newName := old(inodes)[n].body.entries[i].inode]
      ensures Running(held, multiset{})
    {
      hide Inv, NamesOf, EntrySize, Removed, Named;
      var t := inodes[n].body.entries[i].inode;
      EntryLive(View(), held, n, i);
      AddName(m, newName, t, held);
      AddedMap(old(inodes)[m].body, Dirent(newName, t));
      assert inodes[n].body.entries[i] == old(inodes)[n].body.entries[i];
      Shrunk(View(), held, n, i);
      InodeDirentDelete(n, i, held, f, 0);
    }

    /** One call. It keeps the counts exactly if it does not free a directory with entries. */
    method Do(op: Op)
      requires Allowed(View(), op)
      requires Valid()
      modifies this
      ensures stopped <==> Trap(old(View()), op)
      ensures stopped ==> Broken(inodes)
      ensures !stopped ==> Effect(old(View()), op, View())
      ensures !stopped ==> Valid() && root == old(root)
      ensures !stopped && old(WithDots(inodes)) && Tame(old(View()), op) ==> WithDots(inodes)
    {
      hide Inv, Grown, Made, Linked, Unlinked, Renamed, Movable, Addable, WithDots, UnlinkTrap, CreateTrap, DeleteTrap;
      hide Broken, NamesOf, Kept, AddError, RenameError, UnlinkError, LinkError, Full, Effect;
      match op {
        case Attach(uid) => Harmless(op);
        case Walk(f, names) => Harmless(op);
        case Link(df, f, name) => Harmless(op);
        case SetSize(f, size) => Harmless(op);
        case Mkdir(f, name, mode, gid) => Adding(op);
        case SymlinkAt(f, name, target, gid) => Adding(op);
        case Mknod(f, name, mode, major, minor, gid) => Adding(op);
        case RenameAt(f, name, g, newName) => Moving(op);
        case Create(f, name, flags, mode, gid) => Creating(op);
        case UnlinkAt(f, name) => Removing(op);
        case Delete(f) => Deleting(op);
      }
    }

    method Harmless(op: Op)
      requires op.Attach? || op.Walk? || op.Link? || op.SetSize?
      requires Allowed(View(), op)
      requires Valid()
      modifies this
      ensures Effect(old(View()), op, View())
      ensures Valid() && root == old(root)
      ensures old(WithDots(inodes)) && Tame(old(View()), op) ==> WithDots(inodes)
    {
      hide Inv, WithDots, Kept, NamesOf, Linked, Addable;
      ghost var s := View();
      ghost var dots := WithDots(inodes) && Tame(View(), op);
      match op {
        case Attach(uid) =>
          var g := Attach(uid);
          assert HandleAdded(s, View(), g, s.root, uid);
          SameDots(old(inodes), inodes, root, dots);
        case Walk(f, names) =>
          var g, i := Walk(f, names);
          WalkedTo(s, View(), f, names, g, i);
          SameDots(old(inodes), inodes, root, dots);
        case Link(df, f, name) =>
          var ret := Link(df, f, name, files[df].inode, files[f].inode);
          if dots && ret == 0 {
            DotsLinked(old(inodes), inodes, files[df].inode, name, files[f].inode);
          }
        case SetSize(f, size) =>
          SetSize(f, size, files[f].inode);
          if dots {
            DotsSame(old(inodes), inodes, files[f].inode);
          }
        case _ =>
      }
    }

    method Adding(op: Op)
      requires op.Mkdir? || op.SymlinkAt? || op.Mknod?
      requires Allowed(View(), op)
      requires Valid()
      modifies this
      ensures Effect(old(View()), op, View())
      ensures Valid() && root == old(root)
      ensures old(WithDots(inodes)) && Tame(old(View()), op) ==> WithDots(inodes)
    {
      hide Inv, WithDots, NamesOf, Grown, Addable;
      ghost var dots := WithDots(inodes) && Tame(View(), op);
      match op {
        case Mkdir(f, name, mode, gid) =>
          var ret := Mkdir(f, name, mode, gid);
          if dots && ret == 0 {
            DotsGrown(old(inodes), inodes, files[f].inode, name, old(inodeNumAlloc));
          }
        case SymlinkAt(f, name, target, gid) =>
          var ret := SymlinkAt(f, name, target, gid);
          if dots && ret == 0 {
            DotsGrown(old(inodes), inodes, files[f].inode, name, old(inodeNumAlloc));
          }
        case Mknod(f, name, mode, major, minor, gid) =>
          var ret := Mknod(f, name, mode, major, minor, gid);
          assert ret == 0 ==> NodeHolds(FileType(mode), major, minor, NodeBody(FileType(mode), major, minor).value);
          if dots && ret == 0 {
            DotsGrown(old(inodes), inodes, files[f].inode, name, old(inodeNumAlloc));
          }
        case _ =>
      }
    }

    method Moving(op: Op)
      requires op.RenameAt?
      requires Allowed(View(), op)
      requires Valid()
      modifies this
      ensures Effect(old(View()), op, View())
      ensures Valid() && root == old(root)
      ensures old(WithDots(inodes)) && Tame(old(View()), op) ==> WithDots(inodes)
    {
      hide Inv, WithDots, NamesOf, Renamed, Addable, RenameError;
      ghost var dots := WithDots(inodes) && Tame(View(), op);
      var RenameAt(f, name, g, newName) := op;
      var ret := RenameAt(f, name, g, newName, files[f].inode, files[g].inode);
      if dots && ret == 0 {
        DotsRenamed(old(inodes), inodes, files[f].inode, name, files[g].inode, newName);
      }
    }

    method Creating(op: Op)
      requires op.Create?
      requires Allowed(View(), op)
      requires Valid()
      modifies this
      ensures stopped <==> Trap(old(View()), op)
      ensures stopped ==> Broken(inodes)
      ensures !stopped ==> Effect(old(View()), op, View())
      ensures !stopped ==> Valid() && root == old(root)
      ensures !stopped && old(WithDots(inodes)) && Tame(old(View()), op) ==> WithDots(inodes)
    {
      hide Inv, WithDots, NamesOf, Grown, Addable, CreateTrap, Broken;
      ghost var dots := WithDots(inodes) && Tame(View(), op);
      var Create(f, name, flags, mode, gid) := op;
      ghost var d := files[f].inode;
      var ret := Create(f, name, flags, mode, gid);
      if dots && ret == 0 && !stopped {
        DotsGrown(old(inodes), inodes, d, name, old(inodeNumAlloc));
      }
    }

    method Removing(op: Op)
      requires op.UnlinkAt?
      requires Allowed(View(), op)
      requires Valid()
      modifies this
      ensures stopped <==> Trap(old(View()), op)
      ensures stopped ==> Broken(inodes)
      ensures !stopped ==> Effect(old(View()), op, View())
      ensures !stopped ==> Valid() && root == old(root)
      ensures !stopped && old(WithDots(inodes)) && Tame(old(View()), op) ==> WithDots(inodes)
    {
      hide Inv, WithDots, NamesOf, Unlinked, UnlinkTrap, Broken, Bare;
      ghost var dots := WithDots(inodes);
      var UnlinkAt(f, name) := op;
      var ret := UnlinkAt(f, name, files[f].inode);
      if dots && ret == 0 && !stopped {
        DotsUnlinked(old(inodes), inodes, files[f].inode, name);
      }
    }

    method Deleting(op: Op)
      requires op.Delete?
      requires Allowed(View(), op)
      requires Valid()
      modifies this
      ensures stopped <==> Trap(old(View()), op)
      ensures stopped ==> Broken(inodes)
      ensures !stopped ==> Effect(old(View()), op, View())
      ensures !stopped ==> Valid() && root == old(root)
      ensures !stopped && old(WithDots(inodes)) ==> WithDots(inodes)
    {
      hide Inv, WithDots, Kept, DeleteTrap, Broken;
      ghost var dots := WithDots(inodes);
      Delete(op.f);
      SameDots(old(inodes), inodes, root, dots && !stopped);
    }

    /** Any run, of which `done` calls are carried out: it stops at the first call that frees a directory with entries,
        and until then the counts stay exact and what exists is what is referred to. If no call renames "." or adds
        entries to a removed directory, it never stops. `trace` holds the states between the calls. */
    method Run(ops: seq<Op>) returns (done: nat, ghost trace: seq<Fs>)
      requires Valid()
      modifies this
      ensures done <= |ops| && |trace| == done + 1 && trace[0] == old(View())
      ensures stopped <==> done < |ops|
      ensures forall k | 0 <= k < done :: Stepped(trace[k], ops[k], trace[k + 1])
      ensures stopped ==> Allowed(trace[done], ops[done]) && Trap(trace[done], ops[done]) && Broken(inodes)
      ensures !stopped ==> Valid() && View() == trace[done] && forall p :: p in inodes <==> Referenced(View(), p)
      ensures old(WithDots(inodes)) && (forall k | 0 <= k < |trace| && k < |ops| :: Tame(trace[k], ops[k])) ==> !stopped
    {
      hide Inv, Allowed, Trap, Tame, WithDots, Broken, Referenced, Effect;
      done, trace := 0, [View()];
      ghost var dots, tame := WithDots(inodes), true;
      while done < |ops|
        invariant done <= |ops| && |trace| == done + 1 && trace[0] == old(View()) && trace[done] == View()
        invariant forall k | 0 <= k < done :: Stepped(trace[k], ops[k], trace[k + 1])
        invariant tame <==> forall k | 0 <= k < done :: Tame(trace[k], ops[k])
        invariant dots && tame ==> WithDots(inodes)
        invariant Valid()
      {
        var op := ops[done];
        if dots && tame && Tame(View(), op) {
          TameSafe(View(), op);
        }
        if Allowed(View(), op) {
          Do(op);
          if stopped {
            return;
          }
        }
        tame := tame && Tame(trace[done], op);
        trace := trace + [View()];
        done := done + 1;
      }
      forall p
        ensures p in inodes <==> Referenced(View(), p)
      {
        LiveExactly(View(), p);
      }
    }
  }

  lemma WalkedTo(s: Fs, t: Fs, f: Fid, names: seq<string>, g: Fid, i: nat)
    requires f in s.files && g in t.files && g !in s.files && t.files.Keys == s.files.Keys + {g} && i <= |names|
    requires forall h | h in s.files :: t.files[h] == s.files[h]
    requires t.files[g] == FSFile(s.files[f].uid, t.files[g].inode, false, 0)
    requires Kept(s.inodes, t.inodes, {}) && t.inodes.Keys == s.inodes.Keys
    requires Follow(s.inodes, s.files[f].inode, names[..i]) == Some(t.files[g].inode)
    requires i < |names| ==> Follow(s.inodes, s.files[f].inode, names[..i + 1]) == None
    ensures Walked(s, t, f, names, g)
  {
    hide Kept, Follow;
    assert t.files == s.files[g := t.files[g]];
  }

  lemma RootDots(inodes: Inodes, root: Ptr)
    requires inodes.Keys == {root} && NamesOf(inodes[root].body) == map["." := root, ".." := root]
    ensures WithDots(inodes)
  {
    hide NamesOf;
  }

  lemma SameDots(a: Inodes, b: Inodes, n: Ptr, dots: bool)
    requires dots ==> WithDots(a) && Kept(a, b, {})
    ensures dots ==> WithDots(b)
  {
    if dots {
      SamePlace(a, b, n);
      DotsSame(a, b, n);
    }
  }

  lemma SamePlace(a: Inodes, b: Inodes, n: Ptr)
    requires Kept(a, b, {})
    ensures Kept(a, b, {n}) && (n in b ==> b[n].body == a[n].body)
  {
  }
}
