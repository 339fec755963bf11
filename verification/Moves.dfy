/** What a rename does to the disk, while every path in memory stays as it was.  Paths below a moved
    directory, and the old place, which is left empty; the stores and the list that can still be written
    afterwards, exactly; and the rename into the place of a store's file, which then cannot be opened. */
module Moves {
  import opened Bytes
  import opened Stores
  import opened Groups
  import opened Bank
  import opened Agreement
  import opened Layout
  import opened Calls
  import opened Reload
  import opened PlainBank

  // ----- moved paths -----

  /** The last separator of a path that has one in `rest` stays where it is in `rest`. */
  lemma {:induction false} SepEndOfRest(u: Str, v: Str, rest: Str)
    requires SepEnd(u + rest) > |u|
    ensures SepEnd(v + rest) == SepEnd(u + rest) - |u| + |v|
    decreases |rest|
  {
    var short := rest[..|rest| - 1];
    assert (u + rest)[..|u + rest| - 1] == u + short && (v + rest)[..|v + rest| - 1] == v + short;
    assert (u + rest)[|u + rest| - 1] == rest[|rest| - 1] == (v + rest)[|v + rest| - 1];
    if !IsSep(rest[|rest| - 1]) {
      SepEndOfRest(u, v, short);
    }
  }

  /** Below a directory the parent of `rest` is told by `rest` alone. */
  lemma BelowRest(src: Str, dst: Str, rest: Str) returns (k: nat)
    requires rest != [] && Under(src, src + rest)
    ensures k < |rest| && ParentPath(src + rest) == src + rest[..k] && Under(src, src + rest[..k])
    ensures SepEnd(dst + rest) == |dst| + k + 1 && SepEnd(src + rest) == |src| + k + 1
    ensures ParentPath(dst + rest) == dst + rest[..k]
  {
    var p := src + rest;
    UnderIsPrefix(src, ParentPath(p));
    k := SepEnd(p) - 1 - |src|;
    SepEndOfRest(src, dst, rest);
    SlicedBelow(src, rest, k);
    SlicedBelow(dst, rest, k);
  }

  lemma SlicedBelow(dir: Str, rest: Str, k: nat)
    requires k <= |rest|
    ensures (dir + rest)[..|dir| + k] == dir + rest[..k]
  {
  }

  lemma {:induction false} MovedRest(src: Str, dst: Str, rest: Str)
    requires Under(src, src + rest)
    ensures Under(dst, dst + rest)
    decreases |rest|
  {
    if rest == [] {
      assert dst + rest == dst;
    } else {
      var k := BelowRest(src, dst, rest);
      MovedRest(src, dst, rest[..k]);
    }
  }

  lemma RestOf(src: Str, p: Str)
    requires Under(src, p)
    ensures |src| <= |p| && p == src + p[|src|..] && (p[|src|..] == [] <==> p == src)
  {
    UnderIsPrefix(src, p);
  }

  /** A moved path keeps its place below the moved directory. */
  lemma MovedBelow(src: Str, dst: Str, p: Str)
    requires Under(src, p)
    ensures |src| <= |p| && MovedPath(p, src, dst) == dst + p[|src|..] && Under(dst, MovedPath(p, src, dst))
  {
    RestOf(src, p);
    MovedRest(src, dst, p[|src|..]);
  }

  lemma MovedParent(src: Str, dst: Str, p: Str)
    requires Under(src, p) && p != src
    ensures Under(src, ParentPath(p)) && SepEnd(MovedPath(p, src, dst)) > 0
    ensures ParentPath(MovedPath(p, src, dst)) == MovedPath(ParentPath(p), src, dst)
  {
    RestOf(src, p);
    MovedBelow(src, dst, p);
    var rest := p[|src|..];
    var k := BelowRest(src, dst, rest);
    MovedBelow(src, dst, ParentPath(p));
    assert (src + rest[..k])[|src|..] == rest[..k];
  }

  lemma MovedJoin(src: Str, dst: Str, dir: Str, name: Str)
    requires Under(src, dir) && NoSep(name)
    ensures Under(src, Join(dir, name)) && MovedPath(Join(dir, name), src, dst) == Join(MovedPath(dir, src, dst), name)
  {
    JoinSplits(dir, name);
    MovedBelow(src, dst, dir);
    MovedBelow(src, dst, Join(dir, name));
    JoinedRest(src, dir, name);
    Regrouped(dst, dir[|src|..], [BACKSLASH], name);
  }

  lemma Regrouped(a: Str, b: Str, c: Str, d: Str)
    ensures a + (b + c + d) == a + b + c + d
  {
  }

  lemma JoinedRest(src: Str, dir: Str, name: Str)
    requires |src| <= |dir|
    ensures Join(dir, name)[|src|..] == dir[|src|..] + [BACKSLASH] + name
  {
  }

  lemma MovedApart(src: Str, dst: Str, p: Str, q: Str)
    requires Under(src, p) && Under(src, q) && MovedPath(p, src, dst) == MovedPath(q, src, dst)
    ensures p == q
  {
    MovedBelow(src, dst, p);
    MovedBelow(src, dst, q);
    UnderIsPrefix(src, p);
    UnderIsPrefix(src, q);
    assert p == src + p[|src|..] && q == src + q[|src|..];
    assert p[|src|..] == (dst + p[|src|..])[|dst|..];
    assert q[|src|..] == (dst + q[|src|..])[|dst|..];
  }

  /** Nothing is left at or below the old path: what was there is below the new one. */
  lemma OldPlaceIsEmpty(dir: Str, was: Str, name: Str, p: Str)
    requires NoSep(was) && NoSep(name) && was != name
    ensures !Under(Join(dir, was), MovedPath(p, Join(dir, was), Join(dir, name)))
  {
    if Under(Join(dir, was), p) {
      MovedBelow(Join(dir, was), Join(dir, name), p);
      NamesApartBelow(dir, name, was, MovedPath(p, Join(dir, was), Join(dir, name)));
    }
  }

  // ----- which files can still be written -----

  /** The renamed group and the two paths. */
  ghost predicate Rename(s: State, pid: Str, i: nat, name: Str) {
    && Settled(s) && pid in Keys(ById, s.tree) && i < |Node(ById, s.tree, pid).kids|
    && ValidName(name) && name != Node(ById, s.tree, pid).kids[i].name
    && !Exists(s.core.disk, Join(Node(ById, s.tree, pid).path, name))
  }

  /** `q` belongs in the directory of a node that does not move.  After the move it is a directory exactly
      when it is the new path. */
  lemma BlockedIffNew(tree: Group, d: Disk, dir: Str, was: Str, name: Str, g: Header, q: Str)
    requires Laid(tree) && OnDisk(Headers(tree), tree.Head(), d) && Under(tree.path, dir)
    requires NoSep(was) && NoSep(name) && was != name && Join(dir, was) in d.dirs && Join(dir, name) !in d.dirs
    requires g in Headers(tree) && !Under(Join(dir, was), g.path)
    requires SepEnd(q) > 0 && ParentPath(q) == g.path && q !in d.dirs
    ensures q in RenameAll(d, Join(dir, was), Join(dir, name)).dirs <==> q == Join(dir, name)
    ensures g.path in RenameAll(d, Join(dir, was), Join(dir, name)).dirs
  {
    var src, dst := Join(dir, was), Join(dir, name);
    MovedBelow(src, dst, src);
    assert MovedPath(src, src, dst) == dst + src[|src|..] == dst;
    assert MovedPath(g.path, src, dst) == g.path && g.path in d.dirs;
    forall p | p in d.dirs && MovedPath(p, src, dst) == q
      ensures q == dst
    {
      if Under(src, p) && p != src {
        MovedParent(src, dst, p);
        MovedBelow(src, dst, ParentPath(p));
        NothingAtNew(tree, d, dir, name, g);
      }
    }
  }

  lemma NothingAtNew(tree: Group, d: Disk, dir: Str, name: Str, g: Header)
    requires Laid(tree) && OnDisk(Headers(tree), tree.Head(), d) && Under(tree.path, dir) && NoSep(name)
    requires Join(dir, name) !in d.dirs && g in Headers(tree)
    ensures !Under(Join(dir, name), g.path)
  {
    UnderIsLonger(tree.path, dir);
    if Under(Join(dir, name), tree.path) {
      UnderIsLonger(Join(dir, name), tree.path);
    }
    NothingUnder(tree, Join(dir, name), g);
  }

  /** After a rename that changes the name, a store opened before can be written back exactly when its
      group is not the renamed one or below it and the new directory does not lie at its file. */
  lemma StrandedStore(s: State, pid: Str, i: nat, name: Str, h: Header)
    requires Rename(s, pid, i, name) && h in Headers(s.tree) && h != s.tree.Head()
    ensures var n := Node(ById, s.tree, pid); var f := n.kids[i];
      CanWrite(RenameAll(s.core.disk, f.path, Join(n.path, name)), StoreFile(h)) <==>
      !Under(f.path, h.path) && StoreFile(h) != Join(n.path, name)
  {
    var n := Node(ById, s.tree, pid);
    var f := n.kids[i];
    KidIsHere(s.tree, pid, i);
    PathsAreNames(s.tree, n.Head());
    StoreFileSplits(h);
    StoreFileIsFree(s.tree, s.core.disk, h);
    if Under(f.path, h.path) {
      forall p | p in s.core.disk.dirs
        ensures MovedPath(p, f.path, Join(n.path, name)) != h.path
      {
        OldPlaceIsEmpty(n.path, f.name, name, p);
      }
    } else {
      BlockedIffNew(s.tree, s.core.disk, n.path, f.name, name, h, StoreFile(h));
    }
  }

  lemma StrandedList(s: State, pid: Str, i: nat, name: Str)
    requires Rename(s, pid, i, name)
    ensures var n := Node(ById, s.tree, pid); var f := n.kids[i];
      CanWrite(RenameAll(s.core.disk, f.path, Join(n.path, name)), s.core.list.path) <==>
      s.core.list.path != Join(n.path, name)
  {
    var n := Node(ById, s.tree, pid);
    var f := n.kids[i];
    KidIsHere(s.tree, pid, i);
    PathsAreNames(s.tree, n.Head());
    IdsFileSplits(s.tree.Head());
    IdsFileIsFree(s.tree, s.core.disk);
    assert s.tree.Head() in Headers(s.tree);
    UnderIsLonger(s.tree.path, n.path);
    if Under(f.path, s.tree.path) {
      UnderIsLonger(f.path, s.tree.path);
    }
    BlockedIffNew(s.tree, s.core.disk, n.path, f.name, name, s.tree.Head(), s.core.list.path);
  }

  lemma RenameMovesDisk(s: State, pid: Str, id: Str, name: Str)
    requires Agree(s) && pid in Keys(ById, s.tree) && IsKid(s, pid, id)
    ensures var n := Node(ById, s.tree, pid);
      Do(UpdateGroup(pid, id, name, true), s).s.core.disk ==
      RenameAll(s.core.disk, n.kids[KidIndex(n.kids, id)].path, Join(n.path, name))
  {
    UpdateIs(s, pid, id, name, true, UpdateIn(id, name, true, Node(ById, s.tree, pid), s.core));
  }

  /** updateGroup leaves the paths in memory as they were.  A store opened before a rename, of any group,
      can be written back exactly when the name did not change, or the group is neither the renamed one
      nor below it and the new directory does not lie at its file; and so can the id list. */
  lemma RenameStrandsStores(s: State, pid: Str, id: Str, name: Str, d': Disk)
    requires Settled(s) && pid in Keys(ById, s.tree) && IsKid(s, pid, id) && ValidName(name)
    requires var n := Node(ById, s.tree, pid);
      name == n.kids[KidIndex(n.kids, id)].name || !Exists(s.core.disk, Join(n.path, name))
    requires d' == Do(UpdateGroup(pid, id, name, true), s).s.core.disk
    ensures var n := Node(ById, s.tree, pid); var f := n.kids[KidIndex(n.kids, id)];
      && (forall h :: h in Headers(s.tree) && h.stores != [] ==>
            (CanWrite(d', h.stores[0].path) <==>
               name == f.name || (!Under(f.path, h.path) && StoreFile(h) != Join(n.path, name))))
      && (CanWrite(d', s.core.list.path) <==> name == f.name || s.core.list.path != Join(n.path, name))
  {
    var n := Node(ById, s.tree, pid);
    var i := KidIndex(n.kids, id);
    RenameMovesDisk(s, pid, id, name);
    KidIsHere(s.tree, pid, i);
    if name == n.kids[i].name {
      RenamedToItself(s.core.disk, n.kids[i].path);
      AllWritable(s);
    } else {
      AllStranded(s, pid, i, name);
    }
  }

  lemma AllWritable(s: State)
    requires Settled(s)
    ensures CanWrite(s.core.disk, s.core.list.path)
    ensures forall h :: h in Headers(s.tree) && h.stores != [] ==> CanWrite(s.core.disk, h.stores[0].path)
  {
    IdsFileIsFree(s.tree, s.core.disk);
    forall h | h in Headers(s.tree) && h.stores != []
      ensures CanWrite(s.core.disk, h.stores[0].path)
    {
      assert h != s.tree.Head() && StoreOk(h);
      StoreFileIsFree(s.tree, s.core.disk, h);
    }
  }

  lemma AllStranded(s: State, pid: Str, i: nat, name: Str)
    requires Rename(s, pid, i, name)
    ensures var n := Node(ById, s.tree, pid); var f := n.kids[i];
      var d' := RenameAll(s.core.disk, f.path, Join(n.path, name));
      && (forall h :: h in Headers(s.tree) && h.stores != [] ==>
            (CanWrite(d', h.stores[0].path) <==> !Under(f.path, h.path) && StoreFile(h) != Join(n.path, name)))
      && (CanWrite(d', s.core.list.path) <==> s.core.list.path != Join(n.path, name))
  {
    StrandedList(s, pid, i, name);
    forall h | h in Headers(s.tree) && h.stores != []
      ensures h != s.tree.Head() && h.stores[0].path == StoreFile(h)
    {
      assert h != s.tree.Head() && StoreOk(h);
    }
    forall h | h in Headers(s.tree) && h != s.tree.Head()
      ensures var n := Node(ById, s.tree, pid); var f := n.kids[i];
        CanWrite(RenameAll(s.core.disk, f.path, Join(n.path, name)), StoreFile(h)) <==>
        !Under(f.path, h.path) && StoreFile(h) != Join(n.path, name)
    {
      StrandedStore(s, pid, i, name, h);
    }
  }

  /** Nothing is left at the old paths, which are all that memory has: until a restart no other rename of
      the group, or of one below it, finds a directory to move, and none of their files is there. */
  lemma RenamedIsGone(s: State, pid: Str, id: Str, name: Str, p: Str)
    requires Settled(s) && pid in Keys(ById, s.tree) && IsKid(s, pid, id) && ValidName(name)
    requires name != Node(ById, s.tree, pid).kids[KidIndex(Node(ById, s.tree, pid).kids, id)].name
    requires Under(Node(ById, s.tree, pid).kids[KidIndex(Node(ById, s.tree, pid).kids, id)].path, p)
    ensures !Exists(Do(UpdateGroup(pid, id, name, true), s).s.core.disk, p)
  {
    var n := Node(ById, s.tree, pid);
    var i := KidIndex(n.kids, id);
    KidIsHere(s.tree, pid, i);
    RenameMovesDisk(s, pid, id, name);
    forall q
      ensures MovedPath(q, n.kids[i].path, Join(n.path, name)) != p
    {
      OldPlaceIsEmpty(n.path, n.kids[i].name, name, q);
    }
  }

  // ----- a rename into the place of a store file -----

  lemma NodeIsNoFile(tree: Group, d: Disk, h: Header)
    requires Laid(tree) && OnDisk(Headers(tree), tree.Head(), d) && h in Headers(tree)
    ensures h.path !in d.files
  {
    PathsAreNames(tree, h);
    NoStoreAt(tree, h);
  }

  lemma NoStoreAt(tree: Group, h: Header)
    requires Laid(tree) && h in Headers(tree)
    ensures !HasStore(Headers(tree), h.path) && h.path != IdsFile(tree.Head())
  {
    assert tree.Head().stores == [];
  }

  lemma NewPathIsDir(d: Disk, src: Str, dst: Str)
    requires src in d.dirs && src !in d.files && dst !in d.files
    ensures dst in RenameAll(d, src, dst).dirs && dst !in RenameAll(d, src, dst).files
  {
    MovedBelow(src, dst, src);
    assert MovedPath(src, src, dst) == dst + src[|src|..] == dst;
    forall p | p in d.files
      ensures MovedPath(p, src, dst) != dst
    {
      if Under(src, p) && MovedPath(p, src, dst) == dst {
        MovedApart(src, dst, p, src);
      }
    }
  }

  /** A group without a store, one of whose subgroups is renamed to the name of its store's file: the
      directory takes the file's place, and from then on the store cannot be opened. */
  lemma RenameBlocksStore(s: State, pid: Str, id: Str)
    requires Settled(s) && pid in Keys(ById, s.tree) && IsKid(s, pid, id)
    requires pid != [] && Node(ById, s.tree, pid).stores == []
    ensures var u := Do(UpdateGroup(pid, id, pid + DAT, true), s).s;
      Openable(s, pid) && !Openable(u, pid)
  {
    var n := Node(ById, s.tree, pid);
    var i := KidIndex(n.kids, id);
    SettledIsSound(s);
    KidIsHere(s.tree, pid, i);
    RootNotNamed(s, pid);
    StoreFileIsFree(s.tree, s.core.disk, n.Head());
    NodeIsNoFile(s.tree, s.core.disk, n.kids[i].Head());
    NewPathIsDir(s.core.disk, n.kids[i].path, StoreFile(n.Head()));
    KnownIds(s, pid);
    var r := UpdateIn(id, pid + DAT, true, n, s.core);
    UpdateIs(s, pid, id, pid + DAT, true, r);
    PutTwice(ById, s.tree, pid, r.g, r.g);
  }

  lemma RootNotNamed(s: State, pid: Str)
    requires Agree(s) && pid in Keys(ById, s.tree) && pid != []
    ensures Node(ById, s.tree, pid).Head() != s.tree.Head() && Node(ById, s.tree, pid).id == pid
  {
    assert Key(ById, Node(ById, s.tree, pid).Head()) == pid;
  }
}
