/** Renames to a name that another group has, and renames whose directory could not be moved: whether a
    restart brings the three copies back in agreement.  The names of the directories decide, on the disk
    and in the list, before and after the rename; then the exact condition for the rename, for every
    name, moved or not; then a bank on which an accepted rename breaks the agreement for good. */
module Clashes {
  import opened Bytes
  import opened Records
  import opened Stores
  import opened Groups
  import opened Bank
  import opened Agreement
  import opened Layout
  import opened Calls
  import opened Reload
  import opened Restart
  import opened Moves
  import opened Renamed
  import opened FromDisk
  import opened Walks
  import D = Departures

  // ----- the directories' names -----

  function NewName(f: Header, name: Str, h: Header): Str {
    if h == f then name else h.name
  }

  /** Below the root, `h` lies at `p` once the directory is moved. */
  ghost predicate LiesAt(s: State, m: Move, h: Header, p: Str) {
    h in Headers(s.tree) && h != s.tree.Head() && p == MovedPath(h.path, m.src, m.dst)
  }

  /** The rename moves a subgroup's directory to a path that was free. */
  ghost predicate Relocates(s: State, f: Header, name: Str, m: Move) {
    && Settled(s) && f in Headers(s.tree) && f != s.tree.Head() && m.src == f.path
    && FileName(m.dst) == name && Under(s.tree.path, m.dst) && m.dst != s.tree.path
    && !Under(m.src, m.dst) && !Under(m.dst, m.src)
  }

  lemma NodeMoves(s: State, f: Header, name: Str, m: Move, h: Header)
    requires Relocates(s, f, name, m) && h in Headers(s.tree) && h != s.tree.Head()
    ensures var p := MovedPath(h.path, m.src, m.dst);
      p in RenameAll(s.core.disk, m.src, m.dst).dirs && FileName(p) == NewName(f, name, h)
      && Under(s.tree.path, p) && p != s.tree.path
  {
    var p := MovedPath(h.path, m.src, m.dst);
    assert h.path in s.core.disk.dirs;
    PathIsName(s.tree, h);
    PathsDiffer(s.tree, h, f);
    NodeIsBelow(s.tree, h);
    if Under(m.src, h.path) {
      MovedNode(s.tree, f, m, h);
      MovedBelow(m.src, m.dst, h.path);
      UnderTransitive(s.tree.path, m.dst, p);
      UnderIsLonger(s.tree.path, m.dst);
      UnderIsLonger(m.dst, p);
      if p == s.tree.path {
        UnderIsPrefix(s.tree.path, m.dst);
      }
    }
  }

  lemma NodeIsBelow(tree: Group, h: Header)
    requires Laid(tree) && h in Headers(tree) && h != tree.Head()
    ensures Under(tree.path, h.path) && h.path != tree.path
  {
    PathsAreNames(tree, h);
    assert tree.Head() in Headers(tree);
    PathsDiffer(tree, h, tree.Head());
  }

  lemma MovedNode(tree: Group, f: Header, m: Move, h: Header)
    requires Laid(tree) && f in Headers(tree) && h in Headers(tree) && h != tree.Head()
    requires m.src == f.path && Under(m.src, h.path)
    ensures FileName(MovedPath(h.path, m.src, m.dst)) == if h == f then FileName(m.dst) else h.name
  {
    PathsDiffer(tree, h, f);
    if h == f {
      MovedBelow(m.src, m.dst, m.src);
      assert m.dst + m.src[|m.src|..] == m.dst;
    } else {
      var q := ParentOf(tree, h);
      PathIsName(tree, h);
      JoinSplits(q.path, h.name);
      MovedJoin(m.src, m.dst, q.path, h.name);
      JoinSplits(MovedPath(q.path, m.src, m.dst), h.name);
    }
  }

  lemma DirIsNode(s: State, f: Header, name: Str, m: Move, p: Str) returns (h: Header)
    requires Relocates(s, f, name, m) && IsDirBelow(s.tree.path, RenameAll(s.core.disk, m.src, m.dst), p)
    ensures LiesAt(s, m, h, p)
  {
    var q :| q in s.core.disk.dirs && MovedPath(q, m.src, m.dst) == p;
    NodeIsBelow(s.tree, f);
    if Under(m.src, q) {
      UnderTransitive(s.tree.path, m.src, q);
    }
    assert HasPath(Headers(s.tree), q);
    h :| h in Headers(s.tree) && h.path == q;
    if h == s.tree.Head() {
      RootStaysPut(s.tree, f, m);
    }
  }

  lemma RootStaysPut(tree: Group, f: Header, m: Move)
    requires Laid(tree) && f in Headers(tree) && f != tree.Head() && m.src == f.path
    ensures MovedPath(tree.path, m.src, m.dst) == tree.path
  {
    NodeIsBelow(tree, f);
    if Under(m.src, tree.path) {
      UnderIsPrefix(m.src, tree.path);
      UnderIsPrefix(tree.path, m.src);
    }
  }

  // ----- when they are the list's -----

  /** Some other group has the name. */
  ghost predicate Taken(s: State, id: Str, name: Str) {
    exists x :: x in s.core.index && x != id && s.core.index[x] == name
  }

  lemma NodeInIndex(s: State, h: Header)
    requires Settled(s) && h in Headers(s.tree) && h != s.tree.Head()
    ensures h.id in s.core.index && s.core.index[h.id] == h.name
  {
    assert IdOk(h.id);
  }

  lemma NodeOfId(s: State, id: Str) returns (h: Header)
    requires Settled(s) && id in s.core.index
    ensures h in Headers(s.tree) && h != s.tree.Head() && h.id == id && h.name == s.core.index[id]
  {
    h := IdOwner(s, id);
  }

  lemma NewNameOne(s: State, f: Header, name: Str, a: Header, b: Header)
    requires Settled(s) && !Taken(s, f.id, name)
    requires f in Headers(s.tree) && f != s.tree.Head()
    requires a in Headers(s.tree) && a != s.tree.Head() && b in Headers(s.tree) && b != s.tree.Head()
    requires NewName(f, name, a) == NewName(f, name, b)
    ensures a == b
  {
    NodeInIndex(s, a);
    NodeInIndex(s, b);
    if a == f && b != f {
      OtherId(s, b, f);
    } else if b == f && a != f {
      OtherId(s, a, f);
    } else if a != f {
      KeyOfOne(ByName, s.tree, a, b);
    }
  }

  lemma OtherId(s: State, a: Header, b: Header)
    requires Settled(s) && a in Headers(s.tree) && b in Headers(s.tree) && a != b
    ensures a.id != b.id
  {
    if a.id == b.id {
      KeyOfOne(ById, s.tree, a, b);
    }
  }

  lemma NewNamesApart(s: State, id: Str, name: Str)
    requires Settled(s) && id in s.core.index
    ensures NamesApart(s.core.index[id := name]) <==> !Taken(s, id, name)
  {
    NamesAreApart(s);
    var index := s.core.index[id := name];
    if x :| x in s.core.index && x != id && s.core.index[x] == name {
      assert x in index && id in index && index[x] == index[id];
    }
  }

  /** After a move to a name nobody else has, the directories have the list's new names. */
  lemma RelocatedNamed(s: State, f: Header, name: Str, m: Move)
    requires Relocates(s, f, name, m) && !Taken(s, f.id, name) && f.id in s.core.index
    ensures DirsNamed(s.tree.path, RenameAll(s.core.disk, m.src, m.dst), s.core.index[f.id := name])
  {
    var d := RenameAll(s.core.disk, m.src, m.dst);
    NewNamesApart(s, f.id, name);
    forall p, q | IsDirBelow(s.tree.path, d, p) && IsDirBelow(s.tree.path, d, q) && FileName(p) == FileName(q)
      ensures p == q
    {
      DirsAreOne(s, f, name, m, p, q);
    }
    RelocatedNames(s, f, name, m);
  }

  lemma RelocatedNames(s: State, f: Header, name: Str, m: Move)
    requires Relocates(s, f, name, m) && f.id in s.core.index
    ensures forall n :: n in s.core.index[f.id := name].Values <==>
                        IsDirName(s.tree.path, RenameAll(s.core.disk, m.src, m.dst), n)
  {
    forall n
      ensures n in s.core.index[f.id := name].Values <==>
              IsDirName(s.tree.path, RenameAll(s.core.disk, m.src, m.dst), n)
    {
      if n in s.core.index[f.id := name].Values {
        NameHasDir(s, f, name, m, n);
      }
      if IsDirName(s.tree.path, RenameAll(s.core.disk, m.src, m.dst), n) {
        DirHasName(s, f, name, m, n);
      }
    }
  }

  lemma DirsAreOne(s: State, f: Header, name: Str, m: Move, p: Str, q: Str)
    requires Relocates(s, f, name, m) && !Taken(s, f.id, name) && FileName(p) == FileName(q)
    requires IsDirBelow(s.tree.path, RenameAll(s.core.disk, m.src, m.dst), p)
    requires IsDirBelow(s.tree.path, RenameAll(s.core.disk, m.src, m.dst), q)
    ensures p == q
  {
    var a := DirIsNode(s, f, name, m, p);
    var b := DirIsNode(s, f, name, m, q);
    NodeMoves(s, f, name, m, a);
    NodeMoves(s, f, name, m, b);
    NewNameOne(s, f, name, a, b);
  }

  lemma NameHasDir(s: State, f: Header, name: Str, m: Move, n: Str)
    requires Relocates(s, f, name, m) && f.id in s.core.index && n in s.core.index[f.id := name].Values
    ensures IsDirName(s.tree.path, RenameAll(s.core.disk, m.src, m.dst), n)
  {
    var id :| id in s.core.index[f.id := name] && s.core.index[f.id := name][id] == n;
    var h := NodeOfId(s, id);
    if id == f.id {
      KeyOfOne(ById, s.tree, h, f);
    }
    NodeMoves(s, f, name, m, h);
    assert IsDirBelow(s.tree.path, RenameAll(s.core.disk, m.src, m.dst), MovedPath(h.path, m.src, m.dst));
  }

  lemma DirHasName(s: State, f: Header, name: Str, m: Move, n: Str)
    requires Relocates(s, f, name, m) && IsDirName(s.tree.path, RenameAll(s.core.disk, m.src, m.dst), n)
    ensures n in s.core.index[f.id := name].Values
  {
    var p :| IsDirBelow(s.tree.path, RenameAll(s.core.disk, m.src, m.dst), p) && FileName(p) == n;
    var h := DirIsNode(s, f, name, m, p);
    NodeMoves(s, f, name, m, h);
    NewNameListed(s, f, name, h);
  }

  lemma NewNameListed(s: State, f: Header, name: Str, h: Header)
    requires Settled(s) && f in Headers(s.tree) && h in Headers(s.tree) && h != s.tree.Head()
    ensures NewName(f, name, h) in s.core.index[f.id := name].Values
  {
    NodeInIndex(s, h);
    if h == f {
      InValues(s.core.index, f.id, name, f.id);
    } else {
      OtherId(s, h, f);
      InValues(s.core.index, f.id, name, h.id);
    }
  }

  lemma InValues(index: map<Str, Str>, id: Str, name: Str, x: Str)
    requires x in index
    ensures (if x == id then name else index[x]) in index[id := name].Values
  {
    assert index[id := name][x] in index[id := name].Values;
  }

  /** Where nothing was moved the directories have the list's old names. */
  lemma SettledNamed(s: State)
    requires Settled(s)
    ensures DirsNamed(s.tree.path, s.core.disk, s.core.index)
  {
    NamesAreApart(s);
    forall p, q | IsDirBelow(s.tree.path, s.core.disk, p) && IsDirBelow(s.tree.path, s.core.disk, q)
                  && FileName(p) == FileName(q)
      ensures p == q
    {
      var a := DirNode(s, p);
      var b := DirNode(s, q);
      KeyOfOne(ByName, s.tree, a, b);
    }
    forall n
      ensures n in s.core.index.Values <==> IsDirName(s.tree.path, s.core.disk, n)
    {
      if n in s.core.index.Values {
        var id :| id in s.core.index && s.core.index[id] == n;
        var h := NodeOfId(s, id);
        NodeIsBelow(s.tree, h);
        PathIsName(s.tree, h);
        assert IsDirBelow(s.tree.path, s.core.disk, h.path);
      }
      if p :| IsDirBelow(s.tree.path, s.core.disk, p) && FileName(p) == n {
        var h := DirNode(s, p);
        NodeInIndex(s, h);
      }
    }
  }

  lemma DirNode(s: State, p: Str) returns (h: Header)
    requires Settled(s) && IsDirBelow(s.tree.path, s.core.disk, p)
    ensures h in Headers(s.tree) && h != s.tree.Head() && h.path == p && h.name == FileName(p)
  {
    assert HasPath(Headers(s.tree), p);
    h :| h in Headers(s.tree) && h.path == p;
    PathIsName(s.tree, h);
  }

  /** So a new name in the list alone, taken or not, is no directory's. */
  lemma UnmovedNamed(s: State, id: Str, name: Str)
    requires Settled(s) && id in s.core.index && name != s.core.index[id]
    ensures !DirsNamed(s.tree.path, s.core.disk, s.core.index[id := name])
  {
    SettledNamed(s);
    NewNamesApart(s, id, name);
    if !Taken(s, id, name) {
      assert s.core.index[id := name][id] == name;
      assert name !in s.core.index.Values;
    }
  }

  // ----- the rename -----

  /** What the disk says of a rename: a directory is moved to a path that was free, and is not the list's. */
  ghost predicate Plausible(s: State, n: Group, f: Group, name: Str, moved: bool) {
    moved && name != f.name ==>
      ValidName(name) && !Exists(s.core.disk, Join(n.path, name)) && s.core.list.path != Join(n.path, name)
  }

  /** The state after it, with what is left of its parts. */
  ghost predicate Relisted(s: State, u: State, f: Header, name: Str, moved: bool, dst: Str) {
    && f in Headers(s.tree) && f != s.tree.Head() && f.id in s.core.index
    && Headers(u.tree) == Headers(s.tree) - {f} + {f.(name := name)} && u.tree.Head() == s.tree.Head()
    && ListLaid(u.core, u.tree.Head()) && Agree(u) && u.core.index == s.core.index
    && Emplaced(u.core.list.groups, map[]) == s.core.index[f.id := name]
    && u.core.disk == if moved then RenameAll(s.core.disk, f.path, dst) else s.core.disk
  }

  lemma RenamedIs(s: State, pid: Str, id: Str, name: Str, moved: bool)
    requires Settled(s) && pid in Keys(ById, s.tree) && IsKid(s, pid, id)
    ensures var n := Node(ById, s.tree, pid); var f := n.kids[KidIndex(n.kids, id)].Head();
      Relisted(s, Do(UpdateGroup(pid, id, name, moved), s).s, f, name, moved, Join(n.path, name))
  {
    var n := Node(ById, s.tree, pid);
    var i := KidIndex(n.kids, id);
    var r := UpdateIn(id, name, moved, n, s.core);
    UpdateIs(s, pid, id, name, moved, r);
    UpdateKeepsAgreement(s, pid, id, name, moved);
    KidIsHere(s.tree, pid, i);
    RenamedParts(s, pid, i, name, State(Put(ById, s.tree, pid, r.g), r.c));
  }

  lemma RenamedParts(s: State, pid: Str, i: nat, name: Str, u: State)
    requires Settled(s) && pid in Keys(ById, s.tree) && i < |Node(ById, s.tree, pid).kids|
    requires var n := Node(ById, s.tree, pid);
      u.tree == Put(ById, s.tree, pid, n.(kids := n.kids[i := n.kids[i].(name := name)]))
    requires u.core.list == WithGroupRenamed(s.core.list, Node(ById, s.tree, pid).kids[i].id, name).store
    ensures var f := Node(ById, s.tree, pid).kids[i].Head();
      && f.id in s.core.index && u.tree.Head() == s.tree.Head()
      && Headers(u.tree) == Headers(s.tree) - {f} + {f.(name := name)}
      && ListLaid(u.core, u.tree.Head())
      && Emplaced(u.core.list.groups, map[]) == s.core.index[f.id := name]
  {
    TreeRenamed(s.tree, pid, i, name, u.tree);
    RenamedInIndex(s, pid, i, name, u);
    IndexComesBack(State(u.tree, u.core.(index := s.core.index[Node(ById, s.tree, pid).kids[i].id := name])));
  }

  lemma StoresApartFromList(s: State, u: State, f: Header, name: Str)
    requires Settled(s) && f in Headers(s.tree) && Headers(u.tree) == Headers(s.tree) - {f} + {f.(name := name)}
    ensures forall st :: st in StoresOf(u.tree) ==> st.path != IdsFile(s.tree.Head())
  {
    forall st | st in StoresOf(u.tree)
      ensures st.path != IdsFile(s.tree.Head())
    {
      StoresAreHeaders(u.tree, st);
      var h :| h in Headers(u.tree) && st in h.stores;
      var x := if h == f.(name := name) then f else h;
      assert x in Headers(s.tree) && st in x.stores;
      StoreIsNotList(s.tree, x, st);
    }
  }

  lemma StoreIsNotList(tree: Group, h: Header, st: Store)
    requires Laid(tree) && h in Headers(tree) && st in h.stores
    ensures st.path != IdsFile(tree.Head())
  {
    assert h != tree.Head() && StoreOk(h) && IdOk(h.id);
    StoreFileSplits(h);
    IdsFileSplits(tree.Head());
  }

  lemma KidRelocates(s: State, pid: Str, i: nat, name: Str)
    requires Rename(s, pid, i, name)
    ensures var n := Node(ById, s.tree, pid); var f := n.kids[i];
      Relocates(s, f.Head(), name, Move(f.path, Join(n.path, name), map[]))
  {
    var n := Node(ById, s.tree, pid);
    var f := n.kids[i];
    KidIsHere(s.tree, pid, i);
    PathsAreNames(s.tree, n.Head());
    JoinSplits(n.path, f.name);
    JoinSplits(n.path, name);
    UnderTransitive(s.tree.path, n.path, Join(n.path, name));
    UnderIsLonger(s.tree.path, n.path);
    NamesApartBelow(n.path, f.name, name, f.path);
    NamesApartBelow(n.path, name, f.name, Join(n.path, name));
  }

  /** The disk after the rename: the root is there, and the list can be written. */
  lemma DiskAfter(s: State, pid: Str, i: nat, name: Str, moved: bool, d: Disk)
    requires Settled(s) && pid in Keys(ById, s.tree) && i < |Node(ById, s.tree, pid).kids|
    requires Plausible(s, Node(ById, s.tree, pid), Node(ById, s.tree, pid).kids[i], name, moved)
    requires var n := Node(ById, s.tree, pid);
      d == if moved then RenameAll(s.core.disk, n.kids[i].path, Join(n.path, name)) else s.core.disk
    ensures s.tree.path in d.dirs && CanWrite(d, IdsFile(s.tree.Head()))
    ensures name == Node(ById, s.tree, pid).kids[i].name || !moved ==> d == s.core.disk
  {
    var n := Node(ById, s.tree, pid);
    var f := n.kids[i];
    KidIsHere(s.tree, pid, i);
    IdsFileIsFree(s.tree, s.core.disk);
    RootOnDisk(s);
    if name == f.name {
      RenamedToItself(s.core.disk, f.path);
    } else if moved {
      StrandedList(s, pid, i, name);
      RootStaysPut(s.tree, f.Head(), Move(f.path, Join(n.path, name), map[]));
      assert s.tree.path in set p | p in s.core.disk.dirs :: MovedPath(p, f.path, Join(n.path, name));
    }
  }

  lemma RootOnDisk(s: State)
    requires Settled(s)
    ensures s.tree.path in s.core.disk.dirs
  {
    assert s.tree.Head() in Headers(s.tree);
  }

  lemma RenameNamedIff(s: State, pid: Str, i: nat, name: Str, moved: bool, d: Disk)
    requires Settled(s) && pid in Keys(ById, s.tree) && i < |Node(ById, s.tree, pid).kids|
    requires Plausible(s, Node(ById, s.tree, pid), Node(ById, s.tree, pid).kids[i], name, moved)
    requires var n := Node(ById, s.tree, pid);
      d == if moved then RenameAll(s.core.disk, n.kids[i].path, Join(n.path, name)) else s.core.disk
    ensures var f := Node(ById, s.tree, pid).kids[i];
      && f.id in s.core.index
      && (DirsNamed(s.tree.path, d, s.core.index[f.id := name]) <==>
            name == f.name || (moved && !Taken(s, f.id, name)))
  {
    var n := Node(ById, s.tree, pid);
    var f := n.kids[i];
    KidIsHere(s.tree, pid, i);
    NodeInIndex(s, f.Head());
    DiskAfter(s, pid, i, name, moved, d);
    if name == f.name {
      SettledNamed(s);
      SameIndex(s.core.index, f.id, name);
    } else if !moved {
      UnmovedNamed(s, f.id, name);
    } else {
      KidRelocates(s, pid, i, name);
      RelocatedNamedIff(s, f.Head(), name, Move(f.path, Join(n.path, name), map[]));
    }
  }

  lemma RelocatedNamedIff(s: State, f: Header, name: Str, m: Move)
    requires Relocates(s, f, name, m) && f.id in s.core.index
    ensures DirsNamed(s.tree.path, RenameAll(s.core.disk, m.src, m.dst), s.core.index[f.id := name]) <==>
            !Taken(s, f.id, name)
  {
    NewNamesApart(s, f.id, name);
    if !Taken(s, f.id, name) {
      RelocatedNamed(s, f, name, m);
    }
  }

  lemma SameIndex(index: map<Str, Str>, id: Str, name: Str)
    requires id in index && index[id] == name
    ensures index[id := name] == index
  {
  }

  /** Rename, save, restart, for every name, and whether or not the directory was moved: when the restart
      comes up, tree, index and list agree if and only if the name did not change, or the directory was
      moved and no other group has the name. */
  lemma RenameAgreesIff(s: State, pid: Str, id: Str, name: Str, moved: bool, walk: seq<Entry>, order: seq<Str>)
    requires Settled(s) && pid in Keys(ById, s.tree) && IsKid(s, pid, id)
    requires var n := Node(ById, s.tree, pid); Plausible(s, n, n.kids[KidIndex(n.kids, id)], name, moved)
    requires var u := Do(UpdateGroup(pid, id, name, moved), s).s;
      Fits(u.core.list.groups) && IsWalk(s.tree.path, Saved(u), walk) && Lists(order, s.core.index)
    ensures var f := Node(ById, s.tree, pid).kids[KidIndex(Node(ById, s.tree, pid).kids, id)];
      var r := Init(s.tree.path, Saved(Do(UpdateGroup(pid, id, name, moved), s).s), walk, order);
      r.ok ==> (Agree(r.s) <==> name == f.name || (moved && !Taken(s, id, name)))
  {
    RenamedIs(s, pid, id, name, moved);
    AgreesAfter(s, pid, KidIndex(Node(ById, s.tree, pid).kids, id), name, moved,
                Do(UpdateGroup(pid, id, name, moved), s).s, walk, order);
  }

  lemma AgreesAfter(s: State, pid: Str, i: nat, name: Str, moved: bool, u: State, walk: seq<Entry>, order: seq<Str>)
    requires Settled(s) && pid in Keys(ById, s.tree) && i < |Node(ById, s.tree, pid).kids|
    requires Plausible(s, Node(ById, s.tree, pid), Node(ById, s.tree, pid).kids[i], name, moved)
    requires var n := Node(ById, s.tree, pid); Relisted(s, u, n.kids[i].Head(), name, moved, Join(n.path, name))
    requires Fits(u.core.list.groups) && IsWalk(s.tree.path, Saved(u), walk) && Lists(order, s.core.index)
    ensures var f := Node(ById, s.tree, pid).kids[i]; var r := Init(s.tree.path, Saved(u), walk, order);
      && ListSaves(u)
      && (r.ok ==> (Agree(r.s) <==> name == f.name || (moved && !Taken(s, f.id, name))))
      && (r.ok ==> (Unique(ByName, r.s.tree) <==> NoneTwice([FileName(s.tree.path)] + DirNames(walk))))
  {
    var f := Node(ById, s.tree, pid).kids[i];
    DiskAfter(s, pid, i, name, moved, u.core.disk);
    StoresApartFromList(s, u, f.Head(), name);
    RenameNamedIff(s, pid, i, name, moved, u.core.disk);
    RestartAgreesIff(u, walk, order);
  }

  lemma SameNameSettles(s: State, pid: Str, id: Str, walk: seq<Entry>, order: seq<Str>, u: State)
    requires Settled(s) && pid in Keys(ById, s.tree) && IsKid(s, pid, id) && AllFit(s) && Lists(order, s.core.index)
    requires var n := Node(ById, s.tree, pid);
      u == Do(UpdateGroup(pid, id, n.kids[KidIndex(n.kids, id)].name, true), s).s
    requires IsWalk(s.tree.path, Saved(u), walk)
    ensures var r := Init(s.tree.path, Saved(u), walk, order); r.ok ==> Settled(r.s)
  {
    var n := Node(ById, s.tree, pid);
    var f := n.kids[KidIndex(n.kids, id)];
    KidIsHere(s.tree, pid, KidIndex(n.kids, id));
    NodeInIndex(s, f.Head());
    UpdateOfNothing(s, pid, id, f.name, true);
    RestartKeepsTheBank(s, walk, order);
  }

  /** A group that now has the root's name: the names are no longer unique. */
  lemma RootNameTwice(s: State, pid: Str, i: nat, u: State, walk: seq<Entry>)
    requires Rename(s, pid, i, s.tree.name)
    requires var n := Node(ById, s.tree, pid);
      u.core.disk == RenameAll(s.core.disk, n.kids[i].path, Join(n.path, s.tree.name))
    requires Saved(u).dirs == u.core.disk.dirs && IsWalk(s.tree.path, Saved(u), walk)
    ensures !NoneTwice([FileName(s.tree.path)] + DirNames(walk))
  {
    var n := Node(ById, s.tree, pid);
    var f, dst := n.kids[i], Join(n.path, s.tree.name);
    KidIsHere(s.tree, pid, i);
    KidRelocates(s, pid, i, s.tree.name);
    NodeMoves(s, f.Head(), s.tree.name, Move(f.path, dst, map[]), f.Head());
    var p := MovedPath(f.path, f.path, dst);
    ListedName(walk, Entry(p, false));
    TwiceWith(FileName(s.tree.path), DirNames(walk));
  }

  lemma TwiceWith(x: Str, xs: seq<Str>)
    requires x in xs
    ensures !NoneTwice([x] + xs)
  {
    var i :| 0 <= i < |xs| && xs[i] == x;
    assert ([x] + xs)[0] == ([x] + xs)[i + 1];
  }

  lemma NameIsTaken(s: State, f: Header, name: Str)
    requires Settled(s) && f in Headers(s.tree) && f != s.tree.Head() && name in Keys(ByName, s.tree)
    requires name != f.name && name != s.tree.name
    ensures Taken(s, f.id, name)
  {
    var h :| h in Headers(s.tree) && Key(ByName, h) == name;
    NodeInIndex(s, h);
    OtherId(s, h, f);
  }

  /** The questions to come back fit, and those that were to come back anyway. */
  ghost predicate BothFit(s: State, f: Group, last: Last) {
    AllFit(s) && AllFitBack(f, last, Headers(s.tree))
  }

  /** The same for a settled bank: with a name that fits, the directory moved, it is settled after the
      restart if and only if the name did not change or is new, also among the names that the root has. */
  lemma RenameSettlesIff(s: State, pid: Str, id: Str, name: Str, last: Last, walk: seq<Entry>, order: seq<Str>)
    requires Settled(s) && pid in Keys(ById, s.tree) && IsKid(s, pid, id)
    requires ValidName(name) && NameFits(pid, name)
    requires var n := Node(ById, s.tree, pid); var f := n.kids[KidIndex(n.kids, id)];
      && (name == f.name || !Exists(s.core.disk, Join(n.path, name)))
      && BothFit(s, f, last)
      && forall h :: h in Headers(f) ==> FileIsLast(s.core.disk, StoreFile(h), LastOf(last, h.id))
    requires var u := Do(UpdateGroup(pid, id, name, true), s).s;
      Fits(u.core.list.groups) && IsWalk(s.tree.path, Saved(u), walk) && Lists(order, s.core.index)
    ensures var n := Node(ById, s.tree, pid); var f := n.kids[KidIndex(n.kids, id)];
      var r := Init(s.tree.path, Saved(Do(UpdateGroup(pid, id, name, true), s).s), walk, order);
      r.ok ==> (Settled(r.s) <==> name == f.name || name !in Keys(ByName, s.tree))
  {
    var n := Node(ById, s.tree, pid);
    var u := Do(UpdateGroup(pid, id, name, true), s).s;
    if name == n.kids[KidIndex(n.kids, id)].name {
      SameNameSettles(s, pid, id, walk, order, u);
    } else if name in Keys(ByName, s.tree) {
      OldNameFails(s, pid, id, name, walk, order, u);
    } else {
      NewNameSettles(s, pid, id, name, last, walk, order, u);
    }
  }

  lemma NewNameSettles(s: State, pid: Str, id: Str, name: Str, last: Last, walk: seq<Entry>, order: seq<Str>, u: State)
    requires Settled(s) && pid in Keys(ById, s.tree) && IsKid(s, pid, id)
    requires u == Do(UpdateGroup(pid, id, name, true), s).s
    requires ValidName(name) && NameFits(pid, name) && name !in Keys(ByName, s.tree)
    requires var n := Node(ById, s.tree, pid); var f := n.kids[KidIndex(n.kids, id)];
      && BothFit(s, f, last)
      && forall h :: h in Headers(f) ==> FileIsLast(s.core.disk, StoreFile(h), LastOf(last, h.id))
    requires Fits(u.core.list.groups) && IsWalk(s.tree.path, Saved(u), walk) && Lists(order, s.core.index)
    ensures var r := Init(s.tree.path, Saved(u), walk, order); r.ok ==> Settled(r.s)
  {
    RenamedIs(s, pid, id, name, true);
    RenameComesBack(s, pid, id, name, last, walk, order);
  }

  lemma OldNameFails(s: State, pid: Str, id: Str, name: Str, walk: seq<Entry>, order: seq<Str>, u: State)
    requires Settled(s) && pid in Keys(ById, s.tree) && IsKid(s, pid, id)
    requires u == Do(UpdateGroup(pid, id, name, true), s).s
    requires ValidName(name) && NameFits(pid, name) && name in Keys(ByName, s.tree)
    requires var n := Node(ById, s.tree, pid);
      name != n.kids[KidIndex(n.kids, id)].name && !Exists(s.core.disk, Join(n.path, name))
    requires Fits(u.core.list.groups) && IsWalk(s.tree.path, Saved(u), walk) && Lists(order, s.core.index)
    ensures var r := Init(s.tree.path, Saved(u), walk, order); r.ok ==> !Settled(r.s)
  {
    var n := Node(ById, s.tree, pid);
    var i := KidIndex(n.kids, id);
    KidIsHere(s.tree, pid, i);
    NewPathIsNoFile(s.tree, n.Head(), name);
    RenamedIs(s, pid, id, name, true);
    AgreesAfter(s, pid, i, name, true, u, walk, order);
    if name == s.tree.name {
      ListIsBack(u);
      RootNameTwice(s, pid, i, u, walk);
    } else {
      NameIsTaken(s, n.kids[i].Head(), name);
    }
  }

  // ----- a bank on which it happens -----

  ghost predicate NoStores(tree: Group) {
    forall h :: h in Headers(tree) ==> h.stores == []
  }

  lemma NothingToClose(u: State)
    requires NoStores(u.tree)
    ensures Saved(u) == Closed(u.core.list, u.core.disk)
  {
    SaveIsCloseAll(u.tree, Closed(u.core.list, u.core.disk));
    if StoresOf(u.tree) != [] {
      StoresAreHeaders(u.tree, StoresOf(u.tree)[0]);
    }
  }

  lemma ListNotBelow(tree: Group, f: Header)
    requires Laid(tree) && f in Headers(tree) && f != tree.Head()
    ensures !Under(f.path, IdsFile(tree.Head()))
  {
    IdsFileSplits(tree.Head());
    NodeIsBelow(tree, f);
    if Under(f.path, tree.path) {
      UnderIsPrefix(f.path, tree.path);
      UnderIsPrefix(tree.path, f.path);
    }
  }

  /** Without a store there is no file below the root but the list's. */
  lemma OnlyTheList(s: State, q: Str)
    requires Settled(s) && NoStores(s.tree) && q in s.core.disk.files && Under(s.tree.path, q)
    ensures q == IdsFile(s.tree.Head())
  {
  }

  lemma NothingMoved(s: State, f: Header, m: Move, q: Str)
    requires Settled(s) && NoStores(s.tree) && f in Headers(s.tree) && f != s.tree.Head() && m.src == f.path
    requires q in s.core.disk.files
    ensures !Under(m.src, q)
  {
    ListNotBelow(s.tree, f);
    if Under(m.src, q) {
      NodeIsBelow(s.tree, f);
      UnderTransitive(s.tree.path, m.src, q);
      OnlyTheList(s, q);
    }
  }

  lemma ListsOnly(s: State, f: Header, m: Move, u: State, walk: seq<Entry>)
    requires Settled(s) && NoStores(s.tree) && NoStores(u.tree) && u.tree.path == s.tree.path
    requires f in Headers(s.tree) && f != s.tree.Head() && m.src == f.path
    requires u.core.list.path == IdsFile(s.tree.Head()) && u.core.disk == RenameAll(s.core.disk, m.src, m.dst)
    requires IsWalk(s.tree.path, Saved(u), walk)
    ensures OnlyLists(walk) && ParentsFirst(s.tree.path, walk)
  {
    NothingToClose(u);
    IdsFileSplits(s.tree.Head());
    forall i | 0 <= i < |walk| && walk[i].isFile
      ensures FileName(walk[i].path) == IDS_DAT
    {
      FileIsList(s, f, m, u, walk[i].path);
    }
  }

  lemma FileIsList(s: State, f: Header, m: Move, u: State, p: Str)
    requires Settled(s) && NoStores(s.tree) && u.core.list.path == IdsFile(s.tree.Head())
    requires f in Headers(s.tree) && f != s.tree.Head() && m.src == f.path
    requires u.core.disk == RenameAll(s.core.disk, m.src, m.dst)
    requires p in Closed(u.core.list, u.core.disk).files && Under(s.tree.path, p)
    ensures p == IdsFile(s.tree.Head())
  {
    if p != IdsFile(s.tree.Head()) {
      var q :| q in s.core.disk.files && MovedPath(q, m.src, m.dst) == p;
      NothingMoved(s, f, m, q);
      OnlyTheList(s, q);
    }
  }

  /** A bank without stores, one of whose subgroups is renamed to the name of another group: accepted, and
      with a list in UTF-8 the restart comes up, but its copies do not agree. */
  lemma TakenNameFails(s: State, pid: Str, id: Str, name: Str, walk: seq<Entry>, order: seq<Str>)
    requires Settled(s) && NoStores(s.tree) && pid in Keys(ById, s.tree) && IsKid(s, pid, id)
    requires ValidName(name) && NameFits(pid, name) && Taken(s, id, name)
    requires !Exists(s.core.disk, Join(Node(ById, s.tree, pid).path, name))
    requires var o := Do(UpdateGroup(pid, id, name, true), s);
      Fits(o.s.core.list.groups) && Readable(o.s.core.list.groups) && Lists(order, s.core.index)
      && IsWalk(s.tree.path, Saved(o.s), walk)
    ensures var o := Do(UpdateGroup(pid, id, name, true), s); var r := Init(s.tree.path, Saved(o.s), walk, order);
      r.ok && !Agree(r.s)
  {
    var n := Node(ById, s.tree, pid);
    var i := KidIndex(n.kids, id);
    KidIsHere(s.tree, pid, i);
    NewPathIsNoFile(s.tree, n.Head(), name);
    OwnNameIsFree(s, n.kids[i].Head(), name);
    RenamedIs(s, pid, id, name, true);
    TakenLoads(s, pid, i, name, Do(UpdateGroup(pid, id, name, true), s).s, walk, order);
  }

  lemma OwnNameIsFree(s: State, f: Header, name: Str)
    requires Settled(s) && f in Headers(s.tree) && f != s.tree.Head() && Taken(s, f.id, name)
    ensures name != f.name
  {
    var x :| x in s.core.index && x != f.id && s.core.index[x] == name;
    var h := NodeOfId(s, x);
    NodeInIndex(s, f);
    if f.name == name {
      KeyOfOne(ByName, s.tree, h, f);
    }
  }

  lemma TakenLoads(s: State, pid: Str, i: nat, name: Str, u: State, walk: seq<Entry>, order: seq<Str>)
    requires Settled(s) && NoStores(s.tree) && pid in Keys(ById, s.tree) && i < |Node(ById, s.tree, pid).kids|
    requires var n := Node(ById, s.tree, pid);
      && Plausible(s, n, n.kids[i], name, true) && Taken(s, n.kids[i].id, name) && name != n.kids[i].name
      && Relisted(s, u, n.kids[i].Head(), name, true, Join(n.path, name))
    requires Fits(u.core.list.groups) && Readable(u.core.list.groups) && Lists(order, s.core.index)
    requires IsWalk(s.tree.path, Saved(u), walk)
    ensures var r := Init(s.tree.path, Saved(u), walk, order); r.ok && !Agree(r.s)
  {
    var n := Node(ById, s.tree, pid);
    AgreesAfter(s, pid, i, name, true, u, walk, order);
    StillNoStores(s.tree, u.tree, n.kids[i].Head(), name);
    ListsOnly(s, n.kids[i].Head(), Move(n.kids[i].path, Join(n.path, name), map[]), u, walk);
    LoadsLists(u, walk, order);
  }

  lemma StillNoStores(tree: Group, tree': Group, f: Header, name: Str)
    requires NoStores(tree) && f in Headers(tree) && Headers(tree') == Headers(tree) - {f} + {f.(name := name)}
    ensures NoStores(tree')
  {
  }

  lemma LoadsLists(u: State, walk: seq<Entry>, order: seq<Str>)
    requires ListSaves(u) && Readable(u.core.list.groups) && OnlyLists(walk) && ParentsFirst(u.tree.path, walk)
    ensures Init(u.tree.path, Saved(u), walk, order).ok
  {
    RestartWalks(u, walk, order);
    DirsLoad(walk, u.tree.path, Core(Emplaced(u.core.list.groups, map[]), u.core.list, Saved(u)), order);
  }

  lemma OwnNameBelow(s: State, n: Header)
    requires Settled(s) && NoStores(s.tree) && n in Headers(s.tree) && n != s.tree.Head() && n.name != n.id + DAT
    ensures !Exists(s.core.disk, Join(n.path, n.name))
  {
    var p := Join(n.path, n.name);
    PathIsName(s.tree, n);
    JoinSplits(n.path, n.name);
    NodeIsBelow(s.tree, n);
    UnderTransitive(s.tree.path, n.path, p);
    if p in s.core.disk.files {
      OnlyTheList(s, p);
      NewPathIsNoFile(s.tree, n, n.name);
    }
    NotOneself(s, n, p);
  }

  lemma NotOneself(s: State, n: Header, p: Str)
    requires Settled(s) && n in Headers(s.tree) && Under(s.tree.path, p)
    requires p == Join(n.path, n.name) && FileName(p) == n.name
    ensures p !in s.core.disk.dirs
  {
    if p in s.core.disk.dirs {
      assert HasPath(Headers(s.tree), p);
      var h :| h in Headers(s.tree) && h.path == p;
      PathIsName(s.tree, h);
      KeyOfOne(ByName, s.tree, h, n);
    }
  }

  lemma SmallBank(s: State, f: Group, a: Group)
    requires s.tree.kids == [f] && f.kids == [a] && a.kids == []
    requires s.tree.stores == [] && f.stores == [] && a.stores == []
    ensures NoStores(s.tree)
  {
    LeafHeaders(a);
    assert HeadersOf([a]) == Headers(a) && HeadersOf([f]) == Headers(f);
  }

  /** Two calls from the first start: a group "g" with a subgroup in it; the subgroup is renamed to the
      group's name, its directory moved.  Whatever walk and order, with a list in UTF-8 the next start
      comes up, and its copies do not agree. */
  lemma TakenNameHere(path: Str, g: D.Named, a: D.Named, walk: seq<Entry>, order: seq<Str>)
    requires FileName(path) != [] && D.OneUsable(path, g) && g.0 != IDS_DAT && D.UsableBelow(path, g, a)
    requires g.0 != g.1 + DAT
    requires var s := D.OneSubgroup(path, g, a); var u := Do(UpdateGroup(g.1, a.1, g.0, true), s).s;
      && Fits(u.core.list.groups) && Readable(u.core.list.groups) && Lists(order, s.core.index)
      && IsWalk(s.tree.path, Saved(u), walk)
    ensures var s := D.OneSubgroup(path, g, a); var u := Do(UpdateGroup(g.1, a.1, g.0, true), s).s;
      var r := Init(s.tree.path, Saved(u), walk, order);
      Settled(s) && r.ok && !Agree(r.s)
  {
    D.FirstSubgroup(path, g, a);
    TakenInSmall(D.OneSubgroup(path, g, a), g.1, a.1, g.0, walk, order);
  }

  lemma TakenInSmall(s: State, pid: Str, id: Str, name: Str, walk: seq<Entry>, order: seq<Str>)
    requires Settled(s) && |s.tree.kids| == 1 && s.tree.kids[0].id == pid && s.tree.kids[0].stores == []
    requires |s.tree.kids[0].kids| == 1 && D.IsLeaf(s.tree.kids[0].kids[0], id)
    requires pid != id && pid in s.core.index && id in s.core.index && s.core.index[pid] == name && name != pid + DAT
    requires var o := Do(UpdateGroup(pid, id, name, true), s);
      Fits(o.s.core.list.groups) && Readable(o.s.core.list.groups) && Lists(order, s.core.index)
      && IsWalk(s.tree.path, Saved(o.s), walk)
    ensures var o := Do(UpdateGroup(pid, id, name, true), s); var r := Init(s.tree.path, Saved(o.s), walk, order);
      r.ok && !Agree(r.s)
  {
    SmallParts(s, pid, id, name);
    TakenNameFails(s, pid, id, name, walk, order);
  }

  lemma SmallParts(s: State, pid: Str, id: Str, name: Str)
    requires Settled(s) && |s.tree.kids| == 1 && s.tree.kids[0].id == pid && s.tree.kids[0].stores == []
    requires |s.tree.kids[0].kids| == 1 && D.IsLeaf(s.tree.kids[0].kids[0], id)
    requires pid != id && pid in s.core.index && s.core.index[pid] == name && name != pid + DAT
    ensures NoStores(s.tree) && pid in Keys(ById, s.tree) && IsKid(s, pid, id)
    ensures ValidName(name) && NameFits(pid, name) && Taken(s, id, name)
    ensures !Exists(s.core.disk, Join(Node(ById, s.tree, pid).path, name))
  {
    var f := s.tree.kids[0];
    SmallBank(s, f, f.kids[0]);
    D.OnlyKidHere(s.tree, id);
    var h := NodeOfId(s, pid);
    NodeIsHere(s.tree, pid);
    KeyOfOne(ById, s.tree, h, f.Head());
    PathIsName(s.tree, h);
    OwnNameBelow(s, h);
  }
}
