/** Where groups and stores lie on the disk, and what the calls keep of that. */
module Layout {
  import opened Bytes
  import opened Records
  import opened Stores
  import opened Groups
  import opened Bank
  import opened Agreement

  // ----- names and paths of a tree -----

  /** Every path is the parent's path, a backslash and the name. */
  predicate Placed(g: Group)
    decreases g, 1
  {
    PlacedIn(g.path, g.kids)
  }

  predicate PlacedIn(path: Str, gs: seq<Group>)
    decreases gs, 0
  {
    gs == [] ||
    (ValidName(gs[0].name) && gs[0].path == Join(path, gs[0].name) && Placed(gs[0]) && PlacedIn(path, gs[1..]))
  }

  lemma {:induction false} PlacedAt(path: Str, gs: seq<Group>, i: nat)
    requires PlacedIn(path, gs) && i < |gs|
    ensures ValidName(gs[i].name) && gs[i].path == Join(path, gs[i].name) && Placed(gs[i])
    ensures PlacedIn(path, gs[..i] + gs[i + 1..])
  {
    if i > 0 {
      PlacedAt(path, gs[1..], i - 1);
      assert (gs[..i] + gs[i + 1..])[1..] == gs[1..][..i - 1] + gs[1..][i..];
    } else {
      assert gs[..0] + gs[1..] == gs[1..];
    }
  }

  lemma {:induction false} PlacedAppend(path: Str, gs: seq<Group>, leaf: Group)
    requires PlacedIn(path, gs) && ValidName(leaf.name) && leaf.path == Join(path, leaf.name) && Placed(leaf)
    ensures PlacedIn(path, gs + [leaf])
  {
    if gs == [] {
      assert (gs + [leaf])[1..] == [];
    } else {
      assert (gs + [leaf])[1..] == gs[1..] + [leaf];
      PlacedAppend(path, gs[1..], leaf);
    }
  }

  /** A node may change as long as it stays where it is. */
  lemma {:induction false} PutPlaced(k: Kind, g: Group, key: Str, n: Group)
    requires Placed(g) && key in Keys(k, g) && Placed(n)
    requires n.path == Node(k, g, key).path && n.name == Node(k, g, key).name
    ensures Placed(Put(k, g, key, n))
    ensures Put(k, g, key, n).path == g.path && Put(k, g, key, n).name == g.name
    decreases g, 1
  {
    if Key(k, g.Head()) != key {
      PutPlacedIn(k, g.path, g.kids, key, n);
    }
  }

  lemma {:induction false} PutPlacedIn(k: Kind, path: Str, gs: seq<Group>, key: Str, n: Group)
    requires PlacedIn(path, gs) && key in KeysOf(k, gs) && Placed(n)
    requires n.path == NodeIn(k, gs, key).path && n.name == NodeIn(k, gs, key).name
    ensures PlacedIn(path, PutIn(k, gs, key, n))
    decreases gs, 0
  {
    if key in Keys(k, gs[0]) {
      PutPlaced(k, gs[0], key, n);
      assert PutIn(k, gs, key, n)[1..] == gs[1..];
    } else {
      PutPlacedIn(k, path, gs[1..], key, n);
      assert PutIn(k, gs, key, n)[1..] == PutIn(k, gs[1..], key, n);
    }
  }

  lemma {:induction false} NodePlaced(k: Kind, g: Group, key: Str)
    requires Placed(g) && key in Keys(k, g)
    ensures Placed(Node(k, g, key))
    decreases g, 1
  {
    if Key(k, g.Head()) != key {
      NodePlacedIn(k, g.path, g.kids, key);
    }
  }

  lemma {:induction false} NodePlacedIn(k: Kind, path: Str, gs: seq<Group>, key: Str)
    requires PlacedIn(path, gs) && key in KeysOf(k, gs)
    ensures Placed(NodeIn(k, gs, key))
    decreases gs, 0
  {
    if key in Keys(k, gs[0]) {
      NodePlaced(k, gs[0], key);
    } else {
      NodePlacedIn(k, path, gs[1..], key);
    }
  }

  /** What a node's path says: it ends with the node's name and lies under the tree's path. */
  predicate HeadPlaced(root: Header, h: Header) {
    && Under(root.path, h.path)
    && (h == root ||
        (ValidName(h.name) && FileName(h.path) == h.name
         && SepEnd(h.path) > 0 && Under(root.path, ParentPath(h.path))))
  }

  lemma {:induction false} PathsAreNames(g: Group, h: Header)
    requires Placed(g) && h in Headers(g)
    ensures HeadPlaced(g.Head(), h)
    decreases g, 1
  {
    if h != g.Head() {
      PathsAreNamesIn(g.path, g.kids, h);
    }
  }

  lemma {:induction false} PathsAreNamesIn(path: Str, gs: seq<Group>, h: Header)
    requires PlacedIn(path, gs) && h in HeadersOf(gs)
    ensures Under(path, h.path)
    ensures ValidName(h.name) && FileName(h.path) == h.name && SepEnd(h.path) > 0 && Under(path, ParentPath(h.path))
    decreases gs, 0
  {
    if h in Headers(gs[0]) {
      var kid := gs[0];
      JoinSplits(path, kid.name);
      assert Under(path, kid.path);
      PathsAreNames(kid, h);
      UnderTransitive(path, kid.path, h.path);
      if h != kid.Head() {
        UnderTransitive(path, kid.path, ParentPath(h.path));
      }
    } else {
      PathsAreNamesIn(path, gs[1..], h);
    }
  }

  /** Every node but the root lies directly in the directory of another node. */
  lemma {:induction false} ParentOf(g: Group, h: Header) returns (p: Header)
    requires Placed(g) && h in Headers(g) && h != g.Head()
    ensures p in Headers(g) && h.path == Join(p.path, h.name)
    decreases g, 1
  {
    p := ParentIn(g.path, g.kids, h, g.Head());
  }

  lemma {:induction false} ParentIn(path: Str, gs: seq<Group>, h: Header, root: Header) returns (p: Header)
    requires PlacedIn(path, gs) && h in HeadersOf(gs) && root.path == path
    ensures (p in HeadersOf(gs) || p == root) && h.path == Join(p.path, h.name)
    decreases gs, 0
  {
    if h in Headers(gs[0]) {
      if h == gs[0].Head() {
        p := root;
      } else {
        p := ParentOf(gs[0], h);
      }
    } else {
      p := ParentIn(path, gs[1..], h, root);
    }
  }

  /** A path that no node has, and that the root is not under, has no node under it. */
  lemma {:induction false} NothingUnder(g: Group, p: Str, h: Header)
    requires Placed(g) && h in Headers(g) && !Under(p, g.path)
    requires forall x :: x in Headers(g) ==> x.path != p
    ensures !Under(p, h.path)
    decreases g, 1
  {
    if h != g.Head() {
      NothingUnderIn(g.path, g.kids, p, h);
    }
  }

  lemma {:induction false} NothingUnderIn(path: Str, gs: seq<Group>, p: Str, h: Header)
    requires PlacedIn(path, gs) && h in HeadersOf(gs) && !Under(p, path)
    requires forall x :: x in HeadersOf(gs) ==> x.path != p
    ensures !Under(p, h.path)
    decreases gs, 0
  {
    if h in Headers(gs[0]) {
      JoinSplits(path, gs[0].name);
      assert gs[0].Head() in HeadersOf(gs);
      NothingUnder(gs[0], p, h);
    } else {
      NothingUnderIn(path, gs[1..], p, h);
    }
  }

  // ----- the layout of a bank -----

  predicate IdOk(id: Str) {
    NoSep(id) && id != [] && id != IDS
  }

  /** At most one store, at the group's own file, with distinct questions. */
  ghost predicate StoreOk(h: Header) {
    && |h.stores| <= 1
    && (h.stores != [] ==>
          h.stores[0].path == StoreFile(h) && h.stores[0].groups == [] && Distinct(h.stores[0].questions))
  }

  /** No directory lies where the id list or another group's store belongs. */
  ghost predicate FilesFree(hs: set<Header>, root: Header) {
    && (forall x :: x in hs ==> x.path != IdsFile(root))
    && (forall x, h :: x in hs && h in hs && h != root ==> x.path != StoreFile(h))
  }

  ghost predicate Laid(tree: Group) {
    && Placed(tree) && FileName(tree.path) == tree.name && tree.name != [] && tree.stores == []
    && Unique(ById, tree) && Unique(ByName, tree)
    && (forall h :: h in Headers(tree) && h != tree.Head() ==> IdOk(h.id) && StoreOk(h))
    && FilesFree(Headers(tree), tree.Head())
  }

  ghost predicate HasPath(hs: set<Header>, p: Str) {
    exists h :: h in hs && h.path == p
  }

  ghost predicate HasStore(hs: set<Header>, p: Str) {
    exists h :: h in hs && h.stores != [] && StoreFile(h) == p
  }

  function IdsFile(root: Header): Str {
    Join(root.path, IDS_DAT)
  }

  /** The directories at and under the root's are the groups', and every file there is a live
      store's or the id list's.  The rest of the disk may hold anything. */
  ghost predicate OnDisk(hs: set<Header>, root: Header, d: Disk) {
    && (forall h :: h in hs ==> h.path in d.dirs)
    && (forall p :: p in d.dirs && Under(root.path, p) ==> HasPath(hs, p))
    && (forall p :: p in d.files && Under(root.path, p) ==> p == IdsFile(root) || HasStore(hs, p))
  }

  ghost predicate ListLaid(c: Core, root: Header) {
    c.list.path == IdsFile(root) && c.list.questions == []
  }

  /** Everything about a bank that has never been renamed: the three copies agree, names included,
      and the disk is laid out like the tree. */
  ghost predicate Settled(s: State) {
    && Agree(s) && NamesAgree(s)
    && Laid(s.tree)
    && OnDisk(Headers(s.tree), s.tree.Head(), s.core.disk)
    && ListLaid(s.core, s.tree.Head())
  }

  // ----- consequences -----

  lemma PathIsName(tree: Group, h: Header)
    requires Laid(tree) && h in Headers(tree)
    ensures FileName(h.path) == h.name
    ensures h == tree.Head() || ValidName(h.name)
  {
    PathsAreNames(tree, h);
  }

  /** No two groups share a path, and no two live stores share a file. */
  lemma PathsDiffer(tree: Group, a: Header, b: Header)
    requires Laid(tree) && a in Headers(tree) && b in Headers(tree)
    ensures a.path == b.path ==> a == b
    ensures a != tree.Head() && b != tree.Head() && StoreFile(a) == StoreFile(b) ==> a == b
  {
    PathIsName(tree, a);
    PathIsName(tree, b);
    if a.path == b.path {
      KeyOfOne(ByName, tree, a, b);
    }
    if a != tree.Head() && b != tree.Head() && StoreFile(a) == StoreFile(b) {
      StoreFileSplits(a);
      StoreFileSplits(b);
      KeyOfOne(ByName, tree, a, b);
    }
  }

  lemma StoreFileSplits(h: Header)
    requires NoSep(h.id)
    ensures FileName(StoreFile(h)) == h.id + DAT && ParentPath(StoreFile(h)) == h.path && SepEnd(StoreFile(h)) > 0
    ensures Under(h.path, StoreFile(h))
    ensures h.id != IDS ==> FileName(StoreFile(h)) != IDS_DAT
  {
    assert NoSep(h.id + DAT);
    JoinSplits(h.path, h.id + DAT);
    if h.id + DAT == IDS_DAT {
      assert h.id == (h.id + DAT)[..|h.id|] && |h.id| == |IDS|;
    }
  }

  lemma IdsFileSplits(root: Header)
    ensures FileName(IdsFile(root)) == IDS_DAT && ParentPath(IdsFile(root)) == root.path && SepEnd(IdsFile(root)) > 0
    ensures Under(root.path, IdsFile(root))
  {
    assert NoSep(IDS_DAT);
    JoinSplits(root.path, IDS_DAT);
  }

  /** The name of a new subgroup of `pid` is not the name of a file that belongs there. */
  predicate NameFits(pid: Str, name: Str) {
    name != if pid == [] then IDS_DAT else pid + DAT
  }

  lemma StorePathSplits(h: Header, dir: Str, name: Str)
    requires NoSep(name) && NoSep(h.id) && Join(dir, name) == StoreFile(h)
    ensures dir == h.path && name == h.id + DAT
  {
    StoreFileSplits(h);
    JoinSplits(dir, name);
  }

  /** In the directory of a group a new valid name that fits is taken by nothing on the disk. */
  lemma NewPathIsFree(s: State, n: Header, name: Str)
    requires Settled(s) && n in Headers(s.tree)
    requires ValidName(name) && name !in Keys(ByName, s.tree) && NameFits(n.id, name)
    ensures !Exists(s.core.disk, Join(n.path, name))
  {
    var p := Join(n.path, name);
    JoinSplits(n.path, name);
    PathsAreNames(s.tree, n);
    assert Under(n.path, p);
    UnderTransitive(s.tree.path, n.path, p);
    if p in s.core.disk.dirs {
      assert HasPath(Headers(s.tree), p);
      var h :| h in Headers(s.tree) && h.path == p;
      PathIsName(s.tree, h);
    }
    NewPathIsNoFile(s.tree, n, name);
  }

  /** That path belongs to no store and not to the id list. */
  lemma NewPathIsNoFile(tree: Group, n: Header, name: Str)
    requires Laid(tree) && tree.id == [] && n in Headers(tree) && NoSep(name) && NameFits(n.id, name)
    ensures Join(n.path, name) != IdsFile(tree.Head())
    ensures forall h :: h in Headers(tree) && h != tree.Head() ==> Join(n.path, name) != StoreFile(h)
  {
    assert tree.Head() in Headers(tree);
    if Join(n.path, name) == IdsFile(tree.Head()) {
      IdsFileSplits(tree.Head());
      JoinSplits(n.path, name);
      PathsDiffer(tree, n, tree.Head());
    }
    forall h | h in Headers(tree) && h != tree.Head()
      ensures Join(n.path, name) != StoreFile(h)
    {
      if Join(n.path, name) == StoreFile(h) {
        StorePathSplits(h, n.path, name);
        PathsDiffer(tree, n, h);
      }
    }
  }

  /** The file of a group that has no store yet is free; its directory is there. */
  lemma StoreFileIsFree(tree: Group, d: Disk, h: Header)
    requires Laid(tree) && OnDisk(Headers(tree), tree.Head(), d) && h in Headers(tree) && h != tree.Head()
    ensures h.stores == [] ==> !Exists(d, StoreFile(h))
    ensures CanWrite(d, StoreFile(h))
  {
    var p := StoreFile(h);
    StoreFileSplits(h);
    PathsAreNames(tree, h);
    UnderTransitive(tree.path, h.path, p);
    if h.stores == [] && p in d.files {
      IdsFileSplits(tree.Head());
      assert HasStore(Headers(tree), p);
      var x :| x in Headers(tree) && x.stores != [] && StoreFile(x) == p;
      PathsDiffer(tree, x, h);
    }
  }
}
