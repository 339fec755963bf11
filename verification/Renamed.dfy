/** What a restart after a rename brings back: the new name, fresh paths, and below the renamed group the
    questions as they were last saved, because the stores in memory still have the old paths and can no
    longer be written.  First the branch as it comes back, then the nodes and the disk before and after
    the move, then the tree built of them, then what saving and loading make of that tree. */
module Renamed {
  import opened Bytes
  import opened Records
  import opened Stores
  import opened Groups
  import opened Bank
  import opened Agreement
  import opened Layout
  import opened Calls
  import opened Reload
  import opened Restart
  import opened Moves

  // ----- the branch as it comes back -----

  /** The questions of a group when its store was last closed, by id. */
  type Last = map<Str, seq<Question>>

  function LastOf(last: Last, id: Str): seq<Question> {
    if id in last then last[id] else []
  }

  datatype Move = Move(src: Str, dst: Str, last: Last)

  /** The node at its new path, with the store its file reopens to. */
  function MovedHead(h: Header, m: Move): Header {
    var bare := Header(h.name, h.id, MovedPath(h.path, m.src, m.dst), []);
    bare.(stores := if LastOf(m.last, h.id) == [] then [] else [Store(StoreFile(bare), [], LastOf(m.last, h.id))])
  }

  function MovedTree(g: Group, m: Move): Group
    decreases g, 1
  {
    var h := MovedHead(g.Head(), m);
    Group(h.name, h.id, h.path, h.stores, MovedAll(g.kids, m))
  }

  function MovedAll(gs: seq<Group>, m: Move): seq<Group>
    decreases gs, 0
  {
    if gs == [] then [] else [MovedTree(gs[0], m)] + MovedAll(gs[1..], m)
  }

  function MovedHeads(hs: set<Header>, m: Move): set<Header> {
    set h | h in hs :: MovedHead(h, m)
  }

  lemma {:induction false} HeadersMoved(g: Group, m: Move)
    ensures Headers(MovedTree(g, m)) == MovedHeads(Headers(g), m)
    decreases g, 1
  {
    HeadersMovedOf(g.kids, m);
    assert MovedTree(g, m).Head() == MovedHead(g.Head(), m);
  }

  lemma {:induction false} HeadersMovedOf(gs: seq<Group>, m: Move)
    ensures HeadersOf(MovedAll(gs, m)) == MovedHeads(HeadersOf(gs), m)
    decreases gs, 0
  {
    if gs != [] {
      HeadersMoved(gs[0], m);
      HeadersMovedOf(gs[1..], m);
      assert MovedAll(gs, m)[1..] == MovedAll(gs[1..], m);
    }
  }

  /** Names and ids do not move. */
  lemma KeysMoved(k: Kind, hs: set<Header>, m: Move)
    ensures (set h | h in MovedHeads(hs, m) :: Key(k, h)) == set h | h in hs :: Key(k, h)
  {
    forall h | h in hs
      ensures Key(k, h) in set x | x in MovedHeads(hs, m) :: Key(k, x)
    {
      assert MovedHead(h, m) in MovedHeads(hs, m) && Key(k, MovedHead(h, m)) == Key(k, h);
    }
  }

  lemma {:induction false} UniqueMoved(k: Kind, g: Group, m: Move)
    requires Unique(k, g)
    ensures Unique(k, MovedTree(g, m)) && Keys(k, MovedTree(g, m)) == Keys(k, g)
    decreases g, 1
  {
    UniqueMovedAll(k, g.kids, m);
    HeadersMoved(g, m);
    KeysMoved(k, Headers(g), m);
    assert Key(k, MovedTree(g, m).Head()) == Key(k, g.Head());
  }

  lemma {:induction false} UniqueMovedAll(k: Kind, gs: seq<Group>, m: Move)
    requires UniqueAll(k, gs)
    ensures UniqueAll(k, MovedAll(gs, m)) && KeysOf(k, MovedAll(gs, m)) == KeysOf(k, gs)
    decreases gs, 0
  {
    if gs != [] {
      UniqueMoved(k, gs[0], m);
      UniqueMovedAll(k, gs[1..], m);
      assert MovedAll(gs, m)[1..] == MovedAll(gs[1..], m);
    }
    HeadersMovedOf(gs, m);
    KeysMoved(k, HeadersOf(gs), m);
  }

  lemma {:induction false} PlacedMoved(g: Group, m: Move)
    requires Placed(g) && Under(m.src, g.path)
    ensures Placed(MovedTree(g, m))
    decreases g, 1
  {
    PlacedMovedIn(g.path, g.kids, m);
  }

  lemma {:induction false} PlacedMovedIn(path: Str, gs: seq<Group>, m: Move)
    requires PlacedIn(path, gs) && Under(m.src, path)
    ensures PlacedIn(MovedPath(path, m.src, m.dst), MovedAll(gs, m))
    decreases gs, 0
  {
    if gs != [] {
      MovedJoin(m.src, m.dst, path, gs[0].name);
      PlacedMoved(gs[0], m);
      PlacedMovedIn(path, gs[1..], m);
      assert MovedAll(gs, m)[1..] == MovedAll(gs[1..], m);
    }
  }

  // ----- the nodes before and after -----

  /** A node and what it comes back as; only the renamed group's name may differ. */
  ghost predicate Came(x: Header, x': Header, m: Move) {
    x' == MovedHead(x.(name := x'.name), m)
  }

  /** Of the nodes on the disk `d`, `stay` keep their place, and `gone` move and come back as `came`. */
  datatype Scene = Scene(root: Header, d: Disk, stay: set<Header>, gone: set<Header>, came: set<Header>, m: Move)

  ghost predicate HasCome(sc: Scene, x': Header) {
    exists x :: x in sc.gone && Came(x, x', sc.m)
  }

  ghost predicate ComesBack(sc: Scene, x: Header) {
    exists x' :: x' in sc.came && Came(x, x', sc.m)
  }

  /** Where the nodes lie. */
  ghost predicate Parted(sc: Scene) {
    && (forall x :: x in sc.gone ==> Under(sc.m.src, x.path) && NoSep(x.id))
    && (forall x :: x in sc.stay ==> !Under(sc.m.src, x.path) && !Under(sc.m.dst, x.path))
    && (forall x :: x in sc.stay ==> x == sc.root || NoSep(x.id))
    && sc.root in sc.stay && sc.root !in sc.gone
  }

  ghost predicate AllFrom(sc: Scene) {
    forall x' :: x' in sc.came ==> HasCome(sc, x')
  }

  ghost predicate AllBack(sc: Scene) {
    forall x :: x in sc.gone ==> ComesBack(sc, x)
  }

  /** The two paths are no file's, and have nothing in common. */
  ghost predicate Free(sc: Scene) {
    && sc.m.dst != IdsFile(sc.root) && sc.m.src != IdsFile(sc.root)
    && (forall h :: h in sc.stay && h != sc.root ==> sc.m.dst != StoreFile(h) && sc.m.src != StoreFile(h))
    && Under(sc.root.path, sc.m.src) && Under(sc.root.path, sc.m.dst)
    && !Under(sc.m.src, sc.m.dst) && !Under(sc.m.dst, sc.m.src)
  }

  ghost predicate NodesOk(hs: set<Header>, root: Header) {
    forall h :: h in hs && h != root ==> IdOk(h.id) && StoreOk(h)
  }

  /** The nodes are laid out on the disk. */
  ghost predicate Stood(sc: Scene) {
    && sc.root.stores == [] && NodesOk(sc.stay + sc.gone, sc.root)
    && FilesFree(sc.stay + sc.gone, sc.root) && OnDisk(sc.stay + sc.gone, sc.root, sc.d)
  }

  /** Every file below the renamed group is as its store was last closed. */
  ghost predicate AsLast(sc: Scene) {
    forall x :: x in sc.gone ==> FileIsLast(sc.d, StoreFile(x), LastOf(sc.m.last, x.id))
  }

  ghost predicate FileIsLast(d: Disk, p: Str, questions: seq<Question>) {
    && (p in d.files <==> questions != [])
    && (p in d.files ==> d.files[p] == Encode(questions))
    && Distinct(questions) && Fits(questions)
  }

  /** `x'` is `x` at its new place. */
  ghost predicate Moved(m: Move, x: Header, x': Header) {
    && Under(m.src, x.path) && Under(m.dst, x'.path) && x'.path == MovedPath(x.path, m.src, m.dst) && x'.id == x.id
    && Under(m.src, StoreFile(x)) && StoreFile(x') == MovedPath(StoreFile(x), m.src, m.dst)
    && x'.stores == if LastOf(m.last, x.id) == [] then [] else [Store(StoreFile(x'), [], LastOf(m.last, x.id))]
  }

  lemma CameIsMoved(x: Header, x': Header, m: Move)
    requires Came(x, x', m) && Under(m.src, x.path) && NoSep(x.id)
    ensures Moved(m, x, x')
  {
    MovedBelow(m.src, m.dst, x.path);
    assert NoSep(x.id + DAT);
    MovedJoin(m.src, m.dst, x.path, x.id + DAT);
  }

  lemma CameFrom(sc: Scene, x': Header) returns (x: Header)
    requires Parted(sc) && AllFrom(sc) && x' in sc.came
    ensures x in sc.gone && Moved(sc.m, x, x')
  {
    assert HasCome(sc, x');
    x :| x in sc.gone && Came(x, x', sc.m);
    CameIsMoved(x, x', sc.m);
  }

  lemma GoesTo(sc: Scene, x: Header) returns (x': Header)
    requires Parted(sc) && AllBack(sc) && x in sc.gone
    ensures x' in sc.came && Moved(sc.m, x, x')
  {
    assert ComesBack(sc, x);
    x' :| x' in sc.came && Came(x, x', sc.m);
    CameIsMoved(x, x', sc.m);
  }

  // ----- no directory at a file -----

  /** A node that came is at no file of a directory that stays, but for the new path itself. */
  lemma CameNoFile(sc: Scene, x: Header, dir: Str, name: Str)
    requires Parted(sc) && AllFrom(sc) && x in sc.came
    requires !Under(sc.m.dst, dir) && NoSep(name) && sc.m.dst != Join(dir, name)
    ensures x.path != Join(dir, name)
  {
    var y := CameFrom(sc, x);
    JoinSplits(dir, name);
  }

  lemma CameNoStore(sc: Scene, x: Header, h: Header)
    requires Parted(sc) && AllFrom(sc) && FilesFree(sc.stay + sc.gone, sc.root)
    requires x in sc.stay + sc.came && h in sc.came
    ensures x.path != StoreFile(h)
  {
    var g := CameFrom(sc, h);
    MovedBelow(sc.m.src, sc.m.dst, StoreFile(g));
    if x in sc.came && x.path == StoreFile(h) {
      var y := CameFrom(sc, x);
      MovedApart(sc.m.src, sc.m.dst, y.path, StoreFile(g));
      NoNodeAtStore(sc.stay + sc.gone, sc.root, y, g);
    }
  }

  lemma NoNodeAtStore(hs: set<Header>, root: Header, y: Header, g: Header)
    requires FilesFree(hs, root) && y in hs && g in hs && g != root
    ensures y.path != StoreFile(g)
  {
  }

  lemma FileIsName(id: Str)
    ensures NoSep(IDS_DAT) && (NoSep(id) ==> NoSep(id + DAT))
  {
  }

  lemma CameAtNoFile(sc: Scene, x: Header)
    requires Parted(sc) && AllFrom(sc) && Free(sc) && x in sc.came
    ensures x.path != IdsFile(sc.root)
    ensures forall h :: h in sc.stay && h != sc.root ==> x.path != StoreFile(h)
  {
    FileIsName([]);
    CameNoFile(sc, x, sc.root.path, IDS_DAT);
    forall h | h in sc.stay && h != sc.root
      ensures x.path != StoreFile(h)
    {
      FileIsName(h.id);
      CameNoFile(sc, x, h.path, h.id + DAT);
    }
  }

  lemma NewFilesFree(sc: Scene)
    requires Parted(sc) && AllFrom(sc) && Free(sc) && FilesFree(sc.stay + sc.gone, sc.root)
    ensures FilesFree(sc.stay + sc.came, sc.root)
  {
    forall x, h | x in sc.stay + sc.came && h in sc.came
      ensures x.path != StoreFile(h)
    {
      CameNoStore(sc, x, h);
    }
    forall x | x in sc.came
      ensures x.path != IdsFile(sc.root)
      ensures forall h :: h in sc.stay && h != sc.root ==> x.path != StoreFile(h)
    {
      CameAtNoFile(sc, x);
    }
  }

  // ----- the disk after the rename -----

  function MovedDisk(sc: Scene): Disk {
    RenameAll(sc.d, sc.m.src, sc.m.dst)
  }

  lemma NodeOnDisk(sc: Scene, x: Header)
    requires Parted(sc) && AllFrom(sc) && OnDisk(sc.stay + sc.gone, sc.root, sc.d) && x in sc.stay + sc.came
    ensures x.path in MovedDisk(sc).dirs
  {
    if x in sc.came {
      var y := CameFrom(sc, x);
      assert y in sc.stay + sc.gone && y.path in sc.d.dirs;
    } else {
      assert x in sc.stay + sc.gone && x.path in sc.d.dirs && MovedPath(x.path, sc.m.src, sc.m.dst) == x.path;
    }
  }

  /** What is under the root after the move was so before. */
  lemma WasUnder(root: Str, q: Str, m: Move)
    requires Under(root, MovedPath(q, m.src, m.dst)) && Under(root, m.src)
    ensures Under(root, q)
  {
    if Under(m.src, q) {
      UnderTransitive(root, m.src, q);
    }
  }

  lemma NewDir(sc: Scene, q: Str)
    requires Parted(sc) && AllBack(sc) && HasPath(sc.stay + sc.gone, q)
    ensures HasPath(sc.stay + sc.came, MovedPath(q, sc.m.src, sc.m.dst))
  {
    var x :| x in sc.stay + sc.gone && x.path == q;
    if x in sc.gone {
      var x' := GoesTo(sc, x);
      assert x' in sc.stay + sc.came;
    } else {
      assert x in sc.stay + sc.came && MovedPath(q, sc.m.src, sc.m.dst) == q;
    }
  }

  /** The file of a node that moves is at its new place, what it was. */
  lemma MovedFile(d: Disk, m: Move, p: Str)
    requires Under(m.src, p) && p in d.files
    ensures var q := MovedPath(p, m.src, m.dst); var d' := RenameAll(d, m.src, m.dst);
      q in d'.files && d'.files[q] == d.files[p]
  {
    var q := MovedPath(p, m.src, m.dst);
    RestOf(m.src, p);
    MovedBelow(m.src, m.dst, p);
    assert q[|m.dst|..] == p[|m.src|..];
    assert SourcePath(q, m.src, m.dst, d.files) == p;
    assert q in set x | x in d.files :: MovedPath(x, m.src, m.dst);
  }

  /** A store's file is that of a store after the rename, at its place or at its new one. */
  lemma NewFile(sc: Scene, q: Str)
    requires Parted(sc) && AllBack(sc) && Free(sc) && AsLast(sc) && q in sc.d.files && sc.root.stores == []
    requires HasStore(sc.stay + sc.gone, q)
    ensures HasStore(sc.stay + sc.came, MovedPath(q, sc.m.src, sc.m.dst))
  {
    var x :| x in sc.stay + sc.gone && x.stores != [] && StoreFile(x) == q;
    if x in sc.gone {
      var x' := GoesTo(sc, x);
      assert FileIsLast(sc.d, q, LastOf(sc.m.last, x.id));
      assert x' in sc.stay + sc.came && x'.stores != [];
    } else {
      StoreFileSplits(x);
      assert x in sc.stay + sc.came && MovedPath(q, sc.m.src, sc.m.dst) == q;
    }
  }

  lemma ListStays(sc: Scene, q: Str)
    requires Parted(sc) && Free(sc) && MovedPath(q, sc.m.src, sc.m.dst) != IdsFile(sc.root)
    ensures q != IdsFile(sc.root)
  {
    IdsFileSplits(sc.root);
  }

  lemma NewOnDisk(sc: Scene)
    requires Parted(sc) && AllFrom(sc) && AllBack(sc) && Free(sc) && AsLast(sc) && sc.root.stores == []
    requires OnDisk(sc.stay + sc.gone, sc.root, sc.d)
    ensures OnDisk(sc.stay + sc.came, sc.root, MovedDisk(sc))
  {
    forall x | x in sc.stay + sc.came
      ensures x.path in MovedDisk(sc).dirs
    {
      NodeOnDisk(sc, x);
    }
    forall p | p in MovedDisk(sc).dirs && Under(sc.root.path, p)
      ensures HasPath(sc.stay + sc.came, p)
    {
      var q :| q in sc.d.dirs && MovedPath(q, sc.m.src, sc.m.dst) == p;
      WasUnder(sc.root.path, q, sc.m);
      NewDir(sc, q);
    }
    forall p | p in MovedDisk(sc).files && Under(sc.root.path, p) && p != IdsFile(sc.root)
      ensures HasStore(sc.stay + sc.came, p)
    {
      var q :| q in sc.d.files && MovedPath(q, sc.m.src, sc.m.dst) == p;
      WasUnder(sc.root.path, q, sc.m);
      ListStays(sc, q);
      NewFile(sc, q);
    }
  }

  // ----- what saving does afterwards -----

  /** A store in memory below the old path cannot be written, and nothing is there. */
  lemma OldStoreIsDead(d: Disk, m: Move, st: Store, dir: Str, was: Str, name: Str)
    requires NoSep(was) && NoSep(name) && was != name && m.src == Join(dir, was) && m.dst == Join(dir, name)
    requires Under(m.src, st.path) && Under(m.src, ParentPath(st.path))
    ensures Dead(st, RenameAll(d, m.src, m.dst))
  {
    forall p: Str
      ensures !Under(m.src, MovedPath(p, m.src, m.dst))
    {
      OldPlaceIsEmpty(dir, was, name, p);
    }
  }

  /** A node that came back with questions reopens from its file at the new path. */
  lemma CameReopens(sc: Scene, x': Header)
    requires Parted(sc) && AllFrom(sc) && AsLast(sc) && x' in sc.came && x'.stores != []
    ensures Kept(x') && Reopens(x', MovedDisk(sc))
  {
    var x := CameFrom(sc, x');
    assert FileIsLast(sc.d, StoreFile(x), LastOf(sc.m.last, x.id));
    MovedFile(sc.d, sc.m, StoreFile(x));
    assert StoreFile(x') != [];
    FileReopens(x'.stores[0], MovedDisk(sc));
  }

  // ----- the tree that comes back -----

  /** A rename of the `i`-th subgroup of `pid` to a name that is new and fits. */
  ghost predicate Renames(s: State, pid: Str, i: nat, name: Str) {
    && Settled(s) && pid in Keys(ById, s.tree) && i < |Node(ById, s.tree, pid).kids|
    && ValidName(name) && NameFits(pid, name) && name !in Keys(ByName, s.tree)
  }

  function MoveOf(tree: Group, pid: Str, i: nat, name: Str, last: Last): Move
    requires pid in Keys(ById, tree) && i < |Node(ById, tree, pid).kids|
  {
    var n := Node(ById, tree, pid);
    Move(n.kids[i].path, Join(n.path, name), last)
  }

  /** The renamed branch at its new place. */
  function Branch(f: Group, name: Str, m: Move): Group {
    MovedTree(f.(name := name), m)
  }

  /** The tree with the branch at its new place, behind its siblings. */
  function BackWith(tree: Group, pid: Str, i: nat, branch: Group): Group
    requires pid in Keys(ById, tree) && i < |Node(ById, tree, pid).kids|
  {
    var n := Node(ById, tree, pid);
    Put(ById, tree, pid, n.(kids := n.kids[..i] + n.kids[i + 1..] + [branch]))
  }

  function Back(tree: Group, pid: Str, i: nat, name: Str, last: Last): Group
    requires pid in Keys(ById, tree) && i < |Node(ById, tree, pid).kids|
  {
    BackWith(tree, pid, i, Branch(Node(ById, tree, pid).kids[i], name, MoveOf(tree, pid, i, name, last)))
  }

  function SceneOf(s: State, pid: Str, i: nat, name: Str, last: Last): Scene
    requires pid in Keys(ById, s.tree) && i < |Node(ById, s.tree, pid).kids|
  {
    var f, m := Node(ById, s.tree, pid).kids[i], MoveOf(s.tree, pid, i, name, last);
    Scene(s.tree.Head(), s.core.disk, Headers(s.tree) - Headers(f), Headers(f), Headers(Branch(f, name, m)), m)
  }

  lemma BranchCame(f: Group, name: Str, m: Move, x': Header) returns (x: Header)
    requires x' in Headers(Branch(f, name, m))
    ensures x in Headers(f) && Came(x, x', m)
  {
    HeadersMoved(f.(name := name), m);
    var h :| h in Headers(f.(name := name)) && x' == MovedHead(h, m);
    x := if h in HeadersOf(f.kids) then h else f.Head();
  }

  lemma BranchComes(f: Group, name: Str, m: Move, x: Header) returns (x': Header)
    requires x in Headers(f)
    ensures x' in Headers(Branch(f, name, m)) && Came(x, x', m)
  {
    HeadersMoved(f.(name := name), m);
    var h := if x in HeadersOf(f.kids) then x else f.(name := name).Head();
    assert h in Headers(f.(name := name));
    x' := MovedHead(h, m);
  }

  /** The tree without the branch. */
  lemma WithoutBranch(s: State, pid: Str, i: nat, branch: Group) returns (b: Group, nb: Group)
    requires Settled(s) && pid in Keys(ById, s.tree) && i < |Node(ById, s.tree, pid).kids|
    ensures var n := Node(ById, s.tree, pid); var f := n.kids[i];
      && Laid(b) && b.Head() == s.tree.Head() && pid in Keys(ById, b) && nb == Node(ById, b, pid) && nb.path == n.path
      && Headers(f) <= Headers(s.tree) && Headers(b) == Headers(s.tree) - Headers(f)
      && Placed(f) && f.Head() in Headers(f) && f.Head() != s.tree.Head()
      && (forall j :: Unique(j, s.tree) ==> Keys(j, b) == Keys(j, s.tree) - Keys(j, f))
      && BackWith(s.tree, pid, i, branch) == Put(ById, b, pid, nb.(kids := nb.kids + [branch]))
  {
    var n := Node(ById, s.tree, pid);
    nb := n.(kids := n.kids[..i] + n.kids[i + 1..]);
    b := Put(ById, s.tree, pid, nb);
    DroppedTreeIsLaid(s.tree, pid, i, b);
    DropKid(ById, s.tree, pid, i);
    PutTwice(ById, s.tree, pid, nb, nb.(kids := nb.kids + [branch]));
  }

  // ----- the rename is such a move -----

  /** The nodes of `tree`: those that stay and those of the branch `f`. */
  ghost predicate Divided(sc: Scene, tree: Group, f: Group) {
    Headers(tree) == sc.stay + sc.gone && sc.stay !! sc.gone && sc.gone == Headers(f)
  }

  lemma SceneStood(s: State, pid: Str, i: nat, name: Str, last: Last)
    requires Renames(s, pid, i, name)
    ensures var sc := SceneOf(s, pid, i, name, last);
      && Divided(sc, s.tree, Node(ById, s.tree, pid).kids[i])
      && sc.root in sc.stay && sc.root !in sc.gone && Stood(sc)
  {
    var f := Node(ById, s.tree, pid).kids[i];
    var b, nb := WithoutBranch(s, pid, i, f);
    assert b.Head() in Headers(b);
    assert (Headers(s.tree) - Headers(f)) + Headers(f) == Headers(s.tree);
  }

  /** The two paths lie in one directory of the bank and have nothing in common. */
  ghost predicate PathsOk(tree: Group, m: Move) {
    && Under(tree.path, m.src) && Under(tree.path, m.dst)
    && !Under(m.src, m.dst) && !Under(m.dst, m.src)
  }

  lemma MovePaths(s: State, pid: Str, i: nat, name: Str, last: Last)
    requires Renames(s, pid, i, name)
    ensures PathsOk(s.tree, MoveOf(s.tree, pid, i, name, last))
    ensures var n := Node(ById, s.tree, pid); var f := n.kids[i];
      n.Head() in Headers(s.tree) && f.path == Join(n.path, f.name) && ValidName(f.name) && f.name != name
      && Under(s.tree.path, n.path)
  {
    var n := Node(ById, s.tree, pid);
    var f := n.kids[i];
    KidIsHere(s.tree, pid, i);
    assert Key(ByName, f.Head()) in Keys(ByName, s.tree);
    PathsAreNames(s.tree, n.Head());
    JoinSplits(n.path, f.name);
    JoinSplits(n.path, name);
    UnderTransitive(s.tree.path, n.path, f.path);
    UnderTransitive(s.tree.path, n.path, Join(n.path, name));
    NamesApartBelow(n.path, f.name, name, f.path);
    NamesApartBelow(n.path, name, f.name, Join(n.path, name));
  }

  lemma SceneIsParted(s: State, pid: Str, i: nat, name: Str, last: Last)
    requires Renames(s, pid, i, name)
    ensures var sc := SceneOf(s, pid, i, name, last); Parted(sc) && AllFrom(sc) && AllBack(sc)
  {
    var n := Node(ById, s.tree, pid);
    var f, m := n.kids[i], MoveOf(s.tree, pid, i, name, last);
    var sc := SceneOf(s, pid, i, name, last);
    var b, nb := WithoutBranch(s, pid, i, f);
    SubtreeByPath(s.tree, b, f);
    SceneStood(s, pid, i, name, last);
    MovePaths(s, pid, i, name, last);
    NewPathIsFree(s, n.Head(), name);
    forall x | x in sc.stay + sc.gone
      ensures x == sc.root || NoSep(x.id)
    {
      assert x == sc.root || IdOk(x.id);
    }
    forall x | x in sc.stay
      ensures !Under(m.dst, x.path)
    {
      NothingAtNew(s.tree, s.core.disk, n.path, name, x);
    }
    forall x' | x' in sc.came
      ensures HasCome(sc, x')
    {
      var x := BranchCame(f, name, m, x');
    }
    forall x | x in sc.gone
      ensures ComesBack(sc, x)
    {
      var x' := BranchComes(f, name, m, x);
    }
  }

  lemma SceneIsFree(s: State, pid: Str, i: nat, name: Str, last: Last)
    requires Renames(s, pid, i, name)
    ensures Free(SceneOf(s, pid, i, name, last))
  {
    MovePaths(s, pid, i, name, last);
    NewPathIsNoFile(s.tree, Node(ById, s.tree, pid).Head(), name);
    KidNoFile(s.tree, pid, i);
  }

  lemma KidNoFile(tree: Group, pid: Str, i: nat)
    requires Laid(tree) && pid in Keys(ById, tree) && i < |Node(ById, tree, pid).kids|
    ensures var f := Node(ById, tree, pid).kids[i];
      f.path != IdsFile(tree.Head()) && forall h :: h in Headers(tree) && h != tree.Head() ==> f.path != StoreFile(h)
  {
    KidIsHere(tree, pid, i);
    assert Node(ById, tree, pid).kids[i].Head().path == Node(ById, tree, pid).kids[i].path;
  }

  // ----- the tree that comes back is laid out -----

  lemma BranchUnique(j: Kind, f: Group, name: Str, m: Move, keys: set<Str>)
    requires Unique(j, f) && Keys(j, f) <= keys && (j == ByName ==> name !in keys)
    ensures Unique(j, Branch(f, name, m)) && Keys(j, Branch(f, name, m)) !! (keys - Keys(j, f))
  {
    KeysOfNode(j, f);
    KeysOfNode(j, f.(name := name));
    UniqueMoved(j, f.(name := name), m);
  }

  lemma KidUniqueIn(j: Kind, tree: Group, pid: Str, i: nat)
    requires Unique(ById, tree) && Unique(j, tree) && pid in Keys(ById, tree) && i < |Node(ById, tree, pid).kids|
    ensures Unique(j, Node(ById, tree, pid).kids[i])
  {
    NodeUnique(ById, j, tree, pid);
    KidsSplit(Node(ById, tree, pid).kids, i);
  }

  lemma BranchPlaced(f: Group, name: Str, m: Move)
    requires Placed(f) && f.path == m.src
    ensures var g := Branch(f, name, m); Placed(g) && g.name == name && g.path == m.dst
  {
    assert Placed(f.(name := name));
    PlacedMoved(f.(name := name), m);
    MovedBelow(m.src, m.dst, f.path);
    assert m.dst + f.path[|m.src|..] == m.dst;
  }

  lemma BackHeaders(s: State, pid: Str, i: nat, name: Str, last: Last, t: Group)
    requires Renames(s, pid, i, name) && t == Back(s.tree, pid, i, name, last)
    ensures Built(SceneOf(s, pid, i, name, last), t)
  {
    var n := Node(ById, s.tree, pid);
    var f, m := n.kids[i], MoveOf(s.tree, pid, i, name, last);
    var branch := Branch(f, name, m);
    var b, nb := WithoutBranch(s, pid, i, branch);
    KidUniqueIn(ById, s.tree, pid, i);
    KidUniqueIn(ByName, s.tree, pid, i);
    BranchUnique(ById, f, name, m, Keys(ById, s.tree));
    BranchUnique(ByName, f, name, m, Keys(ByName, s.tree));
    BranchPlaced(f, name, m);
    BranchPut(b, pid, nb, branch);
  }

  lemma BranchPut(b: Group, pid: Str, nb: Group, branch: Group)
    requires Laid(b) && pid in Keys(ById, b) && nb == Node(ById, b, pid)
    requires Unique(ById, branch) && Keys(ById, branch) !! Keys(ById, b)
    requires Unique(ByName, branch) && Keys(ByName, branch) !! Keys(ByName, b)
    requires Placed(branch) && ValidName(branch.name) && branch.path == Join(nb.path, branch.name)
    ensures var t := Put(ById, b, pid, nb.(kids := nb.kids + [branch]));
      && Headers(t) == Headers(b) + Headers(branch) && t.Head() == b.Head()
      && Unique(ById, t) && Unique(ByName, t) && Placed(t)
  {
    var n' := nb.(kids := nb.kids + [branch]);
    PutBranch(ById, b, pid, branch);
    PutBranchUnique(ById, ById, b, pid, branch);
    PutBranchUnique(ById, ByName, b, pid, branch);
    NodePlaced(ById, b, pid);
    PlacedAppend(nb.path, nb.kids, branch);
    PutPlaced(ById, b, pid, n');
    RootStays(b, pid, n');
  }

  lemma CameIsOk(sc: Scene, x': Header)
    requires Parted(sc) && AllFrom(sc) && AsLast(sc) && NodesOk(sc.stay + sc.gone, sc.root) && x' in sc.came
    ensures IdOk(x'.id) && StoreOk(x')
  {
    var x := CameFrom(sc, x');
    assert x in sc.stay + sc.gone && IdOk(x.id);
    assert FileIsLast(sc.d, StoreFile(x), LastOf(sc.m.last, x.id));
  }

  lemma NewNodesOk(sc: Scene)
    requires Parted(sc) && AllFrom(sc) && AsLast(sc) && NodesOk(sc.stay + sc.gone, sc.root)
    ensures NodesOk(sc.stay + sc.came, sc.root)
  {
    forall x | x in sc.came
      ensures IdOk(x.id) && StoreOk(x)
    {
      CameIsOk(sc, x);
    }
  }

  // ----- saving puts it on the disk -----

  /** The state after the rename: the branch's first node has the new name, the disk was moved. */
  ghost predicate After(sc: Scene, u: State, f: Header, name: Str) {
    && f in sc.gone && f.path == sc.m.src
    && Headers(u.tree) == sc.stay + (sc.gone - {f}) + {f.(name := name)}
    && u.core.disk == MovedDisk(sc) && ListLaid(u.core, sc.root)
  }

  lemma RenameIs(s: State, pid: Str, i: nat, name: Str, last: Last)
    requires Renames(s, pid, i, name)
    ensures var f := Node(ById, s.tree, pid).kids[i]; var o := Do(UpdateGroup(pid, f.id, name, true), s);
      o.ok && After(SceneOf(s, pid, i, name, last), o.s, f.Head(), name)
  {
    var n := Node(ById, s.tree, pid);
    KidFirst(s, pid, i);
    var r := UpdateIn(n.kids[i].id, name, true, n, s.core);
    UpdateIs(s, pid, n.kids[i].id, name, true, r);
    RenamedHeaders(s, pid, i, name, Put(ById, s.tree, pid, r.g));
  }

  lemma RenamedHeaders(s: State, pid: Str, i: nat, name: Str, tree': Group)
    requires Settled(s) && pid in Keys(ById, s.tree) && i < |Node(ById, s.tree, pid).kids|
    requires var n := Node(ById, s.tree, pid);
      tree' == Put(ById, s.tree, pid, n.(kids := n.kids[i := n.kids[i].(name := name)]))
    ensures var f := Node(ById, s.tree, pid).kids[i]; var h := f.Head();
      && h in Headers(f)
      && Headers(tree') == (Headers(s.tree) - Headers(f)) + (Headers(f) - {h}) + {h.(name := name)}
  {
    TreeRenamed(s.tree, pid, i, name, tree');
    DropKid(ById, s.tree, pid, i);
    assert Node(ById, s.tree, pid).kids[i].Head() in Headers(Node(ById, s.tree, pid).kids[i]);
  }

  /** Ids are unique, so the search for a subgroup's id stops at that subgroup. */
  lemma KidFirst(s: State, pid: Str, i: nat)
    requires Agree(s) && pid in Keys(ById, s.tree) && i < |Node(ById, s.tree, pid).kids|
    ensures var n := Node(ById, s.tree, pid); KidIndex(n.kids, n.kids[i].id) == i
  {
    var n := Node(ById, s.tree, pid);
    NodeUnique(ById, ById, s.tree, pid);
    KidIndexIs(n.kids, i);
  }

  lemma {:induction false} KidIndexIs(gs: seq<Group>, i: nat)
    requires UniqueAll(ById, gs) && i < |gs|
    ensures KidIndex(gs, gs[i].id) == i
  {
    if i > 0 {
      KidsSplit(gs[1..], i - 1);
      assert gs[i].Head() in Headers(gs[i]) && gs[0].Head() in Headers(gs[0]);
      assert Key(ById, gs[i].Head()) in KeysOf(ById, gs[1..]) && Key(ById, gs[0].Head()) in Keys(ById, gs[0]);
      KidIndexIs(gs[1..], i - 1);
    }
  }

  lemma StoreStaysOrGoes(sc: Scene, u: State, f: Header, name: Str, st: Store)
    requires After(sc, u, f, name) && StoreIn(Headers(u.tree), st)
    ensures StoreIn(sc.stay, st) || StoreIn(sc.gone, st)
  {
    var h :| h in Headers(u.tree) && st in h.stores;
    assert h.stores == f.stores || h in sc.stay || h in sc.gone;
    if h !in sc.stay && h !in sc.gone {
      assert st in f.stores;
    }
  }

  /** A store that was in memory below the old path is stranded. */
  lemma GoneDies(sc: Scene, st: Store, dir: Str, was: Str, name: Str)
    requires Parted(sc) && NodesOk(sc.stay + sc.gone, sc.root) && StoreIn(sc.gone, st)
    requires NoSep(was) && NoSep(name) && was != name && sc.m.src == Join(dir, was) && sc.m.dst == Join(dir, name)
    ensures Dead(st, MovedDisk(sc))
  {
    var x :| x in sc.gone && st in x.stores;
    assert x in sc.stay + sc.gone && x != sc.root;
    StoreAtFile(x, st);
    UnderTransitive(sc.m.src, x.path, st.path);
    OldStoreIsDead(sc.d, sc.m, st, dir, was, name);
  }

  lemma StoreAtFile(x: Header, st: Store)
    requires StoreOk(x) && IdOk(x.id) && st in x.stores
    ensures st.path == StoreFile(x) && ParentPath(st.path) == x.path && Under(x.path, st.path)
  {
    StoreFileSplits(x);
  }

  lemma MemoryStores(sc: Scene, u: State, f: Header, dir: Str, name: Str)
    requires Parted(sc) && NodesOk(sc.stay + sc.gone, sc.root) && After(sc, u, f, name)
    requires NoSep(f.name) && NoSep(name) && f.name != name
    requires sc.m.src == Join(dir, f.name) && sc.m.dst == Join(dir, name)
    ensures forall st :: StoreIn(Headers(u.tree), st) ==> StoreIn(sc.stay + sc.came, st) || Dead(st, u.core.disk)
  {
    forall st | StoreIn(Headers(u.tree), st)
      ensures StoreIn(sc.stay + sc.came, st) || Dead(st, u.core.disk)
    {
      StoreStaysOrGoes(sc, u, f, name, st);
      if StoreIn(sc.gone, st) {
        GoneDies(sc, st, dir, f.name, name);
      } else {
        MoreStores(sc.stay, sc.stay + sc.came, st);
      }
    }
  }

  lemma MoreStores(hs: set<Header>, hs': set<Header>, st: Store)
    requires hs <= hs' && StoreIn(hs, st)
    ensures StoreIn(hs', st)
  {
  }

  lemma BackStores(sc: Scene, u: State, f: Header, name: Str)
    requires Parted(sc) && AllFrom(sc) && AsLast(sc) && After(sc, u, f, name)
    ensures forall h :: h in sc.stay + sc.came && h.stores != [] && !StoreIn(Headers(u.tree), h.stores[0]) ==>
      Kept(h) && Reopens(h, u.core.disk)
  {
    forall h | h in sc.stay + sc.came && h.stores != []
      ensures StoreIn(Headers(u.tree), h.stores[0]) || (Kept(h) && Reopens(h, u.core.disk))
    {
      if h in sc.came {
        CameReopens(sc, h);
      } else {
        FirstStoreIn(Headers(u.tree), h);
      }
    }
  }

  lemma FirstStoreIn(hs: set<Header>, h: Header)
    requires h in hs && h.stores != []
    ensures StoreIn(hs, h.stores[0])
  {
    assert h.stores[0] in h.stores;
  }

  /** The tree that comes back: the nodes of the scene, with keys of their own and in their places. */
  ghost predicate Built(sc: Scene, t: Group) {
    && Headers(t) == sc.stay + sc.came && t.Head() == sc.root
    && Unique(ById, t) && Unique(ByName, t) && Placed(t)
  }

  lemma BackIsLaid(sc: Scene, t: Group)
    requires Parted(sc) && AllFrom(sc) && AllBack(sc) && Free(sc) && Stood(sc) && AsLast(sc) && Built(sc, t)
    requires FileName(t.path) == t.name && t.name != []
    ensures Laid(t) && OnDisk(Headers(t), t.Head(), MovedDisk(sc))
  {
    NewFilesFree(sc);
    NewNodesOk(sc);
    NewOnDisk(sc);
  }

  lemma RenamedSaves(s: State, pid: Str, i: nat, name: Str, last: Last, u: State, t: Group)
    requires Renames(s, pid, i, name) && AsLast(SceneOf(s, pid, i, name, last))
    requires t == Back(s.tree, pid, i, name, last)
    requires u == Do(UpdateGroup(pid, Node(ById, s.tree, pid).kids[i].id, name, true), s).s
    ensures var sc := SceneOf(s, pid, i, name, last);
      SavesAs(u, t) && Headers(t) == sc.stay + sc.came && After(sc, u, Node(ById, s.tree, pid).kids[i].Head(), name)
  {
    var n := Node(ById, s.tree, pid);
    var sc := SceneOf(s, pid, i, name, last);
    RenameIs(s, pid, i, name, last);
    MovePaths(s, pid, i, name, last);
    SceneStood(s, pid, i, name, last);
    SceneIsParted(s, pid, i, name, last);
    SceneIsFree(s, pid, i, name, last);
    BackHeaders(s, pid, i, name, last, t);
    BackSaves(sc, u, n.kids[i].Head(), n.path, name, t);
  }

  lemma BackSaves(sc: Scene, u: State, f: Header, dir: Str, name: Str, t: Group)
    requires Parted(sc) && AllFrom(sc) && AllBack(sc) && Free(sc) && Stood(sc) && AsLast(sc) && Built(sc, t)
    requires FileName(t.path) == t.name && t.name != [] && t.id == [] && After(sc, u, f, name)
    requires NoSep(f.name) && NoSep(name) && f.name != name
    requires sc.m.src == Join(dir, f.name) && sc.m.dst == Join(dir, name)
    ensures SavesAs(u, t)
  {
    BackIsLaid(sc, t);
    MemoryStores(sc, u, f, dir, name);
    BackStores(sc, u, f, name);
  }

  // ----- ids and names after the restart -----

  /** The nodes have the same ids and names. */
  ghost predicate NamedAlike(hs: set<Header>, hs': set<Header>) {
    AllNamed(hs, hs') && AllNamed(hs', hs)
  }

  ghost predicate AllNamed(hs: set<Header>, hs': set<Header>) {
    forall h :: h in hs ==> HasNamed(hs', h)
  }

  ghost predicate HasNamed(hs: set<Header>, h: Header) {
    exists x :: x in hs && x.id == h.id && x.name == h.name
  }

  lemma NamedAgreed(hs: set<Header>, hs': set<Header>, index: map<Str, Str>, list: map<Str, Record>)
    requires NamedAlike(hs, hs') && Agreed(hs, index, list) && NamesIn(hs, index)
    ensures Agreed(hs', index, list) && NamesIn(hs', index)
  {
    forall h | h in hs'
      ensures h.id != [] ==> h.id in index && list[h.id].group == h.name
      ensures h.id in index ==> index[h.id] == h.name
    {
      assert HasNamed(hs, h);
    }
    forall id | id in index
      ensures HasId(hs', id)
    {
      var x :| x in hs && x.id == id;
      assert HasNamed(hs', x);
    }
  }

  lemma SameNodesAgree(s: State, t: Group, c: Core)
    requires Unique(ById, t) && t.id == [] && NamedAlike(Headers(s.tree), Headers(t))
    requires Agree(s) && NamesAgree(s) && c.index == s.core.index && c.list == s.core.list
    ensures Agree(State(t, c)) && NamesAgree(State(t, c))
  {
    NamedAgreed(Headers(s.tree), Headers(t), c.index, ListMap(c));
  }

  lemma BranchNamed(s: State, pid: Str, i: nat, name: Str, last: Last, u: State, t: Group)
    requires Unique(ById, s.tree) && pid in Keys(ById, s.tree) && i < |Node(ById, s.tree, pid).kids|
    requires After(SceneOf(s, pid, i, name, last), u, Node(ById, s.tree, pid).kids[i].Head(), name)
    requires Headers(t) == SceneOf(s, pid, i, name, last).stay + SceneOf(s, pid, i, name, last).came
    ensures NamedAlike(Headers(u.tree), Headers(t))
  {
    KidUniqueIn(ById, s.tree, pid, i);
    BranchNamedIn(Node(ById, s.tree, pid).kids[i], name, SceneOf(s, pid, i, name, last), Headers(u.tree), Headers(t));
  }

  lemma BranchNamedIn(f: Group, name: Str, sc: Scene, hs: set<Header>, hs': set<Header>)
    requires Unique(ById, f) && sc.gone == Headers(f) && sc.came == Headers(Branch(f, name, sc.m))
    requires hs == sc.stay + (sc.gone - {f.Head()}) + {f.Head().(name := name)} && hs' == sc.stay + sc.came
    ensures NamedAlike(hs, hs')
  {
    RenamedBelow(f, name);
    HeadersMoved(f.(name := name), sc.m);
    NamedOnward(sc.stay, Headers(f) - {f.Head()}, {f.Head().(name := name)}, Headers(f.(name := name)), sc.m, hs, hs');
  }

  lemma NamedOnward(stay: set<Header>, a: set<Header>, b: set<Header>, g: set<Header>, m: Move,
                    hs: set<Header>, hs': set<Header>)
    requires g == a + b && hs == stay + a + b && hs' == stay + MovedHeads(g, m)
    ensures NamedAlike(hs, hs')
  {
    MovedNamed(stay, g, m);
    assert hs == stay + g;
  }

  lemma RenamedBelow(f: Group, name: Str)
    requires Unique(ById, f)
    ensures Headers(f.(name := name)) == Headers(f) - {f.Head()} + {f.Head().(name := name)}
  {
    assert f.Head() in HeadersOf(f.kids) ==> Key(ById, f.Head()) in KeysOf(ById, f.kids);
    assert f.(name := name).Head() == f.Head().(name := name);
  }

  lemma MovedNamed(stay: set<Header>, hs: set<Header>, m: Move)
    ensures NamedAlike(stay + hs, stay + MovedHeads(hs, m))
  {
    forall h | h in stay + hs
      ensures HasNamed(stay + MovedHeads(hs, m), h)
    {
      assert (if h in stay then h else MovedHead(h, m)) in stay + MovedHeads(hs, m);
    }
    forall x | x in stay + MovedHeads(hs, m)
      ensures HasNamed(stay + hs, x)
    {
      if x in stay {
        assert x in stay + hs;
      } else {
        var h :| h in hs && x == MovedHead(h, m);
        assert h in stay + hs;
      }
    }
  }

  /** List and index as they come back. */
  lemma RenamedIndex(s: State, pid: Str, i: nat, name: Str)
    requires Renames(s, pid, i, name)
    ensures var id := Node(ById, s.tree, pid).kids[i].id; var u := Do(UpdateGroup(pid, id, name, true), s).s;
      && id in s.core.index && u.core.index == s.core.index
      && Agree(State(u.tree, u.core.(index := s.core.index[id := name])))
      && NamesAgree(State(u.tree, u.core.(index := s.core.index[id := name])))
  {
    var n := Node(ById, s.tree, pid);
    var h := n.kids[i].Head();
    KidFirst(s, pid, i);
    var r := UpdateIn(h.id, name, true, n, s.core);
    UpdateIs(s, pid, h.id, name, true, r);
    RenamedInIndex(s, pid, i, name, State(Put(ById, s.tree, pid, r.g), r.c));
  }

  lemma RenamedInIndex(s: State, pid: Str, i: nat, name: Str, s': State)
    requires Settled(s) && pid in Keys(ById, s.tree) && i < |Node(ById, s.tree, pid).kids|
    requires var n := Node(ById, s.tree, pid);
      s'.tree == Put(ById, s.tree, pid, n.(kids := n.kids[i := n.kids[i].(name := name)]))
    requires s'.core.list == WithGroupRenamed(s.core.list, Node(ById, s.tree, pid).kids[i].id, name).store
    ensures var id := Node(ById, s.tree, pid).kids[i].id;
      && id in s.core.index
      && Agree(State(s'.tree, s'.core.(index := s.core.index[id := name])))
      && NamesAgree(State(s'.tree, s'.core.(index := s.core.index[id := name])))
  {
    var h := Node(ById, s.tree, pid).kids[i].Head();
    TreeRenamed(s.tree, pid, i, name, s'.tree);
    KidIsKnown(s, pid, i);
    var r := ListRenamed(s.core, s'.core, h.id, name);
    NamedAnew(Headers(s.tree), s.core.index, ListMap(s.core), h, name, r);
  }

  lemma NamedAnew(hs: set<Header>, index: map<Str, Str>, list: map<Str, Record>, h: Header, name: Str, r: Record)
    requires Agreed(hs, index, list) && NamesIn(hs, index) && h in hs && h.id in index
    requires forall x :: x in hs && x.id == h.id ==> x == h
    requires r.group == name
    ensures Agreed(hs - {h} + {h.(name := name)}, index[h.id := name], list[h.id := r])
    ensures NamesIn(hs - {h} + {h.(name := name)}, index[h.id := name])
  {
    RenamedAgreed(hs, index, list, h, h.(name := name), r);
  }

  // ----- the restart -----

  /** The questions of a group after the restart: below the renamed group those last written to the disk. */
  function QuestionsBack(f: Group, last: Last, h: Header): seq<Question> {
    if h in Headers(f) then LastOf(last, h.id) else QuestionsAt(h)
  }

  ghost function ContentsBack(tree: Group, f: Group, last: Last): map<Str, map<Str, Record>> {
    map id | id in Contents(tree) :: if id in Keys(ById, f) then ToMap(LastOf(last, id)) else Contents(tree)[id]
  }

  lemma BackHas(sc: Scene, f: Group, x: Header) returns (x': Header)
    requires Parted(sc) && AllBack(sc) && sc.gone == Headers(f) && x in sc.stay + sc.gone
    ensures x' in sc.stay + sc.came && x'.id == x.id && QuestionsAt(x') == QuestionsBack(f, sc.m.last, x)
  {
    if x in sc.gone {
      x' := GoesTo(sc, x);
    } else {
      x' := x;
    }
  }

  lemma BackOf(sc: Scene, f: Group, x': Header) returns (x: Header)
    requires Parted(sc) && AllFrom(sc) && sc.gone == Headers(f) && sc.stay !! sc.gone && x' in sc.stay + sc.came
    ensures x in sc.stay + sc.gone && x'.id == x.id && QuestionsAt(x') == QuestionsBack(f, sc.m.last, x)
  {
    if x' in sc.came {
      x := CameFrom(sc, x');
    } else {
      x := x';
    }
  }

  /** What comes back is UTF-8 throughout, and fits, exactly when the questions to come back are and do. */
  ghost predicate AllReadableBack(f: Group, last: Last, hs: set<Header>) {
    forall h :: h in hs ==> Readable(QuestionsBack(f, last, h))
  }

  ghost predicate AllFitBack(f: Group, last: Last, hs: set<Header>) {
    forall h :: h in hs ==> Fits(QuestionsBack(f, last, h))
  }

  lemma BackReadable(sc: Scene, f: Group)
    requires Parted(sc) && AllFrom(sc) && sc.gone == Headers(f) && sc.stay !! sc.gone
    ensures AllReadableBack(f, sc.m.last, sc.stay + sc.gone) ==>
            forall h :: h in sc.stay + sc.came ==> Readable(QuestionsAt(h))
    ensures AllFitBack(f, sc.m.last, sc.stay + sc.gone) ==> forall h :: h in sc.stay + sc.came ==> Fits(QuestionsAt(h))
  {
    forall h | h in sc.stay + sc.came
      ensures AllReadableBack(f, sc.m.last, sc.stay + sc.gone) ==> Readable(QuestionsAt(h))
      ensures AllFitBack(f, sc.m.last, sc.stay + sc.gone) ==> Fits(QuestionsAt(h))
    {
      var x := BackOf(sc, f, h);
    }
  }

  lemma ReadableBack(sc: Scene, f: Group)
    requires Parted(sc) && AllBack(sc) && sc.gone == Headers(f)
    requires forall h :: h in sc.stay + sc.came ==> Readable(QuestionsAt(h))
    ensures AllReadableBack(f, sc.m.last, sc.stay + sc.gone)
  {
    forall h | h in sc.stay + sc.gone
      ensures Readable(QuestionsBack(f, sc.m.last, h))
    {
      var x' := BackHas(sc, f, h);
    }
  }

  lemma BackContentsAt(sc: Scene, tree: Group, f: Group, x': Header)
    requires Parted(sc) && AllFrom(sc) && sc.gone == Headers(f) && sc.stay !! sc.gone
    requires Unique(ById, tree) && Headers(tree) == sc.stay + sc.gone
    requires x' in sc.stay + sc.came && x'.id != []
    ensures var m := ContentsBack(tree, f, sc.m.last); x'.id in m && m[x'.id] == ToMap(QuestionsAt(x'))
  {
    SubtreeById(tree, f);
    var x := BackOf(sc, f, x');
    ContentsOfNode(tree, x);
  }

  lemma BackHasId(sc: Scene, tree: Group, f: Group, id: Str)
    requires Parted(sc) && AllBack(sc) && sc.gone == Headers(f)
    requires Unique(ById, tree) && Headers(tree) == sc.stay + sc.gone && id in Contents(tree)
    ensures HasId(sc.stay + sc.came, id)
  {
    NodeIsHere(tree, id);
    var x' := BackHas(sc, f, Node(ById, tree, id).Head());
  }

  lemma BackContents(sc: Scene, tree: Group, f: Group, t: Group)
    requires Parted(sc) && AllFrom(sc) && AllBack(sc) && sc.gone == Headers(f) && sc.stay !! sc.gone
    requires Unique(ById, tree) && Headers(tree) == sc.stay + sc.gone
    requires Unique(ById, t) && Headers(t) == sc.stay + sc.came
    ensures Contents(t) == ContentsBack(tree, f, sc.m.last)
  {
    var m := ContentsBack(tree, f, sc.m.last);
    forall x' | x' in Headers(t) && x'.id != []
      ensures x'.id in m && m[x'.id] == ToMap(QuestionsAt(x'))
    {
      BackContentsAt(sc, tree, f, x');
    }
    forall id | id in m
      ensures id != [] && HasId(Headers(t), id)
    {
      BackHasId(sc, tree, f, id);
    }
    ContentsAre(t, m);
  }

  /** `u` saves as `t`, and `c` is what init reads from the list. */
  ghost predicate Bound(u: State, t: Group, c: Core) {
    && SavesAs(u, t)
    && c == Core(Emplaced(u.core.list.groups, map[]), u.core.list, Saved(u))
    && Agree(State(t, c)) && NamesAgree(State(t, c)) && ListLaid(c, t.Head())
  }

  lemma BackIsBound(s: State, pid: Str, i: nat, name: Str, last: Last, u: State, t: Group, c: Core)
    requires Renames(s, pid, i, name) && AsLast(SceneOf(s, pid, i, name, last))
    requires t == Back(s.tree, pid, i, name, last)
    requires u == Do(UpdateGroup(pid, Node(ById, s.tree, pid).kids[i].id, name, true), s).s
    requires c == Core(s.core.index[Node(ById, s.tree, pid).kids[i].id := name], u.core.list, Saved(u))
    ensures Bound(u, t, c) && c.index.Keys == u.core.index.Keys
  {
    RenamedSaves(s, pid, i, name, last, u, t);
    BranchNamed(s, pid, i, name, last, u, t);
    BackAgrees(s, pid, i, name, u, t, c);
  }

  /** The questions of the tree that comes back. */
  lemma BackHolds(s: State, pid: Str, i: nat, name: Str, last: Last, t: Group)
    requires Renames(s, pid, i, name) && t == Back(s.tree, pid, i, name, last)
    ensures var f := Node(ById, s.tree, pid).kids[i];
      t.path == s.tree.path && Contents(t) == ContentsBack(s.tree, f, last) && BackAlike(s.tree, f, last, t)
  {
    var f, sc := Node(ById, s.tree, pid).kids[i], SceneOf(s, pid, i, name, last);
    BackHeaders(s, pid, i, name, last, t);
    SceneStood(s, pid, i, name, last);
    SceneIsParted(s, pid, i, name, last);
    BackIsTold(sc, s.tree, f, t);
  }

  lemma BackIsTold(sc: Scene, tree: Group, f: Group, t: Group)
    requires Parted(sc) && AllFrom(sc) && AllBack(sc) && Divided(sc, tree, f) && Built(sc, t) && Unique(ById, tree)
    ensures Contents(t) == ContentsBack(tree, f, sc.m.last) && BackAlike(tree, f, sc.m.last, t)
  {
    BackIsAlike(sc, tree, f, t);
    BackContents(sc, tree, f, t);
  }

  ghost predicate BackAlike(tree: Group, f: Group, last: Last, t: Group) {
    && ((forall h :: h in Headers(t) ==> Readable(QuestionsAt(h))) <==> AllReadableBack(f, last, Headers(tree)))
    && (AllFitBack(f, last, Headers(tree)) ==> forall h :: h in Headers(t) ==> Fits(QuestionsAt(h)))
  }

  lemma BackIsAlike(sc: Scene, tree: Group, f: Group, t: Group)
    requires Parted(sc) && AllFrom(sc) && AllBack(sc) && sc.gone == Headers(f) && sc.stay !! sc.gone
    requires Headers(tree) == sc.stay + sc.gone && Headers(t) == sc.stay + sc.came
    ensures BackAlike(tree, f, sc.m.last, t)
  {
    BackReadable(sc, f);
    if forall h :: h in sc.stay + sc.came ==> Readable(QuestionsAt(h)) {
      ReadableBack(sc, f);
    }
  }

  /** What saving put on the disk comes back settled, if index and list agree with it. */
  lemma LoadsAndSettles(u: State, t: Group, walk: seq<Entry>, order: seq<Str>, c: Core)
    requires Bound(u, t, c) && Fits(u.core.list.groups) && forall h :: h in Headers(t) ==> Fits(QuestionsAt(h))
    requires IsWalk(t.path, Saved(u), walk) && Lists(order, c.index)
    ensures var r := Init(t.path, Saved(u), walk, order);
      && (r.ok <==> Readable(u.core.list.groups) && forall h :: h in Headers(t) ==> Readable(QuestionsAt(h)))
      && (r.ok ==> r.s.core == c && Settled(r.s) && Alike(t, r.s.tree) && Contents(r.s.tree) == Contents(t))
  {
    SettledFinds(State(t, c), order);
    InitLoads(u, t, walk, order);
    SavedHolds(u, t);
    var r := Init(t.path, Saved(u), walk, order);
    if r.ok {
      LoadedSettles(t, r.s);
    }
  }

  lemma BackAgrees(s: State, pid: Str, i: nat, name: Str, u: State, t: Group, c: Core)
    requires Renames(s, pid, i, name)
    requires u == Do(UpdateGroup(pid, Node(ById, s.tree, pid).kids[i].id, name, true), s).s
    requires Unique(ById, t) && t.id == [] && NamedAlike(Headers(u.tree), Headers(t))
    requires c.index == s.core.index[Node(ById, s.tree, pid).kids[i].id := name] && c.list == u.core.list
    ensures Agree(State(t, c)) && NamesAgree(State(t, c))
    ensures c.index == Emplaced(u.core.list.groups, map[]) && c.index.Keys == u.core.index.Keys
  {
    RenamedIndex(s, pid, i, name);
    AgreesAnew(u, t, c);
  }

  lemma AgreesAnew(u: State, t: Group, c: Core)
    requires Agree(State(u.tree, u.core.(index := c.index))) && NamesAgree(State(u.tree, u.core.(index := c.index)))
    requires Unique(ById, t) && t.id == [] && NamedAlike(Headers(u.tree), Headers(t))
    requires c.list == u.core.list
    ensures Agree(State(t, c)) && NamesAgree(State(t, c))
    ensures c.index == Emplaced(u.core.list.groups, map[])
  {
    IndexComesBack(State(u.tree, u.core.(index := c.index)));
    SameNodesAgree(State(u.tree, u.core.(index := c.index)), t, c);
  }

  /** Rename, save, restart.  The rename is to a name that is new and fits, and the directory was moved.
      The restart comes up exactly when every string is UTF-8, and is settled again.  Then the group is
      at its new path with its new name, in tree, list and index; below it every group has the questions
      that its file had before the rename, whatever was in memory; and all others are as they were. */
  lemma RenameComesBack(s: State, pid: Str, id: Str, name: Str, last: Last, walk: seq<Entry>, order: seq<Str>)
    requires Settled(s) && pid in Keys(ById, s.tree) && IsKid(s, pid, id)
    requires ValidName(name) && NameFits(pid, name) && name !in Keys(ByName, s.tree)
    requires var n := Node(ById, s.tree, pid); var f := n.kids[KidIndex(n.kids, id)];
      forall h :: h in Headers(f) ==> FileIsLast(s.core.disk, StoreFile(h), LastOf(last, h.id))
    requires var n := Node(ById, s.tree, pid); var f := n.kids[KidIndex(n.kids, id)];
      AllFitBack(f, last, Headers(s.tree))
    requires var u := Do(UpdateGroup(pid, id, name, true), s).s;
      Fits(u.core.list.groups) && IsWalk(s.tree.path, Saved(u), walk) && Lists(order, u.core.index)
    ensures var n := Node(ById, s.tree, pid); var i := KidIndex(n.kids, id); var f := n.kids[i];
      var u := Do(UpdateGroup(pid, id, name, true), s).s;
      var r := Init(s.tree.path, Saved(u), walk, order);
      && (r.ok <==>
            Readable(u.core.list.groups) && AllReadableBack(f, last, Headers(s.tree)))
      && (r.ok ==>
            && Settled(r.s) && Alike(Back(s.tree, pid, i, name, last), r.s.tree)
            && Contents(r.s.tree) == ContentsBack(s.tree, f, last)
            && r.s.core.index == s.core.index[id := name] && r.s.core.list == u.core.list)
  {
    var i := KidIndex(Node(ById, s.tree, pid).kids, id);
    var t, u := Back(s.tree, pid, i, name, last), Do(UpdateGroup(pid, id, name, true), s).s;
    var c := Core(s.core.index[id := name], u.core.list, Saved(u));
    BackIsBound(s, pid, i, name, last, u, t, c);
    BackHolds(s, pid, i, name, last, t);
    LoadsAndSettles(u, t, walk, order, c);
  }
}
