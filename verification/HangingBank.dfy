/** A bank on which Previous hangs after Next, reached by six calls from the first start: a group with two
    subgroups in it, a group beside it, a question in the first subgroup and one in the group beside.
    The second subgroup stays empty, and there Previous, coming from the second question, turns for ever,
    whatever names and ids are used. */
module HangingBank {
  import opened Bytes
  import opened Records
  import opened Stores
  import opened Groups
  import opened Bank
  import opened Agreement
  import opened Layout
  import opened Calls
  import opened Departures
  import T = QuestionTree
  import W = Walker

  // ----- nodes of small trees -----

  /** A node below the `i`-th subgroup is found and replaced there. */
  lemma {:induction false} PutBelow(gs: seq<Group>, i: nat, key: Str, n: Group)
    requires UniqueAll(ById, gs) && i < |gs| && key in Keys(ById, gs[i])
    ensures key in KeysOf(ById, gs) && NodeIn(ById, gs, key) == Node(ById, gs[i], key)
    ensures PutIn(ById, gs, key, n) == gs[i := Put(ById, gs[i], key, n)]
  {
    if i > 0 {
      PutBelow(gs[1..], i - 1, key, n);
    }
  }

  lemma PutInKid(g: Group, i: nat, key: Str, n: Group)
    requires Unique(ById, g) && i < |g.kids| && key in Keys(ById, g.kids[i])
    ensures key in Keys(ById, g) && Node(ById, g, key) == Node(ById, g.kids[i], key)
    ensures Put(ById, g, key, n) == g.(kids := g.kids[i := Put(ById, g.kids[i], key, n)])
  {
    PutBelow(g.kids, i, key, n);
    KeysOfNode(ById, g);
  }

  // ----- the first question of a group -----

  function FirstStore(h: Header, q: Question): Store {
    Store(StoreFile(h), [], [q])
  }

  lemma FirstQuestion(s: State, gid: Str, qid: Str, question: Str, answer: Str)
    requires Settled(s) && gid in s.core.index && gid in Keys(ById, s.tree) && Node(ById, s.tree, gid).stores == []
    ensures var u := Do(OnQuestion(gid, AddQuestion(qid, question, answer)), s).s; var n := Node(ById, s.tree, gid);
      && Settled(u) && u.core == s.core
      && u.tree == Put(ById, s.tree, gid,
                       n.(stores := [FirstStore(n.Head(), QuestionAnswer(question, answer, gid, qid))]))
  {
    var call := AddQuestion(qid, question, answer);
    QuestionCallRefines(s, gid, call);
    QuestionIsOneEdit(s, gid, call);
    var n := Node(ById, s.tree, gid);
    AskedStore(s, gid, call);
    StoreFileIsFree(s.tree, s.core.disk, n.Head());
    FirstAsked(s.core, n, gid, qid, question, answer);
  }

  lemma FirstAsked(c: Core, n: Group, gid: Str, qid: Str, question: Str, answer: Str)
    requires n.stores == [] && n.id == gid && !Exists(c.disk, StoreFile(n.Head()))
    ensures AskIn(AddQuestion(qid, question, answer), n, c).g.stores ==
            [FirstStore(n.Head(), QuestionAnswer(question, answer, gid, qid))]
  {
    var store := FRESH.(path := StoreFile(n.Head()));
    assert store.path != [];
    assert Opened(FRESH, c.disk, StoreFile(n.Head()), true) == Result(true, store);
    FirstAdded(store, QuestionAnswer(question, answer, gid, qid));
    OneStore(FirstStore(n.Head(), QuestionAnswer(question, answer, gid, qid)));
  }

  lemma FirstAdded(store: Store, q: Question)
    requires store.path != [] && store.questions == []
    ensures WithQuestion(store, q).ok && WithQuestion(store, q).store == store.(questions := [q])
  {
    assert store.questions + [q] == [q];
  }

  lemma OneStore(store: Store)
    ensures [store] + [] == [store]
  {
  }

  // ----- the bank -----

  ghost predicate UsableBeside(path: Str, g: Named, a: Named, b: Named, c: Named) {
    && OneUsable(path, c) && c.0 != IDS_DAT
    && c.0 != g.0 && c.0 != a.0 && c.0 != b.0 && c.1 != g.1 && c.1 != a.1 && c.1 != b.1
  }

  ghost function FourGroups(path: Str, g: Named, a: Named, b: Named, c: Named): State {
    Do(AddGroup([], c.0, c.1, true), TwoSubgroups(path, g, a, b)).s
  }

  /** Groups `g`, with `a` and the empty `b` in it, and `c`; a question in `a` and one in `c`. */
  ghost function Hanging(path: Str, g: Named, a: Named, b: Named, c: Named, qid: Str): State {
    var s := Do(OnQuestion(a.1, AddQuestion(qid, [], [])), FourGroups(path, g, a, b, c)).s;
    Do(OnQuestion(c.1, AddQuestion(qid, [], [])), s).s
  }

  /** No store yet; two groups, two empty groups in the first. */
  ghost predicate FourNodes(s: State, a: Str, b: Str, c: Str) {
    && Settled(s) && |s.tree.kids| == 2 && s.tree.stores == []
    && |s.tree.kids[0].kids| == 2 && s.tree.kids[0].stores == []
    && IsLeaf(s.tree.kids[0].kids[0], a) && IsLeaf(s.tree.kids[0].kids[1], b) && IsLeaf(s.tree.kids[1], c)
    && a in s.core.index && b in s.core.index && c in s.core.index
  }

  /** One group with two empty groups in it. */
  ghost predicate ThreeNodes(s: State, g: Str, a: Str, b: Str) {
    && Settled(s) && |s.tree.kids| == 1
    && s.tree.kids[0].id == g && s.tree.kids[0].stores == [] && |s.tree.kids[0].kids| == 2
    && IsLeaf(s.tree.kids[0].kids[0], a) && IsLeaf(s.tree.kids[0].kids[1], b)
  }

  lemma OneMoreBelow(s: State, a: Str, name: Str, id: Str)
    requires Settled(s) && |s.tree.kids| == 1 && |s.tree.kids[0].kids| == 1 && s.tree.kids[0].id != []
    requires s.tree.kids[0].stores == [] && IsLeaf(s.tree.kids[0].kids[0], a)
    requires Fitting(s, s.tree.kids[0].id, name, id) && id !in s.core.index && name !in s.core.index.Values
    ensures var u := Do(AddGroup(s.tree.kids[0].id, name, id, true), s).s;
      ThreeNodes(u, s.tree.kids[0].id, a, id) && u.core.index == s.core.index[id := name] && u.tree.name == s.tree.name
  {
    GrowsOnlyKid(s, s.tree.kids[0], name, id);
  }

  lemma BankGrows(s: State, g: Str, a: Str, b: Str, name: Str, id: Str)
    requires ThreeNodes(s, g, a, b) && a in s.core.index && b in s.core.index
    requires Fitting(s, [], name, id) && id !in s.core.index && name !in s.core.index.Values
    ensures FourNodes(Do(AddGroup([], name, id, true), s).s, a, b, id)
  {
    RootHere(s.tree);
    Grows(s, [], name, id);
  }

  /** A name and an id that nothing in the bank has. */
  ghost predicate Fresh(s: State, pid: Str, x: Named) {
    Fitting(s, pid, x.0, x.1) && x.1 !in s.core.index && x.0 !in s.core.index.Values
  }

  lemma LastBelow(s: State, u: State, a: Str, b: Named, c: Named)
    requires |s.tree.kids| == 1 && ThreeNodes(u, s.tree.kids[0].id, a, b.1) && a in s.core.index
    requires u.core.index == s.core.index[b.1 := b.0] && u.tree.name == s.tree.name
    requires Fresh(s, [], c) && b.0 != c.0 && b.1 != c.1
    ensures FourNodes(Do(AddGroup([], c.0, c.1, true), u).s, a, b.1, c.1)
  {
    BankGrows(u, s.tree.kids[0].id, a, b.1, c.0, c.1);
  }

  lemma TwoMoreBelow(s: State, a: Str, b: Named, c: Named)
    requires Settled(s) && |s.tree.kids| == 1 && |s.tree.kids[0].kids| == 1 && s.tree.kids[0].id != []
    requires s.tree.kids[0].stores == [] && IsLeaf(s.tree.kids[0].kids[0], a) && a in s.core.index
    requires Fresh(s, s.tree.kids[0].id, b) && Fresh(s, [], c) && b.0 != c.0 && b.1 != c.1
    ensures var u := Do(AddGroup(s.tree.kids[0].id, b.0, b.1, true), s).s;
      FourNodes(Do(AddGroup([], c.0, c.1, true), u).s, a, b.1, c.1)
  {
    OneMoreBelow(s, a, b.0, b.1);
    LastBelow(s, Do(AddGroup(s.tree.kids[0].id, b.0, b.1, true), s).s, a, b, c);
  }

  lemma LeafHere(g: Group, n: Group)
    ensures g.id in Keys(ById, g) && Node(ById, g, g.id) == g && Put(ById, g, g.id, n) == n
  {
    assert g.Head() in Headers(g) && Key(ById, g.Head()) == g.id;
  }

  /** A leaf with its first question. */
  function Asked(g: Group, qid: Str): Group {
    g.(stores := [FirstStore(g.Head(), QuestionAnswer([], [], g.id, qid))])
  }

  /** The state after the first question of a leaf. */
  ghost predicate IsAsked(s: State, u: State, tree: Group) {
    Settled(u) && u.core == s.core && u.tree == tree
  }

  lemma AskHere(s: State, leaf: Group, id: Str, qid: Str, tree: Group)
    requires Settled(s) && id in s.core.index && id in Keys(ById, s.tree)
    requires IsLeaf(leaf, id) && Node(ById, s.tree, id) == leaf && tree == Put(ById, s.tree, id, Asked(leaf, qid))
    ensures IsAsked(s, Do(OnQuestion(id, AddQuestion(qid, [], [])), s).s, tree)
  {
    FirstQuestion(s, id, qid, [], []);
  }

  function FirstAnswered(g: Group, qid: Str): Group
    requires |g.kids| == 2 && |g.kids[0].kids| == 2
  {
    var f := g.kids[0];
    g.(kids := [f.(kids := [Asked(f.kids[0], qid), f.kids[1]]), g.kids[1]])
  }

  function BothAnswered(g: Group, qid: Str): Group
    requires |g.kids| == 2 && |g.kids[0].kids| == 2
  {
    g.(kids := [FirstAnswered(g, qid).kids[0], Asked(g.kids[1], qid)])
  }

  lemma FirstPlace(g: Group, a: Str, qid: Str)
    requires Unique(ById, g) && |g.kids| == 2 && |g.kids[0].kids| == 2 && IsLeaf(g.kids[0].kids[0], a)
    ensures a in Keys(ById, g) && Node(ById, g, a) == g.kids[0].kids[0]
    ensures Put(ById, g, a, Asked(g.kids[0].kids[0], qid)) == FirstAnswered(g, qid)
  {
    var f := g.kids[0];
    LeafHere(f.kids[0], Asked(f.kids[0], qid));
    PutInKid(f, 0, a, Asked(f.kids[0], qid));
    PutInKid(g, 0, a, Asked(f.kids[0], qid));
    assert f.kids[0 := Asked(f.kids[0], qid)] == [Asked(f.kids[0], qid), f.kids[1]];
    assert g.kids[0 := FirstAnswered(g, qid).kids[0]] == FirstAnswered(g, qid).kids;
  }

  lemma LastPlace(g: Group, c: Str, qid: Str)
    requires Unique(ById, g) && |g.kids| == 2 && IsLeaf(g.kids[1], c)
    ensures c in Keys(ById, g) && Node(ById, g, c) == g.kids[1]
    ensures Put(ById, g, c, Asked(g.kids[1], qid)) == g.(kids := [g.kids[0], Asked(g.kids[1], qid)])
  {
    LeafHere(g.kids[1], Asked(g.kids[1], qid));
    PutInKid(g, 1, c, Asked(g.kids[1], qid));
    assert g.kids[1 := Asked(g.kids[1], qid)] == [g.kids[0], Asked(g.kids[1], qid)];
  }

  lemma FirstIsAsked(s: State, a: Str, b: Str, c: Str, qid: Str)
    requires FourNodes(s, a, b, c)
    ensures IsAsked(s, Do(OnQuestion(a, AddQuestion(qid, [], [])), s).s, FirstAnswered(s.tree, qid))
  {
    FirstPlace(s.tree, a, qid);
    AskHere(s, s.tree.kids[0].kids[0], a, qid, FirstAnswered(s.tree, qid));
  }

  lemma LastIsAsked(s: State, c: Str, qid: Str, tree: Group)
    requires Settled(s) && |s.tree.kids| == 2 && IsLeaf(s.tree.kids[1], c) && c in s.core.index
    requires tree == s.tree.(kids := [s.tree.kids[0], Asked(s.tree.kids[1], qid)])
    ensures IsAsked(s, Do(OnQuestion(c, AddQuestion(qid, [], [])), s).s, tree)
  {
    LastPlace(s.tree, c, qid);
    AskHere(s, s.tree.kids[1], c, qid, tree);
  }

  // ----- its items -----

  lemma OneLeaf(g: Group, qid: Str)
    requires g.kids == []
    ensures T.TreeItem(Asked(g, qid)) == W.ONE
  {
    var stores := Asked(g, qid).stores;
    assert stores[0].path != [] && T.Own(stores[1..]) == [];
    assert |T.Own(stores)| == 1;
    assert T.TreeItem(Asked(g, qid)).kids == [W.Item(false, [])];
  }

  lemma NoLeaf(g: Group)
    requires g.kids == [] && g.stores == []
    ensures T.TreeItem(g) == W.Item(true, [])
  {
    assert T.TreeItem(g).kids == [];
  }

  lemma TwoItems(g: Group, x: Group, y: Group)
    requires g.kids == [x, y] && g.stores == []
    ensures T.TreeItem(g) == W.Item(true, [T.TreeItem(x), T.TreeItem(y)])
  {
    assert g.kids[1..] == [y] && [y][1..] == [];
    assert T.GroupItems([y]) == [T.TreeItem(y)] + T.GroupItems([]) == [T.TreeItem(y)];
    assert T.GroupItems(g.kids) == [T.TreeItem(x)] + T.GroupItems([y]);
    assert T.Own(g.stores) == [];
    assert T.TreeItem(g).kids == [T.TreeItem(x), T.TreeItem(y)];
  }

  lemma FourItems(g: Group, qid: Str)
    requires |g.kids| == 2 && g.stores == [] && |g.kids[0].kids| == 2 && g.kids[0].stores == []
    requires g.kids[1].kids == [] && g.kids[0].kids[0].kids == []
    requires g.kids[0].kids[1].kids == [] && g.kids[0].kids[1].stores == []
    ensures T.TreeItem(BothAnswered(g, qid)) == W.TWO_GROUPS
  {
    var f, f' := g.kids[0], FirstAnswered(g, qid).kids[0];
    OneLeaf(f.kids[0], qid);
    NoLeaf(f.kids[1]);
    TwoItems(f', Asked(f.kids[0], qid), f.kids[1]);
    OneLeaf(g.kids[1], qid);
    TwoItems(BothAnswered(g, qid), f', Asked(g.kids[1], qid));
  }

  lemma AskedTwice(s: State, a: Str, b: Str, c: Str, qid: Str)
    requires FourNodes(s, a, b, c)
    ensures var u := Do(OnQuestion(a, AddQuestion(qid, [], [])), s).s;
      var v := Do(OnQuestion(c, AddQuestion(qid, [], [])), u).s;
      Settled(v) && v.tree == BothAnswered(s.tree, qid)
  {
    FirstIsAsked(s, a, b, c, qid);
    LastIsAsked(Do(OnQuestion(a, AddQuestion(qid, [], [])), s).s, c, qid, BothAnswered(s.tree, qid));
  }

  lemma FreshHere(s: State, path: Str, g: Named, a: Named, pid: Str, x: Named)
    requires s.core.index == map[g.1 := g.0, a.1 := a.0] && s.tree.name == FileName(path)
    requires OneUsable(path, x) && NameFits(pid, x.0) && x.0 != g.0 && x.1 != g.1 && x.0 != a.0 && x.1 != a.1
    ensures Fresh(s, pid, x)
  {
  }

  lemma TwoMoreHere(s: State, path: Str, g: Named, a: Named, b: Named, c: Named)
    requires Usable(path, g, a, b) && UsableBeside(path, g, a, b, c)
    requires Settled(s) && s.core.index == map[g.1 := g.0, a.1 := a.0] && s.tree.name == FileName(path)
    requires |s.tree.kids| == 1 && s.tree.kids[0].id == g.1 && s.tree.kids[0].stores == []
    requires |s.tree.kids[0].kids| == 1 && IsLeaf(s.tree.kids[0].kids[0], a.1)
    ensures FourNodes(Do(AddGroup([], c.0, c.1, true), Do(AddGroup(g.1, b.0, b.1, true), s).s).s, a.1, b.1, c.1)
  {
    FreshHere(s, path, g, a, g.1, b);
    FreshHere(s, path, g, a, [], c);
    TwoMoreBelow(s, a.1, b, c);
  }

  lemma FourBelow(path: Str, g: Named, a: Named, b: Named, c: Named)
    requires Usable(path, g, a, b) && UsableBeside(path, g, a, b, c)
    ensures FourNodes(FourGroups(path, g, a, b, c), a.1, b.1, c.1)
  {
    FirstSubgroup(path, g, a);
    TwoMoreHere(OneSubgroup(path, g, a), path, g, a, b, c);
  }

  lemma HangingShows(path: Str, g: Named, a: Named, b: Named, c: Named, qid: Str)
    requires Usable(path, g, a, b) && UsableBeside(path, g, a, b, c)
    ensures var s := Hanging(path, g, a, b, c, qid); Settled(s) && T.TreeItem(s.tree) == W.TWO_GROUPS
  {
    FourBelow(path, g, a, b, c);
    AskedTwice(FourGroups(path, g, a, b, c), a.1, b.1, c.1, qid);
    FourItems(FourGroups(path, g, a, b, c).tree, qid);
  }

  /** Six calls from the first start reach a settled bank, whatever names and ids are used, on whose tree
      Next goes from the first question to the second and Previous from there turns for ever. */
  lemma LastMayHang(path: Str, g: Named, a: Named, b: Named, c: Named, qid: Str)
    requires Usable(path, g, a, b) && UsableBeside(path, g, a, b, c)
    ensures var s := Hanging(path, g, a, b, c, qid); var root := T.TreeItem(s.tree);
      && Settled(s)
      && W.IsQuestion(root, [0, 0, 0]) && W.IsQuestion(root, [1, 0])
      && W.Returns(root, false, [0, 0, 0], Some([1, 0]))
      && !W.Stops(root, true, [1, 0])
      && forall n: nat :: W.Turns(root, true, W.Running([1, 0], W.Dir(true)), n).Running?
  {
    HangingShows(path, g, a, b, c, qid);
    W.TwoGroupsPlaces();
    W.LastMayNotReturn();
  }
}
