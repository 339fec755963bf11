/** What the public calls keep of a settled bank, and what they do to the questions in it: adding a group,
    deleting one with all below it, from index, list and disk too, renaming one to the name it has, and
    the four question calls, which open a store late.  A bank stays settled exactly under proper calls. */
module Calls {
  import opened Bytes
  import opened Records
  import opened Stores
  import opened Groups
  import opened Bank
  import opened Agreement
  import opened Layout

  // ----- adding a group -----

  /** addGroup turns the call down, or finds no parent. */
  ghost predicate Refused(s: State, pid: Str, name: Str, id: Str) {
    id in s.core.index || name in s.core.index.Values || pid !in Keys(ById, s.tree)
  }

  /** A new group that has a directory and files of its own. */
  ghost predicate Fitting(s: State, pid: Str, name: Str, id: Str) {
    ValidName(name) && name != s.tree.name && NameFits(pid, name) && IdOk(id)
  }

  /** What a caller can check beforehand: an accepted new group fits and gets its directory, an id
      to delete is a subgroup of the parent named or unknown, and a rename changes no name. */
  ghost predicate Proper(call: Call, s: State) {
    match call
    case AddGroup(pid, name, id, mkdir) => Refused(s, pid, name, id) || (Fitting(s, pid, name, id) && mkdir)
    case DeleteGroup(pid, id) => Welcome(call, s)
    case UpdateGroup(pid, id, name, moved) =>
      pid in Keys(ById, s.tree) && IsKid(s, pid, id) ==> id in s.core.index && s.core.index[id] == name
    case OnQuestion(gid, question) => true
  }

  lemma AddedTreeIsLaid(tree: Group, pid: Str, leaf: Group, tree': Group)
    requires Laid(tree) && pid in Keys(ById, tree)
    requires leaf.id !in Keys(ById, tree) && leaf.name !in Keys(ByName, tree) && leaf.kids == [] && leaf.stores == []
    requires ValidName(leaf.name) && IdOk(leaf.id) && tree.id == [] && NameFits(pid, leaf.name)
    requires var n := Node(ById, tree, pid);
      leaf.path == Join(n.path, leaf.name) && tree' == Put(ById, tree, pid, n.(kids := n.kids + [leaf]))
    ensures Laid(tree') && tree'.Head() == tree.Head() && Headers(tree') == Headers(tree) + {leaf.Head()}
  {
    var n := Node(ById, tree, pid);
    TreeAdded(tree, pid, leaf, tree');
    PutKidUnique(ById, ByName, tree, pid, leaf);
    NodePlaced(ById, tree, pid);
    PlacedAppend(n.path, n.kids, leaf);
    PutPlaced(ById, tree, pid, n.(kids := n.kids + [leaf]));
    assert StoreOk(leaf.Head());
    NodeIsHere(tree, pid);
    NewPathIsNoFile(tree, n.Head(), leaf.name);
    NewStoreIsNoPath(tree, n.Head(), leaf.Head());
    assert FilesFree(Headers(tree'), tree'.Head());
  }

  /** No directory lies where the new group's store will, because none lies under the new path. */
  lemma NewStoreIsNoPath(tree: Group, n: Header, leaf: Header)
    requires Laid(tree) && n in Headers(tree) && leaf.name !in Keys(ByName, tree)
    requires ValidName(leaf.name) && NoSep(leaf.id) && leaf.path == Join(n.path, leaf.name)
    ensures forall x :: x in Headers(tree) ==> x.path != StoreFile(leaf)
    ensures leaf.path != StoreFile(leaf)
  {
    StoreFileSplits(leaf);
    JoinSplits(n.path, leaf.name);
    forall x | x in Headers(tree)
      ensures x.path != StoreFile(leaf)
    {
      if x.path == StoreFile(leaf) {
        NewPathIsAbove(tree, n, leaf, x);
      }
    }
  }

  lemma NewPathIsAbove(tree: Group, n: Header, leaf: Header, x: Header)
    requires Laid(tree) && n in Headers(tree) && leaf.name !in Keys(ByName, tree)
    requires ValidName(leaf.name) && leaf.path == Join(n.path, leaf.name) && x in Headers(tree)
    ensures !Under(leaf.path, x.path)
  {
    JoinSplits(n.path, leaf.name);
    forall y | y in Headers(tree)
      ensures y.path != leaf.path
    {
      PathIsName(tree, y);
    }
    PathsAreNames(tree, n);
    if Under(leaf.path, tree.path) {
      UnderIsLonger(leaf.path, tree.path);
      UnderIsLonger(tree.path, n.path);
    }
    NothingUnder(tree, leaf.path, x);
  }

  lemma AddedOnDisk(hs: set<Header>, root: Header, d: Disk, leaf: Header, d': Disk)
    requires OnDisk(hs, root, d) && d' == d.(dirs := d.dirs + {leaf.path})
    ensures OnDisk(hs + {leaf}, root, d')
  {
    forall p | p in d'.dirs && Under(root.path, p)
      ensures HasPath(hs + {leaf}, p)
    {
      if p in d.dirs {
        var h :| h in hs && h.path == p;
        assert h in hs + {leaf};
      } else {
        assert leaf in hs + {leaf};
      }
    }
    forall p | p in d.files && Under(root.path, p) && p != IdsFile(root)
      ensures HasStore(hs + {leaf}, p)
    {
      var h :| h in hs && h.stores != [] && StoreFile(h) == p;
      assert h in hs + {leaf};
    }
  }

  lemma NewNameIsNew(s: State, name: Str)
    requires Settled(s) && name !in s.core.index.Values && name != s.tree.name
    ensures name !in Keys(ByName, s.tree)
  {
    forall h | h in Headers(s.tree)
      ensures h.name != name
    {
      if h.id == [] {
        assert s.tree.Head() in Headers(s.tree);
        KeyOfOne(ById, s.tree, h, s.tree.Head());
      }
    }
  }

  lemma AddSettles(s: State, pid: Str, name: Str, id: Str)
    requires Settled(s) && Fitting(s, pid, name, id)
    ensures var o := Do(AddGroup(pid, name, id, true), s);
      && Settled(o.s)
      && (o.ok <==> !Refused(s, pid, name, id))
      && (!o.ok ==> o.s == s)
      && (o.ok ==>
            && Headers(o.s.tree) == Headers(s.tree) + {Header(name, id, Join(Node(ById, s.tree, pid).path, name), [])}
            && o.s.tree.Head() == s.tree.Head())
  {
    var o := Do(AddGroup(pid, name, id, true), s);
    CtrlIsOneEdit(pid, Add(id, name, true), s);
    if Refused(s, pid, name, id) {
      return;
    }
    var n := Node(ById, s.tree, pid);
    var leaf := Group(name, id, Join(n.path, name), [], []);
    NewNameIsNew(s, name);
    NodeIsHere(s.tree, pid);
    NewPathIsFree(s, n.Head(), name);
    AddedSettles(s, o.s, pid, leaf);
  }

  lemma AddedSettles(s: State, s': State, pid: Str, leaf: Group)
    requires Settled(s) && pid in Keys(ById, s.tree)
    requires leaf.kids == [] && leaf.stores == [] && ValidName(leaf.name) && IdOk(leaf.id) && NameFits(pid, leaf.name)
    requires leaf.id !in s.core.index && leaf.name !in Keys(ByName, s.tree)
    requires var n := Node(ById, s.tree, pid);
      leaf.path == Join(n.path, leaf.name) && s'.tree == Put(ById, s.tree, pid, n.(kids := n.kids + [leaf]))
    requires s'.core.index == s.core.index[leaf.id := leaf.name]
    requires s'.core.list == WithGroup(s.core.list, leaf.id, leaf.name).store
    requires s'.core.disk == s.core.disk.(dirs := s.core.disk.dirs + {leaf.path})
    ensures Settled(s') && Headers(s'.tree) == Headers(s.tree) + {leaf.Head()} && s'.tree.Head() == s.tree.Head()
  {
    KnownIds(s, leaf.id);
    AddAgrees(s, s', pid, leaf);
    AddedTreeIsLaid(s.tree, pid, leaf, s'.tree);
    AddedOnDisk(Headers(s.tree), s.tree.Head(), s.core.disk, leaf.Head(), s'.core.disk);
  }

  // ----- deleting a group -----

  /** The disk is the same except under `p`. */
  ghost predicate SameOutside(d: Disk, d': Disk, p: Str) {
    forall q :: !Under(p, q) ==>
      && (q in d'.dirs <==> q in d.dirs)
      && (q in d'.files <==> q in d.files)
      && (q in d.files ==> d'.files[q] == d.files[q])
  }

  lemma OutsideChain(a: Disk, b: Disk, c: Disk, p: Str, q: Str)
    requires SameOutside(a, b, p) && SameOutside(b, c, q) && Under(p, q)
    ensures SameOutside(a, c, p)
  {
    forall x | !Under(p, x)
      ensures !Under(q, x)
    {
      if Under(q, x) {
        UnderTransitive(p, q, x);
      }
    }
  }

  ghost predicate StoresUnder(stores: seq<Store>, p: Str) {
    forall s :: s in stores ==> Under(p, s.path)
  }

  lemma {:induction false} CloseAllOutside(stores: seq<Store>, d: Disk, p: Str)
    requires StoresUnder(stores, p)
    ensures SameOutside(d, CloseAll(stores, d), p)
    ensures CloseAll(stores, d).dirs == d.dirs
  {
    if stores != [] {
      assert stores[0] in stores;
      CloseAllOutside(stores[1..], Closed(stores[0], d), p);
    }
  }

  lemma RemoveAllOutside(d: Disk, p: Str)
    ensures SameOutside(d, RemoveAll(d, p), p)
  {
  }

  /** Stores below a node lie in their groups' directories. */
  ghost predicate StoresHome(gs: seq<Group>) {
    forall h :: h in HeadersOf(gs) ==> StoresUnder(h.stores, h.path)
  }

  lemma KidHome(g: Group, i: nat)
    requires Placed(g) && StoresHome(g.kids) && i < |g.kids|
    ensures var f := g.kids[i];
      && Placed(f) && StoresHome(f.kids) && StoresUnder(f.stores, f.path)
      && Under(g.path, f.path) && !Under(f.path, g.path)
      && Placed(g.(kids := g.kids[..i] + g.kids[i + 1..])) && StoresHome(g.kids[..i] + g.kids[i + 1..])
  {
    var f := g.kids[i];
    PlacedAt(g.path, g.kids, i);
    JoinSplits(g.path, f.name);
    KidsSplit(g.kids, i);
    assert f.Head() in Headers(f);
    if Under(f.path, g.path) {
      UnderIsLonger(f.path, g.path);
    }
  }

  /** Deleting a subgroup touches the disk only under the subgroup's directory, and leaves nothing
      there when the directory was there. */
  lemma {:induction false} DeleteDisk(id: Str, g: Group, c: Core)
    requires KidIndex(g.kids, id) < |g.kids| && Placed(g) && StoresHome(g.kids)
    ensures var f := g.kids[KidIndex(g.kids, id)]; var d' := DeleteIn(id, g, c).c.disk;
      && SameOutside(c.disk, d', f.path)
      && (f.path in c.disk.dirs ==> forall q :: Under(f.path, q) ==> !Exists(d', q))
    decreases Size(g), 0
  {
    var i := KidIndex(g.kids, id);
    var f := g.kids[i];
    KidsSplit(g.kids, i);
    KidHome(g, i);
    var c1 := c.(index := c.index - {id}, list := WithoutGroup(c.list, id).store);
    var c2 := c1.(disk := CloseAll(f.stores, c1.disk));
    var c3 := DeleteKids(f.(stores := []), c2);
    CloseAllOutside(f.stores, c1.disk, f.path);
    DeleteKidsDisk(f.(stores := []), c2);
    RemoveAllOutside(c3.disk, f.path);
    OutsideChain(c.disk, c2.disk, c3.disk, f.path, f.path);
    OutsideChain(c.disk, c3.disk, RemoveAll(c3.disk, f.path), f.path, f.path);
  }

  lemma {:induction false} DeleteKidsDisk(f: Group, c: Core)
    requires Placed(f) && StoresHome(f.kids)
    ensures SameOutside(c.disk, DeleteKids(f, c).disk, f.path)
    ensures f.path in DeleteKids(f, c).disk.dirs <==> f.path in c.disk.dirs
    decreases Size(f), 1
  {
    if f.kids == [] {
      return;
    }
    var r := DeleteIn(f.kids[0].id, f, c);
    KidsSplit(f.kids, 0);
    KidHome(f, 0);
    DeleteDisk(f.kids[0].id, f, c);
    DeleteKidsDisk(r.g, r.c);
    OutsideSelf(c.disk, f.path);
    OutsideChain(c.disk, c.disk, r.c.disk, f.path, f.kids[0].path);
    OutsideChain(c.disk, r.c.disk, DeleteKids(r.g, r.c).disk, f.path, f.path);
  }

  lemma OutsideSelf(d: Disk, p: Str)
    ensures SameOutside(d, d, p)
  {
  }

  lemma DeletedOnDisk(hs: set<Header>, root: Header, d: Disk, gone: set<Header>, d': Disk, p: Str)
    requires OnDisk(hs, root, d) && gone <= hs
    requires SameOutside(d, d', p) && forall q :: Under(p, q) ==> !Exists(d', q)
    requires forall h :: h in gone ==> Under(p, h.path) && Under(p, StoreFile(h))
    requires forall h :: h in hs - gone ==> !Under(p, h.path)
    ensures OnDisk(hs - gone, root, d')
  {
    forall q | q in d'.dirs && Under(root.path, q)
      ensures HasPath(hs - gone, q)
    {
      assert Exists(d', q);
      var h :| h in hs && h.path == q;
      assert h in hs - gone;
    }
    forall q | q in d'.files && Under(root.path, q) && q != IdsFile(root)
      ensures HasStore(hs - gone, q)
    {
      assert Exists(d', q);
      var h :| h in hs && h.stores != [] && StoreFile(h) == q;
      assert h in hs - gone;
    }
  }

  /** The nodes under a subgroup's path are exactly those of its subtree. */
  lemma SubtreeByPath(tree: Group, tree': Group, f: Group)
    requires Laid(tree) && Laid(tree') && tree'.Head() == tree.Head()
    requires Headers(f) <= Headers(tree) && Headers(tree') == Headers(tree) - Headers(f)
    requires Placed(f) && f.Head() != tree.Head()
    ensures forall h :: h in Headers(f) ==> Under(f.path, h.path) && Under(f.path, StoreFile(h))
    ensures forall h :: h in Headers(tree') ==> !Under(f.path, h.path)
  {
    assert f.Head() in Headers(f) && tree'.Head() in Headers(tree');
    forall h | h in Headers(f)
      ensures Under(f.path, h.path) && Under(f.path, StoreFile(h))
    {
      PathsAreNames(f, h);
      StoreFileSplits(h);
      UnderTransitive(f.path, h.path, StoreFile(h));
    }
    PathsAreNames(tree, f.Head());
    if Under(f.path, tree.path) {
      UnderIsLonger(f.path, tree.path);
      UnderIsLonger(tree.path, ParentPath(f.path));
    }
    forall h | h in Headers(tree')
      ensures !Under(f.path, h.path)
    {
      forall x | x in Headers(tree')
        ensures x.path != f.path
      {
        PathsDiffer(tree, x, f.Head());
      }
      NothingUnder(tree', f.path, h);
    }
  }

  lemma DroppedTreeIsLaid(tree: Group, pid: Str, i: nat, tree': Group)
    requires Laid(tree) && pid in Keys(ById, tree) && i < |Node(ById, tree, pid).kids|
    requires var n := Node(ById, tree, pid);
      tree' == Put(ById, tree, pid, n.(kids := n.kids[..i] + n.kids[i + 1..]))
    ensures var f := Node(ById, tree, pid).kids[i];
      && Laid(tree') && tree'.Head() == tree.Head()
      && Headers(f) <= Headers(tree) && Headers(tree') == Headers(tree) - Headers(f)
      && Placed(f) && f.Head() in Headers(f) && f.Head() != tree.Head()
  {
    var n := Node(ById, tree, pid);
    TreeDropped(tree, pid, i, tree');
    DropKid(ById, tree, pid, i);
    NodePlaced(ById, tree, pid);
    PlacedAt(n.path, n.kids, i);
    PutPlaced(ById, tree, pid, n.(kids := n.kids[..i] + n.kids[i + 1..]));
    assert n.kids[i].Head() in Headers(n.kids[i]);
    assert tree'.Head() in Headers(tree');
  }

  lemma NodeHome(tree: Group, pid: Str)
    requires Laid(tree) && pid in Keys(ById, tree)
    ensures Placed(Node(ById, tree, pid)) && StoresHome(Node(ById, tree, pid).kids)
  {
    var n := Node(ById, tree, pid);
    NodePlaced(ById, tree, pid);
    PutHeaders(ById, tree, pid, n);
    forall h | h in HeadersOf(n.kids)
      ensures StoresUnder(h.stores, h.path)
    {
      assert h in Headers(tree);
      if h != tree.Head() {
        HomeStores(h);
      }
    }
  }

  lemma HomeStores(h: Header)
    requires StoreOk(h) && NoSep(h.id)
    ensures StoresUnder(h.stores, h.path)
  {
    StoreFileSplits(h);
    assert forall s :: s in h.stores ==> s == h.stores[0];
  }

  /** Deleting a subgroup that is there leaves the bank settled. */
  lemma DeleteSettles(s: State, pid: Str, id: Str)
    requires Settled(s) && pid in Keys(ById, s.tree) && IsKid(s, pid, id)
    ensures Settled(Do(DeleteGroup(pid, id), s).s)
  {
    var r := DeleteRunHere(s, pid, id);
    SettlesWithout(s, State(Put(ById, s.tree, pid, r.g), r.c), pid, KidIndex(Node(ById, s.tree, pid).kids, id), r);
  }

  lemma DeleteRunHere(s: State, pid: Str, id: Str) returns (r: Visited)
    requires Settled(s) && pid in Keys(ById, s.tree) && IsKid(s, pid, id)
    ensures Do(DeleteGroup(pid, id), s) == Outcome(true, State(Put(ById, s.tree, pid, r.g), r.c), [])
    ensures var n := Node(ById, s.tree, pid); TakenOut(s.core, n, KidIndex(n.kids, id), r)
  {
    var n := Node(ById, s.tree, pid);
    r := DeleteIn(id, n, s.core);
    DeleteIs(s, pid, id, r);
    DeletedIds(id, n, s.core, r);
    NodeHome(s.tree, pid);
    DeletedPlaces(id, n, s.core, r);
  }

  /** What taking out the `i`-th subgroup of `n` does to index, list and disk. */
  ghost predicate TakenOut(c: Core, n: Group, i: nat, r: Visited)
    requires i < |n.kids|
  {
    var f := n.kids[i];
    && LostKid(c, n, i, r) && r.c.list.questions == c.list.questions
    && SameOutside(c.disk, r.c.disk, f.path)
    && (f.path in c.disk.dirs ==> forall q :: Under(f.path, q) ==> !Exists(r.c.disk, q))
  }

  lemma SettlesWithout(s: State, s': State, pid: Str, i: nat, r: Visited)
    requires Settled(s) && pid in Keys(ById, s.tree) && i < |Node(ById, s.tree, pid).kids|
    requires TakenOut(s.core, Node(ById, s.tree, pid), i, r)
    requires s' == State(Put(ById, s.tree, pid, r.g), r.c)
    ensures Settled(s')
  {
    TakesSubtree(s, s', pid, i, r);
    DroppedSettles(s, s', pid, i);
  }

  lemma DeletedPlaces(id: Str, g: Group, c: Core, r: Visited)
    requires KidIndex(g.kids, id) < |g.kids| && Placed(g) && StoresHome(g.kids) && r == DeleteIn(id, g, c)
    ensures var i := KidIndex(g.kids, id); var f := g.kids[i];
      && r.g == g.(kids := g.kids[..i] + g.kids[i + 1..])
      && r.c.list.questions == c.list.questions
      && SameOutside(c.disk, r.c.disk, f.path)
      && (f.path in c.disk.dirs ==> forall q :: Under(f.path, q) ==> !Exists(r.c.disk, q))
  {
    DeleteDisk(id, g, c);
    DeleteKeepsListPlace(id, g, c);
  }

  lemma DroppedSettles(s: State, s': State, pid: Str, i: nat)
    requires Settled(s) && pid in Keys(ById, s.tree) && i < |Node(ById, s.tree, pid).kids|
    requires var n := Node(ById, s.tree, pid);
      s'.tree == Put(ById, s.tree, pid, n.(kids := n.kids[..i] + n.kids[i + 1..]))
    requires Agree(s') && NamesAgree(s') && ListLaid(s'.core, s.tree.Head())
    requires var f := Node(ById, s.tree, pid).kids[i];
      && SameOutside(s.core.disk, s'.core.disk, f.path)
      && (f.path in s.core.disk.dirs ==> forall q :: Under(f.path, q) ==> !Exists(s'.core.disk, q))
    ensures Settled(s')
  {
    var f := Node(ById, s.tree, pid).kids[i];
    DroppedTreeIsLaid(s.tree, pid, i, s'.tree);
    SubtreeByPath(s.tree, s'.tree, f);
    DeletedOnDisk(Headers(s.tree), s.tree.Head(), s.core.disk, Headers(f), s'.core.disk, f.path);
  }

  lemma {:induction false} DeleteKeepsListPlace(id: Str, g: Group, c: Core)
    ensures DeleteIn(id, g, c).c.list.questions == c.list.questions
    decreases Size(g), 0
  {
    var i := KidIndex(g.kids, id);
    if i < |g.kids| {
      var f := g.kids[i];
      KidsSplit(g.kids, i);
      var c1 := c.(index := c.index - {id}, list := WithoutGroup(c.list, id).store);
      DeleteKidsKeepsListPlace(f.(stores := []), c1.(disk := CloseAll(f.stores, c1.disk)));
    }
  }

  lemma {:induction false} DeleteKidsKeepsListPlace(f: Group, c: Core)
    ensures DeleteKids(f, c).list.questions == c.list.questions
    decreases Size(f), 1
  {
    if f.kids != [] {
      KidsSplit(f.kids, 0);
      DeleteKeepsListPlace(f.kids[0].id, f, c);
      var r := DeleteIn(f.kids[0].id, f, c);
      DeleteKidsKeepsListPlace(r.g, r.c);
    }
  }

  // ----- questions -----

  /** The map of questions a group stands for. */
  function QuestionsAt(h: Header): seq<Record> {
    if h.stores == [] then [] else h.stores[0].questions
  }

  /** What the bank holds: for every group the map of its questions. */
  ghost function Contents(tree: Group): map<Str, map<Str, Record>> {
    map id | id in Keys(ById, tree) && id != [] :: ToMap(QuestionsAt(Node(ById, tree, id).Head()))
  }

  /** The call on a plain map of questions. */
  function OnMap(call: QuestionCall, gid: Str, m: map<Str, Record>): (Reply, map<Str, Record>) {
    match call
    case AddQuestion(qid, question, answer) =>
      if qid in m then (Reply(false, []), m)
      else (Reply(true, []), m[qid := QuestionAnswer(question, answer, gid, qid)])
    case DeleteQuestion(qid) => (Reply(qid in m, []), m - {qid})
    case QueryQuestion(qid) =>
      (if qid in m && m[qid].QuestionAnswer? then Reply(true, m[qid].answer) else Reply(false, []), m)
    case UpdateQuestion(qid, question, answer) =>
      if qid in m then (Reply(true, []), m[qid := QuestionAnswer(question, answer, gid, qid)])
      else (Reply(false, []), m)
  }

  /** The reply and the store are those of the call on the map. */
  ghost predicate AnsweredAs(call: QuestionCall, gid: Str, s: Store) {
    var (reply, s') := Answered(call, gid, s);
    && s' == s.(questions := s'.questions) && Distinct(s'.questions)
    && (reply, ToMap(s'.questions)) == OnMap(call, gid, ToMap(s.questions))
  }

  lemma AddRefinesMap(gid: Str, s: Store, qid: Str, question: Str, answer: Str)
    requires s.path != [] && Distinct(s.questions)
    ensures AnsweredAs(AddQuestion(qid, question, answer), gid, s)
  {
    QuestionCallsRefineMap(s, QuestionAnswer(question, answer, gid, qid), qid);
  }

  lemma UpdateRefinesMap(gid: Str, s: Store, qid: Str, question: Str, answer: Str)
    requires s.path != [] && Distinct(s.questions)
    ensures AnsweredAs(UpdateQuestion(qid, question, answer), gid, s)
  {
    IdsAreFound(s.questions, qid);
    OverwriteRefines(s.questions, QuestionAnswer(question, answer, gid, qid));
  }

  lemma DeleteRefinesMap(gid: Str, s: Store, qid: Str)
    requires s.path != [] && Distinct(s.questions)
    ensures AnsweredAs(DeleteQuestion(qid), gid, s)
  {
    QuestionCallsRefineMap(s, QuestionAnswer([], [], [], []), qid);
  }

  lemma QueryRefinesMap(gid: Str, s: Store, qid: Str)
    requires s.path != [] && Distinct(s.questions)
    ensures AnsweredAs(QueryQuestion(qid), gid, s)
  {
    AnswerRefinesMap(s, qid);
    if qid in ToMap(s.questions) {
      QuestionsInMap(s.questions, qid);
    }
  }

  lemma QuestionsInMap(items: seq<Question>, qid: Str)
    requires Distinct(items) && qid in ToMap(items)
    ensures ToMap(items)[qid].QuestionAnswer?
  {
    MapRecords(items);
    var k :| 0 <= k < |items| && items[k] == ToMap(items)[qid];
  }

  lemma AnsweredRefinesMap(call: QuestionCall, gid: Str, s: Store)
    requires s.path != [] && Distinct(s.questions)
    ensures AnsweredAs(call, gid, s)
  {
    match call
    case AddQuestion(qid, question, answer) => AddRefinesMap(gid, s, qid, question, answer);
    case UpdateQuestion(qid, question, answer) => UpdateRefinesMap(gid, s, qid, question, answer);
    case DeleteQuestion(qid) => DeleteRefinesMap(gid, s, qid);
    case QueryQuestion(qid) => QueryRefinesMap(gid, s, qid);
  }

  lemma ContentsOfNode(tree: Group, h: Header)
    requires Unique(ById, tree) && h in Headers(tree) && h.id != []
    ensures h.id in Contents(tree) && Contents(tree)[h.id] == ToMap(QuestionsAt(h))
  {
    NodeIsHere(tree, h.id);
    KeyOfOne(ById, tree, h, Node(ById, tree, h.id).Head());
  }

  lemma NodeIsHere(tree: Group, id: Str)
    requires Unique(ById, tree) && id in Keys(ById, tree)
    ensures Node(ById, tree, id).Head() in Headers(tree)
  {
    PutHeaders(ById, tree, id, Node(ById, tree, id));
    assert Node(ById, tree, id).Head() in Headers(Node(ById, tree, id));
  }

  /** The contents of a tree follow from its nodes. */
  lemma ContentsAre(tree: Group, m: map<Str, map<Str, Record>>)
    requires Unique(ById, tree)
    requires forall h :: h in Headers(tree) && h.id != [] ==> h.id in m && m[h.id] == ToMap(QuestionsAt(h))
    requires forall id :: id in m ==> id != [] && HasId(Headers(tree), id)
    ensures Contents(tree) == m
  {
    forall id
      ensures id in Contents(tree) <==> id in m
      ensures id in m ==> Contents(tree)[id] == m[id]
    {
      if id in m {
        var h :| h in Headers(tree) && h.id == id;
        ContentsOfNode(tree, h);
      }
      if id in Contents(tree) {
        NodeIsHere(tree, id);
      }
    }
  }

  lemma ReheadedContents(tree: Group, tree': Group, h: Header, h': Header)
    requires Unique(ById, tree) && Unique(ById, tree') && h in Headers(tree)
    requires h'.id == h.id && h.id != [] && Headers(tree') == Headers(tree) - {h} + {h'}
    ensures Contents(tree') == Contents(tree)[h.id := ToMap(QuestionsAt(h'))]
  {
    var m := Contents(tree)[h.id := ToMap(QuestionsAt(h'))];
    forall x | x in Headers(tree') && x.id != []
      ensures x.id in m && m[x.id] == ToMap(QuestionsAt(x))
    {
      if x != h' {
        ContentsOfNode(tree, x);
        if x.id == h.id {
          KeyOfOne(ById, tree, x, h);
        }
      }
    }
    forall id | id in m
      ensures id != [] && HasId(Headers(tree'), id)
    {
      if id == h.id {
        assert h' in Headers(tree');
      } else {
        NodeIsHere(tree, id);
        assert Node(ById, tree, id).Head() in Headers(tree');
      }
    }
    ContentsAre(tree', m);
  }

  lemma RestoredTreeIsLaid(tree: Group, gid: Str, h': Header, tree': Group)
    requires Laid(tree) && gid in Keys(ById, tree) && Node(ById, tree, gid).Head() != tree.Head()
    requires h' == Node(ById, tree, gid).Head().(stores := h'.stores) && StoreOk(h')
    requires tree' == Put(ById, tree, gid, Node(ById, tree, gid).(stores := h'.stores))
    ensures var h := Node(ById, tree, gid).Head();
      && Laid(tree') && tree'.Head() == tree.Head()
      && h in Headers(tree) && Headers(tree') == Headers(tree) - {h} + {h'}
  {
    var n := Node(ById, tree, gid);
    PutHead(ById, tree, gid, h');
    assert n.(stores := h'.stores) == Group(h'.name, h'.id, h'.path, h'.stores, n.kids);
    NodePlaced(ById, tree, gid);
    PutPlaced(ById, tree, gid, n.(stores := h'.stores));
    assert tree.Head() != n.Head() ==> tree'.Head() == tree.Head() by {
      if n.id == tree.id {
        NodeIsHere(tree, gid);
        assert tree.Head() in Headers(tree);
        KeyOfOne(ById, tree, n.Head(), tree.Head());
      }
    }
  }

  lemma RestoredOnDisk(hs: set<Header>, root: Header, d: Disk, h: Header, h': Header)
    requires OnDisk(hs, root, d) && h in hs && h' == h.(stores := h'.stores) && h'.stores != []
    ensures OnDisk(hs - {h} + {h'}, root, d)
  {
    var hs' := hs - {h} + {h'};
    forall p | p in d.dirs && Under(root.path, p)
      ensures HasPath(hs', p)
    {
      var x :| x in hs && x.path == p;
      assert (if x == h then h' else x) in hs';
    }
    forall p | p in d.files && Under(root.path, p) && p != IdsFile(root)
      ensures HasStore(hs', p)
    {
      var x :| x in hs && x.stores != [] && StoreFile(x) == p;
      assert (if x == h then h' else x) in hs';
    }
  }

  /** The store a call works on: the group's own, or one opened just now, which is empty. */
  lemma AskedStore(s: State, gid: Str, call: QuestionCall)
    requires Settled(s) && gid in s.core.index
    ensures gid in Keys(ById, s.tree)
    ensures var n := Node(ById, s.tree, gid); var r := AskIn(call, n, s.core);
      var (reply, qs) := OnMap(call, gid, ToMap(QuestionsAt(n.Head())));
      && n.Head() in Headers(s.tree) && n.Head() != s.tree.Head() && n.id == gid
      && r.reply == Some(reply)
      && r.g.stores != [] && StoreOk(n.Head().(stores := r.g.stores))
      && ToMap(r.g.stores[0].questions) == qs
  {
    KnownIds(s, gid);
    NodeIsHere(s.tree, gid);
    var n := Node(ById, s.tree, gid);
    assert n.Head() != s.tree.Head() && Key(ById, n.Head()) == gid;
    StoreFileIsFree(s.tree, s.core.disk, n.Head());
    AskedAt(n, s.core, call);
  }

  lemma AskedAt(n: Group, c: Core, call: QuestionCall)
    requires StoreOk(n.Head()) && (n.stores == [] ==> !Exists(c.disk, StoreFile(n.Head())))
    ensures var r := AskIn(call, n, c); var (reply, qs) := OnMap(call, n.id, ToMap(QuestionsAt(n.Head())));
      && r.reply == Some(reply)
      && r.g.stores != [] && StoreOk(n.Head().(stores := r.g.stores))
      && ToMap(r.g.stores[0].questions) == qs
  {
    assert StoreFile(n.Head()) != [];
    var store := if n.stores == [] then FRESH.(path := StoreFile(n.Head())) else n.stores[0];
    AnsweredRefinesMap(call, n.id, store);
  }

  /** `o` is what the call does to the map `m`, on the group `gid`. */
  ghost predicate IsOnMap(call: QuestionCall, gid: Str, m: map<Str, map<Str, Record>>, o: Outcome) {
    if gid in m then
      var (reply, qs) := OnMap(call, gid, m[gid]);
      Reply(o.ok, o.answer) == reply && Contents(o.s.tree) == m[gid := qs]
    else !o.ok && Contents(o.s.tree) == m
  }

  lemma AskedRefines(s: State, gid: Str, call: QuestionCall, o: Outcome)
    requires Settled(s) && gid in s.core.index && gid in Keys(ById, s.tree)
    requires var n := Node(ById, s.tree, gid); var r := AskIn(call, n, s.core);
      r.reply.Some? &&
      o == Outcome(r.ok && r.reply.value.ok, State(Put(ById, s.tree, gid, n.(stores := r.g.stores)), s.core),
                   if r.ok then r.reply.value.answer else [])
    ensures Settled(o.s) && IsOnMap(call, gid, Contents(s.tree), o)
  {
    AskedStore(s, gid, call);
    AskSettles(s, o.s, gid, AskIn(call, Node(ById, s.tree, gid), s.core).g.stores);
  }

  /** The bank is a map from groups to maps of questions: every question call succeeds, answers and
      changes the contents as the map operation does, opening a store late shows nowhere, and a
      call on an unknown group does nothing. */
  lemma QuestionCallRefines(s: State, gid: Str, call: QuestionCall)
    requires Settled(s)
    ensures var o := Do(OnQuestion(gid, call), s);
      && Settled(o.s) && o.s.core == s.core
      && IsOnMap(call, gid, Contents(s.tree), o)
      && (gid !in Contents(s.tree) ==> o.s == s)
  {
    KnownIds(s, gid);
    if gid in s.core.index {
      QuestionIsOneEdit(s, gid, call);
      AskedStore(s, gid, call);
      AskedRefines(s, gid, call, Do(OnQuestion(gid, call), s));
    }
  }

  lemma AskSettles(s: State, s': State, gid: Str, stores: seq<Store>)
    requires Settled(s) && gid in Keys(ById, s.tree)
    requires var h := Node(ById, s.tree, gid).Head();
      h != s.tree.Head() && h.id != [] && stores != [] && StoreOk(h.(stores := stores))
    requires s' == State(Put(ById, s.tree, gid, Node(ById, s.tree, gid).(stores := stores)), s.core)
    ensures Settled(s')
    ensures Contents(s'.tree) == Contents(s.tree)[gid := ToMap(stores[0].questions)]
    ensures gid in Contents(s.tree) && Contents(s.tree)[gid] == ToMap(QuestionsAt(Node(ById, s.tree, gid).Head()))
  {
    var h := Node(ById, s.tree, gid).Head();
    var h' := h.(stores := stores);
    RestockedTree(s, s', gid, stores);
    RestoredTreeIsLaid(s.tree, gid, h', s'.tree);
    RestoredOnDisk(Headers(s.tree), s.tree.Head(), s.core.disk, h, h');
    ReheadedContents(s.tree, s'.tree, h, h');
  }

  // ----- every call -----

  /** A new group starts empty; the others keep their questions. */
  lemma AddContents(s: State, pid: Str, name: Str, id: Str)
    requires Settled(s) && Fitting(s, pid, name, id)
    ensures var o := Do(AddGroup(pid, name, id, true), s);
      Contents(o.s.tree) == if o.ok then Contents(s.tree)[id := map[]] else Contents(s.tree)
  {
    AddSettles(s, pid, name, id);
    var o := Do(AddGroup(pid, name, id, true), s);
    if o.ok {
      var leaf := Header(name, id, Join(Node(ById, s.tree, pid).path, name), []);
      KnownIds(s, id);
      AddedContents(s.tree, o.s.tree, leaf);
    }
  }

  lemma AddedContents(tree: Group, tree': Group, leaf: Header)
    requires Unique(ById, tree) && Unique(ById, tree') && leaf.id !in Keys(ById, tree) && leaf.id != []
    requires leaf.stores == [] && Headers(tree') == Headers(tree) + {leaf}
    ensures Contents(tree') == Contents(tree)[leaf.id := map[]]
  {
    var m := Contents(tree)[leaf.id := map[]];
    forall x | x in Headers(tree') && x.id != []
      ensures x.id in m && m[x.id] == ToMap(QuestionsAt(x))
    {
      if x != leaf {
        ContentsOfNode(tree, x);
      }
    }
    forall id | id in m
      ensures id != [] && HasId(Headers(tree'), id)
    {
      if id == leaf.id {
        assert leaf in Headers(tree');
      } else {
        NodeIsHere(tree, id);
        assert Node(ById, tree, id).Head() in Headers(tree');
      }
    }
    ContentsAre(tree', m);
  }

  /** Deleting takes the questions of the whole subtree along and no others. */
  lemma DeleteContents(s: State, pid: Str, id: Str)
    requires Settled(s) && pid in Keys(ById, s.tree) && IsKid(s, pid, id)
    ensures var o := Do(DeleteGroup(pid, id), s);
      var n := Node(ById, s.tree, pid); var f := n.kids[KidIndex(n.kids, id)];
      o.ok && Settled(o.s) && Contents(o.s.tree) == Contents(s.tree) - Keys(ById, f)
  {
    var n := Node(ById, s.tree, pid);
    DeleteSettles(s, pid, id);
    DeleteTakesSubtree(s, pid, id);
    DroppedContents(s.tree, Do(DeleteGroup(pid, id), s).s.tree, n.kids[KidIndex(n.kids, id)]);
  }

  lemma DroppedContents(tree: Group, tree': Group, f: Group)
    requires Unique(ById, tree) && Unique(ById, tree')
    requires Headers(f) <= Headers(tree) && Headers(tree') == Headers(tree) - Headers(f)
    ensures Contents(tree') == Contents(tree) - Keys(ById, f)
  {
    var m := Contents(tree) - Keys(ById, f);
    SubtreeById(tree, f);
    forall x | x in Headers(tree') && x.id != []
      ensures x.id in m && m[x.id] == ToMap(QuestionsAt(x))
    {
      ContentsOfNode(tree, x);
    }
    forall id | id in m
      ensures id != [] && HasId(Headers(tree'), id)
    {
      NodeIsHere(tree, id);
      assert Node(ById, tree, id).Head() in Headers(tree');
    }
    ContentsAre(tree', m);
  }

  /** A settled bank stays settled under a call exactly when the call is proper. */
  lemma CallSettles(call: Call, s: State)
    requires Settled(s)
    ensures Settled(Do(call, s).s) <==> Proper(call, s)
  {
    match call
    case AddGroup(pid, name, id, mkdir) => AddSettlesIff(s, pid, name, id, mkdir);
    case DeleteGroup(pid, id) => DeleteSettlesIff(s, pid, id);
    case UpdateGroup(pid, id, name, moved) => UpdateSettlesIff(s, pid, id, name, moved);
    case OnQuestion(gid, question) => QuestionCallRefines(s, gid, question);
  }

  lemma AddRefused(s: State, pid: Str, name: Str, id: Str, mkdir: bool)
    requires Agree(s) && Refused(s, pid, name, id)
    ensures Do(AddGroup(pid, name, id, mkdir), s) == Outcome(false, s, [])
  {
    CtrlIsOneEdit(pid, Add(id, name, mkdir), s);
  }

  /** The new group of an accepted call. */
  function NewGroup(s: State, pid: Str, name: Str, id: Str): Group
    requires pid in Keys(ById, s.tree)
  {
    Group(name, id, Join(Node(ById, s.tree, pid).path, name), [], [])
  }

  lemma AddSettlesIff(s: State, pid: Str, name: Str, id: Str, mkdir: bool)
    requires Settled(s)
    ensures Settled(Do(AddGroup(pid, name, id, mkdir), s).s) <==> Proper(AddGroup(pid, name, id, mkdir), s)
  {
    if Refused(s, pid, name, id) {
      AddRefused(s, pid, name, id, mkdir);
      return;
    }
    var s' := Do(AddGroup(pid, name, id, mkdir), s).s;
    if Fitting(s, pid, name, id) && mkdir {
      AddSettles(s, pid, name, id);
    }
    if Settled(s') {
      AddKeepsAgreement(s, pid, name, id, mkdir);
      CtrlIsOneEdit(pid, Add(id, name, mkdir), s);
      KnownIds(s, id);
      AddedFits(s, s', pid, NewGroup(s, pid, name, id), mkdir);
    }
  }

  /** A new group that leaves the bank settled fits, and its directory was made. */
  lemma AddedFits(s: State, s': State, pid: Str, leaf: Group, mkdir: bool)
    requires Settled(s) && Settled(s') && pid in Keys(ById, s.tree) && leaf == NewGroup(s, pid, leaf.name, leaf.id)
    requires leaf.id !in Keys(ById, s.tree) && leaf.name !in s.core.index.Values
    requires var n := Node(ById, s.tree, pid); s'.tree == Put(ById, s.tree, pid, n.(kids := n.kids + [leaf]))
    requires leaf.path in s'.core.disk.dirs ==> mkdir || Exists(s.core.disk, leaf.path)
    ensures Fitting(s, pid, leaf.name, leaf.id) && mkdir
  {
    var n := Node(ById, s.tree, pid);
    TreeAdded(s.tree, pid, leaf, s'.tree);
    NodeIsHere(s.tree, pid);
    assert leaf.Head() in Headers(s'.tree) && s'.tree.Head() in Headers(s'.tree);
    assert s.tree.Head() in Headers(s.tree);
    PathIsName(s'.tree, leaf.Head());
    if leaf.name == s.tree.name {
      KeyOfOne(ByName, s'.tree, leaf.Head(), s'.tree.Head());
    }
    NameHadToFit(s.tree, s'.tree, n.Head(), leaf.Head());
    NewNameIsNew(s, leaf.name);
    NewPathIsFree(s, n.Head(), leaf.name);
  }

  lemma NameHadToFit(tree: Group, tree': Group, n: Header, leaf: Header)
    requires Laid(tree) && tree.id == [] && n in Headers(tree) && Laid(tree') && tree'.Head() == tree.Head()
    requires Headers(tree') == Headers(tree) + {leaf} && leaf.path == Join(n.path, leaf.name)
    ensures NameFits(n.id, leaf.name)
  {
    assert tree.Head() in Headers(tree);
    if n.id == [] {
      KeyOfOne(ById, tree, n, tree.Head());
    } else {
      assert leaf.path != StoreFile(n);
    }
  }

  lemma DeleteSettlesIff(s: State, pid: Str, id: Str)
    requires Settled(s)
    ensures Settled(Do(DeleteGroup(pid, id), s).s) <==> Welcome(DeleteGroup(pid, id), s)
  {
    DeleteKeepsAgreement(s, pid, id);
    CtrlIsOneEdit(pid, Delete(id), s);
    if pid in Keys(ById, s.tree) && Welcome(DeleteGroup(pid, id), s) {
      if IsKid(s, pid, id) {
        DeleteContents(s, pid, id);
      } else {
        DeleteOfNothing(s, pid, id);
      }
    }
  }

  // ----- renaming a group to the name it has -----

  lemma UpdateSettlesIff(s: State, pid: Str, id: Str, name: Str, moved: bool)
    requires Settled(s)
    ensures Settled(Do(UpdateGroup(pid, id, name, moved), s).s) <==> Proper(UpdateGroup(pid, id, name, moved), s)
  {
    UpdateKeepsAgreement(s, pid, id, name, moved);
    if Proper(UpdateGroup(pid, id, name, moved), s) {
      UpdateOfNothing(s, pid, id, name, moved);
    }
  }

  /** A rename that changes no name changes nothing; the flag tells whether a group was found. */
  lemma UpdateOfNothing(s: State, pid: Str, id: Str, name: Str, moved: bool)
    requires Settled(s) && Proper(UpdateGroup(pid, id, name, moved), s)
    ensures Do(UpdateGroup(pid, id, name, moved), s) ==
            Outcome(pid in Keys(ById, s.tree) && IsKid(s, pid, id) && moved, s, [])
  {
    if pid !in Keys(ById, s.tree) {
      CtrlIsOneEdit(pid, Update(id, name, moved), s);
    } else {
      var n := Node(ById, s.tree, pid);
      if IsKid(s, pid, id) {
        KidIsHere(s.tree, pid, KidIndex(n.kids, id));
        KidNamed(s, n.kids[KidIndex(n.kids, id)].Head(), name);
        SameNameAgain(n, s.core, id, name, moved);
      }
      PutSame(ById, s.tree, pid);
      UpdateIs(s, pid, id, name, moved, UpdateIn(id, name, moved, n, s.core));
    }
  }

  lemma UpdateIs(s: State, pid: Str, id: Str, name: Str, moved: bool, r: Visited)
    requires Agree(s) && pid in Keys(ById, s.tree) && r == UpdateIn(id, name, moved, Node(ById, s.tree, pid), s.core)
    ensures Do(UpdateGroup(pid, id, name, moved), s) == Outcome(r.ok, State(Put(ById, s.tree, pid, r.g), r.c), [])
  {
    CtrlIsOneEdit(pid, Update(id, name, moved), s);
  }

  lemma KidNamed(s: State, h: Header, name: Str)
    requires Agree(s) && NamesAgree(s) && h in Headers(s.tree) && h.id in s.core.index && s.core.index[h.id] == name
    ensures h.name == name && h.id in ListMap(s.core) && ListMap(s.core)[h.id].group == name
  {
  }

  lemma SameNameAgain(g: Group, c: Core, id: Str, name: Str, moved: bool)
    requires KidIndex(g.kids, id) < |g.kids|
    requires var f := g.kids[KidIndex(g.kids, id)]; f.name == name && f.path == Join(g.path, name)
    requires id in ListMap(c) && ListMap(c)[id].group == name
    ensures UpdateIn(id, name, moved, g, c) == Visited(moved, g, c, None)
  {
    var i := KidIndex(g.kids, id);
    RenamedKid(g.kids, i, name);
    RenamedEntry(c, id, name);
    RenamedToItself(c.disk, g.kids[i].path);
  }

  lemma RenamedKid(kids: seq<Group>, i: nat, name: Str)
    requires i < |kids| && kids[i].name == name
    ensures kids[i := kids[i].(name := name)] == kids
  {
  }

  lemma RenamedEntry(c: Core, id: Str, name: Str)
    requires id in ListMap(c) && ListMap(c)[id].group == name
    ensures WithGroupRenamed(c.list, id, name).store == c.list
  {
    IdsAreFound(c.list.groups, id);
    if c.list.path != [] {
      var i := IndexOf(c.list.groups, id);
      assert c.list.groups[i := c.list.groups[i]] == c.list.groups;
    }
  }

  lemma RenamedToItself(d: Disk, src: Str)
    ensures RenameAll(d, src, src) == d
  {
    forall p: Str
      ensures MovedPath(p, src, src) == p && SourcePath(p, src, src, d.files) == p
    {
      if Under(src, p) {
        UnderIsPrefix(src, p);
      }
    }
    MovedNowhere(d.files.Keys, src);
    MovedNowhere(d.dirs, src);
  }

  lemma MovedNowhere(ps: set<Str>, src: Str)
    ensures (set p | p in ps :: MovedPath(p, src, src)) == ps
  {
    forall p | p in ps
      ensures MovedPath(p, src, src) == p
    {
      if Under(src, p) {
        UnderIsPrefix(src, p);
      }
    }
    forall p | p in ps
      ensures p in set q | q in ps :: MovedPath(q, src, src)
    {
      assert MovedPath(p, src, src) == p;
    }
  }

  /** A subgroup is a node of the tree, in the directory of its parent. */
  lemma KidIsHere(tree: Group, pid: Str, i: nat)
    requires Laid(tree) && pid in Keys(ById, tree) && i < |Node(ById, tree, pid).kids|
    ensures var n := Node(ById, tree, pid); var f := n.kids[i];
      && n.Head() in Headers(tree) && f.Head() in Headers(tree) && f.Head() != tree.Head()
      && ValidName(f.name) && f.path == Join(n.path, f.name)
  {
    var n := Node(ById, tree, pid);
    NodeIsHere(tree, pid);
    NodePlaced(ById, tree, pid);
    PlacedAt(n.path, n.kids, i);
    DroppedTreeIsLaid(tree, pid, i, Put(ById, tree, pid, n.(kids := n.kids[..i] + n.kids[i + 1..])));
  }

  // ----- deleting what is not there -----

  lemma DeleteOfNothing(s: State, pid: Str, id: Str)
    requires Agree(s) && pid in Keys(ById, s.tree) && !IsKid(s, pid, id) && id !in s.core.index
    ensures Do(DeleteGroup(pid, id), s).s == s
  {
    CtrlIsOneEdit(pid, Delete(id), s);
    PutSame(ById, s.tree, pid);
    IdsAreFound(s.core.list.groups, id);
    NothingIsLost(s.core, id);
  }

  lemma NothingIsLost(c: Core, id: Str)
    requires id !in c.index && !Has(c.list.groups, id)
    ensures Core(c.index - {id}, WithoutGroup(c.list, id).store, c.disk) == c
  {
    assert c.index - {id} == c.index;
  }
}
