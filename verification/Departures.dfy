/** What comes of the calls that do not keep a bank settled: a directory that cannot be made, followed
    through a restart; a subgroup deleted under the wrong parent, a group with the empty id, names and
    ids that do not fit, and renames, each at states a few calls from the first start; and the child
    loop of deleteGroup as written. */
module Departures {
  import opened Bytes
  import opened Records
  import opened Stores
  import opened Groups
  import opened Bank
  import opened Agreement
  import opened Layout
  import opened Calls
  import opened Reload
  import opened Restart
  import opened PlainBank
  import opened Moves

  // ----- a directory that cannot be made -----

  lemma {:induction false} EmplacedLast(items: seq<GroupEntry>, m: map<Str, Str>, x: GroupEntry)
    ensures Emplaced(items + [x], m) == var e := Emplaced(items, m); if x.id in e then e else e[x.id := x.group]
  {
    if items == [] {
      assert items + [x] == [x] && [x][1..] == [];
    } else {
      assert (items + [x])[1..] == items[1..] + [x];
      EmplacedLast(items[1..], if items[0].id in m then m else m[items[0].id := items[0].group], x);
    }
  }

  /** The state after an accepted addGroup whose directory could not be made. */
  ghost predicate Unmade(s: State, u: State, leaf: Header) {
    && Headers(u.tree) == Headers(s.tree) + {leaf} && leaf.stores == []
    && u.core.index == s.core.index[leaf.id := leaf.name]
    && u.core.list == s.core.list.(groups := s.core.list.groups + [QuestionAnswerGroup(leaf.name, [], leaf.id)])
    && u.core.disk == s.core.disk
  }

  lemma UnmadeIs(s: State, pid: Str, name: Str, id: Str)
    requires Settled(s) && !Refused(s, pid, name, id)
    requires !Exists(s.core.disk, Join(Node(ById, s.tree, pid).path, name))
    ensures var o := Do(AddGroup(pid, name, id, false), s);
      !o.ok && Unmade(s, o.s, NewGroup(s, pid, name, id).Head())
  {
    CtrlIsOneEdit(pid, Add(id, name, false), s);
    PutKid(ById, s.tree, pid, NewGroup(s, pid, name, id));
    IdsAreFound(s.core.list.groups, id);
  }

  /** Saving afterwards puts the old tree on the disk. */
  lemma UnmadeSaves(s: State, u: State, leaf: Header)
    requires Settled(s) && Unmade(s, u, leaf)
    ensures SavesAs(u, s.tree)
  {
    SettledSaves(s);
    forall st
      ensures StoreIn(Headers(u.tree), st) <==> StoreIn(Headers(s.tree), st)
    {
      if StoreIn(Headers(u.tree), st) {
        var h :| h in Headers(u.tree) && st in h.stores;
        assert h in Headers(s.tree);
      }
      if StoreIn(Headers(s.tree), st) {
        var h :| h in Headers(s.tree) && st in h.stores;
        assert h in Headers(u.tree);
      }
    }
  }

  /** Every old group's name still leads to its id. */
  lemma UnmadeFinds(s: State, index: map<Str, Str>, name: Str, id: Str, order: seq<Str>)
    requires Settled(s) && id !in s.core.index && name !in s.core.index.Values
    requires index == s.core.index[id := name] && Lists(order, index)
    ensures IdsFound(s.tree, index, order)
  {
    forall h | h in Headers(s.tree) && h != s.tree.Head()
      ensures IdOf(index, h.name, order) == h.id
    {
      assert s.core.index[h.id] == h.name && h.id in order && index[h.id] == h.name;
      var k := IdOf(index, h.name, order);
      assert k in index && index[k] == h.name && h.name != name;
      var x := IdOwner(s, k);
      KeyOfOne(ByName, s.tree, x, h);
    }
  }

  /** No addGroup with that name or that id is accepted. */
  ghost predicate Taken(s: State, name: Str, id: Str) {
    forall call: Call :: call.AddGroup? && (call.name == name || call.id == id) ==> Do(call, s) == Outcome(false, s, [])
  }

  /** addGroup whose directory cannot be made, whatever name and id were given, fails but keeps its
      edits.  A restart then brings back the tree and the questions from before the call, while the id
      and the name stay taken. */
  lemma UnmadeGroupIsForgotten(s: State, pid: Str, name: Str, id: Str, walk: seq<Entry>, order: seq<Str>)
    requires Settled(s) && !Refused(s, pid, name, id)
    requires !Exists(s.core.disk, Join(Node(ById, s.tree, pid).path, name))
    requires var u := Do(AddGroup(pid, name, id, false), s).s;
      AllFit(u) && IsWalk(s.tree.path, Saved(u), walk) && Lists(order, u.core.index)
    ensures !Do(AddGroup(pid, name, id, false), s).ok
    ensures var u := Do(AddGroup(pid, name, id, false), s).s; var r := Init(s.tree.path, Saved(u), walk, order);
      && (r.ok <==> AllReadable(u))
      && (r.ok ==>
            && Alike(s.tree, r.s.tree) && Contents(r.s.tree) == Contents(s.tree)
            && r.s.core.index == s.core.index[id := name]
            && Taken(r.s, name, id))
  {
    var u := Do(AddGroup(pid, name, id, false), s).s;
    UnmadeIs(s, pid, name, id);
    UnmadeComesBack(s, u, NewGroup(s, pid, name, id).Head(), walk, order);
    StaysTaken(Init(s.tree.path, Saved(u), walk, order).s, name, id);
  }

  lemma UnmadeComesBack(s: State, u: State, leaf: Header, walk: seq<Entry>, order: seq<Str>)
    requires Settled(s) && Unmade(s, u, leaf) && leaf.id !in s.core.index && leaf.name !in s.core.index.Values
    requires AllFit(u) && IsWalk(s.tree.path, Saved(u), walk) && Lists(order, u.core.index)
    ensures var r := Init(s.tree.path, Saved(u), walk, order);
      && (r.ok <==> AllReadable(u))
      && (r.ok ==> Alike(s.tree, r.s.tree) && Contents(r.s.tree) == Contents(s.tree) && r.s.core.index == u.core.index)
  {
    UnmadeSaves(s, u, leaf);
    IndexComesBack(s);
    EmplacedLast(s.core.list.groups, map[], QuestionAnswerGroup(leaf.name, [], leaf.id));
    UnmadeFinds(s, u.core.index, leaf.name, leaf.id, order);
    InitLoads(u, s.tree, walk, order);
    UnmadeReadable(s, u, leaf);
    var r := Init(s.tree.path, Saved(u), walk, order);
    if r.ok {
      MirrorLaid(s.tree, r.s.tree);
      LaidAlike(s.tree, r.s.tree);
      MirrorContents(s.tree, r.s.tree);
    }
  }

  lemma UnmadeReadable(s: State, u: State, leaf: Header)
    requires Unmade(s, u, leaf)
    ensures AllReadable(u) <==>
            Readable(u.core.list.groups) && forall h :: h in Headers(s.tree) ==> Readable(QuestionsAt(h))
  {
    assert FieldsOf(QuestionsAt(leaf)) == [];
    if forall h :: h in Headers(s.tree) ==> Readable(QuestionsAt(h)) {
      forall h | h in Headers(u.tree)
        ensures Readable(QuestionsAt(h))
      {
      }
    }
  }

  lemma StaysTaken(s: State, name: Str, id: Str)
    ensures id in s.core.index && s.core.index[id] == name ==> Taken(s, name, id)
  {
  }

  // ----- small banks -----

  const NO_FILES: Disk := Disk(map[], {})

  /** A name and an id. */
  type Named = (Str, Str)

  /** A new bank in `path`; then a group in it; then a subgroup of that; then another one. */
  ghost function NoGroup(path: Str): State {
    Init(path, NO_FILES, [], []).s
  }

  ghost function OneGroup(path: Str, g: Named): State {
    Do(AddGroup([], g.0, g.1, true), NoGroup(path)).s
  }

  ghost function OneSubgroup(path: Str, g: Named, a: Named): State {
    Do(AddGroup(g.1, a.0, a.1, true), OneGroup(path, g)).s
  }

  ghost function TwoSubgroups(path: Str, g: Named, a: Named, b: Named): State {
    Do(AddGroup(g.1, b.0, b.1, true), OneSubgroup(path, g, a)).s
  }

  ghost predicate OneUsable(path: Str, x: Named) {
    ValidName(x.0) && x.0 != FileName(path) && IdOk(x.1)
  }

  /** Names and ids that the calls accept. */
  ghost predicate UsableBelow(path: Str, g: Named, x: Named) {
    OneUsable(path, x) && g.0 != x.0 && g.1 != x.1 && x.0 != g.1 + DAT
  }

  ghost predicate Usable(path: Str, g: Named, a: Named, b: Named) {
    && FileName(path) != [] && OneUsable(path, g) && g.0 != IDS_DAT
    && UsableBelow(path, g, a) && UsableBelow(path, g, b) && a.0 != b.0 && a.1 != b.1
  }

  /** What an accepted addGroup does to tree and index. */
  ghost predicate Grown(s: State, s': State, pid: Str, name: Str, id: Str)
    requires pid in Keys(ById, s.tree)
  {
    var n := Node(ById, s.tree, pid);
    && s'.core.index == s.core.index[id := name]
    && s'.tree == Put(ById, s.tree, pid, n.(kids := n.kids + [NewGroup(s, pid, name, id)]))
  }

  lemma Grows(s: State, pid: Str, name: Str, id: Str)
    requires Settled(s) && Fitting(s, pid, name, id) && !Refused(s, pid, name, id)
    ensures var s' := Do(AddGroup(pid, name, id, true), s).s; Settled(s') && Grown(s, s', pid, name, id)
  {
    AddSettles(s, pid, name, id);
    CtrlIsOneEdit(pid, Add(id, name, true), s);
  }

  lemma NewBank(path: Str, d: Disk)
    requires d == NO_FILES && FileName(path) != []
    ensures var s := Init(path, d, [], []).s;
      Settled(s) && s.core.index == map[] && s.tree == Group(FileName(path), [], path, [], [])
  {
    FirstStart(path, d, []);
  }

  lemma OnlyKid(g: Group, f: Group, f': Group)
    requires g.kids == [f] && g.id != f.id
    ensures f.id in Keys(ById, g) && Node(ById, g, f.id) == f && Put(ById, g, f.id, f') == g.(kids := [f'])
  {
    assert f.Head() in Headers(f) && f.Head() in Headers(g) && Key(ById, f.Head()) == f.id;
    assert HeadersOf([f]) == Headers(f);
    assert f.id in Keys(ById, f) && f.id in KeysOf(ById, g.kids);
    assert Key(ById, g.Head()) == g.id;
    assert NodeIn(ById, [f], f.id) == Node(ById, f, f.id) == f;
    assert PutIn(ById, [f], f.id, f') == [Put(ById, f, f.id, f')] + [] == [f'];
  }

  lemma RootHere(g: Group)
    ensures g.id in Keys(ById, g)
  {
    assert g.Head() in Headers(g) && Key(ById, g.Head()) == g.id;
  }

  /** Adding a subgroup to the only group. */
  lemma GrowsOnlyKid(s: State, f: Group, name: Str, id: Str)
    requires Settled(s) && s.tree.kids == [f] && f.id != []
    requires Fitting(s, f.id, name, id) && id !in s.core.index && name !in s.core.index.Values
    ensures var s' := Do(AddGroup(f.id, name, id, true), s).s;
      && Settled(s') && s'.core.index == s.core.index[id := name]
      && s'.tree == s.tree.(kids := [f.(kids := f.kids + [Group(name, id, Join(f.path, name), [], [])])])
  {
    OnlyKid(s.tree, f, f.(kids := f.kids + [Group(name, id, Join(f.path, name), [], [])]));
    Grows(s, f.id, name, id);
  }

  lemma FirstGroup(path: Str, g: Named)
    requires FileName(path) != [] && OneUsable(path, g) && g.0 != IDS_DAT
    ensures var s := OneGroup(path, g);
      && Settled(s) && s.core.index == map[g.1 := g.0] && s.tree.name == FileName(path)
      && |s.tree.kids| == 1 && s.tree.kids[0].kids == []
      && s.tree.kids[0].Head() == Header(g.0, g.1, Join(path, g.0), [])
  {
    NewBank(path, NO_FILES);
    RootHere(NoGroup(path).tree);
    Grows(NoGroup(path), [], g.0, g.1);
  }

  predicate IsLeaf(g: Group, id: Str) {
    g.id == id && g.stores == [] && g.kids == []
  }

  lemma FirstSubgroup(path: Str, g: Named, a: Named)
    requires FileName(path) != [] && OneUsable(path, g) && g.0 != IDS_DAT && UsableBelow(path, g, a)
    ensures var s := OneSubgroup(path, g, a);
      && Settled(s) && s.core.index == map[g.1 := g.0, a.1 := a.0]
      && |s.tree.kids| == 1 && s.tree.kids[0].id == g.1 && s.tree.kids[0].stores == []
      && |s.tree.kids[0].kids| == 1 && IsLeaf(s.tree.kids[0].kids[0], a.1) && s.tree.name == FileName(path)
  {
    FirstGroup(path, g);
    SubgroupIn(OneGroup(path, g), a.0, a.1);
  }

  lemma SubgroupIn(s: State, name: Str, id: Str)
    requires Settled(s) && |s.tree.kids| == 1 && s.tree.kids[0].kids == [] && s.tree.kids[0].stores == []
    requires s.tree.kids[0].id != [] && Fitting(s, s.tree.kids[0].id, name, id)
    requires id !in s.core.index && name !in s.core.index.Values
    ensures var s' := Do(AddGroup(s.tree.kids[0].id, name, id, true), s).s;
      && Settled(s') && s'.core.index == s.core.index[id := name] && s'.tree.name == s.tree.name
      && |s'.tree.kids| == 1 && s'.tree.kids[0].id == s.tree.kids[0].id && s'.tree.kids[0].stores == []
      && |s'.tree.kids[0].kids| == 1 && IsLeaf(s'.tree.kids[0].kids[0], id)
  {
    GrowsOnlyKid(s, s.tree.kids[0], name, id);
  }

  // ----- calls that break the agreement or the layout -----

  /** A subgroup deleted under the root instead of under its parent. */
  lemma WrongParentFails(path: Str, g: Named, a: Named)
    requires FileName(path) != [] && OneUsable(path, g) && g.0 != IDS_DAT && UsableBelow(path, g, a)
    ensures var s := OneSubgroup(path, g, a); Settled(s) && !Agree(Do(DeleteGroup([], a.1), s).s)
  {
    FirstSubgroup(path, g, a);
    NoKidOfRoot(OneSubgroup(path, g, a), a.1);
  }

  lemma NoKidOfRoot(s: State, id: Str)
    requires Settled(s) && |s.tree.kids| == 1 && s.tree.kids[0].id != id && id in s.core.index
    ensures !Agree(Do(DeleteGroup([], id), s).s)
  {
    RootHere(s.tree);
    DeleteKeepsAgreement(s, [], id);
  }

  /** A group added with the empty id. */
  lemma EmptyIdFails(path: Str, name: Str, mkdir: bool)
    requires FileName(path) != []
    ensures Settled(NoGroup(path)) && !Agree(Do(AddGroup([], name, [], mkdir), NoGroup(path)).s)
  {
    NewBank(path, NO_FILES);
    RootHere(NoGroup(path).tree);
    AddKeepsAgreement(NoGroup(path), [], name, [], mkdir);
  }

  /** A group whose name or id does not fit, or whose directory is not made: accepted all the same, and the
      three copies agree, but the disk is no longer laid out like the tree. */
  lemma MisfitFails(path: Str, name: Str, id: Str, mkdir: bool)
    requires FileName(path) != [] && id != []
    requires !(OneUsable(path, (name, id)) && name != IDS_DAT && mkdir)
    ensures var s := NoGroup(path); var u := Do(AddGroup([], name, id, mkdir), s).s;
      Settled(s) && u != s && Agree(u) && !Settled(u)
  {
    var s := NoGroup(path);
    NewBank(path, NO_FILES);
    RootHere(s.tree);
    AddSettlesIff(s, [], name, id, mkdir);
    AddKeepsAgreement(s, [], name, id, mkdir);
  }

  /** A group renamed: the index keeps the old name. */
  lemma RenameFails(path: Str, g: Named, name: Str, moved: bool)
    requires FileName(path) != [] && OneUsable(path, g) && g.0 != IDS_DAT && name != g.0
    ensures var s := OneGroup(path, g); var u := Do(UpdateGroup([], g.1, name, moved), s).s;
      Settled(s) && Agree(u) && !NamesAgree(u)
  {
    FirstGroup(path, g);
    RootHere(OneGroup(path, g).tree);
    UpdateKeepsAgreement(OneGroup(path, g), [], g.1, name, moved);
  }

  /** A subgroup renamed to the name of its parent's store file: some question call on the parent no longer
      answers as the plain map does. */
  lemma RenameBlocksQuestions(path: Str, g: Named, a: Named)
    requires FileName(path) != [] && OneUsable(path, g) && g.0 != IDS_DAT && UsableBelow(path, g, a)
    ensures var s := OneSubgroup(path, g, a); var u := Do(UpdateGroup(g.1, a.1, g.1 + DAT, true), s).s;
      && Settled(s) && Sound(u)
      && (forall call :: Steps(s, g.1, call)) && !forall call :: Steps(u, g.1, call)
  {
    FirstSubgroup(path, g, a);
    BlocksQuestions(OneSubgroup(path, g, a), a.1);
  }

  lemma BlocksQuestions(s: State, id: Str)
    requires Settled(s) && |s.tree.kids| == 1 && s.tree.kids[0].stores == [] && s.tree.kids[0].id in s.core.index
    requires |s.tree.kids[0].kids| == 1 && s.tree.kids[0].kids[0].id == id
    ensures var pid := s.tree.kids[0].id; var u := Do(UpdateGroup(pid, id, pid + DAT, true), s).s;
      Sound(u) && (forall call :: Steps(s, pid, call)) && !forall call :: Steps(u, pid, call)
  {
    OnlyKidHere(s.tree, id);
    StopsStepping(s, s.tree.kids[0].id, id, Do(UpdateGroup(s.tree.kids[0].id, id, s.tree.kids[0].id + DAT, true), s).s);
  }

  lemma OnlyKidHere(g: Group, id: Str)
    requires |g.kids| == 1 && |g.kids[0].kids| == 1 && g.kids[0].kids[0].id == id && g.id != g.kids[0].id
    ensures var f := g.kids[0]; f.id in Keys(ById, g) && Node(ById, g, f.id) == f && KidIndex(f.kids, id) == 0
  {
    OnlyKid(g, g.kids[0], g.kids[0]);
  }

  lemma StopsStepping(s: State, pid: Str, id: Str, u: State)
    requires Settled(s) && pid in Keys(ById, s.tree) && IsKid(s, pid, id) && pid in s.core.index
    requires Node(ById, s.tree, pid).stores == [] && u == Do(UpdateGroup(pid, id, pid + DAT, true), s).s
    ensures Sound(u) && (forall call :: Steps(s, pid, call)) && !forall call :: Steps(u, pid, call)
  {
    SettledIsSound(s);
    RenameBlocksStore(s, pid, id);
    RenameSteps(s, pid, id, pid + DAT, true);
    RenameKeepsIndex(s, pid, id);
    OpenableSteps(s, u, pid);
  }

  lemma OpenableSteps(s: State, u: State, pid: Str)
    requires Sound(s) && Sound(u) && pid in s.core.index && pid in u.core.index && Openable(s, pid) && !Openable(u, pid)
    ensures (forall call :: Steps(s, pid, call)) && !forall call :: Steps(u, pid, call)
  {
    QuestionsStepIffOpenable(s, pid);
    QuestionsStepIffOpenable(u, pid);
  }

  lemma RenameKeepsIndex(s: State, pid: Str, id: Str)
    requires Agree(s)
    ensures Do(UpdateGroup(pid, id, pid + DAT, true), s).s.core.index == s.core.index
  {
    CtrlIsOneEdit(pid, Update(id, pid + DAT, true), s);
  }

  // ----- the child loop of deleteGroup as written -----

  /** Deleting the group `id` of the root is a proper call on a settled bank, and the loop as written
      reads past the end. */
  ghost predicate Overruns(s: State, id: Str) {
    Settled(s) && Proper(DeleteGroup([], id), s) && LiteralDelete(id, s.tree, s.core) == None
  }

  lemma FailsOnTwo(s: State, f: Group)
    requires Settled(s) && s.tree.kids == [f] && |f.kids| == 2
    ensures Overruns(s, f.id)
  {
    RootHere(s.tree);
    assert !Thin(f);
    assert KidIndex(s.tree.kids, f.id) == 0;
    LiteralDeleteIffThin(f.id, s.tree, s.core);
  }

  lemma OneMore(s: State, name: Str, id: Str)
    requires Settled(s) && |s.tree.kids| == 1 && |s.tree.kids[0].kids| == 1 && s.tree.kids[0].id != []
    requires Fitting(s, s.tree.kids[0].id, name, id) && id !in s.core.index && name !in s.core.index.Values
    ensures var pid := s.tree.kids[0].id; Overruns(Do(AddGroup(pid, name, id, true), s).s, pid)
  {
    var f := s.tree.kids[0];
    GrowsOnlyKid(s, f, name, id);
    var s' := Do(AddGroup(f.id, name, id, true), s).s;
    FailsOnTwo(s', s'.tree.kids[0]);
  }

  lemma TwoMore(s: State, a: Named, b: Named)
    requires Settled(s) && |s.tree.kids| == 1 && s.tree.kids[0].kids == [] && s.tree.kids[0].id != []
    requires Fitting(s, s.tree.kids[0].id, a.0, a.1) && a.1 !in s.core.index && a.0 !in s.core.index.Values
    requires Fitting(s, s.tree.kids[0].id, b.0, b.1) && b.1 !in s.core.index && b.0 !in s.core.index.Values
    requires a.0 != b.0 && a.1 != b.1
    ensures var pid := s.tree.kids[0].id;
      Overruns(Do(AddGroup(pid, b.0, b.1, true), Do(AddGroup(pid, a.0, a.1, true), s).s).s, pid)
  {
    var f := s.tree.kids[0];
    GrowsOnlyKid(s, f, a.0, a.1);
    OneMore(Do(AddGroup(f.id, a.0, a.1, true), s).s, b.0, b.1);
  }

  /** Three calls from the first start reach a settled bank on which a proper delete makes the loop
      as written read past the end, whatever names and ids are used. */
  lemma LiteralDeleteFails(path: Str, g: Named, a: Named, b: Named)
    requires Usable(path, g, a, b)
    ensures Overruns(TwoSubgroups(path, g, a, b), g.1)
  {
    FirstGroup(path, g);
    TwoMore(OneGroup(path, g), a, b);
  }

  /** For one: the bank "B", the group "c" with id 3, and "a" and "b" with ids 1 and 2 in it. */
  lemma LiteralDeleteFailsHere()
    ensures Overruns(TwoSubgroups([66], ([99], [3]), ([97], [1]), ([98], [2])), [3])
  {
    assert |[3] + DAT| == 5;
    LiteralDeleteFails([66], ([99], [3]), ([97], [1]), ([98], [2]));
  }
}
