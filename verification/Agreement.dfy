/** The bank keeps its groups three times, as tree, as index and as persisted list; this module
    says which calls keep the three in agreement. */
module Agreement {
  import opened Bytes
  import opened Records
  import opened Stores
  import opened Groups
  import opened Bank

  // ----- deleting a group deletes its subtree -----

  /** Index and list lost exactly these ids; every other entry stayed as it was. */
  ghost predicate Lost(c: Core, c': Core, ids: set<Str>) {
    && c'.index == c.index - ids
    && ToMap(c'.list.groups) == ToMap(c.list.groups) - ids
    && Distinct(c'.list.groups) && c'.list.path == c.list.path
  }

  lemma LostThenLost(a: Core, b: Core, c: Core, ids: set<Str>, more: set<Str>)
    requires Lost(a, b, ids) && Lost(b, c, more)
    ensures Lost(a, c, ids + more)
  {
  }

  lemma OneIsLost(c: Core, c': Core, id: Str)
    requires c.list.path != [] && Distinct(c.list.groups)
    requires c'.index == c.index - {id} && c'.list == WithoutGroup(c.list, id).store
    ensures Lost(c, c', {id})
  {
    GroupCallsRefineMap(c.list, id, []);
  }

  /** Deleting a subgroup takes the ids of its whole subtree out of index and list. */
  lemma {:induction false} DeleteEffect(id: Str, g: Group, c: Core)
    requires c.list.path != [] && Distinct(c.list.groups)
    requires KidIndex(g.kids, id) < |g.kids|
    ensures Lost(c, DeleteIn(id, g, c).c, Keys(ById, g.kids[KidIndex(g.kids, id)]))
    decreases Size(g), 0
  {
    var f := g.kids[KidIndex(g.kids, id)];
    KidsSplit(g.kids, KidIndex(g.kids, id));
    var c1 := c.(index := c.index - {id}, list := WithoutGroup(c.list, id).store);
    var c2 := c1.(disk := CloseAll(f.stores, c1.disk));
    var f0 := f.(stores := []);
    OneIsLost(c, c2, id);
    DeleteKidsEffect(f0, c2);
    assert f0.kids == f.kids;
    LostThenLost(c, c2, DeleteKids(f0, c2), {id}, KeysOf(ById, f.kids));
    assert Keys(ById, f) == {id} + KeysOf(ById, f.kids);
  }

  lemma {:induction false} DeleteKidsEffect(f: Group, c: Core)
    requires c.list.path != [] && Distinct(c.list.groups)
    ensures Lost(c, DeleteKids(f, c), KeysOf(ById, f.kids))
    decreases Size(f), 1
  {
    if f.kids == [] {
      assert KeysOf(ById, f.kids) == {};
      return;
    }
    var first := f.kids[0];
    var r := DeleteIn(first.id, f, c);
    KidsSplit(f.kids, 0);
    DeleteEffect(first.id, f, c);
    assert r.g.kids == f.kids[1..];
    DeleteKidsEffect(r.g, r.c);
    LostThenLost(c, r.c, DeleteKids(r.g, r.c), Keys(ById, first), KeysOf(ById, f.kids[1..]));
    assert KeysOf(ById, f.kids) == Keys(ById, first) + KeysOf(ById, f.kids[1..]);
  }

  // ----- the loop as written -----

  /** The child loop of deleteGroup as written, its iterators read as positions: position `i` of
      the `n` there were at the start, while every turn erases one.  None: a position past the end
      was read. */
  function LiteralKids(f: Group, i: nat, n: nat, c: Core): (r: Option<Visited>)
    requires i <= n
    ensures r.Some? ==> Size(r.value.g) <= Size(f)
    decreases Size(f), 1 + n - i
  {
    if i == n then Some(Visited(true, f, c, None))
    else if i >= |f.kids| then None
    else
      match LiteralDelete(f.kids[i].id, f, c)
      case None => None
      case Some(r) => LiteralKids(r.g, i + 1, n, r.c)
  }

  function LiteralDelete(id: Str, g: Group, c: Core): (r: Option<Visited>)
    ensures r.Some? ==> Size(r.value.g) <= Size(g)
    ensures r.Some? && KidIndex(g.kids, id) < |g.kids| ==> |r.value.g.kids| == |g.kids| - 1
    decreases Size(g), 0
  {
    var c1 := c.(index := c.index - {id}, list := WithoutGroup(c.list, id).store);
    var i := KidIndex(g.kids, id);
    if i == |g.kids| then Some(Visited(false, g, c1, None))
    else
      var found := g.kids[i];
      KidsSplit(g.kids, i);
      match LiteralKids(found.(stores := []), 0, |found.kids|, c1.(disk := CloseAll(found.stores, c1.disk)))
      case None => None
      case Some(below) =>
        Some(Visited(true, g.(kids := g.kids[..i] + g.kids[i + 1..]),
                     below.c.(disk := RemoveAll(below.c.disk, found.path)), None))
  }

  /** No group of the subtree has two subgroups. */
  predicate Thin(g: Group) {
    |g.kids| <= 1 && forall k <- g.kids :: Thin(k)
  }

  lemma {:induction false} LiteralRunsOut(f: Group, i: nat, n: nat, c: Core)
    requires 0 < i < n && |f.kids| + i == n
    ensures LiteralKids(f, i, n, c) == None
    decreases n - i
  {
    if i < |f.kids| {
      var r := LiteralDelete(f.kids[i].id, f, c);
      if r.Some? {
        LiteralRunsOut(r.value.g, i + 1, n, r.value.c);
      }
    }
  }

  /** The loop as written is well defined exactly on subtrees without siblings, and there it does
      what deleting every child does. */
  lemma {:induction false} LiteralDeleteIffThin(id: Str, g: Group, c: Core)
    requires KidIndex(g.kids, id) < |g.kids|
    ensures LiteralDelete(id, g, c) ==
            if Thin(g.kids[KidIndex(g.kids, id)]) then Some(DeleteIn(id, g, c)) else None
    decreases Size(g)
  {
    var i := KidIndex(g.kids, id);
    var f := g.kids[i].(stores := []);
    KidsSplit(g.kids, i);
    var c1 := c.(index := c.index - {id}, list := WithoutGroup(c.list, id).store);
    var c2 := c1.(disk := CloseAll(g.kids[i].stores, c1.disk));
    if f.kids != [] {
      LiteralDeleteIffThin(f.kids[0].id, f, c2);
      var first := LiteralDelete(f.kids[0].id, f, c2);
      if first.Some? {
        if |f.kids| > 1 {
          LiteralRunsOut(first.value.g, 1, |f.kids|, first.value.c);
        } else {
          assert first.value.g.kids == [];
          assert LiteralKids(f, 0, 1, c2) == Some(Visited(true, first.value.g, first.value.c, None));
          assert DeleteKids(f, c2) == first.value.c;
        }
      }
    }
  }

  // ----- agreement -----

  ghost function ListMap(c: Core): map<Str, Record> {
    ToMap(c.list.groups)
  }

  ghost predicate HasId(hs: set<Header>, id: Str) {
    exists h :: h in hs && h.id == id
  }

  /** The ids of these nodes are, the root's empty one aside, the keys of the index and of the
      persisted list, and the list has the nodes' names. */
  ghost predicate Agreed(hs: set<Header>, index: map<Str, Str>, list: map<Str, Record>) {
    && [] !in index
    && list.Keys == index.Keys
    && (forall h :: h in hs && h.id != [] ==> h.id in index && list[h.id].group == h.name)
    && (forall id :: id in index ==> HasId(hs, id))
  }

  ghost predicate ListOk(c: Core) {
    c.list.path != [] && Distinct(c.list.groups)
  }

  /** Tree ids are distinct, and tree, index and list agree. */
  ghost predicate Agree(s: State) {
    && Unique(ById, s.tree) && s.tree.id == []
    && ListOk(s.core)
    && Agreed(Headers(s.tree), s.core.index, ListMap(s.core))
  }

  ghost predicate NamesIn(hs: set<Header>, index: map<Str, Str>) {
    forall h :: h in hs && h.id in index ==> index[h.id] == h.name
  }

  /** The index, too, has the tree's names. */
  ghost predicate NamesAgree(s: State) {
    NamesIn(Headers(s.tree), s.core.index)
  }

  lemma KnownIds(s: State, id: Str)
    requires Agree(s)
    ensures id in Keys(ById, s.tree) <==> id == [] || id in s.core.index
  {
    assert s.tree.Head() in Headers(s.tree);
  }

  /** What a caller can check beforehand. */
  ghost predicate Welcome(call: Call, s: State) {
    match call
    case AddGroup(pid, name, id, mkdir) =>
      id != [] || name in s.core.index.Values || pid !in Keys(ById, s.tree)
    case DeleteGroup(pid, id) =>
      id !in s.core.index || pid !in Keys(ById, s.tree) || IsKid(s, pid, id)
    case UpdateGroup(pid, id, name, moved) => true
    case OnQuestion(gid, question) => true
  }

  ghost predicate IsKid(s: State, pid: Str, id: Str)
    requires pid in Keys(ById, s.tree)
  {
    var kids := Node(ById, s.tree, pid).kids;
    KidIndex(kids, id) < |kids|
  }

  // ----- adding -----

  lemma AddedAgreed(hs: set<Header>, index: map<Str, Str>, list: map<Str, Record>, leaf: Header, r: Record)
    requires Agreed(hs, index, list) && leaf.id !in index && leaf.id != [] && r.group == leaf.name
    ensures Agreed(hs + {leaf}, index[leaf.id := leaf.name], list[leaf.id := r])
    ensures NamesIn(hs, index) ==> NamesIn(hs + {leaf}, index[leaf.id := leaf.name])
  {
    forall id | id in index || id == leaf.id
      ensures HasId(hs + {leaf}, id)
    {
      if id in index {
        var h :| h in hs && h.id == id;
        assert h in hs + {leaf};
      } else {
        assert leaf in hs + {leaf};
      }
    }
  }

  lemma ListAdded(c: Core, c': Core, id: Str, name: Str)
    requires ListOk(c) && id !in ListMap(c) && c'.list == WithGroup(c.list, id, name).store
    ensures ListOk(c') && ListMap(c') == ListMap(c)[id := QuestionAnswerGroup(name, [], id)]
  {
    GroupCallsRefineMap(c.list, id, name);
  }

  lemma TreeAdded(tree: Group, pid: Str, leaf: Group, tree': Group)
    requires Unique(ById, tree) && pid in Keys(ById, tree) && leaf.id !in Keys(ById, tree) && leaf.kids == []
    requires var n := Node(ById, tree, pid); tree' == Put(ById, tree, pid, n.(kids := n.kids + [leaf]))
    ensures Unique(ById, tree') && tree'.Head() == tree.Head()
    ensures Headers(tree') == Headers(tree) + {leaf.Head()}
  {
    var n := Node(ById, tree, pid);
    PutKid(ById, tree, pid, leaf);
    PutKidUnique(ById, ById, tree, pid, leaf);
    RootStays(tree, pid, n.(kids := n.kids + [leaf]));
  }

  /** The state after an accepted addGroup whose parent was found. */
  lemma AddAgrees(s: State, s': State, pid: Str, leaf: Group)
    requires Agree(s) && pid in Keys(ById, s.tree)
    requires leaf.kids == [] && leaf.id != [] && leaf.id !in s.core.index
    requires var n := Node(ById, s.tree, pid); s'.tree == Put(ById, s.tree, pid, n.(kids := n.kids + [leaf]))
    requires s'.core.index == s.core.index[leaf.id := leaf.name]
    requires s'.core.list == WithGroup(s.core.list, leaf.id, leaf.name).store
    ensures Agree(s') && (NamesAgree(s) ==> NamesAgree(s'))
    ensures Headers(s'.tree) == Headers(s.tree) + {leaf.Head()} && s'.tree.Head() == s.tree.Head()
  {
    KnownIds(s, leaf.id);
    TreeAdded(s.tree, pid, leaf, s'.tree);
    ListAdded(s.core, s'.core, leaf.id, leaf.name);
    AddedAgreed(Headers(s.tree), s.core.index, ListMap(s.core), leaf.Head(),
                QuestionAnswerGroup(leaf.name, [], leaf.id));
  }

  lemma AddKeepsAgreement(s: State, pid: Str, name: Str, id: Str, mkdir: bool)
    requires Agree(s)
    ensures var call := AddGroup(pid, name, id, mkdir);
      && (Agree(Do(call, s).s) <==> Welcome(call, s))
      && (Welcome(call, s) && NamesAgree(s) ==> NamesAgree(Do(call, s).s))
  {
    var o := Do(AddGroup(pid, name, id, mkdir), s);
    CtrlIsOneEdit(pid, Add(id, name, mkdir), s);
    if id in s.core.index || name in s.core.index.Values || pid !in Keys(ById, s.tree) {
      assert o.s == s;
      return;
    }
    assert o.s.core.index == s.core.index[id := name];
    if id != [] {
      AddAgrees(s, o.s, pid, Group(name, id, Join(Node(ById, s.tree, pid).path, name), [], []));
    }
  }

  // ----- deleting -----

  lemma LostAgreed(hs: set<Header>, index: map<Str, Str>, list: map<Str, Record>, gone: set<Header>, ids: set<Str>)
    requires Agreed(hs, index, list) && gone <= hs
    requires forall h :: h in hs ==> (h in gone <==> h.id in ids)
    ensures Agreed(hs - gone, index - ids, list - ids)
    ensures NamesIn(hs, index) ==> NamesIn(hs - gone, index - ids)
  {
    forall id | id in index - ids
      ensures HasId(hs - gone, id)
    {
      var h :| h in hs && h.id == id;
      assert h in hs - gone;
    }
  }

  lemma RootStays(g: Group, key: Str, n: Group)
    requires key in Keys(ById, g) && n.Head() == Node(ById, g, key).Head()
    ensures Put(ById, g, key, n).Head() == g.Head()
  {
  }

  lemma TreeDropped(tree: Group, pid: Str, i: nat, tree': Group)
    requires Unique(ById, tree) && pid in Keys(ById, tree) && i < |Node(ById, tree, pid).kids|
    requires var n := Node(ById, tree, pid);
      tree' == Put(ById, tree, pid, n.(kids := n.kids[..i] + n.kids[i + 1..]))
    ensures var f := Node(ById, tree, pid).kids[i];
      && Unique(ById, tree') && tree'.Head() == tree.Head()
      && Headers(f) <= Headers(tree)
      && Headers(tree') == Headers(tree) - Headers(f)
      && (forall h :: h in Headers(tree) ==> (h in Headers(f) <==> h.id in Keys(ById, f)))
  {
    var n := Node(ById, tree, pid);
    DropKid(ById, tree, pid, i);
    RootStays(tree, pid, n.(kids := n.kids[..i] + n.kids[i + 1..]));
    SubtreeById(tree, n.kids[i]);
  }

  /** Tree, index and list lost the nodes of the subtree; nothing else changed. */
  ghost predicate TookSubtree(s: State, s': State, f: Group) {
    && Headers(f) <= Headers(s.tree)
    && Headers(s'.tree) == Headers(s.tree) - Headers(f)
    && s'.tree.Head() == s.tree.Head()
    && Lost(s.core, s'.core, Keys(ById, f))
  }

  lemma DeleteIs(s: State, pid: Str, id: Str, r: Visited)
    requires Agree(s) && pid in Keys(ById, s.tree) && r == DeleteIn(id, Node(ById, s.tree, pid), s.core)
    ensures Do(DeleteGroup(pid, id), s) == Outcome(r.ok, State(Put(ById, s.tree, pid, r.g), r.c), [])
  {
    CtrlIsOneEdit(pid, Delete(id), s);
  }

  /** The `i`-th subgroup of `n` is out, and its subtree's ids are out of index and list. */
  ghost predicate LostKid(c: Core, n: Group, i: nat, r: Visited)
    requires i < |n.kids|
  {
    r.g == n.(kids := n.kids[..i] + n.kids[i + 1..]) && Lost(c, r.c, Keys(ById, n.kids[i]))
  }

  /** What the edit at the node gives, without saying how. */
  lemma DeleteRun(s: State, pid: Str, id: Str) returns (r: Visited)
    requires Agree(s) && pid in Keys(ById, s.tree) && IsKid(s, pid, id)
    ensures Do(DeleteGroup(pid, id), s) == Outcome(true, State(Put(ById, s.tree, pid, r.g), r.c), [])
    ensures var n := Node(ById, s.tree, pid); LostKid(s.core, n, KidIndex(n.kids, id), r)
  {
    r := DeleteIn(id, Node(ById, s.tree, pid), s.core);
    DeleteIs(s, pid, id, r);
    DeletedIds(id, Node(ById, s.tree, pid), s.core, r);
  }

  /** Deleting a subgroup that is there takes its subtree out. */
  lemma DeleteTakesSubtree(s: State, pid: Str, id: Str)
    requires Agree(s) && pid in Keys(ById, s.tree) && IsKid(s, pid, id)
    ensures var o := Do(DeleteGroup(pid, id), s); var n := Node(ById, s.tree, pid);
      o.ok && TookSubtree(s, o.s, n.kids[KidIndex(n.kids, id)])
  {
    var r := DeleteRun(s, pid, id);
    TakesSubtree(s, State(Put(ById, s.tree, pid, r.g), r.c), pid, KidIndex(Node(ById, s.tree, pid).kids, id), r);
  }

  lemma TakesSubtree(s: State, s': State, pid: Str, i: nat, r: Visited)
    requires Agree(s) && pid in Keys(ById, s.tree) && i < |Node(ById, s.tree, pid).kids|
    requires LostKid(s.core, Node(ById, s.tree, pid), i, r) && s' == State(Put(ById, s.tree, pid, r.g), r.c)
    ensures TookSubtree(s, s', Node(ById, s.tree, pid).kids[i])
    ensures Agree(s') && (NamesAgree(s) ==> NamesAgree(s'))
  {
    DroppedAgrees(s, s', pid, i);
  }

  lemma DeleteAgrees(s: State, pid: Str, id: Str)
    requires Agree(s) && pid in Keys(ById, s.tree) && IsKid(s, pid, id)
    ensures var s' := Do(DeleteGroup(pid, id), s).s; Agree(s') && (NamesAgree(s) ==> NamesAgree(s'))
  {
    var r := DeleteRun(s, pid, id);
    TakesSubtree(s, State(Put(ById, s.tree, pid, r.g), r.c), pid, KidIndex(Node(ById, s.tree, pid).kids, id), r);
  }

  lemma DeletedIds(id: Str, g: Group, c: Core, r: Visited)
    requires ListOk(c) && KidIndex(g.kids, id) < |g.kids| && r == DeleteIn(id, g, c)
    ensures r.ok && LostKid(c, g, KidIndex(g.kids, id), r)
  {
    DeleteEffect(id, g, c);
  }

  lemma DroppedAgrees(s: State, s': State, pid: Str, i: nat)
    requires Agree(s) && pid in Keys(ById, s.tree) && i < |Node(ById, s.tree, pid).kids|
    requires var n := Node(ById, s.tree, pid);
      s'.tree == Put(ById, s.tree, pid, n.(kids := n.kids[..i] + n.kids[i + 1..]))
    requires Lost(s.core, s'.core, Keys(ById, Node(ById, s.tree, pid).kids[i]))
    ensures var f := Node(ById, s.tree, pid).kids[i];
      && Headers(f) <= Headers(s.tree)
      && Headers(s'.tree) == Headers(s.tree) - Headers(f)
      && s'.tree.Head() == s.tree.Head()
    ensures Agree(s') && (NamesAgree(s) ==> NamesAgree(s'))
  {
    TreeDropped(s.tree, pid, i, s'.tree);
    SubtreeAgrees(s, s', Node(ById, s.tree, pid).kids[i]);
  }

  lemma SubtreeAgrees(s: State, s': State, f: Group)
    requires Agree(s)
    requires Unique(ById, s'.tree) && s'.tree.id == s.tree.id
    requires Headers(f) <= Headers(s.tree) && Headers(s'.tree) == Headers(s.tree) - Headers(f)
    requires forall h :: h in Headers(s.tree) ==> (h in Headers(f) <==> h.id in Keys(ById, f))
    requires Lost(s.core, s'.core, Keys(ById, f))
    ensures Agree(s') && (NamesAgree(s) ==> NamesAgree(s'))
  {
    LostAgreed(Headers(s.tree), s.core.index, ListMap(s.core), Headers(f), Keys(ById, f));
  }

  /** Where the id is no subgroup, index and list lose it all the same. */
  lemma DeleteMisses(s: State, s': State, id: Str)
    requires Agree(s) && s'.tree == s.tree
    requires s'.core.index == s.core.index - {id} && s'.core.list == WithoutGroup(s.core.list, id).store
    ensures Agree(s') <==> id !in s.core.index
    ensures NamesAgree(s) ==> NamesAgree(s')
  {
    GroupCallsRefineMap(s.core.list, id, []);
    KnownIds(s, id);
    if id in s.core.index && Agree(s') {
      KnownIds(s', id);
    }
    if id !in s.core.index {
      assert s'.core.index == s.core.index && ListMap(s'.core) == ListMap(s.core);
    }
  }

  /** Deleting keeps the agreement exactly when the id is a subgroup of the parent named, or is no
      group at all, or no parent is found. */
  lemma DeleteKeepsAgreement(s: State, pid: Str, id: Str)
    requires Agree(s)
    ensures var call := DeleteGroup(pid, id);
      && (Agree(Do(call, s).s) <==> Welcome(call, s))
      && (Welcome(call, s) && NamesAgree(s) ==> NamesAgree(Do(call, s).s))
  {
    var o := Do(DeleteGroup(pid, id), s);
    CtrlIsOneEdit(pid, Delete(id), s);
    if pid !in Keys(ById, s.tree) {
      assert o.s == s;
    } else if IsKid(s, pid, id) {
      DeleteAgrees(s, pid, id);
    } else {
      PutSame(ById, s.tree, pid);
      DeleteMisses(s, o.s, id);
    }
  }

  // ----- renaming -----

  lemma RenamedAgreed(hs: set<Header>, index: map<Str, Str>, list: map<Str, Record>, h: Header, h': Header, r: Record)
    requires Agreed(hs, index, list) && h in hs && h.id != []
    requires forall x :: x in hs && x.id == h.id ==> x == h
    requires h'.id == h.id && r.group == h'.name
    ensures Agreed(hs - {h} + {h'}, index, list[h.id := r])
    ensures NamesIn(hs, index) ==> (NamesIn(hs - {h} + {h'}, index) <==> index[h.id] == h'.name)
  {
    var hs' := hs - {h} + {h'};
    forall id | id in index
      ensures HasId(hs', id)
    {
      var x :| x in hs && x.id == id;
      assert (if x == h then h' else x) in hs';
    }
    assert h' in hs';
  }

  /** Only the root has the empty id, so a subgroup is in the index and in the list. */
  lemma KidIsKnown(s: State, pid: Str, i: nat)
    requires Agree(s) && pid in Keys(ById, s.tree) && i < |Node(ById, s.tree, pid).kids|
    ensures var id := Node(ById, s.tree, pid).kids[i].id;
      id != [] && id in s.core.index && Has(s.core.list.groups, id)
  {
    var n := Node(ById, s.tree, pid);
    var kid, n' := n.kids[i], n.(kids := n.kids[..i] + n.kids[i + 1..]);
    DropKid(ById, s.tree, pid, i);
    RootStays(s.tree, pid, n');
    assert kid.Head() in Headers(kid);
    assert Put(ById, s.tree, pid, n').Head() in Headers(Put(ById, s.tree, pid, n'));
    SubtreeById(s.tree, kid);
    IdsAreFound(s.core.list.groups, kid.id);
  }

  lemma TreeRenamed(tree: Group, pid: Str, i: nat, name: Str, tree': Group)
    requires Unique(ById, tree) && pid in Keys(ById, tree) && i < |Node(ById, tree, pid).kids|
    requires var n := Node(ById, tree, pid);
      tree' == Put(ById, tree, pid, n.(kids := n.kids[i := n.kids[i].(name := name)]))
    ensures var h := Node(ById, tree, pid).kids[i].Head();
      && Unique(ById, tree') && tree'.Head() == tree.Head()
      && h in Headers(tree)
      && Headers(tree') == Headers(tree) - {h} + {h.(name := name)}
      && (forall x :: x in Headers(tree) && x.id == h.id ==> x == h)
  {
    var n := Node(ById, tree, pid);
    var kid := n.kids[i];
    var h := kid.Head().(name := name);
    PutKidHead(ById, tree, pid, i, h);
    assert kid.(name := name) == Group(h.name, h.id, h.path, h.stores, kid.kids);
    RootStays(tree, pid, n.(kids := n.kids[i := kid.(name := name)]));
    KeyOfOneEach(ById, tree);
  }

  lemma ListRenamed(c: Core, c': Core, id: Str, name: Str) returns (r: Record)
    requires ListOk(c) && id in ListMap(c) && c'.list == WithGroupRenamed(c.list, id, name).store
    ensures ListOk(c') && ListMap(c') == ListMap(c)[id := r] && r.group == name
  {
    GroupCallsRefineMap(c.list, id, name);
    IdsAreFound(c.list.groups, id);
    r := QuestionAnswerGroup(name, c.list.groups[IndexOf(c.list.groups, id)].path, id);
  }

  lemma RenameAgrees(s: State, s': State, pid: Str, i: nat, name: Str)
    requires Agree(s) && pid in Keys(ById, s.tree) && i < |Node(ById, s.tree, pid).kids|
    requires var n := Node(ById, s.tree, pid);
      s'.tree == Put(ById, s.tree, pid, n.(kids := n.kids[i := n.kids[i].(name := name)]))
    requires s'.core.index == s.core.index
    requires s'.core.list == WithGroupRenamed(s.core.list, Node(ById, s.tree, pid).kids[i].id, name).store
    ensures Agree(s')
    ensures var id := Node(ById, s.tree, pid).kids[i].id;
      id in s.core.index && (NamesAgree(s) ==> (NamesAgree(s') <==> s.core.index[id] == name))
  {
    var h := Node(ById, s.tree, pid).kids[i].Head();
    TreeRenamed(s.tree, pid, i, name, s'.tree);
    KidIsKnown(s, pid, i);
    var r := ListRenamed(s.core, s'.core, h.id, name);
    RenamedAgreed(Headers(s.tree), s.core.index, ListMap(s.core), h, h.(name := name), r);
  }

  /** Renaming keeps the agreement always; the index keeps the old name, so it agrees afterwards
      exactly when the group was not found or already had that name. */
  lemma UpdateKeepsAgreement(s: State, pid: Str, id: Str, name: Str, moved: bool)
    requires Agree(s)
    ensures var s' := Do(UpdateGroup(pid, id, name, moved), s).s;
      && Agree(s')
      && (NamesAgree(s) ==>
            (NamesAgree(s') <==>
               (pid in Keys(ById, s.tree) && IsKid(s, pid, id) ==> id in s.core.index && s.core.index[id] == name)))
  {
    var o := Do(UpdateGroup(pid, id, name, moved), s);
    CtrlIsOneEdit(pid, Update(id, name, moved), s);
    if pid !in Keys(ById, s.tree) {
      assert o.s == s;
    } else if IsKid(s, pid, id) {
      RenameAgrees(s, o.s, pid, KidIndex(Node(ById, s.tree, pid).kids, id), name);
    } else {
      PutSame(ById, s.tree, pid);
      assert o.s == s;
    }
  }

  // ----- questions -----

  lemma RestoredAgreed(hs: set<Header>, index: map<Str, Str>, list: map<Str, Record>, h: Header, h': Header)
    requires Agreed(hs, index, list) && h in hs && h'.id == h.id && h'.name == h.name
    ensures Agreed(hs - {h} + {h'}, index, list)
    ensures NamesIn(hs, index) ==> NamesIn(hs - {h} + {h'}, index)
  {
    forall id | id in index
      ensures HasId(hs - {h} + {h'}, id)
    {
      var x :| x in hs && x.id == id;
      assert (if x == h then h' else x) in hs - {h} + {h'};
    }
  }

  lemma AskKeepsNode(call: QuestionCall, g: Group, c: Core)
    ensures var r := AskIn(call, g, c);
      && r.c == c
      && r.g == g.(stores := r.g.stores)
      && (r.ok ==> r.reply.Some?) && (!r.ok ==> r.reply == None && r.g == g)
  {
  }

  /** A question call replaces the stores of its group and nothing else. */
  lemma RestockedTree(s: State, s': State, gid: Str, stores: seq<Store>)
    requires Agree(s) && gid in Keys(ById, s.tree)
    requires s' == State(Put(ById, s.tree, gid, Node(ById, s.tree, gid).(stores := stores)), s.core)
    ensures Agree(s') && (NamesAgree(s) ==> NamesAgree(s'))
    ensures var h := Node(ById, s.tree, gid).Head();
      h in Headers(s.tree) && Headers(s'.tree) == Headers(s.tree) - {h} + {h.(stores := stores)}
  {
    var n := Node(ById, s.tree, gid);
    var h := n.Head().(stores := stores);
    PutHead(ById, s.tree, gid, h);
    assert n.(stores := stores) == Group(h.name, h.id, h.path, h.stores, n.kids);
    RestoredAgreed(Headers(s.tree), s.core.index, ListMap(s.core), n.Head(), h);
  }

  lemma QuestionIsOneEdit(s: State, gid: Str, question: QuestionCall)
    requires Unique(ById, s.tree) && gid in s.core.index && gid in Keys(ById, s.tree)
    ensures var n := Node(ById, s.tree, gid); var r := AskIn(question, n, s.core);
      (r.ok ==> r.reply.Some?) &&
      Do(OnQuestion(gid, question), s) ==
        Outcome(r.ok && r.reply.value.ok,
                State(Put(ById, s.tree, gid, n.(stores := r.g.stores)), s.core),
                if r.ok then r.reply.value.answer else [])
  {
    VisitIsOneEdit(ById, gid, Asking(question), s.tree, s.core);
    AskKeepsNode(question, Node(ById, s.tree, gid), s.core);
  }

  lemma QuestionKeepsAgreement(s: State, gid: Str, question: QuestionCall)
    requires Agree(s)
    ensures var s' := Do(OnQuestion(gid, question), s).s;
      Agree(s') && (NamesAgree(s) ==> NamesAgree(s'))
  {
    if gid in s.core.index {
      KnownIds(s, gid);
      QuestionIsOneEdit(s, gid, question);
      RestockedTree(s, Do(OnQuestion(gid, question), s).s, gid,
                    AskIn(question, Node(ById, s.tree, gid), s.core).g.stores);
    }
  }

  // ----- every call, every run -----

  /** Each call keeps the agreement exactly when it is welcome. */
  lemma CallKeepsAgreementIffWelcome(call: Call, s: State)
    requires Agree(s)
    ensures Agree(Do(call, s).s) <==> Welcome(call, s)
  {
    match call
    case AddGroup(pid, name, id, mkdir) => AddKeepsAgreement(s, pid, name, id, mkdir);
    case DeleteGroup(pid, id) => DeleteKeepsAgreement(s, pid, id);
    case UpdateGroup(pid, id, name, moved) => UpdateKeepsAgreement(s, pid, id, name, moved);
    case OnQuestion(gid, question) => QuestionKeepsAgreement(s, gid, question);
  }

  lemma CallKeepsNames(call: Call, s: State)
    requires Agree(s) && NamesAgree(s) && Welcome(call, s) && !call.UpdateGroup?
    ensures NamesAgree(Do(call, s).s)
  {
    match call
    case AddGroup(pid, name, id, mkdir) => AddKeepsAgreement(s, pid, name, id, mkdir);
    case DeleteGroup(pid, id) => DeleteKeepsAgreement(s, pid, id);
    case OnQuestion(gid, question) => QuestionKeepsAgreement(s, gid, question);
  }

  ghost function Run(calls: seq<Call>, s: State): State {
    if calls == [] then s else Run(calls[1..], Do(calls[0], s).s)
  }

  ghost predicate AllWelcome(calls: seq<Call>, s: State) {
    calls == [] || (Welcome(calls[0], s) && AllWelcome(calls[1..], Do(calls[0], s).s))
  }

  ghost predicate NoRename(calls: seq<Call>) {
    forall call :: call in calls ==> !call.UpdateGroup?
  }

  /** Every run of welcome calls keeps tree, index and list in agreement; without renames the names
      in the index agree too. */
  lemma {:induction false} RunKeepsAgreement(calls: seq<Call>, s: State)
    requires Agree(s) && AllWelcome(calls, s)
    ensures Agree(Run(calls, s))
    ensures NamesAgree(s) && NoRename(calls) ==> NamesAgree(Run(calls, s))
  {
    if calls == [] {
      return;
    }
    CallKeepsAgreementIffWelcome(calls[0], s);
    if NamesAgree(s) && NoRename(calls) {
      CallKeepsNames(calls[0], s);
    }
    RunKeepsAgreement(calls[1..], Do(calls[0], s).s);
  }
}
