/** The bank as a plain map, with an operation of its own for every call, and the proof that every
    state reached answers and moves as that map does, renames included. */
module PlainBank {
  import opened Bytes
  import opened Records
  import opened Stores
  import opened Groups
  import opened Parents
  import opened Bank
  import opened Agreement
  import opened Layout
  import opened Places
  import opened Calls

  // ----- the plain map and its operations -----

  /** What a group is to a caller: its parent's id, its name, the name it was made or loaded with,
      and its questions by id. */
  datatype Info = Info(parent: Str, name: Str, first: Str, questions: map<Str, Record>)

  type Plain = map<Str, Info>

  /** A new group may not take a first name; names taken by renaming are free. */
  ghost predicate NameTaken(m: Plain, name: Str) {
    exists id :: id in m && m[id].first == name
  }

  /** The group `n` steps up from `id`. */
  ghost function Up(m: Plain, id: Str, n: nat): Str
    decreases n
  {
    if n == 0 || id !in m then id else Up(m, m[id].parent, n - 1)
  }

  /** `id` is `x` or a group on the way from `x` to the root. */
  ghost predicate Above(m: Plain, id: Str, x: Str) {
    exists n: nat :: Up(m, x, n) == id
  }

  /** The group and all groups below it. */
  ghost function Subtree(m: Plain, id: Str): set<Str> {
    set x | x in m && Above(m, id, x)
  }

  /** The call on the plain map: the reply and the new map.  The empty id is the root. */
  ghost function Step(call: Call, m: Plain): (Reply, Plain) {
    match call
    case AddGroup(pid, name, id, mkdir) =>
      if id in m || NameTaken(m, name) || (pid != [] && pid !in m) then (Reply(false, []), m)
      else (Reply(mkdir, []), m[id := Info(pid, name, name, map[])])
    case DeleteGroup(pid, id) =>
      if id in m && m[id].parent == pid then (Reply(true, []), m - Subtree(m, id))
      else (Reply(false, []), m)
    case UpdateGroup(pid, id, name, moved) =>
      if id in m && m[id].parent == pid then (Reply(moved, []), m[id := m[id].(name := name)])
      else (Reply(false, []), m)
    case OnQuestion(gid, question) =>
      if gid in m then
        var (reply, questions) := OnMap(question, gid, m[gid].questions);
        (reply, m[gid := m[gid].(questions := questions)])
      else (Reply(false, []), m)
  }

  // ----- the map a state stands for -----

  ghost predicate LeadsTo(es: set<Edge>, id: Str) {
    exists e :: e in es && e.kid.id == id
  }

  ghost function EdgeTo(es: set<Edge>, id: Str): Edge
    requires LeadsTo(es, id)
  {
    var e :| e in es && e.kid.id == id; e
  }

  function InfoOf(e: Edge, index: map<Str, Str>): Info {
    Info(e.parent, e.kid.name, if e.kid.id in index then index[e.kid.id] else [], ToMap(QuestionsAt(e.kid)))
  }

  function KidIds(es: set<Edge>): set<Str> {
    set e | e in es :: e.kid.id
  }

  ghost function AbsOf(es: set<Edge>, index: map<Str, Str>): Plain {
    map id | id in KidIds(es) :: InfoOf(EdgeTo(es, id), index)
  }

  ghost function Abs(s: State): Plain {
    AbsOf(Edges(s.tree), s.core.index)
  }

  /** Every edge's group is in the map as the edge and the index tell, and nothing else is. */
  ghost predicate Stands(es: set<Edge>, index: map<Str, Str>, m: Plain) {
    && (forall e :: e in es ==> e.kid.id in m && m[e.kid.id] == InfoOf(e, index))
    && (forall id :: id in m ==> LeadsTo(es, id))
  }

  lemma AbsStands(es: set<Edge>, index: map<Str, Str>)
    requires OneEach(es)
    ensures Stands(es, index, AbsOf(es, index))
  {
    forall e | e in es
      ensures e.kid.id in AbsOf(es, index) && AbsOf(es, index)[e.kid.id] == InfoOf(e, index)
    {
      assert e.kid.id in KidIds(es) && LeadsTo(es, e.kid.id);
    }
    forall id | id in AbsOf(es, index)
      ensures LeadsTo(es, id)
    {
      var e :| e in es && e.kid.id == id;
    }
  }

  /** Only one map stands for a state. */
  lemma StandsIsAbs(es: set<Edge>, index: map<Str, Str>, m: Plain)
    requires OneEach(es) && Stands(es, index, m)
    ensures AbsOf(es, index) == m
  {
    AbsStands(es, index);
    var abs := AbsOf(es, index);
    forall id
      ensures id in m <==> id in abs
      ensures id in m ==> m[id] == abs[id]
    {
      if id in m {
        var e :| e in es && e.kid.id == id;
      }
      if id in abs {
        var e :| e in es && e.kid.id == id;
      }
    }
  }

  // ----- the edits, on edges -----

  lemma AbsGains(es: set<Edge>, index: map<Str, Str>, e: Edge)
    requires OneEach(es) && !LeadsTo(es, e.kid.id) && e.kid.stores == []
    ensures AbsOf(es + {e}, index[e.kid.id := e.kid.name]) ==
            AbsOf(es, index)[e.kid.id := Info(e.parent, e.kid.name, e.kid.name, map[])]
  {
    var index' := index[e.kid.id := e.kid.name];
    var m' := AbsOf(es, index)[e.kid.id := Info(e.parent, e.kid.name, e.kid.name, map[])];
    AbsStands(es, index);
    forall x | x in es
      ensures x.kid.id != e.kid.id && InfoOf(x, index') == InfoOf(x, index)
    {
      assert LeadsTo(es, x.kid.id);
    }
    assert InfoOf(e, index') == m'[e.kid.id];
    forall id | id in m'
      ensures LeadsTo(es + {e}, id)
    {
      if id == e.kid.id {
        assert e in es + {e};
      } else {
        var x :| x in es && x.kid.id == id;
        assert x in es + {e};
      }
    }
    StandsIsAbs(es + {e}, index', m');
  }

  lemma AbsLoses(es: set<Edge>, index: map<Str, Str>, gone: set<Edge>)
    requires OneEach(es) && gone <= es
    ensures AbsOf(es - gone, index - KidIds(gone)) == AbsOf(es, index) - KidIds(gone)
  {
    var ids := KidIds(gone);
    AbsStands(es, index);
    forall e | e in es
      ensures e in gone <==> e.kid.id in ids
    {
      if e.kid.id in ids {
        var x :| x in gone && x.kid.id == e.kid.id;
      }
    }
    forall id | id in AbsOf(es, index) - ids
      ensures LeadsTo(es - gone, id)
    {
      var e :| e in es && e.kid.id == id;
      assert e in es - gone;
    }
    StandsIsAbs(es - gone, index - ids, AbsOf(es, index) - ids);
  }

  lemma AbsSwaps(es: set<Edge>, index: map<Str, Str>, e: Edge, e': Edge)
    requires OneEach(es) && e in es && e'.kid.id == e.kid.id
    ensures e.kid.id in AbsOf(es, index) && AbsOf(es, index)[e.kid.id] == InfoOf(e, index)
    ensures AbsOf(es - {e} + {e'}, index) == AbsOf(es, index)[e.kid.id := InfoOf(e', index)]
  {
    var es', m' := es - {e} + {e'}, AbsOf(es, index)[e.kid.id := InfoOf(e', index)];
    AbsStands(es, index);
    forall id | id in m'
      ensures LeadsTo(es', id)
    {
      if id == e.kid.id {
        assert e' in es';
      } else {
        assert LeadsTo(es, id);
        var x :| x in es && x.kid.id == id;
        assert x in es';
      }
    }
    StandsIsAbs(es', index, m');
  }

  // ----- what a caller sees -----

  /** The node's paths are in normal form, and its store, if it has one, is open at its file, with
      distinct ids. */
  ghost predicate NodeSound(root: Str, h: Header) {
    && NoSep(h.id) && Normal(root, h.path)
    && |h.stores| <= 1
    && (h.stores != [] ==> h.stores[0].path == StoreFile(h) && Distinct(h.stores[0].questions))
  }

  ghost predicate NodesSound(root: Str, hs: set<Header>) {
    forall h :: h in hs ==> NodeSound(root, h)
  }

  /** What every run of regular calls keeps, renames and failing directories included. */
  ghost predicate Sound(s: State) {
    Agree(s) && NodesSound(s.tree.path, Headers(s.tree))
  }

  lemma KnownGroups(s: State)
    requires Agree(s)
    ensures OneEach(Edges(s.tree)) && Abs(s).Keys == s.core.index.Keys
    ensures forall id :: id in s.core.index ==> Abs(s)[id].first == s.core.index[id]
    ensures [] !in Abs(s)
  {
    var es := Edges(s.tree);
    OneParent(s.tree);
    AbsStands(es, s.core.index);
    forall id
      ensures id in Abs(s) <==> id in s.core.index
      ensures id in s.core.index ==> Abs(s)[id].first == s.core.index[id]
    {
      KnownGroup(s, id);
      if id in Abs(s) {
        assert LeadsTo(es, id);
        var e :| e in es && e.kid.id == id;
      }
    }
  }

  lemma KnownGroup(s: State, id: Str)
    requires Agree(s)
    ensures LeadsTo(Edges(s.tree), id) <==> id in s.core.index
  {
    if LeadsTo(Edges(s.tree), id) {
      EdgeIsKnown(s, id);
    }
    if id in s.core.index {
      KnownHasEdge(s, id);
    }
  }

  lemma EdgeIsKnown(s: State, id: Str)
    requires Agree(s) && LeadsTo(Edges(s.tree), id)
    ensures id in s.core.index
  {
    EdgeEnds(s.tree);
    assert Key(ById, s.tree.Head()) == [];
    var e :| e in Edges(s.tree) && e.kid.id == id;
    assert e.kid in Headers(s.tree) && Key(ById, e.kid) in KeysOf(ById, s.tree.kids);
  }

  lemma KnownHasEdge(s: State, id: Str)
    requires Agree(s) && id in s.core.index
    ensures LeadsTo(Edges(s.tree), id)
  {
    EdgeEnds(s.tree);
    assert HasId(Headers(s.tree), id);
    var h :| h in Headers(s.tree) && h.id == id;
    assert HasEdge(Edges(s.tree), h);
  }

  lemma RefusedAlike(s: State, pid: Str, name: Str, id: Str)
    requires Agree(s)
    ensures Refused(s, pid, name, id) <==> id in Abs(s) || NameTaken(Abs(s), name) || (pid != [] && pid !in Abs(s))
  {
    KnownGroups(s);
    KnownIds(s, pid);
    if name in s.core.index.Values {
      var x :| x in s.core.index && s.core.index[x] == name;
      assert x in Abs(s) && Abs(s)[x].first == name;
    }
  }

  /** A subgroup of a parent is a group whose parent it is. */
  lemma KidAlike(s: State, pid: Str, id: Str)
    requires Agree(s)
    ensures pid in Keys(ById, s.tree) && IsKid(s, pid, id) <==> id in Abs(s) && Abs(s)[id].parent == pid
  {
    var es := Edges(s.tree);
    OneParent(s.tree);
    AbsStands(es, s.core.index);
    if pid in Keys(ById, s.tree) && IsKid(s, pid, id) {
      EdgeOfKid(s.tree, pid, KidIndex(Node(ById, s.tree, pid).kids, id));
    }
    if id in Abs(s) && Abs(s)[id].parent == pid {
      assert LeadsTo(es, id);
      var e :| e in es && e.kid.id == id;
      var i := KidOfEdge(s.tree, e);
    }
  }

  // ----- adding -----

  lemma AddSteps(s: State, pid: Str, name: Str, id: Str, mkdir: bool)
    requires Sound(s) && !Refused(s, pid, name, id) && id != [] && ValidName(name) && NoSep(id)
    ensures var o := Do(AddGroup(pid, name, id, mkdir), s);
      && Sound(o.s) && o.answer == []
      && o.ok == (Exists(s.core.disk, Join(Node(ById, s.tree, pid).path, name)) || mkdir)
      && Abs(o.s) == Abs(s)[id := Info(pid, name, name, map[])]
  {
    var o := Do(AddGroup(pid, name, id, mkdir), s);
    CtrlIsOneEdit(pid, Add(id, name, mkdir), s);
    AddKeepsAgreement(s, pid, name, id, mkdir);
    AddedSteps(s, o.s, pid, NewGroup(s, pid, name, id));
  }

  lemma AddedSteps(s: State, s': State, pid: Str, leaf: Group)
    requires Sound(s) && pid in Keys(ById, s.tree) && leaf.id !in s.core.index && leaf.id != []
    requires leaf.kids == [] && leaf.stores == [] && ValidName(leaf.name) && NoSep(leaf.id)
    requires leaf.path == Join(Node(ById, s.tree, pid).path, leaf.name)
    requires var n := Node(ById, s.tree, pid); s'.tree == Put(ById, s.tree, pid, n.(kids := n.kids + [leaf]))
    requires s'.core.index == s.core.index[leaf.id := leaf.name]
    ensures NodesSound(s'.tree.path, Headers(s'.tree))
    ensures Abs(s') == Abs(s)[leaf.id := Info(pid, leaf.name, leaf.name, map[])]
  {
    PutKid(ById, s.tree, pid, leaf);
    NodeIsHere(s.tree, pid);
    NormalJoin(s.tree.path, Node(ById, s.tree, pid).path, leaf.name);
    EdgesAdded(s.tree, pid, leaf);
    KnownGroup(s, leaf.id);
    OneParent(s.tree);
    AbsGains(Edges(s.tree), s.core.index, Edge(pid, leaf.Head()));
  }

  // ----- deleting -----

  lemma DeleteSteps(s: State, pid: Str, id: Str)
    requires Sound(s) && pid in Keys(ById, s.tree) && IsKid(s, pid, id)
    ensures var o := Do(DeleteGroup(pid, id), s);
      o.ok && o.answer == [] && Sound(o.s) && Abs(o.s) == Abs(s) - Subtree(Abs(s), id)
  {
    var r := DeleteRun(s, pid, id);
    DeleteAgrees(s, pid, id);
    DroppedSteps(s, State(Put(ById, s.tree, pid, r.g), r.c), pid, KidIndex(Node(ById, s.tree, pid).kids, id), r);
  }

  lemma DroppedSteps(s: State, s': State, pid: Str, i: nat, r: Visited)
    requires Sound(s) && pid in Keys(ById, s.tree) && i < |Node(ById, s.tree, pid).kids|
    requires LostKid(s.core, Node(ById, s.tree, pid), i, r) && s' == State(Put(ById, s.tree, pid, r.g), r.c)
    ensures NodesSound(s'.tree.path, Headers(s'.tree))
    ensures Abs(s') == Abs(s) - Subtree(Abs(s), Node(ById, s.tree, pid).kids[i].id)
  {
    var f := Node(ById, s.tree, pid).kids[i];
    var gone := {Edge(pid, f.Head())} + Edges(f);
    OneParent(s.tree);
    DropKid(ById, s.tree, pid, i);
    EdgesDropped(s.tree, pid, i);
    assert Edges(s.tree) - {Edge(pid, f.Head())} - Edges(f) == Edges(s.tree) - gone;
    GoneIds(f, pid);
    SubtreeIsKeys(s, pid, i);
    AbsLoses(Edges(s.tree), s.core.index, gone);
  }

  lemma GoneIds(f: Group, pid: Str)
    ensures KidIds({Edge(pid, f.Head())} + Edges(f)) == Keys(ById, f)
  {
    var gone := {Edge(pid, f.Head())} + Edges(f);
    EdgeEnds(f);
    KeysOfNode(ById, f);
    assert Key(ById, f.Head()) == f.id;
    forall id | id in Keys(ById, f)
      ensures id in KidIds(gone)
    {
      if id == f.id {
        assert Edge(pid, f.Head()) in gone;
      } else {
        var h :| h in HeadersOf(f.kids) && Key(ById, h) == id;
        assert HasEdge(Edges(f), h);
        var e :| e in Edges(f) && e.kid == h;
        assert e in gone;
      }
    }
    forall e | e in gone
      ensures e.kid.id in Keys(ById, f)
    {
      assert Key(ById, e.kid) == e.kid.id;
    }
  }

  /** The ids from which climbing parents gets to a subgroup are those of its nodes. */
  lemma SubtreeIsKeys(s: State, pid: Str, i: nat)
    requires Agree(s) && pid in Keys(ById, s.tree) && i < |Node(ById, s.tree, pid).kids|
    ensures var f := Node(ById, s.tree, pid).kids[i]; Subtree(Abs(s), f.id) == Keys(ById, f)
  {
    var es, f := Edges(s.tree), Node(ById, s.tree, pid).kids[i];
    OneParent(s.tree);
    AbsStands(es, s.core.index);
    EdgesDropped(s.tree, pid, i);
    forall e | e in es && e.parent in Keys(ById, f)
      ensures e in Edges(f)
    {
      ClosedInKid(s.tree, pid, i, e);
    }
    ClimbersAreKeys(f, pid, es, s.core.index, Abs(s));
  }

  lemma ClimbersAreKeys(f: Group, pid: Str, es: set<Edge>, index: map<Str, Str>, m: Plain)
    requires Stands(es, index, m) && Edge(pid, f.Head()) in es && Edges(f) <= es
    requires forall e :: e in es && e.parent in Keys(ById, f) ==> e in Edges(f)
    ensures Subtree(m, f.id) == Keys(ById, f)
  {
    GoneIds(f, pid);
    forall x | x in Keys(ById, f)
      ensures x in Subtree(m, f.id)
    {
      var k := ClimbTo(f, es, index, m, x);
      var e :| e in {Edge(pid, f.Head())} + Edges(f) && e.kid.id == x;
      assert Above(m, f.id, x);
    }
    forall x | x in Subtree(m, f.id)
      ensures x in Keys(ById, f)
    {
      var k: nat :| Up(m, x, k) == f.id;
      ClimbIsBelow(f, es, index, m, x, k);
    }
  }

  lemma ClosedInKid(g: Group, pid: Str, i: nat, e: Edge)
    requires Unique(ById, g) && pid in Keys(ById, g) && i < |Node(ById, g, pid).kids|
    requires e in Edges(g) && e.parent in Keys(ById, Node(ById, g, pid).kids[i])
    ensures e in Edges(Node(ById, g, pid).kids[i])
  {
    var n := Node(ById, g, pid);
    NodeUnique(ById, ById, g, pid);
    NodeEdges(g, pid);
    KidsSplit(n.kids, i);
    KeysOfNode(ById, n);
    assert Keys(ById, n.kids[i]) <= KeysOf(ById, n.kids);
    KidClosed(n, i, e);
  }

  lemma {:induction false} UpMore(m: Plain, x: Str, n: nat)
    ensures Up(m, x, n + 1) == if Up(m, x, n) in m then m[Up(m, x, n)].parent else Up(m, x, n)
    decreases n
  {
    if n > 0 && x in m {
      UpMore(m, m[x].parent, n - 1);
    }
  }

  lemma {:induction false} ClimbTo(g: Group, es: set<Edge>, index: map<Str, Str>, m: Plain, x: Str) returns (n: nat)
    requires Edges(g) <= es && Stands(es, index, m) && x in Keys(ById, g)
    ensures Up(m, x, n) == g.id
    decreases g, 1
  {
    KeysOfNode(ById, g);
    if x == g.id {
      n := 0;
    } else {
      assert Key(ById, g.Head()) == g.id;
      n := ClimbAmong(g.id, g.kids, es, index, m, x);
    }
  }

  lemma {:induction false} ClimbAmong(pid: Str, gs: seq<Group>, es: set<Edge>, index: map<Str, Str>, m: Plain, x: Str)
    returns (n: nat)
    requires EdgesOf(pid, gs) <= es && Stands(es, index, m) && x in KeysOf(ById, gs)
    ensures Up(m, x, n) == pid
    decreases gs, 0
  {
    if x in Keys(ById, gs[0]) {
      n := ClimbTo(gs[0], es, index, m, x);
      assert Edge(pid, gs[0].Head()) in es;
      UpMore(m, x, n);
      n := n + 1;
    } else {
      n := ClimbAmong(pid, gs[1..], es, index, m, x);
    }
  }

  lemma {:induction false} ClimbIsBelow(f: Group, es: set<Edge>, index: map<Str, Str>, m: Plain, x: Str, n: nat)
    requires Stands(es, index, m) && forall e :: e in es && e.parent in Keys(ById, f) ==> e in Edges(f)
    requires Up(m, x, n) == f.id
    ensures x in Keys(ById, f)
    decreases n
  {
    KeysOfNode(ById, f);
    assert Key(ById, f.Head()) == f.id;
    if n > 0 && x in m {
      assert LeadsTo(es, x);
      var e :| e in es && e.kid.id == x;
      ClimbIsBelow(f, es, index, m, e.parent, n - 1);
      EdgeEnds(f);
      assert Key(ById, e.kid) == x;
    }
  }

  // ----- renaming -----

  /** A rename changes the name and nothing else: not the first name, not a question, no other group. */
  lemma RenameSteps(s: State, pid: Str, id: Str, name: Str, moved: bool)
    requires Sound(s)
    ensures var o := Do(UpdateGroup(pid, id, name, moved), s);
      Sound(o.s) && (Reply(o.ok, o.answer), Abs(o.s)) == Step(UpdateGroup(pid, id, name, moved), Abs(s))
  {
    KidAlike(s, pid, id);
    UpdateKeepsAgreement(s, pid, id, name, moved);
    if pid in Keys(ById, s.tree) && IsKid(s, pid, id) {
      var r := UpdateIn(id, name, moved, Node(ById, s.tree, pid), s.core);
      UpdateIs(s, pid, id, name, moved, r);
      RenameStepsTo(s, pid, id, name, moved, r, State(Put(ById, s.tree, pid, r.g), r.c));
    } else {
      RenameMissed(s, pid, id, name, moved);
    }
  }

  lemma RenameMissed(s: State, pid: Str, id: Str, name: Str, moved: bool)
    requires Agree(s) && !(pid in Keys(ById, s.tree) && IsKid(s, pid, id))
    ensures Do(UpdateGroup(pid, id, name, moved), s) == Outcome(false, s, [])
  {
    CtrlIsOneEdit(pid, Update(id, name, moved), s);
    if pid in Keys(ById, s.tree) {
      PutSame(ById, s.tree, pid);
    }
  }

  lemma RenameStepsTo(s: State, pid: Str, id: Str, name: Str, moved: bool, r: Visited, s': State)
    requires Sound(s) && pid in Keys(ById, s.tree) && IsKid(s, pid, id) && id in Abs(s) && Abs(s)[id].parent == pid
    requires r == UpdateIn(id, name, moved, Node(ById, s.tree, pid), s.core)
    requires s' == State(Put(ById, s.tree, pid, r.g), r.c)
    ensures NodesSound(s'.tree.path, Headers(s'.tree))
    ensures (Reply(r.ok, []), Abs(s')) == Step(UpdateGroup(pid, id, name, moved), Abs(s))
  {
    RenamedSteps(s, s', pid, KidIndex(Node(ById, s.tree, pid).kids, id), name);
    StepOfRename(Abs(s), pid, id, name, moved, Abs(s'));
  }

  lemma StepOfRename(m: Plain, pid: Str, id: Str, name: Str, moved: bool, m': Plain)
    requires id in m && m[id].parent == pid && m' == m[id := m[id].(name := name)]
    ensures (Reply(moved, []), m') == Step(UpdateGroup(pid, id, name, moved), m)
  {
  }

  lemma NodeSwapped(root: Str, hs: set<Header>, h: Header, h': Header)
    requires NodesSound(root, hs) && h in hs && (h' == h.(name := h'.name) || NodeSound(root, h'))
    ensures NodesSound(root, hs - {h} + {h'})
  {
    assert h' == h.(name := h'.name) ==> StoreFile(h') == StoreFile(h);
  }

  lemma RenamedSteps(s: State, s': State, pid: Str, i: nat, name: Str)
    requires Sound(s) && pid in Keys(ById, s.tree) && i < |Node(ById, s.tree, pid).kids|
    requires var n := Node(ById, s.tree, pid);
      s'.tree == Put(ById, s.tree, pid, n.(kids := n.kids[i := n.kids[i].(name := name)]))
    requires s'.core.index == s.core.index
    ensures NodesSound(s'.tree.path, Headers(s'.tree))
    ensures var id := Node(ById, s.tree, pid).kids[i].id;
      id in Abs(s) && Abs(s') == Abs(s)[id := Abs(s)[id].(name := name)]
  {
    var f := Node(ById, s.tree, pid).kids[i];
    var h := f.Head().(name := name);
    TreeRenamed(s.tree, pid, i, name, s'.tree);
    NodeSwapped(s.tree.path, Headers(s.tree), f.Head(), h);
    assert f.(name := name) == Group(h.name, h.id, h.path, h.stores, f.kids);
    EdgesRekid(s.tree, pid, i, h);
    OneParent(s.tree);
    AbsSwaps(Edges(s.tree), s.core.index, Edge(pid, f.Head()), Edge(pid, h));
  }

  // ----- questions -----

  /** The group has its store, or opening it now gives an empty one. */
  ghost predicate Openable(s: State, gid: Str) {
    gid in Keys(ById, s.tree) && gid in s.core.index ==>
      var h := Node(ById, s.tree, gid).Head();
      var r := Opened(FRESH, s.core.disk, StoreFile(h), true);
      h.stores != [] || (r.ok && r.store.questions == [])
  }

  lemma QuestionSteps(s: State, gid: Str, call: QuestionCall)
    requires Sound(s) && gid in s.core.index && Openable(s, gid)
    ensures var o := Do(OnQuestion(gid, call), s);
      Sound(o.s) && (Reply(o.ok, o.answer), Abs(o.s)) == Step(OnQuestion(gid, call), Abs(s))
  {
    KnownIds(s, gid);
    QuestionIsOneEdit(s, gid, call);
    var n := Node(ById, s.tree, gid);
    var r := AskIn(call, n, s.core);
    AnsweredSteps(s, gid, call, r);
    var s' := State(Put(ById, s.tree, gid, n.(stores := r.g.stores)), s.core);
    RestockedTree(s, s', gid, r.g.stores);
    QuestionStepsTo(s, gid, call, r.g.stores, s', r.reply.value);
  }

  lemma QuestionStepsTo(s: State, gid: Str, call: QuestionCall, stores: seq<Store>, s': State, reply: Reply)
    requires Sound(s) && gid in s.core.index && gid in Keys(ById, s.tree)
    requires stores != [] && NodeSound(s.tree.path, Node(ById, s.tree, gid).Head().(stores := stores))
    requires s' == State(Put(ById, s.tree, gid, Node(ById, s.tree, gid).(stores := stores)), s.core)
    requires (reply, ToMap(stores[0].questions)) ==
             OnMap(call, gid, ToMap(QuestionsAt(Node(ById, s.tree, gid).Head())))
    ensures NodesSound(s'.tree.path, Headers(s'.tree)) && (reply, Abs(s')) == Step(OnQuestion(gid, call), Abs(s))
  {
    RestockedSteps(s, gid, stores);
    RestockedSound(s, gid, stores);
    StepOfQuestion(Abs(s), gid, call, reply, ToMap(stores[0].questions), Abs(s'));
  }

  lemma StepOfQuestion(m: Plain, gid: Str, call: QuestionCall, reply: Reply, qs: map<Str, Record>, m': Plain)
    requires gid in m && (reply, qs) == OnMap(call, gid, m[gid].questions) && m' == m[gid := m[gid].(questions := qs)]
    ensures (reply, m') == Step(OnQuestion(gid, call), m)
  {
  }

  /** The store the call works on, its reply and its new questions. */
  lemma AnsweredSteps(s: State, gid: Str, call: QuestionCall, r: Visited)
    requires Sound(s) && gid in s.core.index && gid in Keys(ById, s.tree) && Openable(s, gid)
    requires r == AskIn(call, Node(ById, s.tree, gid), s.core)
    ensures var h := Node(ById, s.tree, gid).Head();
      var (reply, qs) := OnMap(call, gid, ToMap(QuestionsAt(h)));
      && r.ok && r.reply == Some(reply)
      && r.g.stores != [] && NodeSound(s.tree.path, h.(stores := r.g.stores))
      && ToMap(r.g.stores[0].questions) == qs
  {
    var n := Node(ById, s.tree, gid);
    NodeIsHere(s.tree, gid);
    assert Key(ById, n.Head()) == gid;
    AnsweredAt(s.tree.path, n, call, s.core, r);
  }

  lemma AnsweredAt(root: Str, n: Group, call: QuestionCall, c: Core, r: Visited)
    requires NodeSound(root, n.Head()) && r == AskIn(call, n, c)
    requires var o := Opened(FRESH, c.disk, StoreFile(n.Head()), true);
      n.stores != [] || (o.ok && o.store.questions == [])
    ensures var (reply, qs) := OnMap(call, n.id, ToMap(QuestionsAt(n.Head())));
      && r.ok && r.reply == Some(reply)
      && r.g.stores != [] && NodeSound(root, n.Head().(stores := r.g.stores))
      && ToMap(r.g.stores[0].questions) == qs
  {
    assert StoreFile(n.Head()) != [];
    var ready := if n.stores == [] then Opened(FRESH, c.disk, StoreFile(n.Head()), true).store else n.stores[0];
    assert ready.path == StoreFile(n.Head()) && ready.questions == QuestionsAt(n.Head());
    AnsweredRefinesMap(call, n.id, ready);
  }

  lemma RestockedSteps(s: State, gid: Str, stores: seq<Store>)
    requires Agree(s) && gid in s.core.index && gid in Keys(ById, s.tree)
    ensures gid in Abs(s) && Abs(s)[gid].questions == ToMap(QuestionsAt(Node(ById, s.tree, gid).Head()))
    ensures stores != [] ==>
      var s' := State(Put(ById, s.tree, gid, Node(ById, s.tree, gid).(stores := stores)), s.core);
      Abs(s') == Abs(s)[gid := Abs(s)[gid].(questions := ToMap(stores[0].questions))]
  {
    var n := Node(ById, s.tree, gid);
    var h := n.Head().(stores := stores);
    assert n.(stores := stores) == Group(h.name, h.id, h.path, h.stores, n.kids);
    assert Key(ById, n.Head()) == gid == n.id;
    OneParent(s.tree);
    var p := EdgesRehead(s.tree, gid, h);
    AbsSwaps(Edges(s.tree), s.core.index, Edge(p, n.Head()), Edge(p, h));
  }

  lemma RestockedSound(s: State, gid: Str, stores: seq<Store>)
    requires Sound(s) && gid in s.core.index && gid in Keys(ById, s.tree)
    requires NodeSound(s.tree.path, Node(ById, s.tree, gid).Head().(stores := stores))
    ensures var tree := Put(ById, s.tree, gid, Node(ById, s.tree, gid).(stores := stores));
      NodesSound(tree.path, Headers(tree))
  {
    var n := Node(ById, s.tree, gid);
    var h := n.Head().(stores := stores);
    PutHead(ById, s.tree, gid, h);
    assert n.(stores := stores) == Group(h.name, h.id, h.path, h.stores, n.kids);
    NodeSwapped(s.tree.path, Headers(s.tree), n.Head(), h);
  }

  // ----- every call -----

  /** No store that would be closed empty lies at a directory: closing removes what is at its path. */
  ghost predicate Closable(s: State, f: Group) {
    forall h :: h in Headers(f) && h.stores != [] && IsEmpty(h.stores[0]) ==> h.stores[0].path !in s.core.disk.dirs
  }

  /** A call that keeps the agreement, with names that are directory entries of their own and an id that
      makes a file name, on a disk that gives the answer it is said to give: a directory that is there
      counts as made, a store opened late is empty, and a store closed empty is no directory. */
  ghost predicate Regular(call: Call, s: State) {
    && Welcome(call, s)
    && match call
       case AddGroup(pid, name, id, mkdir) =>
         Refused(s, pid, name, id) ||
         (ValidName(name) && NoSep(id) && (Exists(s.core.disk, Join(Node(ById, s.tree, pid).path, name)) ==> mkdir))
       case DeleteGroup(pid, id) =>
         pid in Keys(ById, s.tree) && IsKid(s, pid, id) ==>
           Closable(s, Node(ById, s.tree, pid).kids[KidIndex(Node(ById, s.tree, pid).kids, id)])
       case UpdateGroup(pid, id, name, moved) =>
         moved && pid in Keys(ById, s.tree) && IsKid(s, pid, id) ==> ValidName(name)
       case OnQuestion(gid, question) => Openable(s, gid)
  }

  /** From every sound state, after any renames, every regular call answers and moves as its operation
      on the plain map does. */
  lemma CallSteps(call: Call, s: State)
    requires Sound(s) && Regular(call, s)
    ensures var o := Do(call, s);
      Sound(o.s) && (Reply(o.ok, o.answer), Abs(o.s)) == Step(call, Abs(s))
  {
    match call
    case AddGroup(pid, name, id, mkdir) =>
      RefusedAlike(s, pid, name, id);
      if Refused(s, pid, name, id) {
        AddRefused(s, pid, name, id, mkdir);
      } else {
        AddSteps(s, pid, name, id, mkdir);
      }
    case DeleteGroup(pid, id) => DeleteStepsOrMisses(s, pid, id);
    case UpdateGroup(pid, id, name, moved) => RenameSteps(s, pid, id, name, moved);
    case OnQuestion(gid, question) =>
      KnownGroups(s);
      if gid in s.core.index {
        QuestionSteps(s, gid, question);
      }
  }

  lemma DeleteStepsOrMisses(s: State, pid: Str, id: Str)
    requires Sound(s) && Welcome(DeleteGroup(pid, id), s)
    ensures var o := Do(DeleteGroup(pid, id), s);
      Sound(o.s) && (Reply(o.ok, o.answer), Abs(o.s)) == Step(DeleteGroup(pid, id), Abs(s))
  {
    KidAlike(s, pid, id);
    if pid in Keys(ById, s.tree) && IsKid(s, pid, id) {
      DeleteSteps(s, pid, id);
    } else {
      DeleteMissed(s, pid, id);
    }
  }

  lemma DeleteMissed(s: State, pid: Str, id: Str)
    requires Agree(s) && Welcome(DeleteGroup(pid, id), s)
    requires !(pid in Keys(ById, s.tree) && IsKid(s, pid, id))
    ensures Do(DeleteGroup(pid, id), s) == Outcome(false, s, [])
  {
    CtrlIsOneEdit(pid, Delete(id), s);
    if pid in Keys(ById, s.tree) {
      DeleteOfNothing(s, pid, id);
    }
  }

  /** A known group's question calls all answer and move as on the map if and only if it is openable. */
  lemma QuestionsStepIffOpenable(s: State, gid: Str)
    requires Sound(s) && gid in s.core.index
    ensures (forall call: QuestionCall :: Steps(s, gid, call)) <==> Openable(s, gid)
  {
    if Openable(s, gid) {
      forall call: QuestionCall
        ensures Steps(s, gid, call)
      {
        QuestionSteps(s, gid, call);
      }
    } else {
      var call := Misses(s, gid);
      assert !Steps(s, gid, call);
    }
  }

  ghost predicate Steps(s: State, gid: Str, call: QuestionCall) {
    var o := Do(OnQuestion(gid, call), s);
    (Reply(o.ok, o.answer), Abs(o.s)) == Step(OnQuestion(gid, call), Abs(s))
  }

  /** A question that cannot be added, or one found that nobody put there. */
  lemma Misses(s: State, gid: Str) returns (call: QuestionCall)
    requires Sound(s) && gid in s.core.index && !Openable(s, gid)
    ensures !Steps(s, gid, call)
  {
    KnownIds(s, gid);
    var n := Node(ById, s.tree, gid);
    var r := Opened(FRESH, s.core.disk, StoreFile(n.Head()), true);
    NoQuestionsYet(s, gid);
    if r.ok {
      call := QueryQuestion(r.store.questions[0].id);
    } else {
      call := AddQuestion([], [], []);
    }
    var visited := AskIn(call, n, s.core);
    MissedReply(call, n, s.core, visited);
    QuestionIsOneEdit(s, gid, call);
    StepOfNone(Abs(s), gid, call);
  }

  lemma StepOfNone(m: Plain, gid: Str, call: QuestionCall)
    requires gid in m && m[gid].questions == map[]
    ensures Step(OnQuestion(gid, call), m).0 == OnMap(call, gid, map[]).0
  {
  }

  lemma MissedReply(call: QuestionCall, g: Group, c: Core, r: Visited)
    requires g.stores == [] && r == AskIn(call, g, c)
    requires var o := Opened(FRESH, c.disk, StoreFile(g.Head()), true);
      if o.ok then o.store.questions != [] && call == QueryQuestion(o.store.questions[0].id)
      else call == AddQuestion([], [], [])
    ensures (r.ok && r.reply.Some? && r.reply.value.ok) != OnMap(call, g.id, map[]).0.ok
  {
    var o := Opened(FRESH, c.disk, StoreFile(g.Head()), true);
    if o.ok {
      assert StoreFile(g.Head()) != [];
      IdsAreFound(o.store.questions, o.store.questions[0].id);
      assert o.store.questions[0] in o.store.questions;
    }
  }

  lemma NoQuestionsYet(s: State, gid: Str)
    requires Agree(s) && gid in s.core.index && gid in Keys(ById, s.tree) && Node(ById, s.tree, gid).stores == []
    ensures gid in Abs(s) && Abs(s)[gid].questions == map[]
  {
    KnownHasEdge(s, gid);
    var e :| e in Edges(s.tree) && e.kid.id == gid;
    EdgeNode(s, e);
    OneParent(s.tree);
    EmptyInfo(Edges(s.tree), s.core.index, e);
  }

  lemma EdgeNode(s: State, e: Edge)
    requires Agree(s) && e in Edges(s.tree) && e.kid.id in Keys(ById, s.tree)
    ensures Node(ById, s.tree, e.kid.id).Head() == e.kid
  {
    EdgeEnds(s.tree);
    SameNode(s.tree, e.kid.id, e.kid);
  }

  lemma EmptyInfo(es: set<Edge>, index: map<Str, Str>, e: Edge)
    requires OneEach(es) && e in es && e.kid.stores == []
    ensures e.kid.id in AbsOf(es, index) && AbsOf(es, index)[e.kid.id].questions == map[]
  {
    AbsStands(es, index);
  }

  lemma SameNode(tree: Group, gid: Str, h: Header)
    requires Unique(ById, tree) && gid in Keys(ById, tree) && h in Headers(tree) && h.id == gid
    ensures Node(ById, tree, gid).Head() == h
  {
    NodeIsHere(tree, gid);
    KeyOfOne(ById, tree, h, Node(ById, tree, gid).Head());
  }

  // ----- settled banks -----

  lemma SettledIsSound(s: State)
    requires Settled(s)
    ensures Sound(s) && forall gid :: Openable(s, gid)
  {
    forall gid
      ensures Openable(s, gid)
    {
      if gid in Keys(ById, s.tree) && gid in s.core.index {
        NodeIsHere(s.tree, gid);
        StoreFileIsFree(s.tree, s.core.disk, Node(ById, s.tree, gid).Head());
      }
    }
    forall h | h in Headers(s.tree)
      ensures NodeSound(s.tree.path, h)
    {
      LaidIsSound(s.tree, h);
    }
  }

  lemma LaidIsSound(tree: Group, h: Header)
    requires Laid(tree) && tree.id == [] && h in Headers(tree)
    ensures NodeSound(tree.path, h)
  {
    if h != tree.Head() {
      assert IdOk(h.id) && StoreOk(h);
      PlacedIsNormal(tree.path, tree, h);
    }
  }

  lemma {:induction false} PlacedIsNormal(root: Str, g: Group, h: Header)
    requires Placed(g) && Normal(root, g.path) && h in Headers(g)
    ensures Normal(root, h.path)
    decreases g, 1
  {
    if h != g.Head() {
      PlacedIsNormalIn(root, g.path, g.kids, h);
    }
  }

  lemma {:induction false} PlacedIsNormalIn(root: Str, path: Str, gs: seq<Group>, h: Header)
    requires PlacedIn(path, gs) && Normal(root, path) && h in HeadersOf(gs)
    ensures Normal(root, h.path)
    decreases gs, 0
  {
    if h in Headers(gs[0]) {
      NormalJoin(root, path, gs[0].name);
      PlacedIsNormal(root, gs[0], h);
    } else {
      PlacedIsNormalIn(root, path, gs[1..], h);
    }
  }

  /** On a settled bank every proper call is regular. */
  lemma ProperIsRegular(call: Call, s: State)
    requires Settled(s) && Proper(call, s)
    ensures Regular(call, s)
  {
    SettledIsSound(s);
    match call
    case AddGroup(pid, name, id, mkdir) =>
    case DeleteGroup(pid, id) =>
      if pid in Keys(ById, s.tree) && IsKid(s, pid, id) {
        KidIsClosable(s, pid, KidIndex(Node(ById, s.tree, pid).kids, id));
      }
    case UpdateGroup(pid, id, name, moved) =>
      if pid in Keys(ById, s.tree) && IsKid(s, pid, id) {
        var n := Node(ById, s.tree, pid);
        KidIsHere(s.tree, pid, KidIndex(n.kids, id));
        KidNamed(s, n.kids[KidIndex(n.kids, id)].Head(), name);
      }
    case OnQuestion(gid, question) =>
  }

  lemma KidIsClosable(s: State, pid: Str, i: nat)
    requires Settled(s) && pid in Keys(ById, s.tree) && i < |Node(ById, s.tree, pid).kids|
    ensures Closable(s, Node(ById, s.tree, pid).kids[i])
  {
    KidIsPart(s.tree, pid, i);
    PartIsClosable(s, Node(ById, s.tree, pid).kids[i]);
  }

  lemma KidIsPart(tree: Group, pid: Str, i: nat)
    requires Unique(ById, tree) && pid in Keys(ById, tree) && i < |Node(ById, tree, pid).kids|
    ensures Headers(Node(ById, tree, pid).kids[i]) <= Headers(tree)
  {
    DropKid(ById, tree, pid, i);
  }

  lemma PartIsClosable(s: State, f: Group)
    requires Settled(s) && Headers(f) <= Headers(s.tree)
    ensures Closable(s, f)
  {
    forall h | h in Headers(f) && h.stores != []
      ensures h.stores[0].path !in s.core.disk.dirs
    {
      StoreIsNoDir(s.tree, s.core.disk, h);
    }
  }

  lemma StoreIsNoDir(tree: Group, d: Disk, h: Header)
    requires Laid(tree) && OnDisk(Headers(tree), tree.Head(), d) && h in Headers(tree) && h.stores != []
    ensures h.stores[0].path !in d.dirs
  {
    assert h != tree.Head() && StoreOk(h);
    StoreFileIsFree(tree, d, h);
  }
}
