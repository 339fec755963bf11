/** The question bank of src/notebook_impl.cpp on values: what every call does to the tree, the id
    index, the persisted id list and the disk. */
module Bank {
  import opened Bytes
  import opened Records
  import opened Stores
  import opened Groups

  /** What the recursive calls share: m_mapIds, m_ptrIds and the disk. */
  datatype Core = Core(index: map<Str, Str>, list: Store, disk: Disk)

  datatype QuestionCall =
    | AddQuestion(qid: Str, question: Str, answer: Str)
    | DeleteQuestion(qid: Str)
    | QueryQuestion(qid: Str)
    | UpdateQuestion(qid: Str, question: Str, answer: Str)

  datatype Reply = Reply(ok: bool, answer: Str)

  /** What ctrlGroup can be told to do.  The booleans are the disk's answers. */
  datatype Command =
    | Add(id: Str, name: Str, mkdir: bool)
    | Delete(id: Str)
    | Update(id: Str, name: Str, moved: bool)

  /** `ok` ends the search; `reply` is the answer to a question call. */
  datatype Visited = Visited(ok: bool, g: Group, c: Core, reply: Option<Reply>)

  datatype VisitedAll = VisitedAll(ok: bool, gs: seq<Group>, c: Core, reply: Option<Reply>)

  // ----- the disk -----

  function RemoveAll(d: Disk, path: Str): Disk {
    if path !in d.dirs then d
    else Disk(map p | p in d.files && !Under(path, p) :: d.files[p], set p | p in d.dirs && !Under(path, p))
  }

  function MovedPath(p: Str, src: Str, dst: Str): Str {
    if Under(src, p) && |src| <= |p| then dst + p[|src|..] else p
  }

  /** The file that a rename of `src` to `dst` leaves at `q`. */
  function SourcePath(q: Str, src: Str, dst: Str, files: map<Str, Str>): Str {
    if dst <= q && Under(src, src + q[|dst|..]) && src + q[|dst|..] in files then src + q[|dst|..] else q
  }

  function RenameAll(d: Disk, src: Str, dst: Str): Disk {
    var targets := set p | p in d.files :: MovedPath(p, src, dst);
    Disk(map q | q in targets && SourcePath(q, src, dst, d.files) in d.files ::
           d.files[SourcePath(q, src, dst, d.files)],
         set p | p in d.dirs :: MovedPath(p, src, dst))
  }

  function CloseAll(stores: seq<Store>, d: Disk): Disk {
    if stores == [] then d else CloseAll(stores[1..], Closed(stores[0], d))
  }

  // ----- the commands -----

  /** Index of the first subgroup with that id, or |kids|. */
  function KidIndex(kids: seq<Group>, id: Str): (i: nat)
    ensures i <= |kids|
    ensures i < |kids| ==> kids[i].id == id
    ensures forall k :: 0 <= k < i ==> kids[k].id != id
  {
    if kids == [] || kids[0].id == id then 0 else 1 + KidIndex(kids[1..], id)
  }

  function Emplace(m: map<Str, Str>, id: Str, name: Str): map<Str, Str> {
    if id in m then m else m[id := name]
  }

  /** The edits come first; a directory that cannot be made only shows in `ok`. */
  function AddIn(id: Str, name: Str, mkdir: bool, g: Group, c: Core): Visited {
    var path := Join(g.path, name);
    var made := Exists(c.disk, path) || mkdir;
    Visited(
      made,
      g.(kids := g.kids + [Group(name, id, path, [], [])]),
      Core(Emplace(c.index, id, name),
           WithGroup(c.list, id, name).store,
           if Exists(c.disk, path) || !mkdir then c.disk else c.disk.(dirs := c.disk.dirs + {path})),
      None)
  }

  /** Map and list lose `id` before it is known to be a subgroup. */
  function DeleteIn(id: Str, g: Group, c: Core): (r: Visited)
    ensures r.ok <==> KidIndex(g.kids, id) < |g.kids|
    ensures r.ok ==> r.g == g.(kids := g.kids[..KidIndex(g.kids, id)] + g.kids[KidIndex(g.kids, id) + 1..])
    decreases Size(g), 0
  {
    var c1 := c.(index := c.index - {id}, list := WithoutGroup(c.list, id).store);
    var i := KidIndex(g.kids, id);
    if i == |g.kids| then Visited(false, g, c1, None)
    else
      var found := g.kids[i];
      KidsSplit(g.kids, i);
      var below := DeleteKids(found.(stores := []), c1.(disk := CloseAll(found.stores, c1.disk)));
      Visited(true, g.(kids := g.kids[..i] + g.kids[i + 1..]),
              below.(disk := RemoveAll(below.disk, found.path)), None)
  }

  /** Delete the first subgroup until there is none. */
  function DeleteKids(f: Group, c: Core): Core
    decreases Size(f), 1
  {
    if f.kids == [] then c
    else
      var r := DeleteIn(f.kids[0].id, f, c);
      KidsSplit(f.kids, 0);
      DeleteKids(r.g, r.c)
  }

  /** Only list and tree take the new name: index and paths keep the old one. */
  function UpdateIn(id: Str, name: Str, moved: bool, g: Group, c: Core): Visited {
    var i := KidIndex(g.kids, id);
    if i == |g.kids| then Visited(false, g, c, None)
    else
      var disk := if moved then RenameAll(c.disk, g.kids[i].path, Join(g.path, name)) else c.disk;
      Visited(moved, g.(kids := g.kids[i := g.kids[i].(name := name)]),
              Core(c.index, WithGroupRenamed(c.list, id, name).store, disk), None)
  }

  function Answered(call: QuestionCall, gid: Str, s: Store): (Reply, Store) {
    match call
    case AddQuestion(qid, question, answer) =>
      var r := WithQuestion(s, QuestionAnswer(question, answer, gid, qid));
      (Reply(r.ok, []), r.store)
    case DeleteQuestion(qid) =>
      var r := WithoutQuestion(s, qid);
      (Reply(r.ok, []), r.store)
    case QueryQuestion(qid) =>
      (if Answer(s, qid) == None then Reply(false, []) else Reply(true, Answer(s, qid).value), s)
    case UpdateQuestion(qid, question, answer) =>
      var r := WithQuestionUpdated(s, qid, QuestionAnswer(question, answer, gid, qid));
      (Reply(r.ok, []), r.store)
  }

  function StoreFile(h: Header): Str {
    Join(h.path, h.id + DAT)
  }

  /** The store of the group, opened now if the group has none; then the call on it. */
  function AskIn(call: QuestionCall, g: Group, c: Core): Visited {
    var ready := if g.stores == [] then Opened(FRESH, c.disk, StoreFile(g.Head()), true) else Result(true, g.stores[0]);
    if !ready.ok then Visited(false, g, c, None)
    else
      var (reply, store) := Answered(call, g.id, ready.store);
      Visited(true, g.(stores := [store] + if g.stores == [] then [] else g.stores[1..]), c, Some(reply))
  }

  /** What the loop over the hash map finds for a name: the first id in the map's order, or none. */
  function IdOf(index: map<Str, Str>, name: Str, order: seq<Str>): (id: Str)
    ensures if exists k :: k in order && k in index && index[k] == name then id in index && index[id] == name
            else id == []
  {
    if order == [] then []
    else if order[0] in index && index[order[0]] == name then order[0]
    else IdOf(index, name, order[1..])
  }

  /** `order` is an order in which the hash map may iterate. */
  ghost predicate Lists(order: seq<Str>, index: map<Str, Str>) {
    forall id :: id in order <==> id in index
  }

  /** No two ids share a name, so the hash map's order does not matter to the search. */
  ghost predicate NamesApart(index: map<Str, Str>) {
    forall a, b :: a in index && b in index && index[a] == index[b] ==> a == b
  }

  function AttachFileIn(path: Str, g: Group, c: Core): Visited {
    var r := Opened(FRESH, c.disk, path, true);
    if r.ok then Visited(true, g.(stores := g.stores + [r.store]), c, None) else Visited(false, g, c, None)
  }

  function AttachDirIn(path: Str, name: Str, g: Group, c: Core, order: seq<Str>): Visited {
    Visited(true, g.(kids := g.kids + [Group(name, IdOf(c.index, name, order), path, [], [])]), c, None)
  }

  /** What a search does at the node it looks for. */
  type Action = (Group, Core) -> Visited

  /** The switch of ctrlGroup. */
  function ControlIn(cmd: Command, g: Group, c: Core): Visited {
    match cmd
    case Add(id, name, mkdir) => AddIn(id, name, mkdir, g, c)
    case Delete(id) => DeleteIn(id, g, c)
    case Update(id, name, moved) => UpdateIn(id, name, moved, g, c)
  }

  ghost function Controlling(cmd: Command): Action {
    (g, c) => ControlIn(cmd, g, c)
  }

  ghost function Asking(call: QuestionCall): Action {
    (g, c) => AskIn(call, g, c)
  }

  ghost function AttachingFile(path: Str): Action {
    (g, c) => AttachFileIn(path, g, c)
  }

  ghost function AttachingDir(path: Str, name: Str, order: seq<Str>): Action {
    (g, c) => AttachDirIn(path, name, g, c, order)
  }

  // ----- the search shared by ctrlGroup, initQuestionBank and findQustionAnswerContext -----

  /** Act where the key matches, else in the first subgroup that reports success; a node that was
      edited but reported failure does not end the search. */
  ghost function Visit(k: Kind, key: Str, act: Action, g: Group, c: Core): Visited
    decreases g, 1
  {
    if Key(k, g.Head()) == key then act(g, c)
    else
      var r := VisitIn(k, key, act, g.kids, c);
      Visited(r.ok, g.(kids := r.gs), r.c, r.reply)
  }

  ghost function VisitIn(k: Kind, key: Str, act: Action, gs: seq<Group>, c: Core): VisitedAll
    decreases gs, 0
  {
    if gs == [] then VisitedAll(false, [], c, None)
    else
      var first := Visit(k, key, act, gs[0], c);
      if first.ok then VisitedAll(true, [first.g] + gs[1..], first.c, first.reply)
      else
        var rest := VisitIn(k, key, act, gs[1..], first.c);
        VisitedAll(rest.ok, [first.g] + rest.gs, rest.c, rest.reply)
  }

  /** With unique keys the search is one edit at the one node of that key, or nothing at all: a
      failed edit sends the search on, but it never edits again. */
  lemma {:induction false} VisitIsOneEdit(k: Kind, key: Str, act: Action, g: Group, c: Core)
    requires Unique(k, g)
    ensures key !in Keys(k, g) ==> Visit(k, key, act, g, c) == Visited(false, g, c, None)
    ensures key in Keys(k, g) ==>
      var n := act(Node(k, g, key), c); var r := Visit(k, key, act, g, c);
      r.ok == n.ok && r.g == Put(k, g, key, n.g) && r.c == n.c && (n.ok ==> r.reply == n.reply)
    decreases g, 1
  {
    if Key(k, g.Head()) != key {
      VisitInIsOneEdit(k, key, act, g.kids, c);
    }
  }

  lemma {:induction false} VisitInIsOneEdit(k: Kind, key: Str, act: Action, gs: seq<Group>, c: Core)
    requires UniqueAll(k, gs)
    ensures key !in KeysOf(k, gs) ==> VisitIn(k, key, act, gs, c) == VisitedAll(false, gs, c, None)
    ensures key in KeysOf(k, gs) ==>
      var n := act(NodeIn(k, gs, key), c); var r := VisitIn(k, key, act, gs, c);
      r.ok == n.ok && r.gs == PutIn(k, gs, key, n.g) && r.c == n.c && (n.ok ==> r.reply == n.reply)
    decreases gs, 0
  {
    if gs == [] {
      return;
    }
    VisitIsOneEdit(k, key, act, gs[0], c);
    var first := Visit(k, key, act, gs[0], c);
    VisitInIsOneEdit(k, key, act, gs[1..], first.c);
    if key in Keys(k, gs[0]) {
      assert key !in KeysOf(k, gs[1..]);
    } else {
      assert [first.g] + gs[1..] == gs;
    }
  }

  // ----- the public calls -----

  datatype State = State(tree: Group, core: Core)

  datatype Call =
    | AddGroup(pid: Str, name: Str, id: Str, mkdir: bool)
    | DeleteGroup(pid: Str, id: Str)
    | UpdateGroup(pid: Str, id: Str, name: Str, moved: bool)
    | OnQuestion(gid: Str, question: QuestionCall)

  datatype Outcome = Outcome(ok: bool, s: State, answer: Str)

  /** ctrlGroup from the root; an empty parent id is the root itself. */
  ghost function Ctrl(pid: Str, cmd: Command, s: State): Outcome {
    var r := if pid == [] then Controlling(cmd)(s.tree, s.core)
             else Visit(ById, pid, Controlling(cmd), s.tree, s.core);
    Outcome(r.ok, State(r.g, r.c), [])
  }

  ghost function Do(call: Call, s: State): Outcome {
    match call
    case AddGroup(pid, name, id, mkdir) =>
      if id in s.core.index || name in s.core.index.Values then Outcome(false, s, [])
      else Ctrl(pid, Add(id, name, mkdir), s)
    case DeleteGroup(pid, id) => Ctrl(pid, Delete(id), s)
    case UpdateGroup(pid, id, name, moved) => Ctrl(pid, Update(id, name, moved), s)
    case OnQuestion(gid, question) =>
      if gid !in s.core.index then Outcome(false, s, [])
      else
        var r := Visit(ById, gid, Asking(question), s.tree, s.core);
        if r.ok && r.reply.Some? then Outcome(r.reply.value.ok, State(r.g, r.c), r.reply.value.answer)
        else Outcome(false, State(r.g, r.c), [])
  }

  /** ctrlGroup on a tree of unique ids whose root has the empty one. */
  lemma CtrlIsOneEdit(pid: Str, cmd: Command, s: State)
    requires Unique(ById, s.tree) && s.tree.id == []
    ensures pid !in Keys(ById, s.tree) ==> Ctrl(pid, cmd, s) == Outcome(false, s, [])
    ensures pid in Keys(ById, s.tree) ==>
      var n := Controlling(cmd)(Node(ById, s.tree, pid), s.core);
      Ctrl(pid, cmd, s) == Outcome(n.ok, State(Put(ById, s.tree, pid, n.g), n.c), [])
  {
    VisitIsOneEdit(ById, pid, Controlling(cmd), s.tree, s.core);
    assert s.tree.Head() in Headers(s.tree) && Key(ById, s.tree.Head()) == [];
  }
}
