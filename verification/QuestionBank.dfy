/** The objects of src/notebook_impl.cpp, method by method, against the functions of Bank and Reload. */
module QuestionBank {
  import opened Bytes
  import opened Records
  import opened Stores
  import opened Groups
  import opened Bank
  import opened Reload

  // ----- the recursive searches, one turn at a time -----

  lemma VisitHere(k: Kind, key: Str, act: Action, g: Group, c: Core)
    ensures Visit(k, key, act, g, c) ==
      if Key(k, g.Head()) == key then act(g, c)
      else var r := VisitIn(k, key, act, g.kids, c); Visited(r.ok, g.(kids := r.gs), r.c, r.reply)
  {
  }

  lemma VisitKid(k: Kind, key: Str, act: Action, gs: seq<Group>, i: nat, c: Core)
    requires i <= |gs|
    ensures i == |gs| ==> VisitIn(k, key, act, gs[i..], c) == VisitedAll(false, [], c, None)
    ensures i < |gs| ==>
      var first := Visit(k, key, act, gs[i], c); var rest := VisitIn(k, key, act, gs[i + 1..], first.c);
      VisitIn(k, key, act, gs[i..], c) ==
        if first.ok then VisitedAll(true, [first.g] + gs[i + 1..], first.c, first.reply)
        else VisitedAll(rest.ok, [first.g] + rest.gs, rest.c, rest.reply)
  {
    if i < |gs| {
      assert gs[i..][1..] == gs[i + 1..];
    }
  }

  /** ctrlGroup: an empty parent id stops at the node it is called on. */
  ghost function Controlled(pid: Str, cmd: Command, g: Group, c: Core): Visited {
    if pid == [] then ControlIn(cmd, g, c) else Visit(ById, pid, Controlling(cmd), g, c)
  }

  /** initQuestionBank. */
  ghost function Attaching(path: Str, name: Str, isFile: bool, order: seq<Str>): Action {
    if isFile then AttachingFile(path) else AttachingDir(path, name, order)
  }

  /** `all` is what has been visited, followed by what the visit of the rest gives. */
  ghost predicate Follows(all: VisitedAll, done: seq<Group>, rest: VisitedAll) {
    all.ok == rest.ok && all.gs == done + rest.gs && all.c == rest.c && all.reply == rest.reply
  }

  lemma FollowsOn(all: VisitedAll, done: seq<Group>, rest: VisitedAll, k: Group, more: VisitedAll)
    requires Follows(all, done, rest)
    requires rest == VisitedAll(more.ok, [k] + more.gs, more.c, more.reply)
    ensures Follows(all, done + [k], more)
  {
    assert done + ([k] + more.gs) == (done + [k]) + more.gs;
  }

  /** What is still to come once the first `i` of `gs` have been visited. */
  ghost function Pending(k: Kind, key: Str, act: Action, gs: seq<Group>, i: nat, ok: bool, reply: Option<Reply>,
                         c: Core): VisitedAll
    requires i <= |gs|
  {
    if ok then VisitedAll(true, gs[i..], c, reply) else VisitIn(k, key, act, gs[i..], c)
  }

  lemma VisitNext(k: Kind, key: Str, act: Action, gs: seq<Group>, i: nat, c: Core, all: VisitedAll, done: seq<Group>,
                  first: Visited)
    requires i < |gs| && first == Visit(k, key, act, gs[i], c)
    requires Follows(all, done, VisitIn(k, key, act, gs[i..], c))
    ensures Follows(all, done + [first.g], Pending(k, key, act, gs, i + 1, first.ok, first.reply, first.c))
  {
    VisitKid(k, key, act, gs, i, c);
    FollowsOn(all, done, VisitIn(k, key, act, gs[i..], c), first.g,
              Pending(k, key, act, gs, i + 1, first.ok, first.reply, first.c));
  }

  lemma PendingAtEnd(k: Kind, key: Str, act: Action, gs: seq<Group>, i: nat, ok: bool, reply: Option<Reply>, c: Core)
    requires i <= |gs| && (ok || i == |gs|)
    ensures Pending(k, key, act, gs, i, ok, reply, c) == VisitedAll(ok, gs[i..], c, if ok then reply else None)
  {
  }

  /** A walk that failed stays failed. */
  lemma {:induction false} LoadAllStops(walk: seq<Entry>, order: seq<Str>, i: nat, s: State)
    requires i <= |walk|
    ensures !LoadAll(walk[..i], s, order).ok ==> !LoadAll(walk, s, order).ok
    decreases |walk| - i
  {
    if i < |walk| {
      LoadAllStep(walk, i, s, order);
      LoadAllStops(walk, order, i + 1, s);
    } else {
      assert walk[..i] == walk;
    }
  }

  /** `ok` and `t` are what loading the entry makes of `s`. */
  ghost predicate Loads(e: Entry, order: seq<Str>, s: State, ok: bool, t: State) {
    ok == LoadEntry(e, s, order).ok && (ok ==> t == LoadEntry(e, s, order).s)
  }

  lemma LoadsNext(walk: seq<Entry>, order: seq<Str>, i: nat, start: State, s: State, ok: bool, t: State)
    requires i < |walk| && LoadAll(walk[..i], start, order) == Loading(true, s) && Loads(walk[i], order, s, ok, t)
    ensures ok ==> LoadAll(walk[..i + 1], start, order) == Loading(true, t)
    ensures !ok ==> !LoadAll(walk, start, order).ok
  {
    LoadAllStep(walk, i, start, order);
    LoadAllStops(walk, order, i + 1, start);
  }

  lemma FirstKidGoes(f: Group, c: Core)
    requires f.kids != []
    ensures var r := DeleteIn(f.kids[0].id, f, c);
      && r == Visited(true, f.(kids := f.kids[1..]), r.c, None)
      && Size(r.g) < Size(f)
      && DeleteKids(f, c) == DeleteKids(r.g, r.c)
  {
    KidsSplit(f.kids, 0);
    assert f.kids[..0] + f.kids[1..] == f.kids[1..];
  }

  /** The tree after uninit: no stores. */
  function Emptied(g: Group): Group
    decreases g, 1
  {
    g.(stores := [], kids := EmptiedAll(g.kids))
  }

  function EmptiedAll(gs: seq<Group>): seq<Group>
    decreases gs, 0
  {
    if gs == [] then [] else [Emptied(gs[0])] + EmptiedAll(gs[1..])
  }

  class QuestionBankImpl {
    var tree: Group
    var index: map<Str, Str>
    var ids: QuestionAnswerStore?
    const fs: FileSystem

    constructor (fs: FileSystem)
      ensures this.fs == fs && ids == null && index == map[]
      ensures tree == Group([], [], [], [], [])
    {
      this.fs := fs;
      tree, index, ids := Group([], [], [], [], []), map[], null;
    }

    ghost function Shared(): Core
      requires ids != null
      reads this, ids, fs
    {
      Core(index, ids.State(), fs.State())
    }

    // ----- the private group operations -----

    method AddGroupTo(id: Str, name: Str, g: Group, mkdir: bool) returns (ok: bool, g': Group)
      requires ids != null
      modifies this`index, ids`groups, fs`dirs
      ensures Visited(ok, g', Shared(), None) == AddIn(id, name, mkdir, g, old(Shared()))
    {
      if id !in index {
        index := index[id := name];
      }
      var added := ids.AddGroup(id, name);
      var path := Join(g.path, name);
      g' := g.(kids := g.kids + [Group(name, id, path, [], [])]);
      if path !in fs.files && path !in fs.dirs {
        if !mkdir {
          return false, g';
        }
        fs.dirs := fs.dirs + {path};
      }
      return true, g';
    }

    method FindKid(kids: seq<Group>, id: Str) returns (i: nat)
      ensures i == KidIndex(kids, id)
    {
      i := 0;
      while i < |kids| && kids[i].id != id
        invariant i <= |kids|
        invariant i + KidIndex(kids[i..], id) == KidIndex(kids, id)
      {
        assert kids[i..][1..] == kids[i + 1..];
        i := i + 1;
      }
    }

    method CloseStore(st: Store)
      modifies fs`files
      ensures fs.State() == Closed(st, old(fs.State()))
    {
      var store := new QuestionAnswerStore.Of(st);
      store.Close(fs);
    }

    method CloseStores(stores: seq<Store>)
      modifies fs`files
      ensures fs.State() == CloseAll(stores, old(fs.State()))
    {
      for i := 0 to |stores|
        invariant CloseAll(stores[i..], fs.State()) == CloseAll(stores, old(fs.State()))
      {
        assert stores[i..][1..] == stores[i + 1..];
        CloseStore(stores[i]);
      }
    }

    /** exists, then remove_all. */
    method RemoveTree(path: Str)
      modifies fs`files, fs`dirs
      ensures fs.State() == RemoveAll(old(fs.State()), path)
    {
      if path in fs.dirs {
        fs.files := map p | p in fs.files && !Under(path, p) :: fs.files[p];
        fs.dirs := set p | p in fs.dirs && !Under(path, p);
      }
    }

    method DeleteGroupFrom(id: Str, g: Group) returns (ok: bool, g': Group)
      requires ids != null
      modifies this`index, ids`groups, fs
      ensures Visited(ok, g', Shared(), None) == DeleteIn(id, g, old(Shared()))
      decreases Size(g), 0
    {
      index := index - {id};
      var erased := ids.DeleteGroup(id);
      var i := FindKid(g.kids, id);
      if i == |g.kids| {
        return false, g;
      }
      var found := g.kids[i];
      KidsSplit(g.kids, i);
      CloseStores(found.stores);
      found := found.(stores := []);
      ghost var below := DeleteKids(found, Shared());
      while |found.kids| > 0
        invariant Size(found) <= Size(g.kids[i]) < Size(g)
        invariant DeleteKids(found, Shared()) == below
        decreases |found.kids|
      {
        FirstKidGoes(found, Shared());
        var done, rest := DeleteGroupFrom(found.kids[0].id, found);
        found := rest;
      }
      RemoveTree(g.kids[i].path);
      return true, g.(kids := g.kids[..i] + g.kids[i + 1..]);
    }

    method UpdateGroupIn(id: Str, name: Str, g: Group, moved: bool) returns (ok: bool, g': Group)
      requires ids != null
      modifies ids`groups, fs
      ensures Visited(ok, g', Shared(), None) == UpdateIn(id, name, moved, g, old(Shared()))
    {
      var i := FindKid(g.kids, id);
      if i == |g.kids| {
        return false, g;
      }
      var renamed := ids.UpdateGroup(id, name);
      g' := g.(kids := g.kids[i := g.kids[i].(name := name)]);
      if !moved {
        return false, g';
      }
      var disk := RenameAll(Disk(fs.files, fs.dirs), g.kids[i].path, Join(g.path, name));
      fs.files, fs.dirs := disk.files, disk.dirs;
      return true, g';
    }

    // ----- the recursive searches -----

    method CtrlGroup(pid: Str, cmd: Command, g: Group) returns (ok: bool, g': Group)
      requires ids != null
      modifies this`index, ids`groups, fs
      ensures Controlled(pid, cmd, g, old(Shared())) == Visited(ok, g', Shared(), None)
      decreases g
    {
      ghost var act := Controlling(cmd);
      VisitHere(ById, pid, act, g, Shared());
      if pid == [] || pid == g.id {
        match cmd {
          case Add(id, name, mkdir) => ok, g' := AddGroupTo(id, name, g, mkdir);
          case Delete(id) => ok, g' := DeleteGroupFrom(id, g);
          case Update(id, name, moved) => ok, g' := UpdateGroupIn(id, name, g, moved);
        }
        return;
      }
      ghost var all := VisitIn(ById, pid, act, g.kids, Shared());
      var done: seq<Group> := [];
      ok := false;
      var i := 0;
      assert g.kids[0..] == g.kids;
      while i < |g.kids| && !ok
        invariant i <= |g.kids|
        invariant Follows(all, done, Pending(ById, pid, act, g.kids, i, ok, None, Shared()))
      {
        ghost var before := Shared();
        var k;
        ok, k := CtrlGroup(pid, cmd, g.kids[i]);
        VisitNext(ById, pid, act, g.kids, i, before, all, done, Visited(ok, k, Shared(), None));
        done := done + [k];
        i := i + 1;
      }
      PendingAtEnd(ById, pid, act, g.kids, i, ok, None, Shared());
      g' := g.(kids := done + g.kids[i..]);
    }

    /** The question call on a store's object. */
    method AskObject(call: QuestionCall, gid: Str, store: QuestionAnswerStore) returns (reply: Reply)
      modifies store`questions
      ensures (reply, store.State()) == Answered(call, gid, old(store.State()))
    {
      var ok: bool;
      var answer: Str := [];
      match call {
        case AddQuestion(qid, question, text) => ok := store.AddQuestion(QuestionAnswer(question, text, gid, qid));
        case DeleteQuestion(qid) => ok := store.DeleteQuestion(qid);
        case QueryQuestion(qid) => ok, answer := store.QueryQuestion(qid);
        case UpdateQuestion(qid, question, text) =>
          ok := store.UpdateQuestion(qid, QuestionAnswer(question, text, gid, qid));
      }
      reply := Reply(ok, if ok then answer else []);
    }

    /** The store of the group, opened first if the group has none. */
    method AskStore(call: QuestionCall, g: Group) returns (found: bool, g': Group, reply: Option<Reply>)
      requires ids != null
      ensures Visited(found, g', Shared(), reply) == AskIn(call, g, Shared())
      ensures Shared() == old(Shared())
    {
      var store: QuestionAnswerStore;
      if |g.stores| == 0 {
        store := new QuestionAnswerStore();
        var ready := store.Open(fs, StoreFile(g.Head()), true);
        if !ready {
          return false, g, None;
        }
      } else {
        store := new QuestionAnswerStore.Of(g.stores[0]);
      }
      var answer := AskObject(call, g.id, store);
      var asked := store.Value();
      found, reply := true, Some(answer);
      g' := g.(stores := [asked] + if g.stores == [] then [] else g.stores[1..]);
    }

    /** findQustionAnswerContext, and the call made at once on the store it returns. */
    method AskContext(gid: Str, call: QuestionCall, g: Group) returns (found: bool, g': Group, reply: Option<Reply>)
      requires ids != null
      ensures Visit(ById, gid, Asking(call), g, Shared()) == Visited(found, g', Shared(), reply)
      decreases g
    {
      ghost var act := Asking(call);
      VisitHere(ById, gid, act, g, Shared());
      if g.id == gid {
        found, g', reply := AskStore(call, g);
        return;
      }
      ghost var all := VisitIn(ById, gid, act, g.kids, Shared());
      var done: seq<Group> := [];
      found, reply := false, None;
      var i := 0;
      assert g.kids[0..] == g.kids;
      while i < |g.kids| && !found
        invariant i <= |g.kids|
        invariant Follows(all, done, Pending(ById, gid, act, g.kids, i, found, reply, Shared()))
        invariant !found ==> reply == None
      {
        var k, answer;
        found, k, answer := AskContext(gid, call, g.kids[i]);
        VisitNext(ById, gid, act, g.kids, i, Shared(), all, done, Visited(found, k, Shared(), answer));
        done := done + [k];
        i := i + 1;
        if found {
          reply := answer;
        }
      }
      PendingAtEnd(ById, gid, act, g.kids, i, found, reply, Shared());
      g' := g.(kids := done + g.kids[i..]);
    }

    /** The order in which the hash map iterates: any, and the same while the map does not change. */
    method IterationOrder() returns (order: seq<Str>)
      ensures Lists(order, index)
    {
      order := [];
      var left := index.Keys;
      while left != {}
        invariant left <= index.Keys
        invariant forall id :: id in order <==> id in index && id !in left
        decreases |left|
      {
        var id :| id in left;
        order := order + [id];
        left := left - {id};
      }
    }

    /** The loop over the hash map that looks for a name. */
    method FindName(name: Str, order: seq<Str>) returns (id: Str)
      requires Lists(order, index)
      ensures id == IdOf(index, name, order)
    {
      for i := 0 to |order|
        invariant IdOf(index, name, order[i..]) == IdOf(index, name, order)
      {
        if index[order[i]] == name {
          return order[i];
        }
        assert order[i..][1..] == order[i + 1..];
      }
      return [];
    }

    /** A store read from its file, behind those the group has. */
    method AttachStore(g: Group, path: Str) returns (ok: bool, g': Group)
      requires ids != null
      ensures Visited(ok, g', Shared(), None) == AttachFileIn(path, g, Shared())
      ensures Shared() == old(Shared())
    {
      var store := new QuestionAnswerStore();
      ok := store.Open(fs, path, true);
      if !ok {
        return false, g;
      }
      var value := store.Value();
      g' := g.(stores := g.stores + [value]);
    }

    method AttachGroup(g: Group, path: Str, name: Str, order: seq<Str>) returns (g': Group)
      requires ids != null && Lists(order, index)
      ensures g' == AttachDirIn(path, name, g, Shared(), order).g
    {
      var id := FindName(name, order);
      g' := g.(kids := g.kids + [Group(name, id, path, [], [])]);
    }

    method InitQuestionBank(parent: Str, g: Group, path: Str, name: Str, isFile: bool, order: seq<Str>)
      returns (ok: bool, g': Group)
      requires ids != null && Lists(order, index)
      ensures
        var r := Visit(ByName, parent, Attaching(path, name, isFile, order), g, Shared());
        ok == r.ok && g' == r.g && r.c == Shared()
      decreases g
    {
      ghost var act := Attaching(path, name, isFile, order);
      VisitHere(ByName, parent, act, g, Shared());
      if g.name == parent {
        if isFile {
          ok, g' := AttachStore(g, path);
          return;
        }
        g' := AttachGroup(g, path, name, order);
        return true, g';
      }
      ghost var all := VisitIn(ByName, parent, act, g.kids, Shared());
      var done: seq<Group> := [];
      ok := false;
      var i := 0;
      assert g.kids[0..] == g.kids;
      while i < |g.kids| && !ok
        invariant i <= |g.kids|
        invariant Follows(all, done, Pending(ByName, parent, act, g.kids, i, ok, all.reply, Shared()))
      {
        var k;
        ok, k := InitQuestionBank(parent, g.kids[i], path, name, isFile, order);
        VisitNext(ByName, parent, act, g.kids, i, Shared(), all, done, Visit(ByName, parent, act, g.kids[i], Shared()));
        done := done + [k];
        i := i + 1;
      }
      PendingAtEnd(ByName, parent, act, g.kids, i, ok, all.reply, Shared());
      g' := g.(kids := done + g.kids[i..]);
    }

    // ----- init and uninit -----

    method LoadOne(e: Entry, order: seq<Str>) returns (ok: bool)
      requires ids != null && Lists(order, index)
      modifies this`tree
      ensures Loads(e, order, old(State(tree, Shared())), ok, State(tree, Shared()))
    {
      var parent, name := FileName(ParentPath(e.path)), FileName(e.path);
      if e.isFile {
        if name == IDS_DAT {
          return true;
        }
        ok, tree := InitQuestionBank(parent, tree, e.path, name, true, order);
        return;
      }
      if parent == tree.name {
        tree := AttachGroup(tree, e.path, name, order);
        return true;
      }
      ok, tree := InitQuestionBank(parent, tree, e.path, name, false, order);
    }

    method LoadWalk(walk: seq<Entry>, order: seq<Str>) returns (ok: bool)
      requires ids != null && Lists(order, index)
      modifies this`tree
      ensures
        var r := LoadAll(walk, old(State(tree, Shared())), order);
        ok == r.ok && (ok ==> State(tree, Shared()) == r.s)
    {
      ghost var start := State(tree, Shared());
      ok := true;
      assert walk[..0] == [];
      var i := 0;
      while i < |walk|
        invariant i <= |walk| && ok
        invariant LoadAll(walk[..i], start, order) == Loading(true, State(tree, Shared()))
      {
        ghost var before := State(tree, Shared());
        ok := LoadOne(walk[i], order);
        LoadsNext(walk, order, i, start, before, ok, State(tree, Shared()));
        if !ok {
          return;
        }
        i := i + 1;
      }
      assert walk[..|walk|] == walk;
    }

    /** init of a fresh object; `walk` is what the directory iterator lists, `mkdir` whether the
        directory can be made when it is missing.  `order` is the hash map's, once it is filled. */
    method Init(path: Str, mkdir: bool, walk: seq<Entry>) returns (ok: bool, ghost order: seq<Str>)
      requires tree == Group([], [], [], [], []) && index == map[] && ids == null
      modifies this, fs`dirs
      ensures !mkdir && !Exists(old(fs.State()), path) ==> !ok
      ensures mkdir || Exists(old(fs.State()), path) ==>
        var r := Reload.Init(path, old(fs.State()), walk, order);
        ok == r.ok && (ok ==> ids != null && Lists(order, index) && State(tree, Shared()) == r.s)
    {
      order := [];
      if path !in fs.files && path !in fs.dirs {
        if !mkdir {
          ok := false;
          return;
        }
        fs.dirs := fs.dirs + {path};
      }
      ids := new QuestionAnswerStore();
      ok := ids.Open(fs, Join(path, IDS_DAT), false);
      if !ok {
        ids := null;
        return;
      }
      ok, index := ids.GetGroups(index);
      tree := tree.(name := FileName(path), path := path);
      var iteration := IterationOrder();
      order := iteration;
      ok := LoadWalk(walk, iteration);
    }

    method UninitQuestionBank(g: Group) returns (g': Group)
      modifies fs`files
      ensures fs.State() == SaveTree(g, old(fs.State()))
      ensures g' == Emptied(g)
      decreases g
    {
      CloseStores(g.stores);
      var kids: seq<Group> := [];
      ghost var all := SaveKids(g.kids, fs.State());
      assert g.kids[0..] == g.kids;
      for i := 0 to |g.kids|
        invariant SaveKids(g.kids[i..], fs.State()) == all
        invariant kids + EmptiedAll(g.kids[i..]) == EmptiedAll(g.kids)
        invariant fs.dirs == old(fs.dirs)
      {
        assert g.kids[i..][1..] == g.kids[i + 1..];
        var kid := UninitQuestionBank(g.kids[i]);
        assert EmptiedAll(g.kids[i..]) == [kid] + EmptiedAll(g.kids[i + 1..]);
        assert kids + ([kid] + EmptiedAll(g.kids[i + 1..])) == (kids + [kid]) + EmptiedAll(g.kids[i + 1..]);
        kids := kids + [kid];
      }
      g' := g.(stores := [], kids := kids);
    }

    method Uninit()
      modifies this`ids, this`tree, fs`files
      ensures ids == null && tree == Emptied(old(tree)) && index == old(index)
      ensures old(ids) != null ==> fs.State() == Saved(old(State(tree, Shared())))
    {
      if ids != null {
        ids.Close(fs);
        ids := null;
      }
      tree := UninitQuestionBank(tree);
    }

    // ----- the public calls -----

    method AddGroup(pid: Str, name: Str, id: Str, mkdir: bool) returns (ok: bool)
      requires ids != null
      modifies this`index, this`tree, ids`groups, fs
      ensures Outcome(ok, State(tree, Shared()), []) ==
              Do(Call.AddGroup(pid, name, id, mkdir), old(State(tree, Shared())))
    {
      if id in index {
        return false;
      }
      var order := IterationOrder();
      for i := 0 to |order|
        invariant forall k :: 0 <= k < i ==> index[order[k]] != name
      {
        if index[order[i]] == name {
          return false;
        }
      }
      ok, tree := CtrlGroup(pid, Add(id, name, mkdir), tree);
    }

    method DeleteGroup(pid: Str, id: Str) returns (ok: bool)
      requires ids != null
      modifies this`index, this`tree, ids`groups, fs
      ensures Outcome(ok, State(tree, Shared()), []) == Do(Call.DeleteGroup(pid, id), old(State(tree, Shared())))
    {
      ok, tree := CtrlGroup(pid, Delete(id), tree);
    }

    method UpdateGroup(pid: Str, id: Str, name: Str, moved: bool) returns (ok: bool)
      requires ids != null
      modifies this`index, this`tree, ids`groups, fs
      ensures Outcome(ok, State(tree, Shared()), []) ==
              Do(Call.UpdateGroup(pid, id, name, moved), old(State(tree, Shared())))
    {
      ok, tree := CtrlGroup(pid, Update(id, name, moved), tree);
    }

    /** addQuestion, deleteQuestion, queryQuestion and updateQuestion. */
    method OnQuestion(gid: Str, call: QuestionCall) returns (ok: bool, answer: Str)
      requires ids != null
      modifies this`tree
      ensures Outcome(ok, State(tree, Shared()), answer) == Do(Call.OnQuestion(gid, call), old(State(tree, Shared())))
    {
      if gid !in index {
        return false, [];
      }
      var found, reply;
      found, tree, reply := AskContext(gid, call, tree);
      if !found || reply == None {
        return false, [];
      }
      return reply.value.ok, reply.value.answer;
    }
  }
}
