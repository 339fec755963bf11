/** That a disk whose entries are listed by their bytes is the disk the calls see, where paths are followed:
    the paths that a bank uses, what every life of regular calls and restarts keeps of the disk, and what
    happens with the names and ids that regular calls leave out: "", "." and "..", and separators. */
module Aliases {
  import opened Bytes
  import opened Records
  import opened Stores
  import opened Groups
  import opened Bank
  import opened Agreement
  import opened Layout
  import opened Places
  import opened Calls
  import opened Reload
  import opened Restart
  import opened PlainBank
  import opened Lives
  import opened Moves

  // ----- every entry under one path -----

  /** Entries under the root are listed in normal form, and no other entry leads there. */
  ghost predicate EntryClean(root: Str, p: Str) {
    if Under(root, p) then Normal(root, p) else !(Place(root) <= Place(p))
  }

  ghost predicate Clean(root: Str, d: Disk) {
    forall p :: Exists(d, p) ==> EntryClean(root, p)
  }

  /** On such a disk the bytes tell which entries a path in normal form leads to, and which lie below it. */
  lemma EntriesArePlaces(root: Str, d: Disk, path: Str, p: Str)
    requires Clean(root, d) && Normal(root, path) && Exists(d, p)
    ensures p == path <==> Place(p) == Place(path)
    ensures Under(path, p) <==> Place(path) <= Place(p)
  {
    NormalIsUnder(root, path);
    if Under(root, p) {
      BytesArePlaces(root, path, p);
    } else if Under(path, p) {
      UnderTransitive(root, path, p);
    }
  }

  /** The paths the calls on a sound bank hand to the disk: of groups, of their stores, of the id list,
      and of a new group or a new name. */
  ghost predicate Used(s: State, p: Str) {
    || p == IdsFile(s.tree.Head())
    || (exists h :: h in Headers(s.tree) && (p == h.path || p == StoreFile(h)))
    || (exists h, name :: h in Headers(s.tree) && ValidName(name) && p == Join(h.path, name))
  }

  /** On those paths, and on all in normal form, the disk's bytes are places: two of them lead to the same
      file or directory only if they are equal, and one leads below the other only if it is under it. */
  lemma UsedPathsArePlaces(s: State, p: Str, q: Str)
    requires Sound(s) && Used(s, p) && (Used(s, q) || Normal(s.tree.path, q))
    ensures p == q <==> Place(p) == Place(q)
    ensures Under(p, q) <==> Place(p) <= Place(q)
    ensures Under(q, p) <==> Place(q) <= Place(p)
  {
    UsedIsNormal(s, p);
    if Used(s, q) {
      UsedIsNormal(s, q);
    }
    BytesArePlaces(s.tree.path, p, q);
    BytesArePlaces(s.tree.path, q, p);
  }

  lemma UsedIsNormal(s: State, p: Str)
    requires Sound(s) && Used(s, p)
    ensures Normal(s.tree.path, p)
  {
    if p == IdsFile(s.tree.Head()) {
      NormalFile(s.tree.path, s.tree.path, IDS);
    } else if h :| h in Headers(s.tree) && (p == h.path || p == StoreFile(h)) {
      NormalFile(s.tree.path, h.path, h.id);
    } else {
      var h, name :| h in Headers(s.tree) && ValidName(name) && p == Join(h.path, name);
      NormalJoin(s.tree.path, h.path, name);
    }
  }

  // ----- what calls keep -----

  lemma CleanWithin(root: Str, d: Disk, d': Disk)
    requires Clean(root, d) && forall p :: Exists(d', p) ==> Exists(d, p) || Normal(root, p)
    ensures Clean(root, d')
  {
    forall p | Exists(d', p)
      ensures EntryClean(root, p)
    {
      if Normal(root, p) {
        NormalIsUnder(root, p);
      }
    }
  }

  lemma {:induction false} CloseAllAdds(stores: seq<Store>, d: Disk, root: Str)
    requires forall st :: st in stores ==> Normal(root, st.path)
    ensures forall p :: Exists(CloseAll(stores, d), p) ==> Exists(d, p) || Normal(root, p)
  {
    if stores != [] {
      assert stores[0] in stores;
      CloseAllAdds(stores[1..], Closed(stores[0], d), root);
    }
  }

  ghost predicate StoresNormal(root: Str, hs: set<Header>) {
    forall h, st :: h in hs && st in h.stores ==> Normal(root, st.path)
  }

  lemma {:induction false} DeleteAdds(id: Str, g: Group, c: Core, root: Str)
    requires StoresNormal(root, HeadersOf(g.kids))
    ensures forall p :: Exists(DeleteIn(id, g, c).c.disk, p) ==> Exists(c.disk, p) || Normal(root, p)
    decreases Size(g), 0
  {
    var i := KidIndex(g.kids, id);
    if i < |g.kids| {
      var f := g.kids[i];
      KidsSplit(g.kids, i);
      var c1 := c.(index := c.index - {id}, list := WithoutGroup(c.list, id).store);
      var c2 := c1.(disk := CloseAll(f.stores, c1.disk));
      assert f.Head() in Headers(f);
      CloseAllAdds(f.stores, c1.disk, root);
      DeleteKidsAdds(f.(stores := []), c2, root);
    }
  }

  lemma {:induction false} DeleteKidsAdds(f: Group, c: Core, root: Str)
    requires StoresNormal(root, HeadersOf(f.kids))
    ensures forall p :: Exists(DeleteKids(f, c).disk, p) ==> Exists(c.disk, p) || Normal(root, p)
    decreases Size(f), 1
  {
    if f.kids != [] {
      var r := DeleteIn(f.kids[0].id, f, c);
      KidsSplit(f.kids, 0);
      assert f.kids[..0] + f.kids[1..] == f.kids[1..];
      DeleteAdds(f.kids[0].id, f, c, root);
      DeleteKidsAdds(r.g, r.c, root);
    }
  }

  lemma {:induction false} MovedIsNormal(root: Str, src: Str, dst: Str, p: Str)
    requires Normal(root, p) && Normal(root, src) && Normal(root, dst) && Under(src, p)
    ensures Normal(root, MovedPath(p, src, dst))
    decreases |p|
  {
    MovedBelow(src, dst, p);
    if p == src {
      assert dst + p[|src|..] == dst;
    } else {
      NotRoot(root, src, p);
      MovedIsNormal(root, src, dst, ParentPath(p));
      FileNameIsOne(p);
      MovedParent(src, dst, p);
      MovedJoin(src, dst, ParentPath(p), FileName(p));
      NormalJoin(root, MovedPath(ParentPath(p), src, dst), FileName(p));
    }
  }

  lemma NotRoot(root: Str, src: Str, p: Str)
    requires Normal(root, src) && Under(src, p) && p != src
    ensures p != root
  {
    NormalIsUnder(root, src);
    if p == root {
      UnderIsPrefix(root, src);
      UnderIsPrefix(src, root);
    }
  }

  lemma MovedFrom(d: Disk, src: Str, dst: Str, p: Str) returns (q: Str)
    requires Exists(RenameAll(d, src, dst), p)
    ensures Exists(d, q) && MovedPath(q, src, dst) == p
  {
    if p in RenameAll(d, src, dst).files {
      q :| q in d.files && MovedPath(q, src, dst) == p;
    } else {
      q :| q in d.dirs && MovedPath(q, src, dst) == p;
    }
  }

  lemma MovedEntry(root: Str, d: Disk, src: Str, dst: Str, q: Str)
    requires Clean(root, d) && Normal(root, src) && Normal(root, dst) && Exists(d, q)
    ensures EntryClean(root, MovedPath(q, src, dst))
  {
    if Under(src, q) {
      NormalIsUnder(root, src);
      UnderTransitive(root, src, q);
      MovedIsNormal(root, src, dst, q);
      NormalIsUnder(root, MovedPath(q, src, dst));
    }
  }

  lemma RenameKeepsClean(root: Str, d: Disk, src: Str, dst: Str)
    requires Clean(root, d) && Normal(root, src) && Normal(root, dst)
    ensures Clean(root, RenameAll(d, src, dst))
  {
    forall p | Exists(RenameAll(d, src, dst), p)
      ensures EntryClean(root, p)
    {
      var q := MovedFrom(d, src, dst, p);
      MovedEntry(root, d, src, dst, q);
    }
  }

  lemma KidStoresNormal(s: State, pid: Str)
    requires Sound(s) && pid in Keys(ById, s.tree)
    ensures StoresNormal(s.tree.path, HeadersOf(Node(ById, s.tree, pid).kids))
  {
    var n := Node(ById, s.tree, pid);
    PutHeaders(ById, s.tree, pid, n);
    forall h, st | h in HeadersOf(n.kids) && st in h.stores
      ensures Normal(s.tree.path, st.path)
    {
      assert h in Headers(n) && h in Headers(s.tree);
      StoreIsNormal(s.tree.path, h, st);
    }
  }

  lemma StoreIsNormal(root: Str, h: Header, st: Store)
    requires NodeSound(root, h) && st in h.stores
    ensures Normal(root, st.path)
  {
    assert st == h.stores[0];
    NormalFile(root, h.path, h.id);
  }

  lemma AddKeepsClean(s: State, pid: Str, name: Str, id: Str, mkdir: bool)
    requires Sound(s) && Clean(s.tree.path, s.core.disk)
    requires Refused(s, pid, name, id) || ValidName(name)
    ensures var o := Do(AddGroup(pid, name, id, mkdir), s);
      o.s.tree.path == s.tree.path && Clean(s.tree.path, o.s.core.disk)
  {
    if Refused(s, pid, name, id) {
      AddRefused(s, pid, name, id, mkdir);
    } else {
      CtrlIsOneEdit(pid, Add(id, name, mkdir), s);
      AddedClean(s, pid, name, AddIn(id, name, mkdir, Node(ById, s.tree, pid), s.core).c.disk);
    }
  }

  lemma AddedClean(s: State, pid: Str, name: Str, d: Disk)
    requires Sound(s) && Clean(s.tree.path, s.core.disk) && ValidName(name) && pid in Keys(ById, s.tree)
    requires forall p :: Exists(d, p) ==> Exists(s.core.disk, p) || p == Join(Node(ById, s.tree, pid).path, name)
    ensures Clean(s.tree.path, d)
  {
    NodeIsHere(s.tree, pid);
    NormalJoin(s.tree.path, Node(ById, s.tree, pid).path, name);
    CleanWithin(s.tree.path, s.core.disk, d);
  }

  lemma DeleteKeepsClean(s: State, pid: Str, id: Str)
    requires Sound(s) && Welcome(DeleteGroup(pid, id), s) && Clean(s.tree.path, s.core.disk)
    ensures var o := Do(DeleteGroup(pid, id), s);
      o.s.tree.path == s.tree.path && Clean(s.tree.path, o.s.core.disk)
  {
    if pid in Keys(ById, s.tree) && IsKid(s, pid, id) {
      var r := DeleteIn(id, Node(ById, s.tree, pid), s.core);
      DeleteIs(s, pid, id, r);
      KidStoresNormal(s, pid);
      DeleteAdds(id, Node(ById, s.tree, pid), s.core, s.tree.path);
      CleanWithin(s.tree.path, s.core.disk, r.c.disk);
    } else {
      DeleteMissed(s, pid, id);
    }
  }

  lemma UpdateKeepsClean(s: State, pid: Str, id: Str, name: Str, moved: bool)
    requires Sound(s) && Regular(UpdateGroup(pid, id, name, moved), s) && Clean(s.tree.path, s.core.disk)
    ensures var o := Do(UpdateGroup(pid, id, name, moved), s);
      o.s.tree.path == s.tree.path && Clean(s.tree.path, o.s.core.disk)
  {
    if pid in Keys(ById, s.tree) && IsKid(s, pid, id) {
      var n := Node(ById, s.tree, pid);
      var f := n.kids[KidIndex(n.kids, id)];
      UpdateIs(s, pid, id, name, moved, UpdateIn(id, name, moved, n, s.core));
      if moved {
        NodeIsHere(s.tree, pid);
        KidIsPart(s.tree, pid, KidIndex(n.kids, id));
        assert f.Head() in Headers(f);
        NormalJoin(s.tree.path, n.path, name);
        RenameKeepsClean(s.tree.path, s.core.disk, f.path, Join(n.path, name));
      }
    } else {
      RenameMissed(s, pid, id, name, moved);
    }
  }

  lemma CallKeepsClean(call: Call, s: State)
    requires Sound(s) && Regular(call, s) && Clean(s.tree.path, s.core.disk)
    ensures var o := Do(call, s); o.s.tree.path == s.tree.path && Clean(s.tree.path, o.s.core.disk)
  {
    match call
    case AddGroup(pid, name, id, mkdir) => AddKeepsClean(s, pid, name, id, mkdir);
    case DeleteGroup(pid, id) => DeleteKeepsClean(s, pid, id);
    case UpdateGroup(pid, id, name, moved) => UpdateKeepsClean(s, pid, id, name, moved);
    case OnQuestion(gid, question) => QuestionKeepsDisk(s, gid, question);
  }

  lemma QuestionKeepsDisk(s: State, gid: Str, question: QuestionCall)
    requires Agree(s)
    ensures var o := Do(OnQuestion(gid, question), s); o.s.tree.path == s.tree.path && o.s.core.disk == s.core.disk
  {
    if gid in s.core.index {
      KnownIds(s, gid);
      QuestionIsOneEdit(s, gid, question);
    }
  }

  lemma RestartKeepsClean(s: State, walk: seq<Entry>, order: seq<Str>)
    requires Possible(Restarted(walk, order), s) && Clean(s.tree.path, s.core.disk)
    ensures var r := Init(s.tree.path, Saved(s), walk, order);
      r.s.tree.path == s.tree.path && Clean(s.tree.path, r.s.core.disk)
  {
    InitRestores(s, walk, order);
    SavedIsCloseAll(s);
    forall st | st in AllStores(s)
      ensures Normal(s.tree.path, st.path)
    {
      SavedStoreIsNormal(s, st);
    }
    CloseAllAdds(AllStores(s), s.core.disk, s.tree.path);
    CleanWithin(s.tree.path, s.core.disk, Saved(s));
  }

  lemma SavedStoreIsNormal(s: State, st: Store)
    requires Settled(s) && st in AllStores(s)
    ensures Normal(s.tree.path, st.path)
  {
    if st == s.core.list {
      NormalFile(s.tree.path, s.tree.path, IDS);
    } else {
      SettledIsSound(s);
      StoresAreHeaders(s.tree, st);
      var h :| h in Headers(s.tree) && st in h.stores;
      StoreIsNormal(s.tree.path, h, st);
    }
  }

  /** Over every life of regular calls and restarts the disk keeps listing the bank's directory in normal
      form, so that throughout it all comparing bytes is comparing places. */
  lemma {:induction false} LifeKeepsClean(events: seq<Event>, s: State)
    requires Sound(s) && AllPossible(events, s) && Clean(s.tree.path, s.core.disk)
    ensures var end := Life(events, s).1;
      Sound(end) && end.tree.path == s.tree.path && Clean(s.tree.path, end.core.disk)
  {
    if events == [] {
      return;
    }
    EventSteps(events[0], s);
    match events[0] {
      case Called(call) => CallKeepsClean(call, s);
      case Restarted(walk, order) => RestartKeepsClean(s, walk, order);
    }
    LifeKeepsClean(events[1..], Happen(events[0], s).s);
  }

  // ----- names that lead elsewhere -----

  /** remove_all with the path followed. */
  function RemovedAt(d: Disk, place: seq<Str>): Disk {
    if !(exists p :: p in d.dirs && Place(p) == place) then d
    else Disk(map p | p in d.files && !(place <= Place(p)) :: d.files[p],
              set p | p in d.dirs && !(place <= Place(p)))
  }

  /** For a path in normal form that is what the calls are said to do. */
  lemma RemovedIsRemoved(root: Str, d: Disk, path: Str)
    requires Clean(root, d) && Normal(root, path)
    ensures RemovedAt(d, Place(path)) == RemoveAll(d, path)
  {
    forall p | Exists(d, p)
      ensures (p == path <==> Place(p) == Place(path)) && (Under(path, p) <==> Place(path) <= Place(p))
    {
      EntriesArePlaces(root, d, path, p);
    }
  }

  /** A name that is empty, "." or ".." leads a group to its parent's directory or above. */
  lemma DotsLeadUp(dir: Str, name: Str)
    requires name == [] || name == [DOT] || name == [DOT, DOT]
    ensures Place(Join(dir, name)) <= Place(dir)
  {
    PlaceOfJoin(dir, name);
  }

  /** Adding a group to the root and deleting it again leaves tree, index and list as they were, whatever
      its name and id, so all that is left of it is what was done to the disk. */
  lemma AddThenDelete(s: State, name: Str, id: Str, mkdir: bool)
    requires Agree(s) && !Refused(s, [], name, id) && id != []
    ensures var u := Do(AddGroup([], name, id, mkdir), s).s; var v := Do(DeleteGroup([], id), u);
      v.ok && v.s == s.(core := s.core.(disk := v.s.core.disk))
  {
    KnownIds(s, id);
    IdsAreFound(s.core.list.groups, id);
    InThenOut(s.tree, s.core, name, id, mkdir);
  }

  lemma InThenOut(g: Group, c: Core, name: Str, id: Str, mkdir: bool)
    requires id !in Keys(ById, g) && id !in c.index && !Has(c.list.groups, id) && c.list.path != []
    ensures var a := AddIn(id, name, mkdir, g, c); var b := DeleteIn(id, a.g, a.c);
      b.ok && b.g == g && b.c == c.(disk := b.c.disk)
  {
    var leaf := Group(name, id, Join(g.path, name), [], []);
    var a := AddIn(id, name, mkdir, g, c);
    NewIsLast(g.kids, leaf, g);
    LastIsOut(g.kids, leaf);
    LastIsRemoved(c.list.groups, QuestionAnswerGroup(name, [], id));
    assert a.c.list == c.list.(groups := c.list.groups + [QuestionAnswerGroup(name, [], id)]);
    assert WithoutGroup(a.c.list, id).store == c.list;
    assert a.c.index - {id} == c.index;
    LeafGoes(id, a.g, a.c);
  }

  lemma LastIsOut(gs: seq<Group>, leaf: Group)
    ensures (gs + [leaf])[..|gs|] + (gs + [leaf])[|gs| + 1..] == gs
  {
  }

  /** Deleting a subgroup with nothing in it. */
  lemma LeafGoes(id: Str, g: Group, c: Core)
    requires KidIndex(g.kids, id) < |g.kids|
    requires var f := g.kids[KidIndex(g.kids, id)]; f.kids == [] && f.stores == []
    ensures var c' := DeleteIn(id, g, c).c;
      c' == Core(c.index - {id}, WithoutGroup(c.list, id).store, c'.disk)
  {
    KidsSplit(g.kids, KidIndex(g.kids, id));
  }

  lemma {:induction false} NewIsLast(gs: seq<Group>, leaf: Group, g: Group)
    requires HeadersOf(gs) <= Headers(g) && leaf.id !in Keys(ById, g)
    ensures KidIndex(gs + [leaf], leaf.id) == |gs|
  {
    if gs == [] {
      assert gs + [leaf] == [leaf];
    } else {
      assert gs[0].Head() in Headers(g) && Key(ById, gs[0].Head()) in Keys(ById, g);
      assert (gs + [leaf])[1..] == gs[1..] + [leaf];
      NewIsLast(gs[1..], leaf, g);
    }
  }

  lemma LastIsRemoved(items: seq<GroupEntry>, x: GroupEntry)
    requires !Has(items, x.id)
    ensures Has(items + [x], x.id) && SwapRemoved(items + [x], x.id) == items
  {
    LastIsFound(items, x);
  }

  lemma {:induction false} LastIsFound(items: seq<GroupEntry>, x: GroupEntry)
    requires !Has(items, x.id)
    ensures IndexOf(items + [x], x.id) == |items|
  {
    if items != [] {
      assert (items + [x])[1..] == items[1..] + [x];
      LastIsFound(items[1..], x);
    }
  }

  /** The bank without its directory, the tree in memory as it was. */
  ghost predicate Erased(s: State, u: State) {
    && u == s.(core := s.core.(disk := u.core.disk))
    && forall p :: Under(s.tree.path, p) ==> !Exists(u.core.disk, p)
  }

  /** A group of such a name in the root gets a directory that is already there: the bank's own or one
      above it.  Deleting the group, with the path followed, takes it all: nothing can be saved, and the
      next start finds an empty bank. */
  lemma DotsTakeAll(s: State, name: Str, order: seq<Str>)
    requires Settled(s) && Clean(s.tree.path, s.core.disk) && (name == [] || name == [DOT] || name == [DOT, DOT])
    requires exists p :: p in s.core.disk.dirs && Place(p) == Place(Join(s.tree.path, name))
    ensures var u := s.(core := s.core.(disk := RemovedAt(s.core.disk, Place(Join(s.tree.path, name)))));
      var r := Init(s.tree.path, Saved(u), [], order);
      Erased(s, u) && r.ok && Settled(r.s) && Contents(r.s.tree) == map[]
  {
    var place := Place(Join(s.tree.path, name));
    var u := s.(core := s.core.(disk := RemovedAt(s.core.disk, place)));
    DotsLeadUp(s.tree.path, name);
    forall p | Under(s.tree.path, p)
      ensures !Exists(u.core.disk, p)
    {
      if Exists(s.core.disk, p) {
        assert EntryClean(s.tree.path, p);
        NormalIsUnder(s.tree.path, p);
      }
    }
    ErasedIsEmpty(s, u, order);
  }

  lemma ErasedIsEmpty(s: State, u: State, order: seq<Str>)
    requires Settled(s) && Erased(s, u)
    ensures var r := Init(s.tree.path, Saved(u), [], order);
      r.ok && Settled(r.s) && Contents(r.s.tree) == map[]
  {
    SavedIsCloseAll(u);
    forall st | st in AllStores(u)
      ensures Under(s.tree.path, st.path) && !CanWrite(u.core.disk, st.path)
    {
      StoreIsErased(s, u, st);
    }
    NothingIsWritten(AllStores(u), u.core.disk);
    FirstStart(s.tree.path, Saved(u), order);
  }

  lemma StoreIsErased(s: State, u: State, st: Store)
    requires Settled(s) && Erased(s, u) && st in AllStores(u)
    ensures Under(s.tree.path, st.path) && !CanWrite(u.core.disk, st.path)
  {
    IdsFileSplits(s.tree.Head());
    if st != s.core.list {
      StoresAreHeaders(s.tree, st);
      var h := OwnerOf(s.tree, st);
      StoreFileSplits(h);
      PathsAreNames(s.tree, h);
      UnderTransitive(s.tree.path, h.path, st.path);
    }
  }

  lemma {:induction false} NothingIsWritten(stores: seq<Store>, d: Disk)
    requires forall st :: st in stores ==> !CanWrite(d, st.path)
    ensures CloseAll(stores, d).dirs == d.dirs
    ensures forall p :: p in CloseAll(stores, d).files ==> p in d.files
  {
    if stores != [] {
      assert stores[0] in stores;
      NothingIsWritten(stores[1..], Closed(stores[0], d));
    }
  }

  /** A group's store file lies in its directory exactly when its id is free of separators. */
  lemma FileIsAtHomeIff(h: Header)
    ensures Place(StoreFile(h)) == Place(h.path) + [h.id + DAT] <==> NoSep(h.id)
  {
    NameLeadsIntoDirIff(h.path, h.id + DAT);
    FileNameIsValidIff(h.id);
  }

  lemma FileNameIsValidIff(id: Str)
    ensures ValidName(id + DAT) <==> NoSep(id)
  {
    assert |id + DAT| >= 4;
    assert id == (id + DAT)[..|id|];
  }

  /** With an id that leads up and into another group's directory, two groups have one file, told apart
      by its bytes. */
  lemma FileOfAnother(dir: Str, g: Str, h: Str, id: Str)
    requires ValidName(g) && ValidName(h) && NoSep(id)
    ensures var other := Header(h, id, Join(dir, h), []);
      var alias := Header(g, Join(Join([DOT, DOT], h), id), Join(dir, g), []);
      StoreFile(alias) != StoreFile(other) && Place(StoreFile(alias)) == Place(StoreFile(other))
  {
    var here := Join(dir, g);
    var up := Join(here, [DOT, DOT]);
    assert NoSep(id + DAT) && |id + DAT| >= 4;
    assert Join(here, Join(Join([DOT, DOT], h), id) + DAT) == Join(Join(up, h), id + DAT);
    PlaceOfJoin(dir, g);
    PlaceOfJoin(here, [DOT, DOT]);
    PlaceOfJoin(up, h);
    PlaceOfJoin(dir, h);
    PlaceOfJoin(Join(up, h), id + DAT);
    PlaceOfJoin(Join(dir, h), id + DAT);
    assert |Join(Join(up, h), id + DAT)| > |Join(Join(dir, h), id + DAT)|;
  }
}
