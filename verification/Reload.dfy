/** Saving a bank and loading it again, one step at a time: uninit and init of src/notebook_impl.cpp.  What
    closing the list and every store leaves on the disk; what a directory iterator may list of it; and
    what one entry of the walk adds to the tree, which so far holds what the entries before it told. */
module Reload {
  import opened Bytes
  import opened Records
  import opened Stores
  import opened Groups
  import opened Bank
  import opened Agreement
  import opened Layout
  import opened Calls

  // ----- uninit -----

  function SaveTree(g: Group, d: Disk): Disk
    decreases g, 1
  {
    SaveKids(g.kids, CloseAll(g.stores, d))
  }

  function SaveKids(gs: seq<Group>, d: Disk): Disk
    decreases gs, 0
  {
    if gs == [] then d else SaveKids(gs[1..], SaveTree(gs[0], d))
  }

  /** The disk after uninit: the id list is closed first, then every store of the tree. */
  function Saved(s: State): Disk {
    SaveTree(s.tree, Closed(s.core.list, s.core.disk))
  }

  function StoresOf(g: Group): seq<Store>
    decreases g, 1
  {
    g.stores + StoresOfAll(g.kids)
  }

  function StoresOfAll(gs: seq<Group>): seq<Store>
    decreases gs, 0
  {
    if gs == [] then [] else StoresOf(gs[0]) + StoresOfAll(gs[1..])
  }

  lemma {:induction false} CloseAllConcat(a: seq<Store>, b: seq<Store>, d: Disk)
    ensures CloseAll(a + b, d) == CloseAll(b, CloseAll(a, d))
  {
    if a == [] {
      assert a + b == b;
    } else {
      assert (a + b)[1..] == a[1..] + b;
      CloseAllConcat(a[1..], b, Closed(a[0], d));
    }
  }

  lemma {:induction false} SaveIsCloseAll(g: Group, d: Disk)
    ensures SaveTree(g, d) == CloseAll(StoresOf(g), d)
    decreases g, 1
  {
    SaveKidsIsCloseAll(g.kids, CloseAll(g.stores, d));
    CloseAllConcat(g.stores, StoresOfAll(g.kids), d);
  }

  lemma {:induction false} SaveKidsIsCloseAll(gs: seq<Group>, d: Disk)
    ensures SaveKids(gs, d) == CloseAll(StoresOfAll(gs), d)
    decreases gs, 0
  {
    if gs != [] {
      SaveIsCloseAll(gs[0], d);
      SaveKidsIsCloseAll(gs[1..], SaveTree(gs[0], d));
      CloseAllConcat(StoresOf(gs[0]), StoresOfAll(gs[1..]), d);
    }
  }

  ghost predicate StoreIn(hs: set<Header>, st: Store) {
    exists h :: h in hs && st in h.stores
  }

  lemma {:induction false} StoresAreHeaders(g: Group, st: Store)
    ensures st in StoresOf(g) <==> StoreIn(Headers(g), st)
    decreases g, 1
  {
    StoresAreHeadersIn(g.kids, st);
    if st in g.stores {
      assert g.Head() in Headers(g) && st in g.Head().stores;
    }
  }

  lemma {:induction false} StoresAreHeadersIn(gs: seq<Group>, st: Store)
    ensures st in StoresOfAll(gs) <==> StoreIn(HeadersOf(gs), st)
    decreases gs, 0
  {
    if gs != [] {
      StoresAreHeaders(gs[0], st);
      StoresAreHeadersIn(gs[1..], st);
    }
  }

  // ----- what closing many stores leaves on the disk -----

  /** Stores that can be written lie at paths of their own; one that cannot has no file. */
  ghost predicate Apart(ss: seq<Store>, d: Disk) {
    && (forall a, b :: a in ss && b in ss && a.path == b.path && CanWrite(d, a.path) ==> a == b)
    && (forall st :: st in ss ==> CanWrite(d, st.path) || st.path !in d.files)
  }

  ghost predicate Left(st: Store, d: Disk) {
    (st.path in d.files <==> !IsEmpty(st)) && (!IsEmpty(st) ==> d.files[st.path] == FileBytes(st))
  }

  ghost predicate SameAt(d: Disk, d': Disk, p: Str) {
    (p in d'.files <==> p in d.files) && (p in d.files ==> d'.files[p] == d.files[p])
  }

  lemma {:induction false} CloseAllLeaves(ss: seq<Store>, d: Disk, p: Str)
    requires Apart(ss, d)
    ensures CloseAll(ss, d).dirs == d.dirs
    ensures CanWrite(d, p) ==> forall st :: st in ss && st.path == p ==> Left(st, CloseAll(ss, d))
    ensures (CanWrite(d, p) ==> forall st :: st in ss ==> st.path != p) ==> SameAt(d, CloseAll(ss, d), p)
  {
    if ss == [] {
      return;
    }
    var d1 := Closed(ss[0], d);
    assert ss[0] in ss;
    assert forall st :: st in ss[1..] ==> st in ss;
    CloseAllLeaves(ss[1..], d1, p);
    if CanWrite(d, p) {
      forall st | st in ss && st.path == p
        ensures Left(st, CloseAll(ss, d))
      {
        if st !in ss[1..] {
          assert st == ss[0];
          assert Left(st, d1);
        }
      }
    }
  }

  // ----- the saved disk -----

  /** Groups whose store leaves a file. */
  predicate Kept(h: Header) {
    QuestionsAt(h) != []
  }

  function AllStores(s: State): seq<Store> {
    [s.core.list] + StoresOf(s.tree)
  }

  lemma SavedIsCloseAll(s: State)
    ensures Saved(s) == CloseAll(AllStores(s), s.core.disk)
  {
    SaveIsCloseAll(s.tree, Closed(s.core.list, s.core.disk));
    assert AllStores(s)[1..] == StoresOf(s.tree);
  }

  /** A kept store's file is there, and opens exactly when its strings are UTF-8, as that store. */
  ghost predicate Reopens(h: Header, d: Disk) {
    var r := Opened(FRESH, d, StoreFile(h), true);
    StoreFile(h) in d.files && (r.ok <==> Readable(QuestionsAt(h))) && (r.ok ==> [r.store] == h.stores)
  }

  /** The store cannot be written back, and there is nothing to remove. */
  predicate Dead(st: Store, d: Disk) {
    !CanWrite(d, st.path) && st.path !in d.files
  }

  /** Saving `s` puts the tree `t` on the disk: every store of `s` is one of `t` or dead, and a store of
      `t` that `s` does not have is in its file already. */
  ghost predicate SavesAs(s: State, t: Group) {
    && Laid(t) && t.id == []
    && OnDisk(Headers(t), t.Head(), s.core.disk)
    && ListLaid(s.core, t.Head())
    && (forall st :: StoreIn(Headers(s.tree), st) ==> StoreIn(Headers(t), st) || Dead(st, s.core.disk))
    && (forall h :: h in Headers(t) && h.stores != [] && !StoreIn(Headers(s.tree), h.stores[0]) ==>
          Kept(h) && Reopens(h, s.core.disk))
  }

  lemma SettledSaves(s: State)
    requires Settled(s)
    ensures SavesAs(s, s.tree)
  {
    forall h | h in Headers(s.tree) && h.stores != []
      ensures StoreIn(Headers(s.tree), h.stores[0])
    {
      assert h.stores[0] in h.stores;
    }
  }

  /** A live store is the id list or the one store of a group. */
  lemma WhoseStore(s: State, t: Group, st: Store) returns (h: Header)
    requires SavesAs(s, t) && st in AllStores(s) && st != s.core.list && !Dead(st, s.core.disk)
    ensures h in Headers(t) && h != t.Head() && h.stores == [st] && st.path == StoreFile(h)
  {
    assert st in StoresOf(s.tree);
    StoresAreHeaders(s.tree, st);
    h := OwnerOf(t, st);
  }

  lemma OwnerOf(tree: Group, st: Store) returns (h: Header)
    requires Laid(tree) && StoreIn(Headers(tree), st)
    ensures h in Headers(tree) && h != tree.Head() && h.stores == [st] && st.path == StoreFile(h)
  {
    h :| h in Headers(tree) && st in h.stores;
    var k :| 0 <= k < |h.stores| && h.stores[k] == st;
    assert StoreOk(h);
  }

  lemma StoresAreApart(s: State, t: Group)
    requires SavesAs(s, t)
    ensures Apart(AllStores(s), s.core.disk)
  {
    var d := s.core.disk;
    IdsFileSplits(t.Head());
    IdsFileIsFree(t, d);
    forall st | st in AllStores(s)
      ensures CanWrite(d, st.path) || st.path !in d.files
      ensures st != s.core.list && CanWrite(d, st.path) ==> st.path != s.core.list.path
    {
      if st != s.core.list && !Dead(st, d) {
        var h := WhoseStore(s, t, st);
        StoreFileIsFree(t, d, h);
        StoreFileSplits(h);
      }
    }
    forall a, b | a in AllStores(s) && b in AllStores(s) && a.path == b.path && CanWrite(d, a.path)
      ensures a == b
    {
      if a != s.core.list && b != s.core.list {
        var h := WhoseStore(s, t, a);
        var x := WhoseStore(s, t, b);
        PathsDiffer(t, h, x);
      }
    }
  }

  lemma IdsFileIsFree(tree: Group, d: Disk)
    requires Laid(tree) && OnDisk(Headers(tree), tree.Head(), d)
    ensures CanWrite(d, IdsFile(tree.Head()))
  {
    IdsFileSplits(tree.Head());
    assert tree.Head() in Headers(tree);
  }

  lemma StoreIsListed(s: State, st: Store)
    requires StoreIn(Headers(s.tree), st)
    ensures st in AllStores(s)
  {
    StoresAreHeaders(s.tree, st);
  }

  /** No live store but a group's own lies at its file. */
  lemma OnlyItsStore(s: State, t: Group, h: Header, st: Store)
    requires SavesAs(s, t) && h in Headers(t) && h != t.Head() && st in AllStores(s) && st.path == StoreFile(h)
    ensures h.stores == [st]
  {
    StoreFileIsFree(t, s.core.disk, h);
    IdsFileSplits(t.Head());
    StoreFileSplits(h);
    assert st != s.core.list;
    var x := WhoseStore(s, t, st);
    PathsDiffer(t, x, h);
  }

  /** A group's file after saving: where the store was in memory, there exactly when it has questions,
      with their encoding; else as it was. */
  lemma SavedStore(s: State, t: Group, h: Header)
    requires SavesAs(s, t) && h in Headers(t) && h != t.Head()
    ensures h.stores == [] || StoreIn(Headers(s.tree), h.stores[0]) ==>
      && (StoreFile(h) in Saved(s).files <==> Kept(h))
      && (Kept(h) ==> Saved(s).files[StoreFile(h)] == Encode(QuestionsAt(h)))
    ensures h.stores == [] || !StoreIn(Headers(s.tree), h.stores[0]) ==> SameAt(s.core.disk, Saved(s), StoreFile(h))
  {
    var ss := AllStores(s);
    SavedIsCloseAll(s);
    StoresAreApart(s, t);
    StoreFileIsFree(t, s.core.disk, h);
    CloseAllLeaves(ss, s.core.disk, StoreFile(h));
    if h.stores != [] && StoreIn(Headers(s.tree), h.stores[0]) {
      StoreIsListed(s, h.stores[0]);
      assert FileBytes(h.stores[0]) == [] + if h.stores[0].questions == [] then [] else Encode(h.stores[0].questions);
    } else {
      forall st | st in ss
        ensures st.path != StoreFile(h)
      {
        if st.path == StoreFile(h) {
          OnlyItsStore(s, t, h, st);
          IsInTree(s, t, st);
        }
      }
    }
  }

  lemma IsInTree(s: State, t: Group, st: Store)
    requires SavesAs(s, t) && st in AllStores(s) && exists h :: h in Headers(t) && h != t.Head() && h.stores == [st]
    ensures StoreIn(Headers(s.tree), st)
  {
    var h :| h in Headers(t) && h != t.Head() && h.stores == [st];
    assert StoreOk(h);
    IdsFileSplits(t.Head());
    StoreFileSplits(h);
    assert st in StoresOf(s.tree);
    StoresAreHeaders(s.tree, st);
  }

  lemma SavedList(s: State, t: Group)
    requires SavesAs(s, t)
    ensures var p := IdsFile(t.Head());
      && (p in Saved(s).files <==> s.core.list.groups != [])
      && (s.core.list.groups != [] ==> Saved(s).files[p] == Encode(s.core.list.groups))
    ensures Saved(s).dirs == s.core.disk.dirs
  {
    SavedIsCloseAll(s);
    StoresAreApart(s, t);
    IdsFileIsFree(t, s.core.disk);
    assert s.core.list in AllStores(s);
    CloseAllLeaves(AllStores(s), s.core.disk, s.core.list.path);
    assert FileBytes(s.core.list) == (if s.core.list.groups == [] then [] else Encode(s.core.list.groups)) + [];
  }

  /** Nothing else is left. */
  lemma SavedFile(s: State, t: Group, p: Str) returns (h: Header)
    requires SavesAs(s, t) && Under(t.path, p) && p in Saved(s).files && p != IdsFile(t.Head())
    ensures h in Headers(t) && h != t.Head() && Kept(h) && StoreFile(h) == p
  {
    SavedIsCloseAll(s);
    StoresAreApart(s, t);
    CloseAllLeaves(AllStores(s), s.core.disk, p);
    if st :| st in AllStores(s) && st.path == p && CanWrite(s.core.disk, p) {
      h := WhoseStore(s, t, st);
      IsInTree(s, t, st);
    } else {
      assert p in s.core.disk.files && HasStore(Headers(t), p);
      h :| h in Headers(t) && h.stores != [] && StoreFile(h) == p;
    }
    SavedStore(s, t, h);
  }

  // ----- init -----

  datatype Entry = Entry(path: Str, isFile: bool)

  /** What a recursive_directory_iterator may list: everything under `root` once, a directory
      before what is in it, siblings and unrelated entries in any order. */
  ghost predicate IsWalk(root: Str, d: Disk, walk: seq<Entry>) {
    && (forall i :: 0 <= i < |walk| ==>
          && Under(root, walk[i].path)
          && (if walk[i].isFile then walk[i].path in d.files else walk[i].path in d.dirs && walk[i].path != root))
    && (forall p :: p in d.files && Under(root, p) ==> Entry(p, true) in walk)
    && (forall p :: p in d.dirs && Under(root, p) && p != root ==> Entry(p, false) in walk)
    && (forall i, j :: 0 <= i < j < |walk| ==> walk[i] != walk[j])
    && (forall i :: 0 <= i < |walk| ==>
          ParentPath(walk[i].path) == root || Entry(ParentPath(walk[i].path), false) in walk[..i])
  }

  datatype Loading = Loading(ok: bool, s: State)

  /** One entry of the walk. */
  ghost function LoadEntry(e: Entry, s: State, order: seq<Str>): Loading {
    var parent, name := FileName(ParentPath(e.path)), FileName(e.path);
    if e.isFile then
      if name == IDS_DAT then Loading(true, s)
      else
        var r := Visit(ByName, parent, AttachingFile(e.path), s.tree, s.core);
        Loading(r.ok, State(r.g, r.c))
    else if parent == s.tree.name then
      Loading(true, s.(tree := AttachDirIn(e.path, name, s.tree, s.core, order).g))
    else
      var r := Visit(ByName, parent, AttachingDir(e.path, name, order), s.tree, s.core);
      Loading(r.ok, State(r.g, r.c))
  }

  ghost function LoadAll(walk: seq<Entry>, s: State, order: seq<Str>): Loading
    decreases |walk|
  {
    if walk == [] then Loading(true, s)
    else
      var before := LoadAll(walk[..|walk| - 1], s, order);
      if !before.ok then before else LoadEntry(walk[|walk| - 1], before.s, order)
  }

  /** init of a fresh object on the disk `d`, whose directory iterator lists `walk`. */
  ghost function Init(path: Str, d: Disk, walk: seq<Entry>, order: seq<Str>): Loading {
    var disk := if Exists(d, path) then d else d.(dirs := d.dirs + {path});
    var root := Group(FileName(path), [], path, [], []);
    var list := Opened(FRESH, disk, Join(path, IDS_DAT), false);
    var core := Core(if list.ok then Emplaced(list.store.groups, map[]) else map[], list.store, disk);
    if !list.ok then Loading(false, State(root, core)) else LoadAll(walk, State(root, core), order)
  }

  lemma LoadAllStep(walk: seq<Entry>, k: nat, s: State, order: seq<Str>)
    requires k < |walk|
    ensures var before := LoadAll(walk[..k], s, order);
      LoadAll(walk[..k + 1], s, order) == if before.ok then LoadEntry(walk[k], before.s, order) else before
  {
    assert walk[..k + 1][..k] == walk[..k];
  }

  // ----- how much of the saved bank has been loaded -----

  /** The node's entry has been listed. */
  predicate Shown(h: Header, w: seq<Entry>) {
    h.id == [] || Entry(h.path, false) in w
  }

  /** The node as loaded from the entries listed. */
  function Seen(h: Header, w: seq<Entry>): Header {
    h.(stores := if Entry(StoreFile(h), true) in w then h.stores else [])
  }

  ghost predicate FromSaved(hs: set<Header>, w: seq<Entry>, x: Header) {
    exists h :: h in hs && Shown(h, w) && x == Seen(h, w)
  }

  /** `tree` is what the entries `w` of the saved tree's listing build. */
  ghost predicate Partly(saved: Group, w: seq<Entry>, tree: Group) {
    && Unique(ById, tree) && Unique(ByName, tree) && Placed(tree)
    && tree.Head() == saved.Head()
    && (forall h :: h in Headers(saved) && Shown(h, w) ==> Seen(h, w) in Headers(tree))
    && (forall x :: x in Headers(tree) ==> FromSaved(Headers(saved), w, x))
  }

  /** The node with that name is the listed node of the saved tree. */
  lemma FindsListed(saved: Group, w: seq<Entry>, tree: Group, h: Header)
    requires Laid(saved) && Partly(saved, w, tree) && h in Headers(saved) && Shown(h, w)
    ensures h.name in Keys(ByName, tree) && Node(ByName, tree, h.name).Head() == Seen(h, w)
    ensures Placed(Node(ByName, tree, h.name))
  {
    var x := Seen(h, w);
    assert x in Headers(tree);
    var n := Node(ByName, tree, h.name);
    PutHeaders(ByName, tree, h.name, n);
    assert n.Head() in Headers(n);
    KeyOfOne(ByName, tree, n.Head(), x);
    NodePlaced(ByName, tree, h.name);
  }

  // ----- a directory entry -----

  lemma DirBuilds(saved: Group, w: seq<Entry>, tree: Group, h: Header, q: Header, tree': Group)
    requires Laid(saved) && saved.id == [] && Partly(saved, w, tree)
    requires h in Headers(saved) && h != saved.Head() && q in Headers(saved) && Shown(q, w)
    requires h.path == Join(q.path, h.name)
    requires Entry(h.path, false) !in w && Entry(StoreFile(h), true) !in w
    requires var n := Node(ByName, tree, q.name);
      var leaf := Group(h.name, h.id, h.path, [], []);
      q.name in Keys(ByName, tree) && tree' == Put(ByName, tree, q.name, n.(kids := n.kids + [leaf]))
    ensures Partly(saved, w + [Entry(h.path, false)], tree')
  {
    var w' := w + [Entry(h.path, false)];
    var leaf := Group(h.name, h.id, h.path, [], []);
    var n := Node(ByName, tree, q.name);
    FindsListed(saved, w, tree, q);
    IsNew(saved, w, tree, h);
    PutKid(ByName, tree, q.name, leaf);
    PutKidUnique(ByName, ById, tree, q.name, leaf);
    PutKidUnique(ByName, ByName, tree, q.name, leaf);
    PathIsName(saved, h);
    PlacedAppend(n.path, n.kids, leaf);
    PutPlaced(ByName, tree, q.name, n.(kids := n.kids + [leaf]));
    assert Seen(h, w') == leaf.Head();
    forall x | x in Headers(saved) && Shown(x, w')
      ensures Seen(x, w') in Headers(tree')
    {
      SameListing(saved, h, x, w);
    }
    forall x | x in Headers(tree')
      ensures FromSaved(Headers(saved), w', x)
    {
      if x == leaf.Head() {
        assert h in Headers(saved) && Shown(h, w');
      } else {
        StillFromSaved(saved, h, x, w);
      }
    }
  }

  lemma StillFromSaved(saved: Group, h: Header, x: Header, w: seq<Entry>)
    requires Laid(saved) && h in Headers(saved) && FromSaved(Headers(saved), w, x)
    ensures FromSaved(Headers(saved), w + [Entry(h.path, false)], x)
  {
    var y :| y in Headers(saved) && Shown(y, w) && x == Seen(y, w);
    SameListing(saved, h, y, w);
    assert Shown(y, w + [Entry(h.path, false)]);
  }

  lemma SameListing(saved: Group, h: Header, x: Header, w: seq<Entry>)
    requires Laid(saved) && h in Headers(saved) && x in Headers(saved)
    ensures var w' := w + [Entry(h.path, false)];
      Seen(x, w') == Seen(x, w) && (x != h ==> (Shown(x, w') <==> Shown(x, w)))
  {
    PathsDiffer(saved, h, x);
  }

  /** A node not listed yet is not in the tree, under either key. */
  lemma IsNew(saved: Group, w: seq<Entry>, tree: Group, h: Header)
    requires Laid(saved) && saved.id == [] && Partly(saved, w, tree)
    requires h in Headers(saved) && h != saved.Head() && Entry(h.path, false) !in w
    ensures h.id !in Keys(ById, tree) && h.name !in Keys(ByName, tree)
  {
    assert saved.Head() in Headers(saved);
    forall x | x in Headers(tree)
      ensures x.id != h.id && x.name != h.name
    {
      var y :| y in Headers(saved) && Shown(y, w) && x == Seen(y, w);
      if y.id == h.id {
        KeyOfOne(ById, saved, y, h);
      }
      if y.name == h.name {
        KeyOfOne(ByName, saved, y, h);
      }
    }
  }

  // ----- a file entry -----

  lemma FileBuilds(saved: Group, w: seq<Entry>, tree: Group, h: Header, tree': Group)
    requires Laid(saved) && Partly(saved, w, tree)
    requires h in Headers(saved) && h != saved.Head() && Shown(h, w) && Entry(StoreFile(h), true) !in w
    requires var n := Node(ByName, tree, h.name);
      h.name in Keys(ByName, tree) && tree' == Put(ByName, tree, h.name, n.(stores := h.stores))
    ensures Partly(saved, w + [Entry(StoreFile(h), true)], tree')
  {
    var w' := w + [Entry(StoreFile(h), true)];
    var n := Node(ByName, tree, h.name);
    FindsListed(saved, w, tree, h);
    PutHead(ByName, tree, h.name, h);
    assert n.(stores := h.stores) == Group(h.name, h.id, h.path, h.stores, n.kids);
    PutPlaced(ByName, tree, h.name, n.(stores := h.stores));
    assert Seen(h, w') == h;
    assert saved.Head() in Headers(saved) && tree.Head() in Headers(tree);
    forall x | x in Headers(saved) && Shown(x, w')
      ensures Seen(x, w') in Headers(tree')
    {
      OtherFile(saved, h, x, w);
    }
    forall x | x in Headers(tree')
      ensures FromSaved(Headers(saved), w', x)
    {
      if x == h {
        assert h in Headers(saved) && Shown(h, w') && x == Seen(h, w');
      } else {
        var y :| y in Headers(saved) && Shown(y, w) && x == Seen(y, w);
        OtherFile(saved, h, y, w);
        assert Shown(y, w') && x == Seen(y, w');
      }
    }
    assert tree'.Head() == tree.Head();
  }

  lemma OtherFile(saved: Group, h: Header, x: Header, w: seq<Entry>)
    requires Laid(saved) && h in Headers(saved) && h != saved.Head() && x in Headers(saved)
    ensures var w' := w + [Entry(StoreFile(h), true)];
      && (Shown(x, w') <==> Shown(x, w))
      && (x != h ==> Seen(x, w') == Seen(x, w))
      && (x != h && Shown(x, w) ==> Seen(x, w) != Seen(h, w))
  {
    if x == saved.Head() {
      assert x.stores == [];
    } else {
      PathsDiffer(saved, h, x);
    }
    PathsDiffer(saved, h, x);
  }

  // ----- one entry -----

  /** What fits into files at all. */
  ghost predicate AllFit(s: State) {
    Fits(s.core.list.groups) && forall h :: h in Headers(s.tree) ==> Fits(QuestionsAt(h))
  }

  ghost predicate KeptAt(hs: set<Header>, root: Header, p: Str) {
    exists h :: h in hs && h != root && Kept(h) && StoreFile(h) == p
  }

  /** Under the root the disk holds the tree: the groups' directories, the kept stores' files, and no
      other file but the id list's. */
  ghost predicate Holds(tree: Group, d: Disk) {
    && (forall h :: h in Headers(tree) ==> h.path in d.dirs)
    && (forall p :: p in d.dirs && Under(tree.path, p) ==> HasPath(Headers(tree), p))
    && (forall p :: p in d.files && Under(tree.path, p) && p != IdsFile(tree.Head()) ==>
          KeptAt(Headers(tree), tree.Head(), p))
    && (forall h :: h in Headers(tree) && h != tree.Head() && Kept(h) ==> Reopens(h, d))
  }

  /** Each group's name leads to its id. */
  ghost predicate IdsFound(tree: Group, index: map<Str, Str>, order: seq<Str>) {
    forall h :: h in Headers(tree) && h != tree.Head() ==> IdOf(index, h.name, order) == h.id
  }

  /** What loading starts from. */
  ghost predicate Loadable(tree: Group, c: Core, walk: seq<Entry>, order: seq<Str>) {
    && Laid(tree) && tree.id == []
    && Holds(tree, c.disk) && IsWalk(tree.path, c.disk, walk)
    && IdsFound(tree, c.index, order)
  }

  /** After saving, the disk holds the tree. */
  lemma SavedHolds(s: State, t: Group)
    requires SavesAs(s, t) && forall h :: h in Headers(t) ==> Fits(QuestionsAt(h))
    ensures Holds(t, Saved(s))
  {
    SavedList(s, t);
    forall p | p in Saved(s).files && Under(t.path, p) && p != IdsFile(t.Head())
      ensures KeptAt(Headers(t), t.Head(), p)
    {
      var h := SavedFile(s, t, p);
    }
    forall h | h in Headers(t) && h != t.Head() && Kept(h)
      ensures Reopens(h, Saved(s))
    {
      StoreReopens(s, t, h);
    }
  }

  lemma SettledFinds(s: State, order: seq<Str>)
    requires Agree(s) && NamesAgree(s) && Laid(s.tree) && Lists(order, s.core.index)
    ensures IdsFound(s.tree, s.core.index, order)
  {
    forall h | h in Headers(s.tree) && h != s.tree.Head()
      ensures IdOf(s.core.index, h.name, order) == h.id
    {
      IdIsFound(s, h, order);
    }
  }

  ghost predicate EntryReadable(tree: Group, e: Entry) {
    forall h :: h in Headers(tree) && h != tree.Head() && e == Entry(StoreFile(h), true) ==> Readable(QuestionsAt(h))
  }

  lemma IdIsFound(s: State, h: Header, order: seq<Str>)
    requires Agree(s) && NamesAgree(s) && Laid(s.tree) && Lists(order, s.core.index)
    requires h in Headers(s.tree) && h != s.tree.Head()
    ensures IdOf(s.core.index, h.name, order) == h.id
  {
    assert s.core.index[h.id] == h.name;
    var x := IdOwner(s, IdOf(s.core.index, h.name, order));
    KeyOfOne(ByName, s.tree, x, h);
  }

  lemma IdOwner(s: State, id: Str) returns (x: Header)
    requires Agree(s) && NamesAgree(s) && id in s.core.index
    ensures x in Headers(s.tree) && x.id == id && x.name == s.core.index[id]
  {
    assert HasId(Headers(s.tree), id);
    x :| x in Headers(s.tree) && x.id == id;
  }

  predicate IsDirOf(tree: Group, e: Entry, h: Header, q: Header) {
    h != tree.Head() && e == Entry(h.path, false) && h.path == Join(q.path, h.name)
  }

  /** A group's file lists after its directory, and neither is listed twice. */
  lemma ListedBefore(tree: Group, d: Disk, walk: seq<Entry>, k: nat)
    requires Laid(tree) && IsWalk(tree.path, d, walk) && k < |walk|
    ensures walk[k] !in walk[..k]
    ensures forall h :: h in Headers(tree) && h != tree.Head() && walk[k] == Entry(StoreFile(h), true) ==>
      Shown(h, walk[..k])
    ensures forall h, q :: h in Headers(tree) && q in Headers(tree) && IsDirOf(tree, walk[k], h, q) ==>
      q == tree.Head() || Shown(q, walk[..k])
    ensures forall h :: h in Headers(tree) && h != tree.Head() && Entry(StoreFile(h), true) in walk[..k] ==>
      Entry(h.path, false) in walk[..k]
  {
    assert tree.Head() in Headers(tree);
    forall h | h in Headers(tree) && h != tree.Head() && walk[k] == Entry(StoreFile(h), true)
      ensures Shown(h, walk[..k])
    {
      StoreFileSplits(h);
      PathsDiffer(tree, h, tree.Head());
    }
    forall h, q | h in Headers(tree) && q in Headers(tree) && IsDirOf(tree, walk[k], h, q)
      ensures q == tree.Head() || Shown(q, walk[..k])
    {
      PathIsName(tree, h);
      JoinSplits(q.path, h.name);
      PathsDiffer(tree, q, tree.Head());
    }
    forall h | h in Headers(tree) && h != tree.Head() && Entry(StoreFile(h), true) in walk[..k]
      ensures Entry(h.path, false) in walk[..k]
    {
      var j :| 0 <= j < k && walk[..k][j] == Entry(StoreFile(h), true);
      assert walk[j] == Entry(StoreFile(h), true);
      StoreFileSplits(h);
      PathsDiffer(tree, h, tree.Head());
      assert Entry(h.path, false) in walk[..j];
    }
  }

  /** The group a directory entry belongs to, and that group's parent. */
  lemma DirOf(tree: Group, c: Core, walk: seq<Entry>, k: nat, order: seq<Str>) returns (h: Header, q: Header)
    requires Loadable(tree, c, walk, order) && k < |walk| && !walk[k].isFile
    ensures h in Headers(tree) && h != tree.Head() && q in Headers(tree) && Shown(q, walk[..k])
    ensures walk[k] == Entry(h.path, false) && h.path == Join(q.path, h.name)
    ensures FileName(h.path) == h.name && FileName(ParentPath(h.path)) == q.name
    ensures Entry(h.path, false) !in walk[..k] && Entry(StoreFile(h), true) !in walk[..k]
    ensures IdOf(c.index, h.name, order) == h.id
  {
    assert HasPath(Headers(tree), walk[k].path);
    h :| h in Headers(tree) && h.path == walk[k].path;
    q := ParentOf(tree, h);
    PathIsName(tree, h);
    JoinSplits(q.path, h.name);
    PathIsName(tree, q);
    assert IsDirOf(tree, walk[k], h, q);
    ListedBefore(tree, c.disk, walk, k);
  }

  lemma VisitDir(e: Entry, t: State, parent: Str, leaf: Group, order: seq<Str>)
    requires Unique(ByName, t.tree) && parent in Keys(ByName, t.tree)
    requires !e.isFile && FileName(ParentPath(e.path)) == parent
    requires leaf == Group(FileName(e.path), IdOf(t.core.index, FileName(e.path), order), e.path, [], [])
    ensures var n := Node(ByName, t.tree, parent);
      LoadEntry(e, t, order) == Loading(true, State(Put(ByName, t.tree, parent, n.(kids := n.kids + [leaf])), t.core))
  {
    VisitIsOneEdit(ByName, parent, AttachingDir(e.path, FileName(e.path), order), t.tree, t.core);
  }

  lemma OneMore(walk: seq<Entry>, k: nat)
    requires k < |walk|
    ensures walk[..k + 1] == walk[..k] + [walk[k]]
  {
  }

  lemma LoadDir(tree: Group, walk: seq<Entry>, k: nat, t: State, order: seq<Str>)
    requires Loadable(tree, t.core, walk, order) && k < |walk| && !walk[k].isFile && Partly(tree, walk[..k], t.tree)
    ensures var r := LoadEntry(walk[k], t, order);
      r.ok && r.s.core == t.core && Partly(tree, walk[..k + 1], r.s.tree)
  {
    var h, q := DirOf(tree, t.core, walk, k, order);
    OneMore(walk, k);
    DirLoads(tree, walk[..k], t, h, q, walk[k], walk[..k + 1], LoadEntry(walk[k], t, order), order);
  }

  lemma DirLoads(saved: Group, w: seq<Entry>, t: State, h: Header, q: Header, e: Entry, w': seq<Entry>, r: Loading,
                 order: seq<Str>)
    requires e == Entry(h.path, false) && w' == w + [e] && r == LoadEntry(e, t, order)
    requires Laid(saved) && saved.id == [] && Partly(saved, w, t.tree)
    requires h in Headers(saved) && h != saved.Head() && q in Headers(saved) && Shown(q, w)
    requires h.path == Join(q.path, h.name) && FileName(h.path) == h.name && FileName(ParentPath(h.path)) == q.name
    requires Entry(h.path, false) !in w && Entry(StoreFile(h), true) !in w
    requires IdOf(t.core.index, h.name, order) == h.id
    ensures r.ok && r.s.core == t.core && Partly(saved, w', r.s.tree)
  {
    var leaf := Group(h.name, h.id, h.path, [], []);
    FindsListed(saved, w, t.tree, q);
    VisitDir(Entry(h.path, false), t, q.name, leaf, order);
    var n := Node(ByName, t.tree, q.name);
    DirBuilds(saved, w, t.tree, h, q, Put(ByName, t.tree, q.name, n.(kids := n.kids + [leaf])));
  }

  /** The group a file entry belongs to. */
  lemma FileOf(tree: Group, c: Core, walk: seq<Entry>, k: nat, order: seq<Str>) returns (h: Header)
    requires Loadable(tree, c, walk, order) && k < |walk| && walk[k].isFile && walk[k].path != IdsFile(tree.Head())
    ensures h in Headers(tree) && h != tree.Head() && Kept(h) && walk[k] == Entry(StoreFile(h), true)
    ensures Shown(h, walk[..k]) && Entry(StoreFile(h), true) !in walk[..k]
    ensures FileName(ParentPath(StoreFile(h))) == h.name && FileName(StoreFile(h)) != IDS_DAT
    ensures EntryReadable(tree, walk[k]) <==> Readable(QuestionsAt(h))
    ensures Reopens(h, c.disk)
  {
    assert KeptAt(Headers(tree), tree.Head(), walk[k].path);
    h :| h in Headers(tree) && h != tree.Head() && Kept(h) && StoreFile(h) == walk[k].path;
    assert walk[k] == Entry(StoreFile(h), true);
    ListedBefore(tree, c.disk, walk, k);
    StoreFileSplits(h);
    PathIsName(tree, h);
    OnlyItsFile(tree, h);
  }

  lemma StoreReopens(s: State, t: Group, h: Header)
    requires SavesAs(s, t) && h in Headers(t) && h != t.Head() && Kept(h) && Fits(QuestionsAt(h))
    ensures Reopens(h, Saved(s))
  {
    SavedStore(s, t, h);
    assert StoreOk(h);
    if StoreIn(Headers(s.tree), h.stores[0]) {
      FileReopens(h.stores[0], Saved(s));
    } else {
      SameAtReopens(h, s.core.disk, Saved(s));
    }
  }

  lemma SameAtReopens(h: Header, d: Disk, d': Disk)
    requires Reopens(h, d) && SameAt(d, d', StoreFile(h))
    ensures Reopens(h, d')
  {
  }

  lemma FileReopens(st: Store, d: Disk)
    requires st.path != [] && st.groups == [] && Fits(st.questions)
    requires st.path in d.files && d.files[st.path] == Encode(st.questions)
    ensures var r := Opened(FRESH, d, st.path, true);
      (r.ok <==> Readable(st.questions)) && (r.ok ==> r.store == st)
  {
    QuestionsRoundTrip(st.questions);
  }

  lemma VisitFile(e: Entry, t: State, parent: Str, order: seq<Str>)
    requires Unique(ByName, t.tree) && parent in Keys(ByName, t.tree)
    requires e.isFile && FileName(e.path) != IDS_DAT && FileName(ParentPath(e.path)) == parent
    ensures var n := Node(ByName, t.tree, parent); var r := Opened(FRESH, t.core.disk, e.path, true);
      && (LoadEntry(e, t, order).ok <==> r.ok)
      && (r.ok ==> LoadEntry(e, t, order).s ==
                   State(Put(ByName, t.tree, parent, n.(stores := n.stores + [r.store])), t.core))
  {
    VisitIsOneEdit(ByName, parent, AttachingFile(e.path), t.tree, t.core);
  }

  lemma LoadFile(tree: Group, walk: seq<Entry>, k: nat, t: State, order: seq<Str>)
    requires Loadable(tree, t.core, walk, order) && k < |walk| && walk[k].isFile && Partly(tree, walk[..k], t.tree)
    ensures var r := LoadEntry(walk[k], t, order);
      && (r.ok <==> EntryReadable(tree, walk[k]))
      && (r.ok ==> r.s.core == t.core && Partly(tree, walk[..k + 1], r.s.tree))
  {
    OneMore(walk, k);
    if walk[k].path == IdsFile(tree.Head()) {
      SkipIds(tree, walk[..k], t, walk[k], walk[..k + 1], LoadEntry(walk[k], t, order), order);
      IdsIsReadable(tree);
    } else {
      var h := FileOf(tree, t.core, walk, k, order);
      FileLoads(tree, walk[..k], t, h, walk[k], walk[..k + 1], LoadEntry(walk[k], t, order), order);
    }
  }

  lemma NoneBefore(stores: seq<Store>)
    ensures [] + stores == stores
  {
  }

  lemma FileLoads(saved: Group, w: seq<Entry>, t: State, h: Header, e: Entry, w': seq<Entry>, r: Loading,
                  order: seq<Str>)
    requires e == Entry(StoreFile(h), true) && w' == w + [e] && r == LoadEntry(e, t, order)
    requires Laid(saved) && Partly(saved, w, t.tree)
    requires h in Headers(saved) && h != saved.Head() && Shown(h, w) && Entry(StoreFile(h), true) !in w
    requires FileName(ParentPath(StoreFile(h))) == h.name && FileName(StoreFile(h)) != IDS_DAT
    requires var r := Opened(FRESH, t.core.disk, StoreFile(h), true); r.ok ==> [r.store] == h.stores
    ensures r.ok <==> Opened(FRESH, t.core.disk, StoreFile(h), true).ok
    ensures r.ok ==> r.s.core == t.core && Partly(saved, w', r.s.tree)
  {
    FindsListed(saved, w, t.tree, h);
    VisitFile(Entry(StoreFile(h), true), t, h.name, order);
    var n := Node(ByName, t.tree, h.name);
    assert n.stores == [];
    NoneBefore(h.stores);
    FileBuilds(saved, w, t.tree, h, Put(ByName, t.tree, h.name, n.(stores := h.stores)));
  }

  lemma OnlyItsFile(tree: Group, h: Header)
    requires Laid(tree) && h in Headers(tree) && h != tree.Head()
    ensures EntryReadable(tree, Entry(StoreFile(h), true)) <==> Readable(QuestionsAt(h))
  {
    forall x | x in Headers(tree) && x != tree.Head() && StoreFile(x) == StoreFile(h)
      ensures x == h
    {
      PathsDiffer(tree, x, h);
    }
  }

  lemma IdsIsReadable(tree: Group)
    requires Laid(tree)
    ensures EntryReadable(tree, Entry(IdsFile(tree.Head()), true))
  {
    IdsFileSplits(tree.Head());
    forall h | h in Headers(tree) && h != tree.Head()
      ensures StoreFile(h) != IdsFile(tree.Head())
    {
      StoreFileSplits(h);
    }
  }

  lemma SkipIds(saved: Group, w: seq<Entry>, t: State, e: Entry, w': seq<Entry>, r: Loading, order: seq<Str>)
    requires Laid(saved) && Partly(saved, w, t.tree)
    requires e == Entry(IdsFile(saved.Head()), true) && w' == w + [e] && r == LoadEntry(e, t, order)
    ensures r.ok && r.s.core == t.core && Partly(saved, w', r.s.tree)
  {
    IdsFileSplits(saved.Head());
    forall h | h in Headers(saved)
      ensures SeenAlike(h, w, w')
    {
      IdsIsNoStore(saved, h);
      SameSeen(h, w, e);
    }
    StillListed(saved, w, w', t.tree);
  }

  ghost predicate SeenAlike(h: Header, w: seq<Entry>, w': seq<Entry>) {
    Seen(h, w') == Seen(h, w) && (Shown(h, w') <==> Shown(h, w))
  }

  lemma IdsIsNoStore(saved: Group, h: Header)
    requires Laid(saved) && h in Headers(saved)
    ensures StoreFile(h) != IdsFile(saved.Head()) || h.stores == []
  {
    if h != saved.Head() {
      IdsFileSplits(saved.Head());
      StoreFileSplits(h);
    }
  }

  lemma SameSeen(h: Header, w: seq<Entry>, e: Entry)
    requires e.isFile && (e.path != StoreFile(h) || h.stores == [])
    ensures SeenAlike(h, w, w + [e])
  {
  }

  lemma StillListed(saved: Group, w: seq<Entry>, w': seq<Entry>, tree: Group)
    requires Partly(saved, w, tree)
    requires forall h :: h in Headers(saved) ==> SeenAlike(h, w, w')
    ensures Partly(saved, w', tree)
  {
    forall x | x in Headers(tree)
      ensures FromSaved(Headers(saved), w', x)
    {
      var y :| y in Headers(saved) && Shown(y, w) && x == Seen(y, w);
      assert SeenAlike(y, w, w');
    }
    forall h | h in Headers(saved) && Shown(h, w')
      ensures Seen(h, w') in Headers(tree)
    {
      assert SeenAlike(h, w, w');
    }
  }
}
