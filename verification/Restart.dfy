/** Restarting: what uninit followed by init of a fresh object brings back.  The whole walk, in whatever
    order it lists; the tree up to the order of siblings, the index and the list, exactly when all strings
    are UTF-8; from a settled bank a settled bank again; and the first start, from an empty directory. */
module Restart {
  import opened Bytes
  import opened Records
  import opened Stores
  import opened Groups
  import opened Bank
  import opened Agreement
  import opened Layout
  import opened Calls
  import opened Reload

  // ----- the whole walk -----

  ghost predicate WalkReadable(tree: Group, walk: seq<Entry>, k: nat)
    requires k <= |walk|
  {
    forall i :: 0 <= i < k ==> EntryReadable(tree, walk[i])
  }

  lemma NothingShown(tree: Group)
    requires Laid(tree) && tree.id == []
    ensures Partly(tree, [], Bare(tree))
  {
    var bare := Bare(tree);
    assert bare.Head() == tree.Head();
    assert Headers(bare) == {bare.Head()};
    assert tree.Head() in Headers(tree);
    assert KeysOf(ById, []) == {} && KeysOf(ByName, []) == {};
    forall h | h in Headers(tree) && Shown(h, [])
      ensures Seen(h, []) in Headers(bare)
    {
      KeyOfOne(ById, tree, h, tree.Head());
    }
    forall x | x in Headers(bare)
      ensures FromSaved(Headers(tree), [], x)
    {
      assert tree.Head() in Headers(tree) && Shown(tree.Head(), []) && x == Seen(tree.Head(), []);
    }
  }

  lemma ReadableStep(tree: Group, walk: seq<Entry>, k: nat)
    requires k < |walk|
    ensures WalkReadable(tree, walk, k + 1) <==> WalkReadable(tree, walk, k) && EntryReadable(tree, walk[k])
  {
  }

  lemma LoadsOne(tree: Group, walk: seq<Entry>, k: nat, t: State, order: seq<Str>)
    requires Loadable(tree, t.core, walk, order) && k < |walk| && Partly(tree, walk[..k], t.tree)
    ensures var r := LoadEntry(walk[k], t, order);
      && (r.ok <==> EntryReadable(tree, walk[k]))
      && (r.ok ==> r.s.core == t.core && Partly(tree, walk[..k + 1], r.s.tree))
  {
    if walk[k].isFile {
      LoadFile(tree, walk, k, t, order);
    } else {
      LoadDir(tree, walk, k, t, order);
    }
  }

  /** What loading the first `k` entries gives: success so far exactly when every file listed so far
      is readable, and then exactly the listed part of the tree. */
  ghost predicate LoadedTo(tree: Group, walk: seq<Entry>, k: nat, c: Core, r: Loading)
    requires k <= |walk|
  {
    && (r.ok <==> WalkReadable(tree, walk, k))
    && (r.ok ==> r.s.core == c && Partly(tree, walk[..k], r.s.tree))
  }

  lemma LoadsOneMore(tree: Group, walk: seq<Entry>, k: nat, c: Core, before: Loading, after: Loading, order: seq<Str>)
    requires Loadable(tree, c, walk, order) && k < |walk| && LoadedTo(tree, walk, k, c, before)
    requires after == if before.ok then LoadEntry(walk[k], before.s, order) else before
    ensures LoadedTo(tree, walk, k + 1, c, after)
  {
    ReadableStep(tree, walk, k);
    if before.ok {
      LoadsOne(tree, walk, k, before.s, order);
    }
  }

  ghost predicate LoadsUpTo(tree: Group, walk: seq<Entry>, k: nat, start: State, order: seq<Str>)
    requires k <= |walk|
  {
    LoadedTo(tree, walk, k, start.core, LoadAll(walk[..k], start, order))
  }

  /** Loading a prefix of the walk succeeds exactly when every file in it is readable, and then it
      has built exactly the listed part of the tree. */
  lemma LoadsPrefix(tree: Group, walk: seq<Entry>, k: nat, start: State, order: seq<Str>)
    requires Loadable(tree, start.core, walk, order) && k <= |walk| && start.tree == Bare(tree)
    ensures LoadsUpTo(tree, walk, k, start, order)
  {
    LoadedNothing(tree, walk, start, order);
    forall j | 0 <= j < |walk| && LoadsUpTo(tree, walk, j, start, order)
      ensures LoadsUpTo(tree, walk, j + 1, start, order)
    {
      LoadsStep(tree, walk, j, start, order);
    }
    PrefixByPrefix(tree, walk, k, start, order);
  }

  lemma {:induction false} PrefixByPrefix(tree: Group, walk: seq<Entry>, k: nat, start: State, order: seq<Str>)
    requires k <= |walk| && LoadsUpTo(tree, walk, 0, start, order)
    requires forall j :: 0 <= j < |walk| && LoadsUpTo(tree, walk, j, start, order) ==>
      LoadsUpTo(tree, walk, j + 1, start, order)
    ensures LoadsUpTo(tree, walk, k, start, order)
    decreases k
  {
    if k > 0 {
      PrefixByPrefix(tree, walk, k - 1, start, order);
    }
  }

  lemma LoadedNothing(tree: Group, walk: seq<Entry>, start: State, order: seq<Str>)
    requires Laid(tree) && tree.id == [] && start.tree == Bare(tree)
    ensures LoadsUpTo(tree, walk, 0, start, order)
  {
    NothingShown(tree);
    assert walk[..0] == [];
    assert LoadAll([], start, order) == Loading(true, start);
  }

  lemma LoadsStep(tree: Group, walk: seq<Entry>, k: nat, start: State, order: seq<Str>)
    requires Loadable(tree, start.core, walk, order) && k < |walk| && LoadsUpTo(tree, walk, k, start, order)
    ensures LoadsUpTo(tree, walk, k + 1, start, order)
  {
    LoadAllStep(walk, k, start, order);
    LoadsOneMore(tree, walk, k, start.core, LoadAll(walk[..k], start, order), LoadAll(walk[..k + 1], start, order),
                 order);
  }

  // ----- the whole of init -----

  /** A node without its empty store: what saving and loading make of it. */
  function Trimmed(h: Header): Header {
    h.(stores := if Kept(h) then h.stores else [])
  }

  ghost predicate AllReadable(s: State) {
    Readable(s.core.list.groups) && forall h :: h in Headers(s.tree) ==> Readable(QuestionsAt(h))
  }

  lemma IndexComesBack(s: State)
    requires Agree(s) && NamesAgree(s)
    ensures Emplaced(s.core.list.groups, map[]) == s.core.index
  {
    var index := Emplaced(s.core.list.groups, map[]);
    forall id
      ensures id in index <==> id in s.core.index
      ensures id in s.core.index ==> index[id] == s.core.index[id]
    {
      EntryComesBack(s, id);
    }
  }

  lemma EntryComesBack(s: State, id: Str)
    requires Agree(s) && NamesAgree(s)
    ensures var index := Emplaced(s.core.list.groups, map[]);
      (id in index <==> id in s.core.index) && (id in s.core.index ==> index[id] == s.core.index[id])
  {
    EmplacedKeepsFirst(s.core.list.groups, map[], id);
    IdsAreFound(s.core.list.groups, id);
    if id in s.core.index {
      var h := IdOwner(s, id);
    }
  }

  lemma ListComesBack(s: State, t: Group)
    requires SavesAs(s, t) && Fits(s.core.list.groups)
    ensures var r := Opened(FRESH, Saved(s), IdsFile(t.Head()), false);
      (r.ok <==> Readable(s.core.list.groups)) && (r.ok ==> r.store == s.core.list)
  {
    SavedList(s, t);
    IdsFileIsFree(t, s.core.disk);
    GroupsRoundTrip(s.core.list.groups);
    assert IdsFile(t.Head()) != [];
  }

  /** init reads the id list back and starts the walk from the bare root. */
  lemma InitStarts(s: State, t: Group, walk: seq<Entry>, order: seq<Str>)
    requires SavesAs(s, t) && Fits(s.core.list.groups)
    ensures var r := Init(t.path, Saved(s), walk, order);
      if Readable(s.core.list.groups)
      then r == LoadAll(walk, State(Bare(t), Core(Emplaced(s.core.list.groups, map[]), s.core.list, Saved(s))), order)
      else !r.ok
  {
    assert t.Head() in Headers(t);
    SavedList(s, t);
    ListComesBack(s, t);
    assert Exists(Saved(s), t.path);
  }

  /** Saving, then init: succeeds exactly when every string saved is UTF-8, and then the nodes of the tree
      that was put on the disk are back, and the id list with them. */
  lemma InitLoads(s: State, t: Group, walk: seq<Entry>, order: seq<Str>)
    requires SavesAs(s, t) && Fits(s.core.list.groups) && forall h :: h in Headers(t) ==> Fits(QuestionsAt(h))
    requires IsWalk(t.path, Saved(s), walk) && IdsFound(t, Emplaced(s.core.list.groups, map[]), order)
    ensures var r := Init(t.path, Saved(s), walk, order);
      && (r.ok <==> Readable(s.core.list.groups) && forall h :: h in Headers(t) ==> Readable(QuestionsAt(h)))
      && (r.ok ==>
            && r.s.core == Core(Emplaced(s.core.list.groups, map[]), s.core.list, Saved(s))
            && Unique(ById, r.s.tree) && Unique(ByName, r.s.tree) && Placed(r.s.tree)
            && r.s.tree.Head() == t.Head()
            && Mirrors(t, r.s.tree))
  {
    InitStarts(s, t, walk, order);
    SavedHolds(s, t);
    LoadsTheTree(t, Core(Emplaced(s.core.list.groups, map[]), s.core.list, Saved(s)), walk, order);
  }

  /** At the end of the walk everything is listed. */
  lemma AllShown(tree: Group, d: Disk, walk: seq<Entry>, h: Header)
    requires Laid(tree) && tree.id == [] && Holds(tree, d) && IsWalk(tree.path, d, walk) && h in Headers(tree)
    ensures Shown(h, walk) && Seen(h, walk) == Trimmed(h)
    ensures h != tree.Head() && Kept(h) ==> Entry(StoreFile(h), true) in walk
  {
    PathsAreNames(tree, h);
    if h != tree.Head() {
      assert tree.Head() in Headers(tree);
      PathsDiffer(tree, h, tree.Head());
      StoreFileSplits(h);
      UnderTransitive(tree.path, h.path, StoreFile(h));
      FileIsKept(tree, d, h);
    }
  }

  lemma FileIsKept(tree: Group, d: Disk, h: Header)
    requires Laid(tree) && Holds(tree, d) && h in Headers(tree) && h != tree.Head() && Under(tree.path, StoreFile(h))
    ensures StoreFile(h) in d.files <==> Kept(h)
  {
    if StoreFile(h) in d.files {
      IdsFileSplits(tree.Head());
      StoreFileSplits(h);
      assert KeptAt(Headers(tree), tree.Head(), StoreFile(h));
      var x :| x in Headers(tree) && x != tree.Head() && Kept(x) && StoreFile(x) == StoreFile(h);
      PathsDiffer(tree, x, h);
    }
  }

  lemma ReadableOrNot(tree: Group, d: Disk, walk: seq<Entry>)
    requires Laid(tree) && tree.id == [] && Holds(tree, d) && IsWalk(tree.path, d, walk)
    ensures WalkReadable(tree, walk, |walk|) <==> forall h :: h in Headers(tree) ==> Readable(QuestionsAt(h))
  {
    if WalkReadable(tree, walk, |walk|) {
      forall h | h in Headers(tree)
        ensures Readable(QuestionsAt(h))
      {
        AllShown(tree, d, walk, h);
        if h != tree.Head() && Kept(h) {
          var i :| 0 <= i < |walk| && walk[i] == Entry(StoreFile(h), true);
          assert EntryReadable(tree, walk[i]);
        } else {
          assert FieldsOf(QuestionsAt(h)) == [];
        }
      }
    }
  }

  /** Every node of the reloaded tree is a trimmed node of the saved one, and the other way round. */
  ghost predicate Mirrors(saved: Group, tree: Group) {
    && (forall h :: h in Headers(saved) ==> Trimmed(h) in Headers(tree))
    && (forall x :: x in Headers(tree) ==> IsTrimmed(Headers(saved), x))
  }

  ghost predicate IsTrimmed(hs: set<Header>, x: Header) {
    exists h :: h in hs && x == Trimmed(h)
  }

  /** The whole walk over a disk that holds a tree, in any order: loading succeeds exactly when every
      question of the tree is UTF-8, and then it has built the tree up to the order of siblings. */
  lemma LoadsTheTree(tree: Group, c: Core, walk: seq<Entry>, order: seq<Str>)
    requires Loadable(tree, c, walk, order)
    ensures var r := LoadAll(walk, State(Bare(tree), c), order);
      && (r.ok <==> forall h :: h in Headers(tree) ==> Readable(QuestionsAt(h)))
      && (r.ok ==>
            && r.s.core == c
            && Unique(ById, r.s.tree) && Unique(ByName, r.s.tree) && Placed(r.s.tree)
            && r.s.tree.Head() == tree.Head()
            && Mirrors(tree, r.s.tree))
  {
    LoadsPrefix(tree, walk, |walk|, State(Bare(tree), c), order);
    assert walk[..|walk|] == walk;
    ReadableOrNot(tree, c.disk, walk);
    var r := LoadAll(walk, State(Bare(tree), c), order);
    if r.ok {
      MirrorsAtTheEnd(tree, c.disk, walk, r.s.tree);
    }
  }

  /** init of a fresh object after uninit, whatever orders directory and hash map list in: it succeeds
      exactly when every string saved is UTF-8, and then tree, index and id list are back. */
  lemma InitRestores(s: State, walk: seq<Entry>, order: seq<Str>)
    requires Lists(order, s.core.index)
    requires Settled(s) && AllFit(s) && IsWalk(s.tree.path, Saved(s), walk)
    ensures var r := Init(s.tree.path, Saved(s), walk, order);
      && (r.ok <==> AllReadable(s))
      && (r.ok ==>
            && r.s.core == Core(s.core.index, s.core.list, Saved(s))
            && Unique(ById, r.s.tree) && Unique(ByName, r.s.tree) && Placed(r.s.tree)
            && r.s.tree.Head() == s.tree.Head()
            && Mirrors(s.tree, r.s.tree))
  {
    SettledSaves(s);
    IndexComesBack(s);
    SettledFinds(s, order);
    InitLoads(s, s.tree, walk, order);
  }

  lemma MirrorsAtTheEnd(saved: Group, d: Disk, walk: seq<Entry>, tree: Group)
    requires Laid(saved) && saved.id == [] && Holds(saved, d) && IsWalk(saved.path, d, walk)
    requires Partly(saved, walk, tree)
    ensures Mirrors(saved, tree)
  {
    forall h | h in Headers(saved)
      ensures Trimmed(h) in Headers(tree)
    {
      AllShown(saved, d, walk, h);
    }
    forall x | x in Headers(tree)
      ensures IsTrimmed(Headers(saved), x)
    {
      SavedAsTrimmed(saved, d, walk, x);
    }
  }

  lemma SavedAsTrimmed(saved: Group, d: Disk, walk: seq<Entry>, x: Header)
    requires Laid(saved) && saved.id == [] && Holds(saved, d) && IsWalk(saved.path, d, walk)
    requires FromSaved(Headers(saved), walk, x)
    ensures IsTrimmed(Headers(saved), x)
  {
    var h :| h in Headers(saved) && Shown(h, walk) && x == Seen(h, walk);
    AllShown(saved, d, walk, h);
  }

  // ----- what a restart keeps -----

  lemma MirrorAgreed(saved: Group, tree: Group, index: map<Str, Str>, list: map<Str, Record>)
    requires Mirrors(saved, tree) && Agreed(Headers(saved), index, list) && NamesIn(Headers(saved), index)
    ensures Agreed(Headers(tree), index, list) && NamesIn(Headers(tree), index)
  {
    forall x | x in Headers(tree)
      ensures x.id != [] ==> x.id in index && list[x.id].group == x.name
      ensures x.id in index ==> index[x.id] == x.name
    {
      var h :| h in Headers(saved) && x == Trimmed(h);
    }
    forall id | id in index
      ensures HasId(Headers(tree), id)
    {
      var h :| h in Headers(saved) && h.id == id;
      assert Trimmed(h) in Headers(tree);
    }
  }

  lemma MirrorLaid(saved: Group, tree: Group)
    requires Laid(saved) && Mirrors(saved, tree)
    requires Unique(ById, tree) && Unique(ByName, tree) && Placed(tree) && tree.Head() == saved.Head()
    ensures Laid(tree)
  {
    forall x | x in Headers(tree) && x != tree.Head()
      ensures IdOk(x.id) && StoreOk(x)
    {
      MirrorNode(saved, tree, x);
    }
    MirrorFilesFree(saved, tree);
  }

  lemma MirrorNode(saved: Group, tree: Group, x: Header)
    requires Laid(saved) && Mirrors(saved, tree) && x in Headers(tree) && x != saved.Head()
    ensures IdOk(x.id) && StoreOk(x)
  {
    assert saved.Head() in Headers(saved);
    var h :| h in Headers(saved) && x == Trimmed(h);
    assert h != saved.Head();
  }

  lemma MirrorFilesFree(saved: Group, tree: Group)
    requires Laid(saved) && Mirrors(saved, tree)
    ensures FilesFree(Headers(tree), saved.Head())
  {
    var root := saved.Head();
    forall x | x in Headers(tree)
      ensures x.path != IdsFile(root)
    {
      var y :| y in Headers(saved) && x == Trimmed(y);
    }
    forall x, h | x in Headers(tree) && h in Headers(tree) && h != root
      ensures x.path != StoreFile(h)
    {
      var y :| y in Headers(saved) && x == Trimmed(y);
      var g :| g in Headers(saved) && h == Trimmed(g);
      assert g != root;
    }
  }

  lemma MirrorOnDisk(t: Group, d: Disk, tree: Group)
    requires Laid(t) && Holds(t, d) && Mirrors(t, tree)
    ensures OnDisk(Headers(tree), t.Head(), d)
  {
    forall x | x in Headers(tree)
      ensures x.path in d.dirs
    {
      var h :| h in Headers(t) && x == Trimmed(h);
    }
    forall p | p in d.dirs && Under(t.path, p)
      ensures HasPath(Headers(tree), p)
    {
      var h :| h in Headers(t) && h.path == p;
      assert Trimmed(h) in Headers(tree);
    }
    forall p | p in d.files && Under(t.path, p) && p != IdsFile(t.Head())
      ensures HasStore(Headers(tree), p)
    {
      assert KeptAt(Headers(t), t.Head(), p);
      var h :| h in Headers(t) && h != t.Head() && Kept(h) && StoreFile(h) == p;
      assert Trimmed(h) in Headers(tree) && Trimmed(h) == h;
    }
  }

  lemma TrimmedKeeps(h: Header)
    ensures QuestionsAt(Trimmed(h)) == QuestionsAt(h)
  {
  }

  lemma MirrorContents(saved: Group, tree: Group)
    requires Unique(ById, saved) && Unique(ById, tree) && Mirrors(saved, tree)
    ensures Contents(tree) == Contents(saved)
  {
    forall x | x in Headers(tree) && x.id != []
      ensures x.id in Contents(saved) && Contents(saved)[x.id] == ToMap(QuestionsAt(x))
    {
      var h :| h in Headers(saved) && x == Trimmed(h);
      ContentsOfNode(saved, h);
      TrimmedKeeps(h);
    }
    forall id | id in Contents(saved)
      ensures id != [] && HasId(Headers(tree), id)
    {
      NodeIsHere(saved, id);
      assert Trimmed(Node(ById, saved, id).Head()) in Headers(tree);
    }
    ContentsAre(tree, Contents(saved));
  }

  // ----- the same tree up to the order of siblings -----

  ghost predicate Alike(a: Group, b: Group)
    decreases a, 1
  {
    && b.Head() == Trimmed(a.Head())
    && (forall i :: 0 <= i < |a.kids| ==> HasLike(a.kids[i], b.kids))
    && (forall j :: 0 <= j < |b.kids| ==> IsLike(a.kids, b.kids[j]))
  }

  ghost predicate HasLike(a: Group, bs: seq<Group>)
    decreases a, 2
  {
    exists j :: 0 <= j < |bs| && Alike(a, bs[j])
  }

  ghost predicate IsLike(xs: seq<Group>, b: Group)
    decreases xs, 2
  {
    exists i :: 0 <= i < |xs| && Alike(xs[i], b)
  }

  /** The nodes of a subtree are the nodes at or under its path. */
  lemma KidByPath(g: Group, i: nat, h: Header)
    requires Placed(g) && Unique(ByName, g) && PathsApart(g) && i < |g.kids| && h in Headers(g)
    ensures h in Headers(g.kids[i]) <==> Under(g.kids[i].path, h.path)
  {
    var kid, rest := g.kids[i], g.(kids := g.kids[..i] + g.kids[i + 1..]);
    PlacedAt(g.path, g.kids, i);
    KidsSplit(g.kids, i);
    JoinSplits(g.path, kid.name);
    assert kid.Head() in Headers(kid);
    assert rest.Head() == g.Head();
    if h in Headers(kid) {
      PathsAreNames(kid, h);
    } else {
      assert h in Headers(rest);
      if Under(kid.path, g.path) {
        UnderIsLonger(kid.path, g.path);
      }
      assert kid.Head() !in Headers(rest) by {
        assert kid.Head() in HeadersOf(rest.kids) ==> Key(ByName, kid.Head()) in KeysOf(ByName, rest.kids);
        assert Key(ByName, kid.Head()) in Keys(ByName, kid);
        assert Key(ByName, kid.Head()) in KeysOf(ByName, g.kids);
      }
      NothingUnder(rest, kid.path, h);
    }
  }

  /** A node directly below `g` is one of its subgroups. */
  lemma {:induction false} DirectKid(path: Str, gs: seq<Group>, h: Header) returns (i: nat)
    requires PlacedIn(path, gs) && h in HeadersOf(gs) && ParentPath(h.path) == path
    ensures i < |gs| && gs[i].Head() == h
  {
    if h in Headers(gs[0]) {
      i := 0;
      PathsAreNames(gs[0], h);
      if h != gs[0].Head() {
        UnderIsLonger(gs[0].path, ParentPath(h.path));
      }
    } else {
      i := DirectKid(path, gs[1..], h);
      i := i + 1;
    }
  }

  ghost predicate PathsApart(g: Group) {
    forall x, y :: x in Headers(g) && y in Headers(g) && x.path == y.path ==> x == y
  }

  ghost predicate Comparable(a: Group, b: Group) {
    && Placed(a) && Placed(b) && Unique(ByName, a) && Unique(ByName, b)
    && PathsApart(a) && PathsApart(b)
    && Mirrors(a, b) && b.Head() == Trimmed(a.Head())
  }

  lemma KidsComparable(a: Group, b: Group, i: nat, j: nat)
    requires Comparable(a, b) && i < |a.kids| && j < |b.kids| && b.kids[j].Head() == Trimmed(a.kids[i].Head())
    ensures Comparable(a.kids[i], b.kids[j])
  {
    var ka, kb := a.kids[i], b.kids[j];
    PlacedAt(a.path, a.kids, i);
    PlacedAt(b.path, b.kids, j);
    KidsSplit(a.kids, i);
    KidsSplit(b.kids, j);
    assert Headers(ka) <= Headers(a) && Headers(kb) <= Headers(b);
    forall h | h in Headers(ka)
      ensures Trimmed(h) in Headers(kb)
    {
      KidByPath(a, i, h);
      KidByPath(b, j, Trimmed(h));
    }
    forall x | x in Headers(kb)
      ensures IsTrimmed(Headers(ka), x)
    {
      var h :| h in Headers(a) && x == Trimmed(h);
      KidByPath(b, j, x);
      KidByPath(a, i, h);
    }
  }

  lemma KidMatches(a: Group, b: Group, i: nat) returns (j: nat)
    requires Comparable(a, b) && i < |a.kids|
    ensures j < |b.kids| && b.kids[j].Head() == Trimmed(a.kids[i].Head())
  {
    var h := a.kids[i].Head();
    HeadBelow(a, i);
    assert Trimmed(h) in Headers(b);
    j := DirectKid(b.path, b.kids, Trimmed(h));
  }

  lemma HeadBelow(g: Group, i: nat)
    requires Placed(g) && i < |g.kids|
    ensures g.kids[i].Head() in Headers(g) && ParentPath(g.kids[i].path) == g.path && g.kids[i].path != g.path
  {
    PlacedAt(g.path, g.kids, i);
    JoinSplits(g.path, g.kids[i].name);
    KidsSplit(g.kids, i);
    assert g.kids[i].Head() in Headers(g.kids[i]);
  }

  lemma KidIsMatched(a: Group, b: Group, j: nat) returns (i: nat)
    requires Comparable(a, b) && j < |b.kids|
    ensures i < |a.kids| && b.kids[j].Head() == Trimmed(a.kids[i].Head())
  {
    HeadBelow(b, j);
    var h :| h in Headers(a) && b.kids[j].Head() == Trimmed(h);
    i := DirectKid(a.path, a.kids, h);
  }

  lemma {:induction false} MirrorsAreAlike(a: Group, b: Group)
    requires Comparable(a, b)
    ensures Alike(a, b)
    decreases a
  {
    forall i | 0 <= i < |a.kids|
      ensures HasLike(a.kids[i], b.kids)
    {
      var j := KidMatches(a, b, i);
      KidsComparable(a, b, i, j);
      MirrorsAreAlike(a.kids[i], b.kids[j]);
    }
    forall j | 0 <= j < |b.kids|
      ensures IsLike(a.kids, b.kids[j])
    {
      var i := KidIsMatched(a, b, j);
      KidsComparable(a, b, i, j);
      MirrorsAreAlike(a.kids[i], b.kids[j]);
    }
  }

  // ----- the restart -----

  /** Save, then reload: for every settled bank and every order in which the directory may list, the
      fresh object comes up exactly when all strings saved are UTF-8, and then it holds the same
      tree up to the order of siblings, the same index and id list, the same map from groups to
      questions, and is settled again. */
  lemma RestartKeepsTheBank(s: State, walk: seq<Entry>, order: seq<Str>)
    requires Lists(order, s.core.index)
    requires Settled(s) && AllFit(s) && IsWalk(s.tree.path, Saved(s), walk)
    ensures var r := Init(s.tree.path, Saved(s), walk, order);
      && (r.ok <==> AllReadable(s))
      && (r.ok ==>
            && Settled(r.s)
            && Alike(s.tree, r.s.tree)
            && Contents(r.s.tree) == Contents(s.tree)
            && r.s.core.index == s.core.index && r.s.core.list == s.core.list)
  {
    InitRestores(s, walk, order);
    var r := Init(s.tree.path, Saved(s), walk, order);
    if r.ok {
      RestoredIsSettled(s, r.s);
    }
  }

  lemma RestoredIsSettled(s: State, t: State)
    requires Settled(s) && AllFit(s) && Mirrors(s.tree, t.tree)
    requires Unique(ById, t.tree) && Unique(ByName, t.tree) && Placed(t.tree) && t.tree.Head() == s.tree.Head()
    requires t.core == Core(s.core.index, s.core.list, Saved(s))
    ensures Settled(t) && Alike(s.tree, t.tree) && Contents(t.tree) == Contents(s.tree)
  {
    SettledSaves(s);
    SavedHolds(s, s.tree);
    SameAgreement(s, t.core);
    LoadedSettles(s.tree, t);
  }

  lemma SameAgreement(s: State, c: Core)
    requires Settled(s) && c.index == s.core.index && c.list == s.core.list
    ensures Agree(State(s.tree, c)) && NamesAgree(State(s.tree, c)) && ListLaid(c, s.tree.Head())
  {
  }

  /** What was loaded from a disk that holds `t`, with index and list that agree with `t`, is settled. */
  lemma LoadedSettles(t: Group, r: State)
    requires Laid(t) && Holds(t, r.core.disk) && Mirrors(t, r.tree)
    requires Unique(ById, r.tree) && Unique(ByName, r.tree) && Placed(r.tree) && r.tree.Head() == t.Head()
    requires Agree(State(t, r.core)) && NamesAgree(State(t, r.core)) && ListLaid(r.core, t.Head())
    ensures Settled(r) && Alike(t, r.tree) && Contents(r.tree) == Contents(t)
  {
    MirrorLaid(t, r.tree);
    SettledAgain(t, r);
    MirrorContents(t, r.tree);
    LaidAlike(t, r.tree);
  }

  lemma SettledAgain(t: Group, r: State)
    requires Laid(t) && Holds(t, r.core.disk) && Mirrors(t, r.tree) && Laid(r.tree) && r.tree.Head() == t.Head()
    requires Agree(State(t, r.core)) && NamesAgree(State(t, r.core)) && ListLaid(r.core, t.Head())
    ensures Settled(r)
  {
    MirrorAgreed(t, r.tree, r.core.index, ListMap(r.core));
    MirrorOnDisk(t, r.core.disk, r.tree);
  }

  lemma LaidAlike(saved: Group, tree: Group)
    requires Laid(saved) && Laid(tree) && Mirrors(saved, tree) && tree.Head() == saved.Head()
    ensures Alike(saved, tree)
  {
    LaidApart(saved);
    LaidApart(tree);
    MirrorsAreAlike(saved, tree);
  }

  lemma LaidApart(tree: Group)
    requires Laid(tree)
    ensures PathsApart(tree)
  {
    forall x, y | x in Headers(tree) && y in Headers(tree) && x.path == y.path
      ensures x == y
    {
      PathsDiffer(tree, x, y);
    }
  }

  // ----- the first start -----

  /** A bank opened on a directory that is empty, or not there yet and could be made, is settled and
      empty, whatever else is on the disk. */
  lemma FirstStart(path: Str, d: Disk, order: seq<Str>)
    requires FileName(path) != [] && path !in d.files
    requires forall p :: Under(path, p) && Exists(d, p) ==> p == path
    ensures var r := Init(path, d, [], order);
      && r.ok && Settled(r.s) && Contents(r.s.tree) == map[]
      && IsWalk(path, r.s.core.disk, [])
  {
    var root := Group(FileName(path), [], path, [], []);
    var s := Init(path, d, [], order).s;
    IdsFileSplits(root.Head());
    assert !Exists(d, IdsFile(root.Head())) by {
      assert IdsFile(root.Head()) != path;
    }
    assert s == State(root, Core(map[], FRESH.(path := IdsFile(root.Head())), s.core.disk));
    NewBankSettles(s);
  }

  /** A bank of the root alone. */
  lemma NewBankSettles(s: State)
    requires s.tree.id == [] && s.tree.stores == [] && s.tree.kids == []
    requires s.tree.name == FileName(s.tree.path) != []
    requires s.core.index == map[] && s.core.list == FRESH.(path := IdsFile(s.tree.Head()))
    requires s.tree.path in s.core.disk.dirs
    requires forall p :: Under(s.tree.path, p) && Exists(s.core.disk, p) ==> p == s.tree.path
    requires s.tree.path !in s.core.disk.files
    ensures Settled(s) && Contents(s.tree) == map[]
  {
    var root := s.tree.Head();
    assert KeysOf(ById, []) == {} && KeysOf(ByName, []) == {};
    assert Headers(s.tree) == {root};
    assert IdsFile(root) != root.path;
    assert Agree(s) by {
      assert ListMap(s.core) == map[];
    }
    assert OnDisk(Headers(s.tree), root, s.core.disk) by {
      assert root in Headers(s.tree);
    }
    ContentsAre(s.tree, map[]);
  }
}
