/** Rebuilding a tree from a preorder listing of it: the inverse of flattening, sibling order included.
    A group's own entry hangs a bare group under its parent, what is listed below it fills that group in,
    and its own file, wherever it comes in between, gives it back its store; no other node is changed. */
module Rebuild {
  import opened Bytes
  import opened Records
  import opened Stores
  import opened Groups
  import opened Bank
  import opened Layout
  import opened Reload

  // ----- preorder listings -----

  function OwnFile(g: Group): seq<Entry> {
    if g.stores == [] then [] else [Entry(StoreFile(g.Head()), true)]
  }

  lemma SizeSplit(gs: seq<Group>, i: nat)
    requires i <= |gs|
    ensures SizeOf(gs[..i]) <= SizeOf(gs) && SizeOf(gs[i..]) <= SizeOf(gs)
  {
    SizeConcat(gs[..i], gs[i..]);
    assert gs == gs[..i] + gs[i..];
  }

  /** `w` lists what is below `g`: each subgroup's entry, then what is below it, in order, with the
      group's own file anywhere between them. */
  ghost predicate Preorder(g: Group, w: seq<Entry>)
    decreases Size(g), 1
  {
    exists i: nat, w1, w2 :: i <= |g.kids| && w == w1 + OwnFile(g) + w2 &&
      (SizeSplit(g.kids, i); PreorderAll(g.kids[..i], w1) && PreorderAll(g.kids[i..], w2))
  }

  ghost predicate PreorderAll(gs: seq<Group>, w: seq<Entry>)
    decreases SizeOf(gs), 2
  {
    if gs == [] then w == []
    else exists w1, w2 :: w == [Entry(gs[0].path, false)] + w1 + w2 && Preorder(gs[0], w1) && PreorderAll(gs[1..], w2)
  }

  /** Flattening: the listing that puts each group's own file first. */
  function Listing(g: Group): seq<Entry>
    decreases g, 1
  {
    OwnFile(g) + ListingAll(g.kids)
  }

  function ListingAll(gs: seq<Group>): seq<Entry>
    decreases gs, 0
  {
    if gs == [] then [] else [Entry(gs[0].path, false)] + Listing(gs[0]) + ListingAll(gs[1..])
  }

  lemma {:induction false} ListingIsPreorder(g: Group)
    ensures Preorder(g, Listing(g))
    decreases g, 1
  {
    ListingAllIsPreorder(g.kids);
    assert g.kids[..0] == [] && g.kids[0..] == g.kids;
    assert Listing(g) == [] + OwnFile(g) + ListingAll(g.kids);
    assert PreorderAll(g.kids[..0], []) && PreorderAll(g.kids[0..], ListingAll(g.kids));
  }

  lemma {:induction false} ListingAllIsPreorder(gs: seq<Group>)
    ensures PreorderAll(gs, ListingAll(gs))
    decreases gs, 0
  {
    if gs != [] {
      ListingIsPreorder(gs[0]);
      ListingAllIsPreorder(gs[1..]);
    }
  }

  // ----- replacing inside what was replaced -----

  /** A key that only occurs in what was just put in is replaced in there. */
  lemma {:induction false} PutInner(k: Kind, g: Group, key: Str, a: Group, inner: Str, b: Group)
    requires key in Keys(k, g) && Key(k, a.Head()) == key
    requires inner !in Keys(k, g) && inner in Keys(k, a)
    ensures inner in Keys(k, Put(k, g, key, a)) && Node(k, Put(k, g, key, a), inner) == Node(k, a, inner)
    ensures Put(k, Put(k, g, key, a), inner, b) == Put(k, g, key, Put(k, a, inner, b))
    decreases g, 1
  {
    if Key(k, g.Head()) != key {
      PutInnerIn(k, g.kids, key, a, inner, b);
      var g' := Put(k, g, key, a);
      assert g'.Head() == g.Head() && g.Head() in Headers(g);
      assert KeysOf(k, g'.kids) <= Keys(k, g');
    }
  }

  lemma {:induction false} PutInnerIn(k: Kind, gs: seq<Group>, key: Str, a: Group, inner: Str, b: Group)
    requires key in KeysOf(k, gs) && Key(k, a.Head()) == key
    requires inner !in KeysOf(k, gs) && inner in Keys(k, a)
    ensures inner in KeysOf(k, PutIn(k, gs, key, a)) && NodeIn(k, PutIn(k, gs, key, a), inner) == Node(k, a, inner)
    ensures PutIn(k, PutIn(k, gs, key, a), inner, b) == PutIn(k, gs, key, Put(k, a, inner, b))
    decreases gs, 0
  {
    var gs' := PutIn(k, gs, key, a);
    assert KeysOf(k, gs) == Keys(k, gs[0]) + KeysOf(k, gs[1..]);
    if key in Keys(k, gs[0]) {
      PutInner(k, gs[0], key, a, inner, b);
      assert gs'[1..] == gs[1..];
    } else {
      PutInnerIn(k, gs[1..], key, a, inner, b);
      assert gs'[1..] == PutIn(k, gs[1..], key, a);
    }
    assert HeadersOf(gs') == Headers(gs'[0]) + HeadersOf(gs'[1..]);
  }

  /** The last subgroup is found behind others without its key. */
  lemma {:induction false} PutLast(k: Kind, gs: seq<Group>, x: Group, y: Group)
    requires Key(k, x.Head()) !in KeysOf(k, gs)
    ensures var key := Key(k, x.Head());
      && key in KeysOf(k, gs + [x]) && NodeIn(k, gs + [x], key) == x
      && PutIn(k, gs + [x], key, y) == gs + [y]
  {
    var key := Key(k, x.Head());
    assert x.Head() in Headers(x);
    if gs == [] {
      assert gs + [x] == [x] && gs + [y] == [y];
      assert HeadersOf([x]) == Headers(x) + {};
    } else {
      var all := gs + [x];
      assert all[1..] == gs[1..] + [x];
      assert KeysOf(k, gs) == Keys(k, gs[0]) + KeysOf(k, gs[1..]);
      PutLast(k, gs[1..], x, y);
      assert HeadersOf(all) == Headers(all[0]) + HeadersOf(all[1..]);
      assert [gs[0]] + (gs[1..] + [y]) == gs + [y];
    }
  }

  // ----- loading in pieces -----

  lemma {:induction false} LoadConcat(a: seq<Entry>, b: seq<Entry>, s: State, order: seq<Str>)
    ensures var first := LoadAll(a, s, order);
      LoadAll(a + b, s, order) == if first.ok then LoadAll(b, first.s, order) else first
    decreases |b|
  {
    if b == [] {
      assert a + b == a;
    } else {
      var short := b[..|b| - 1];
      assert (a + b)[..|a + b| - 1] == a + short;
      LoadConcat(a, short, s, order);
    }
  }

  // ----- rebuilding -----

  /** What saving leaves of a node: its id under its name in the index, where no name occurs twice,
      and its store's encoding in its file. */
  ghost predicate Recorded(h: Header, c: Core) {
    && ValidName(h.name) && NoSep(h.id)
    && NamesApart(c.index) && h.id in c.index && c.index[h.id] == h.name
    && (h.stores == [] || (h.id != IDS && |h.stores| == 1 && Filed(h.stores[0], StoreFile(h), c.disk)))
  }

  ghost predicate Filed(st: Store, path: Str, d: Disk) {
    && st.path == path && st.groups == [] && Fits(st.questions) && Readable(st.questions)
    && path in d.files && d.files[path] == Encode(st.questions)
  }

  lemma RecordedComesBack(h: Header, c: Core, order: seq<Str>)
    requires Lists(order, c.index)
    requires Recorded(h, c)
    ensures IdOf(c.index, h.name, order) == h.id
    ensures h.stores != [] ==> Opened(FRESH, c.disk, StoreFile(h), true) == Result(true, h.stores[0])
  {
    assert h.name in c.index.Values;
    if h.stores != [] {
      FileReopens(h.stores[0], c.disk);
    }
  }

  ghost predicate AllRecorded(gs: seq<Group>, c: Core) {
    forall h :: h in HeadersOf(gs) ==> Recorded(h, c)
  }

  /** Subgroups listed under the node `key` end up behind those it already has. */
  ghost predicate Gained(s: State, r: Loading, key: Str, gs: seq<Group>)
    requires key in Keys(ByName, s.tree)
  {
    var n := Node(ByName, s.tree, key);
    r.ok && r.s == State(Put(ByName, s.tree, key, n.(kids := n.kids + gs)), s.core)
  }

  /** A subgroup's own entry hangs a bare group under the parent. */
  lemma AddsBare(s: State, key: Str, g: Group, order: seq<Str>)
    requires Lists(order, s.core.index)
    requires Unique(ByName, s.tree) && key in Keys(ByName, s.tree)
    requires Recorded(g.Head(), s.core)
    requires g.path == Join(Node(ByName, s.tree, key).path, g.name) && FileName(Node(ByName, s.tree, key).path) == key
    ensures Gained(s, LoadEntry(Entry(g.path, false), s, order), key, [Bare(g)])
  {
    JoinSplits(Node(ByName, s.tree, key).path, g.name);
    RecordedComesBack(g.Head(), s.core, order);
    VisitDir(Entry(g.path, false), s, key, Bare(g), order);
  }

  /** A group's file fills the node of its name. */
  lemma AddsStore(s: State, g: Group, order: seq<Str>)
    requires Lists(order, s.core.index)
    requires Unique(ByName, s.tree) && g.name in Keys(ByName, s.tree)
    requires Recorded(g.Head(), s.core) && FileName(g.path) == g.name
    requires Node(ByName, s.tree, g.name).stores == []
    ensures var n := Node(ByName, s.tree, g.name);
      LoadAll(OwnFile(g), s, order) == Loading(true, State(Put(ByName, s.tree, g.name, n.(stores := g.stores)), s.core))
  {
    var n := Node(ByName, s.tree, g.name);
    var e := Entry(StoreFile(g.Head()), true);
    if g.stores == [] {
      assert n.(stores := []) == n;
      PutSame(ByName, s.tree, g.name);
    } else {
      StoreFileSplits(g.Head());
      RecordedComesBack(g.Head(), s.core, order);
      VisitFile(e, s, g.name, order);
      assert OwnFile(g)[..0] == [];
      assert LoadAll([], s, order) == Loading(true, s);
      assert [] + [g.stores[0]] == g.stores;
    }
  }

  lemma GrownNode(n: Group, stores: seq<Store>, gs: seq<Group>)
    requires Unique(ByName, n) && UniqueAll(ByName, gs) && KeysOf(ByName, gs) !! Keys(ByName, n)
    ensures var grown := n.(stores := stores, kids := n.kids + gs);
      && Unique(ByName, grown) && Keys(ByName, grown) == Keys(ByName, n) + KeysOf(ByName, gs)
      && grown.Head() == n.Head().(stores := stores)
  {
    var grown := n.(stores := stores, kids := n.kids + gs);
    UniqueConcat(ByName, n.kids, gs);
    KeysConcat(ByName, n.kids, gs);
    KeysOfNode(ByName, n);
    KeysOfNode(ByName, grown);
  }

  /** A node gaining subgroups of new names keeps names unique. */
  lemma GrownTree(tree: Group, key: Str, stores: seq<Store>, gs: seq<Group>)
    requires Unique(ByName, tree) && key in Keys(ByName, tree)
    requires UniqueAll(ByName, gs) && KeysOf(ByName, gs) !! Keys(ByName, tree)
    ensures var n := Node(ByName, tree, key); var grown := n.(stores := stores, kids := n.kids + gs);
      var tree' := Put(ByName, tree, key, grown);
      && Unique(ByName, tree') && Keys(ByName, tree') == Keys(ByName, tree) + KeysOf(ByName, gs)
      && key in Keys(ByName, tree') && Node(ByName, tree', key) == grown
  {
    var n := Node(ByName, tree, key);
    var grown := n.(stores := stores, kids := n.kids + gs);
    NodeUnique(ByName, ByName, tree, key);
    PutHeaders(ByName, tree, key, grown);
    assert Keys(ByName, n) <= Keys(ByName, tree);
    GrownNode(n, stores, gs);
    PutUnique(ByName, ByName, tree, key, grown);
    PutTwice(ByName, tree, key, grown, grown);
    GrownKeys(tree, n, grown, Put(ByName, tree, key, grown), gs);
  }

  lemma GrownKeys(tree: Group, n: Group, grown: Group, tree': Group, gs: seq<Group>)
    requires Headers(n) <= Headers(tree) && Headers(tree') == (Headers(tree) - Headers(n)) + Headers(grown)
    requires Keys(ByName, grown) == Keys(ByName, n) + KeysOf(ByName, gs)
    ensures Keys(ByName, tree') == Keys(ByName, tree) + KeysOf(ByName, gs)
  {
    forall key
      ensures key in Keys(ByName, tree') <==> key in Keys(ByName, tree) || key in KeysOf(ByName, gs)
    {
      if key in Keys(ByName, tree) {
        var h :| h in Headers(tree) && Key(ByName, h) == key;
        assert h in Headers(n) ==> key in Keys(ByName, n);
        assert h !in Headers(n) ==> h in Headers(tree');
      }
      if key in Keys(ByName, grown) {
        var h :| h in Headers(grown) && Key(ByName, h) == key;
        assert h in Headers(tree');
      }
    }
  }

  /** Subgroups listed in two parts. */
  lemma GainedTwice(s: State, key: Str, a: seq<Group>, mid: Loading, b: seq<Group>, r: Loading)
    requires Unique(ByName, s.tree) && key in Keys(ByName, s.tree)
    requires Gained(s, mid, key, a)
    requires key in Keys(ByName, mid.s.tree) && Gained(mid.s, r, key, b)
    ensures Gained(s, r, key, a + b)
  {
    var n := Node(ByName, s.tree, key);
    var n1 := n.(kids := n.kids + a);
    PutTwice(ByName, s.tree, key, n1, n1.(kids := n1.kids + b));
    assert n1.kids + b == n.kids + (a + b);
  }

  /** The bare group just hung under `key` is replaced by the full one. */
  lemma FilledKid(s: State, key: Str, g: Group, s': State)
    requires Unique(ByName, s.tree) && key in Keys(ByName, s.tree) && g.name !in Keys(ByName, s.tree)
    requires Gained(s, Loading(true, s'), key, [Bare(g)])
    ensures g.name in Keys(ByName, s'.tree) && Node(ByName, s'.tree, g.name) == Bare(g)
    ensures Gained(s, Loading(true, State(Put(ByName, s'.tree, g.name, g), s.core)), key, [g])
  {
    var n := Node(ByName, s.tree, key);
    var n1 := n.(kids := n.kids + [Bare(g)]);
    PutHeaders(ByName, s.tree, key, n);
    assert KeysOf(ByName, n.kids) <= Keys(ByName, n) <= Keys(ByName, s.tree);
    PutLast(ByName, n.kids, Bare(g), g);
    assert n.Head() in Headers(n) && n1.Head() == n.Head();
    assert KeysOf(ByName, n1.kids) <= Keys(ByName, n1);
    PutInner(ByName, s.tree, key, n1, g.name, g);
  }

  /** What listing the first subgroup's own entry leaves to do. */
  lemma FirstHung(s: State, key: Str, gs: seq<Group>, order: seq<Str>) returns (s1: State)
    requires Lists(order, s.core.index)
    requires Unique(ByName, s.tree) && key in Keys(ByName, s.tree) && FileName(Node(ByName, s.tree, key).path) == key
    requires gs != [] && UniqueAll(ByName, gs) && KeysOf(ByName, gs) !! Keys(ByName, s.tree)
    requires PlacedIn(Node(ByName, s.tree, key).path, gs) && AllRecorded(gs, s.core)
    ensures LoadEntry(Entry(gs[0].path, false), s, order) == Loading(true, s1) && s1.core == s.core
    ensures var g := gs[0];
      && Unique(ByName, s1.tree) && g.name in Keys(ByName, s1.tree) && Node(ByName, s1.tree, g.name) == Bare(g)
      && UniqueAll(ByName, g.kids) && KeysOf(ByName, g.kids) !! Keys(ByName, s1.tree)
      && Placed(g) && FileName(g.path) == g.name && Recorded(g.Head(), s.core) && AllRecorded(g.kids, s.core)
      && Gained(s, Loading(true, State(Put(ByName, s1.tree, g.name, g), s.core)), key, [g])
  {
    var g, n := gs[0], Node(ByName, s.tree, key);
    assert g.Head() in Headers(g) && Headers(g) <= HeadersOf(gs);
    AddsBare(s, key, g, order);
    s1 := LoadEntry(Entry(g.path, false), s, order).s;
    KidKeys(s, key, gs);
    GrownTree(s.tree, key, n.stores, [Bare(g)]);
    FilledKid(s, key, g, s1);
    JoinSplits(n.path, g.name);
  }

  /** What is left to do when the first subgroup is complete. */
  lemma FirstDone(s: State, key: Str, gs: seq<Group>, s2: State)
    requires Unique(ByName, s.tree) && key in Keys(ByName, s.tree)
    requires gs != [] && UniqueAll(ByName, gs) && KeysOf(ByName, gs) !! Keys(ByName, s.tree)
    requires Gained(s, Loading(true, s2), key, [gs[0]])
    ensures Unique(ByName, s2.tree) && key in Keys(ByName, s2.tree) && s2.core == s.core
    ensures Node(ByName, s2.tree, key).path == Node(ByName, s.tree, key).path
    ensures UniqueAll(ByName, gs[1..]) && KeysOf(ByName, gs[1..]) !! Keys(ByName, s2.tree)
  {
    KidKeys(s, key, gs);
    GrownTree(s.tree, key, Node(ByName, s.tree, key).stores, [gs[0]]);
  }

  /** Listing subgroups, each followed by what is below it, rebuilds them in their order. */
  lemma {:induction false} LoadsKids(s: State, key: Str, gs: seq<Group>, w: seq<Entry>, order: seq<Str>)
    requires Lists(order, s.core.index)
    requires Unique(ByName, s.tree) && key in Keys(ByName, s.tree) && FileName(Node(ByName, s.tree, key).path) == key
    requires UniqueAll(ByName, gs) && KeysOf(ByName, gs) !! Keys(ByName, s.tree)
    requires PlacedIn(Node(ByName, s.tree, key).path, gs) && AllRecorded(gs, s.core) && PreorderAll(gs, w)
    ensures Gained(s, LoadAll(w, s, order), key, gs)
    decreases SizeOf(gs), 2
  {
    if gs == [] {
      assert Node(ByName, s.tree, key).kids + [] == Node(ByName, s.tree, key).kids;
      PutSame(ByName, s.tree, key);
      return;
    }
    var w1, w2 :| w == [Entry(gs[0].path, false)] + w1 + w2 && Preorder(gs[0], w1) && PreorderAll(gs[1..], w2);
    var s1 := FirstHung(s, key, gs, order);
    LoadsGroup(s1, gs[0], w1, order);
    var s2 := LoadAll(w1, s1, order).s;
    FirstDone(s, key, gs, s2);
    LoadsKids(s2, key, gs[1..], w2, order);
    GainedTwice(s, key, [gs[0]], Loading(true, s2), gs[1..], LoadAll(w2, s2, order));
    LoadThree(Entry(gs[0].path, false), w1, w2, s, order);
    HeadAndRest(gs);
  }

  lemma HeadAndRest(gs: seq<Group>)
    requires gs != []
    ensures [gs[0]] + gs[1..] == gs
  {
  }

  lemma KidKeys(s: State, key: Str, gs: seq<Group>)
    requires gs != [] && UniqueAll(ByName, gs) && KeysOf(ByName, gs) !! Keys(ByName, s.tree)
    ensures UniqueAll(ByName, [Bare(gs[0])]) && UniqueAll(ByName, [gs[0]])
    ensures KeysOf(ByName, [Bare(gs[0])]) == {gs[0].name} && gs[0].name !in Keys(ByName, s.tree)
    ensures KeysOf(ByName, [gs[0]]) == Keys(ByName, gs[0])
    ensures Keys(ByName, gs[0]) <= KeysOf(ByName, gs) && KeysOf(ByName, gs[1..]) <= KeysOf(ByName, gs)
    ensures Keys(ByName, gs[0]) !! KeysOf(ByName, gs[1..]) && UniqueAll(ByName, gs[1..])
    ensures gs[0].name !in KeysOf(ByName, gs[0].kids) && KeysOf(ByName, gs[0].kids) <= Keys(ByName, gs[0])
  {
    var g, b := gs[0], Bare(gs[0]);
    assert b.Head() == g.Head().(stores := []);
    assert HeadersOf([b]) == {b.Head()} by { assert [b][1..] == []; }
    assert HeadersOf([g]) == Headers(g) by { assert [g][1..] == []; }
    assert KeysOf(ByName, []) == {};
    assert g.Head() in Headers(g) && Key(ByName, g.Head()) in Keys(ByName, g);
    assert Unique(ByName, b);
  }

  lemma LoadThree(e: Entry, w1: seq<Entry>, w2: seq<Entry>, s: State, order: seq<Str>)
    requires LoadEntry(e, s, order).ok && LoadAll(w1, LoadEntry(e, s, order).s, order).ok
    ensures LoadAll([e] + w1 + w2, s, order) == LoadAll(w2, LoadAll(w1, LoadEntry(e, s, order).s, order).s, order)
  {
    LoadConcat([e] + w1, w2, s, order);
    LoadConcat([e], w1, s, order);
    LoadOne(e, s, order);
  }

  lemma LoadOne(e: Entry, s: State, order: seq<Str>)
    ensures LoadAll([e], s, order) == LoadEntry(e, s, order)
  {
    assert [e][..0] == [];
    assert LoadAll([], s, order) == Loading(true, s);
  }

  lemma {:induction false} PlacedSplit(path: Str, a: seq<Group>, b: seq<Group>)
    requires PlacedIn(path, a + b)
    ensures PlacedIn(path, a) && PlacedIn(path, b)
  {
    if a == [] {
      assert a + b == b;
    } else {
      assert (a + b)[1..] == a[1..] + b;
      PlacedSplit(path, a[1..], b);
    }
  }

  lemma KidsInTwo(s: State, g: Group, i: nat)
    requires i <= |g.kids| && UniqueAll(ByName, g.kids) && PlacedIn(g.path, g.kids) && AllRecorded(g.kids, s.core)
    ensures var a, b := g.kids[..i], g.kids[i..];
      && a + b == g.kids
      && UniqueAll(ByName, a) && UniqueAll(ByName, b) && KeysOf(ByName, a) !! KeysOf(ByName, b)
      && KeysOf(ByName, a) <= KeysOf(ByName, g.kids) && KeysOf(ByName, b) <= KeysOf(ByName, g.kids)
      && PlacedIn(g.path, a) && PlacedIn(g.path, b)
      && AllRecorded(a, s.core) && AllRecorded(b, s.core)
  {
    var a, b := g.kids[..i], g.kids[i..];
    assert a + b == g.kids;
    UniqueConcat(ByName, a, b);
    HeadersConcat(a, b);
    PlacedSplit(g.path, a, b);
  }

  lemma {:induction false} LoadsGroup(s: State, g: Group, w: seq<Entry>, order: seq<Str>)
    requires Lists(order, s.core.index)
    requires Unique(ByName, s.tree) && g.name in Keys(ByName, s.tree) && Node(ByName, s.tree, g.name) == Bare(g)
    requires UniqueAll(ByName, g.kids) && KeysOf(ByName, g.kids) !! Keys(ByName, s.tree)
    requires Placed(g) && FileName(g.path) == g.name && Recorded(g.Head(), s.core) && AllRecorded(g.kids, s.core)
    requires Preorder(g, w)
    ensures LoadAll(w, s, order) == Loading(true, State(Put(ByName, s.tree, g.name, g), s.core))
    decreases Size(g), 1
  {
    var i: nat, w1, w2 :| i <= |g.kids| && w == w1 + OwnFile(g) + w2 &&
      PreorderAll(g.kids[..i], w1) && PreorderAll(g.kids[i..], w2);
    var a, b := g.kids[..i], g.kids[i..];
    SizeSplit(g.kids, i);
    KidsInTwo(s, g, i);
    LoadsKids(s, g.name, a, w1, order);
    var s1 := LoadAll(w1, s, order).s;
    GrownTree(s.tree, g.name, [], a);
    AddsStore(s1, g, order);
    var half := g.(kids := a);
    var s2 := LoadAll(OwnFile(g), s1, order).s;
    PutTwice(ByName, s.tree, g.name, Bare(g).(kids := a), half);
    assert Bare(g).kids + a == a;
    GrownTree(s.tree, g.name, g.stores, a);
    PutTwice(ByName, s.tree, g.name, half, g);
    LoadsKids(s2, g.name, b, w2, order);
    assert half.kids + b == g.kids;
    LoadConcat(w1 + OwnFile(g), w2, s, order);
    LoadConcat(w1, OwnFile(g), s, order);
  }

  /** Folding the entries of any preorder listing of a tree of distinct names, from the bare root,
      gives back exactly that tree, sibling order, ids and stores included. */
  lemma RebuildInvertsListing(g: Group, c: Core, w: seq<Entry>, order: seq<Str>)
    requires Lists(order, c.index)
    requires Unique(ByName, g) && Placed(g) && FileName(g.path) == g.name
    requires g.stores == [] && AllRecorded(g.kids, c) && Preorder(g, w)
    ensures LoadAll(w, State(Bare(g), c), order) == Loading(true, State(g, c))
  {
    var i: nat, w1, w2 :| i <= |g.kids| && w == w1 + OwnFile(g) + w2 &&
      PreorderAll(g.kids[..i], w1) && PreorderAll(g.kids[i..], w2);
    LoadsFirst(g, c, i, w1, order);
    LoadsSecond(g, c, i, w2, order);
    LoadConcat(w1, w2, State(Bare(g), c), order);
    NoOwnFile(g, w1);
  }

  lemma NoOwnFile(g: Group, w: seq<Entry>)
    requires g.stores == []
    ensures w + OwnFile(g) == w
  {
  }

  lemma LoadsFirst(g: Group, c: Core, i: nat, w: seq<Entry>, order: seq<Str>)
    requires Lists(order, c.index)
    requires Unique(ByName, g) && Placed(g) && FileName(g.path) == g.name
    requires AllRecorded(g.kids, c) && i <= |g.kids| && PreorderAll(g.kids[..i], w)
    ensures LoadAll(w, State(Bare(g), c), order) == Loading(true, State(Bare(g).(kids := g.kids[..i]), c))
  {
    var s := State(Bare(g), c);
    BareAlone(g);
    KidsInTwo(s, g, i);
    LoadsKids(s, g.name, g.kids[..i], w, order);
    EmptyBefore(g.kids[..i]);
  }

  lemma LoadsSecond(g: Group, c: Core, i: nat, w: seq<Entry>, order: seq<Str>)
    requires Lists(order, c.index)
    requires Unique(ByName, g) && Placed(g) && FileName(g.path) == g.name
    requires g.stores == [] && AllRecorded(g.kids, c) && i <= |g.kids| && PreorderAll(g.kids[i..], w)
    ensures LoadAll(w, State(Bare(g).(kids := g.kids[..i]), c), order) == Loading(true, State(g, c))
  {
    var half := Bare(g).(kids := g.kids[..i]);
    BareAlone(g);
    KidsInTwo(State(Bare(g), c), g, i);
    GrownTree(Bare(g), g.name, [], g.kids[..i]);
    EmptyBefore(g.kids[..i]);
    LoadsKids(State(half, c), g.name, g.kids[i..], w, order);
    assert half.kids + g.kids[i..] == g.kids;
  }

  lemma BareAlone(g: Group)
    requires Unique(ByName, g)
    ensures var bare := Bare(g);
      && Unique(ByName, bare) && Keys(ByName, bare) == {g.name} && Node(ByName, bare, g.name) == bare
      && KeysOf(ByName, g.kids) !! {g.name}
  {
    KeysOfNode(ByName, Bare(g));
    assert KeysOf(ByName, []) == {};
    assert g.Head().name == g.name;
  }

  lemma EmptyBefore(gs: seq<Group>)
    ensures [] + gs == gs
  {
  }
}
