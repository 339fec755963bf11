/** A walk over every saved bank: the flattening of its tree, so that init with it gives the tree back
    sibling by sibling.  The tree without its empty stores, what is in its listing, that the listing has
    directories before what is in them and nothing twice, and that it is all there is on the saved disk. */
module Walks {
  import opened Bytes
  import opened Stores
  import opened Groups
  import opened Bank
  import opened Layout
  import opened Reload
  import opened Restart
  import opened Rebuild

  // ----- the tree without its empty stores -----

  function TrimTree(g: Group): Group
    decreases g, 1
  {
    var h := Trimmed(g.Head());
    Group(h.name, h.id, h.path, h.stores, TrimAll(g.kids))
  }

  function TrimAll(gs: seq<Group>): seq<Group>
    decreases gs, 0
  {
    if gs == [] then [] else [TrimTree(gs[0])] + TrimAll(gs[1..])
  }

  function TrimmedAll(hs: set<Header>): set<Header> {
    set h | h in hs :: Trimmed(h)
  }

  lemma {:induction false} HeadersTrimmed(g: Group)
    ensures Headers(TrimTree(g)) == TrimmedAll(Headers(g))
    decreases g, 1
  {
    HeadersTrimmedOf(g.kids);
    assert TrimTree(g).Head() == Trimmed(g.Head());
  }

  lemma {:induction false} HeadersTrimmedOf(gs: seq<Group>)
    ensures HeadersOf(TrimAll(gs)) == TrimmedAll(HeadersOf(gs))
    decreases gs, 0
  {
    if gs != [] {
      HeadersTrimmed(gs[0]);
      HeadersTrimmedOf(gs[1..]);
      assert TrimAll(gs)[1..] == TrimAll(gs[1..]);
    }
  }

  lemma KeysTrimmed(k: Kind, hs: set<Header>)
    ensures (set h | h in TrimmedAll(hs) :: Key(k, h)) == set h | h in hs :: Key(k, h)
  {
    forall h | h in hs
      ensures Key(k, h) in set x | x in TrimmedAll(hs) :: Key(k, x)
    {
      assert Trimmed(h) in TrimmedAll(hs) && Key(k, Trimmed(h)) == Key(k, h);
    }
  }

  lemma {:induction false} UniqueTrimmed(k: Kind, g: Group)
    requires Unique(k, g)
    ensures Unique(k, TrimTree(g))
    decreases g, 1
  {
    UniqueTrimmedAll(k, g.kids);
    HeadersTrimmedOf(g.kids);
    KeysTrimmed(k, HeadersOf(g.kids));
    assert Key(k, TrimTree(g).Head()) == Key(k, g.Head());
  }

  lemma {:induction false} UniqueTrimmedAll(k: Kind, gs: seq<Group>)
    requires UniqueAll(k, gs)
    ensures UniqueAll(k, TrimAll(gs))
    decreases gs, 0
  {
    if gs != [] {
      UniqueTrimmed(k, gs[0]);
      UniqueTrimmedAll(k, gs[1..]);
      assert TrimAll(gs)[1..] == TrimAll(gs[1..]);
      HeadersTrimmed(gs[0]);
      KeysTrimmed(k, Headers(gs[0]));
      HeadersTrimmedOf(gs[1..]);
      KeysTrimmed(k, HeadersOf(gs[1..]));
    }
  }

  lemma {:induction false} PlacedTrimmed(g: Group)
    requires Placed(g)
    ensures Placed(TrimTree(g))
    decreases g, 1
  {
    PlacedTrimmedIn(g.path, g.kids);
  }

  lemma {:induction false} PlacedTrimmedIn(path: Str, gs: seq<Group>)
    requires PlacedIn(path, gs)
    ensures PlacedIn(path, TrimAll(gs))
    decreases gs, 0
  {
    if gs != [] {
      PlacedTrimmed(gs[0]);
      PlacedTrimmedIn(path, gs[1..]);
      assert TrimAll(gs)[1..] == TrimAll(gs[1..]);
    }
  }

  // ----- what is in the listing -----

  ghost predicate Listed(hs: set<Header>, below: set<Header>, e: Entry) {
    if e.isFile then HasStore(hs, e.path) else HasPath(below, e.path)
  }

  lemma ListedSum(a: set<Header>, b: set<Header>, c: set<Header>, d: set<Header>, e: Entry)
    ensures Listed(a + c, b + d, e) <==> Listed(a, b, e) || Listed(c, d, e)
  {
    if HasStore(a + c, e.path) {
      var h :| h in a + c && h.stores != [] && StoreFile(h) == e.path;
      assert h in a || h in c;
    }
    if HasPath(b + d, e.path) {
      var h :| h in b + d && h.path == e.path;
      assert h in b || h in d;
    }
  }

  lemma {:induction false} ListingHas(g: Group, e: Entry)
    ensures e in Listing(g) <==> Listed(Headers(g), HeadersOf(g.kids), e)
    decreases g, 1
  {
    ListingAllHas(g.kids, e);
    ListedSum({g.Head()}, {}, HeadersOf(g.kids), HeadersOf(g.kids), e);
    OwnFileHas(g, e);
    assert HeadersOf(g.kids) == {} + HeadersOf(g.kids);
  }

  lemma OwnFileHas(g: Group, e: Entry)
    ensures e in OwnFile(g) <==> Listed({g.Head()}, {}, e)
  {
    assert g.Head() in {g.Head()};
  }

  lemma {:induction false} ListingAllHas(gs: seq<Group>, e: Entry)
    ensures e in ListingAll(gs) <==> Listed(HeadersOf(gs), HeadersOf(gs), e)
    decreases gs, 0
  {
    if gs != [] {
      var g := gs[0];
      ListingHas(g, e);
      ListingAllHas(gs[1..], e);
      ListedSum(Headers(g), Headers(g), HeadersOf(gs[1..]), HeadersOf(gs[1..]), e);
      ListedSum({}, {g.Head()}, Headers(g), HeadersOf(g.kids), e);
      assert {} + Headers(g) == Headers(g);
      assert e == Entry(g.path, false) <==> Listed({}, {g.Head()}, e) by {
        assert g.Head() in {g.Head()};
      }
    }
  }

  // ----- directories before what is in them, nothing twice -----

  ghost predicate InOrder(root: Str, w: seq<Entry>) {
    forall k :: 0 <= k < |w| ==> Follows(root, w, k)
  }

  ghost predicate Follows(root: Str, w: seq<Entry>, k: nat)
    requires k < |w|
  {
    ParentPath(w[k].path) == root || Entry(ParentPath(w[k].path), false) in w[..k]
  }

  ghost predicate Once(w: seq<Entry>) {
    forall i, j :: 0 <= i < j < |w| ==> w[i] != w[j]
  }

  lemma InOrderConcat(root: Str, a: seq<Entry>, b: seq<Entry>)
    requires InOrder(root, a) && InOrder(root, b)
    ensures InOrder(root, a + b)
  {
    forall k | 0 <= k < |a + b|
      ensures Follows(root, a + b, k)
    {
      if k < |a| {
        assert (a + b)[..k] == a[..k];
        assert Follows(root, a, k);
      } else {
        assert (a + b)[..k] == a + b[..k - |a|];
        assert Follows(root, b, k - |a|);
      }
    }
  }

  /** What lies below a directory follows its entry. */
  lemma InOrderBelow(root: Str, dir: Str, w: seq<Entry>)
    requires InOrder(dir, w) && ParentPath(dir) == root
    ensures InOrder(root, [Entry(dir, false)] + w)
  {
    var all := [Entry(dir, false)] + w;
    forall k | 0 <= k < |all|
      ensures Follows(root, all, k)
    {
      if k > 0 {
        assert all[..k] == [Entry(dir, false)] + w[..k - 1];
        assert Follows(dir, w, k - 1);
      }
    }
  }

  lemma OnceConcat(a: seq<Entry>, b: seq<Entry>)
    requires Once(a) && Once(b) && forall e :: e in a ==> e !in b
    ensures Once(a + b)
  {
    forall i, j | 0 <= i < j < |a + b|
      ensures (a + b)[i] != (a + b)[j]
    {
      assert i < |a| <= j ==> a[i] in a && b[j - |a|] in b;
    }
  }

  // ----- the listing of a tree that is laid out -----

  ghost predicate IdsNamed(hs: set<Header>) {
    forall h :: h in hs ==> NoSep(h.id)
  }

  lemma OwnFileInOrder(g: Group)
    requires NoSep(g.id)
    ensures InOrder(g.path, OwnFile(g)) && Once(OwnFile(g))
  {
    StoreFileSplits(g.Head());
  }

  lemma {:induction false} ListingInOrder(g: Group)
    requires Placed(g) && IdsNamed(Headers(g))
    ensures InOrder(g.path, Listing(g))
    decreases g, 1
  {
    assert g.Head() in Headers(g);
    OwnFileInOrder(g);
    ListingAllInOrder(g.path, g.kids);
    InOrderConcat(g.path, OwnFile(g), ListingAll(g.kids));
  }

  lemma {:induction false} ListingAllInOrder(path: Str, gs: seq<Group>)
    requires PlacedIn(path, gs) && IdsNamed(HeadersOf(gs))
    ensures InOrder(path, ListingAll(gs))
    decreases gs, 0
  {
    if gs != [] {
      JoinSplits(path, gs[0].name);
      ListingInOrder(gs[0]);
      ListingAllInOrder(path, gs[1..]);
      InOrderBelow(path, gs[0].path, Listing(gs[0]));
      InOrderConcat(path, [Entry(gs[0].path, false)] + Listing(gs[0]), ListingAll(gs[1..]));
    }
  }

  /** An entry below a group is its own file, or at or under one of its subgroups. */
  lemma EntryLies(path: Str, gs: seq<Group>, e: Entry)
    requires PlacedIn(path, gs) && IdsNamed(HeadersOf(gs)) && e in ListingAll(gs)
    ensures Under(path, e.path) && |path| + 1 <= |e.path|
    ensures e.isFile ==> Under(path, ParentPath(e.path)) && |path| + 1 <= |ParentPath(e.path)|
  {
    ListingAllHas(gs, e);
    if e.isFile {
      var h :| h in HeadersOf(gs) && h.stores != [] && StoreFile(h) == e.path;
      PathsAreNamesIn(path, gs, h);
      StoreFileSplits(h);
      Deeper(path, h.path);
      UnderTransitive(path, h.path, e.path);
    } else {
      var h :| h in HeadersOf(gs) && h.path == e.path;
      PathsAreNamesIn(path, gs, h);
      Deeper(path, h.path);
    }
  }

  lemma Deeper(path: Str, p: Str)
    requires SepEnd(p) > 0 && Under(path, ParentPath(p))
    ensures |path| + 1 <= |p|
  {
    UnderIsLonger(path, ParentPath(p));
  }

  lemma {:induction false} ListingOnce(g: Group)
    requires Placed(g) && Unique(ByName, g) && IdsNamed(Headers(g))
    ensures Once(Listing(g))
    decreases g, 1
  {
    assert g.Head() in Headers(g);
    OwnFileInOrder(g);
    ListingAllOnce(g.path, g.kids);
    forall e | e in OwnFile(g)
      ensures e !in ListingAll(g.kids)
    {
      OwnFileApart(g, e);
    }
    OnceConcat(OwnFile(g), ListingAll(g.kids));
  }

  lemma OwnFileApart(g: Group, e: Entry)
    requires Placed(g) && NoSep(g.id) && IdsNamed(HeadersOf(g.kids)) && e in OwnFile(g)
    ensures e !in ListingAll(g.kids)
  {
    StoreFileSplits(g.Head());
    if e in ListingAll(g.kids) {
      EntryLies(g.path, g.kids, e);
    }
  }

  lemma {:induction false} ListingAllOnce(path: Str, gs: seq<Group>)
    requires PlacedIn(path, gs) && UniqueAll(ByName, gs) && IdsNamed(HeadersOf(gs))
    ensures Once(ListingAll(gs))
    decreases gs, 0
  {
    if gs != [] {
      var g := gs[0];
      var own := [Entry(g.path, false)];
      ListingOnce(g);
      ListingAllOnce(path, gs[1..]);
      forall e | e in own
        ensures e !in Listing(g)
      {
        NotBelowItself(g, e);
      }
      OnceConcat(own, Listing(g));
      forall e | e in own + Listing(g)
        ensures e !in ListingAll(gs[1..])
      {
        BranchesApart(path, gs, e);
      }
      OnceConcat(own + Listing(g), ListingAll(gs[1..]));
    }
  }

  lemma NotBelowItself(g: Group, e: Entry)
    requires Placed(g) && IdsNamed(Headers(g)) && e == Entry(g.path, false)
    ensures e !in Listing(g)
  {
    if e in ListingAll(g.kids) {
      EntryLies(g.path, g.kids, e);
    }
  }

  /** Entries of different siblings lie under different paths. */
  lemma BranchesApart(path: Str, gs: seq<Group>, e: Entry)
    requires gs != [] && PlacedIn(path, gs) && UniqueAll(ByName, gs) && IdsNamed(HeadersOf(gs))
    requires e in [Entry(gs[0].path, false)] + Listing(gs[0])
    ensures e !in ListingAll(gs[1..])
  {
    UnderBranch(path, gs[0], e);
    if e in ListingAll(gs[1..]) {
      var kid := WhichBranch(path, gs[1..], e);
      assert gs[0].Head() in Headers(gs[0]) && Key(ByName, gs[0].Head()) in Keys(ByName, gs[0]);
      NamesApartBelow(path, gs[0].name, kid.name, e.path);
    }
  }

  lemma UnderBranch(path: Str, g: Group, e: Entry)
    requires Placed(g) && IdsNamed(Headers(g)) && e in [Entry(g.path, false)] + Listing(g)
    ensures Under(g.path, e.path)
  {
    if e in OwnFile(g) {
      assert g.Head() in Headers(g);
      StoreFileSplits(g.Head());
    } else if e in ListingAll(g.kids) {
      EntryLies(g.path, g.kids, e);
    }
  }

  lemma {:induction false} WhichBranch(path: Str, gs: seq<Group>, e: Entry) returns (kid: Header)
    requires PlacedIn(path, gs) && IdsNamed(HeadersOf(gs)) && e in ListingAll(gs)
    ensures kid in HeadersOf(gs) && Key(ByName, kid) in KeysOf(ByName, gs)
    ensures kid.path == Join(path, kid.name) && ValidName(kid.name) && Under(kid.path, e.path)
  {
    assert gs[0].Head() in Headers(gs[0]);
    if e in [Entry(gs[0].path, false)] + Listing(gs[0]) {
      kid := gs[0].Head();
      UnderBranch(path, gs[0], e);
    } else {
      kid := WhichBranch(path, gs[1..], e);
    }
  }

  // ----- a walk over a saved bank -----

  /** The id list's file, if there is one, then the trimmed tree. */
  function SavedWalk(s: State): seq<Entry> {
    (if s.core.list.groups == [] then [] else [Entry(IdsFile(s.tree.Head()), true)]) + Listing(TrimTree(s.tree))
  }

  lemma TrimmedIs(tree: Group, h: Header)
    requires h in Headers(TrimTree(tree))
    ensures IsTrimmed(Headers(tree), h)
  {
    HeadersTrimmed(tree);
  }

  lemma TrimmedTree(tree: Group)
    requires Laid(tree) && tree.id == []
    ensures var t := TrimTree(tree);
      && t.Head() == tree.Head() && Placed(t) && Unique(ByName, t) && IdsNamed(Headers(t))
      && Headers(t) == TrimmedAll(Headers(tree)) && HeadersOf(t.kids) == TrimmedAll(HeadersOf(tree.kids))
  {
    HeadersTrimmed(tree);
    HeadersTrimmedOf(tree.kids);
    PlacedTrimmed(tree);
    UniqueTrimmed(ByName, tree);
    forall h | h in Headers(TrimTree(tree))
      ensures NoSep(h.id)
    {
      TrimmedIs(tree, h);
      var x :| x in Headers(tree) && h == Trimmed(x);
      assert x == tree.Head() || IdOk(x.id);
    }
  }

  /** The entries of the listing, told by the tree that was saved. */
  lemma WalkHas(tree: Group, e: Entry)
    requires Laid(tree) && tree.id == []
    ensures e in Listing(TrimTree(tree)) <==>
      if e.isFile then KeptAt(Headers(tree), tree.Head(), e.path) else HasPath(HeadersOf(tree.kids), e.path)
  {
    var t := TrimTree(tree);
    TrimmedTree(tree);
    ListingHas(t, e);
    if e.isFile {
      TrimmedStore(tree, e.path);
    } else {
      TrimmedPath(HeadersOf(tree.kids), e.path);
    }
  }

  lemma TrimmedStore(tree: Group, p: Str)
    requires Laid(tree)
    ensures HasStore(TrimmedAll(Headers(tree)), p) <==> KeptAt(Headers(tree), tree.Head(), p)
  {
    if h :| h in TrimmedAll(Headers(tree)) && h.stores != [] && StoreFile(h) == p {
      var x :| x in Headers(tree) && h == Trimmed(x);
      assert x in Headers(tree) && x != tree.Head() && Kept(x) && StoreFile(x) == p;
    }
    if x :| x in Headers(tree) && x != tree.Head() && Kept(x) && StoreFile(x) == p {
      assert Trimmed(x) in TrimmedAll(Headers(tree)) && Trimmed(x) == x;
    }
  }

  lemma TrimmedPath(hs: set<Header>, p: Str)
    ensures HasPath(TrimmedAll(hs), p) <==> HasPath(hs, p)
  {
    if h :| h in hs && h.path == p {
      assert Trimmed(h) in TrimmedAll(hs) && Trimmed(h).path == p;
    }
  }

  /** What the entries are, in terms of the saved disk. */
  lemma WalkEntry(s: State, e: Entry)
    requires Settled(s) && e in SavedWalk(s)
    ensures Under(s.tree.path, e.path)
    ensures if e.isFile then e.path in Saved(s).files else e.path in Saved(s).dirs && e.path != s.tree.path
  {
    SettledSaves(s);
    SavedList(s, s.tree);
    IdsFileSplits(s.tree.Head());
    if e in Listing(TrimTree(s.tree)) {
      WalkHas(s.tree, e);
      if e.isFile {
        KeptFile(s, e.path);
      } else {
        KidDir(s, e.path);
      }
    }
  }

  lemma KeptFile(s: State, p: Str)
    requires Settled(s) && KeptAt(Headers(s.tree), s.tree.Head(), p)
    ensures Under(s.tree.path, p) && p in Saved(s).files
  {
    var h :| h in Headers(s.tree) && h != s.tree.Head() && Kept(h) && StoreFile(h) == p;
    SettledSaves(s);
    SavedStore(s, s.tree, h);
    assert h.stores[0] in h.stores;
    PathsAreNames(s.tree, h);
    StoreFileSplits(h);
    UnderTransitive(s.tree.path, h.path, p);
  }

  lemma KidDir(s: State, p: Str)
    requires Settled(s) && HasPath(HeadersOf(s.tree.kids), p)
    ensures Under(s.tree.path, p) && p in s.core.disk.dirs && p != s.tree.path
  {
    var h :| h in HeadersOf(s.tree.kids) && h.path == p;
    assert h in Headers(s.tree);
    PathsAreNamesIn(s.tree.path, s.tree.kids, h);
    Deeper(s.tree.path, p);
  }

  /** And everything under the root is an entry. */
  lemma WalkHasFile(s: State, p: Str)
    requires Settled(s) && p in Saved(s).files && Under(s.tree.path, p)
    ensures Entry(p, true) in SavedWalk(s)
  {
    SettledSaves(s);
    SavedList(s, s.tree);
    if p != IdsFile(s.tree.Head()) {
      var h := SavedFile(s, s.tree, p);
      WalkHas(s.tree, Entry(p, true));
    }
  }

  lemma WalkHasDir(s: State, p: Str)
    requires Settled(s) && p in Saved(s).dirs && Under(s.tree.path, p) && p != s.tree.path
    ensures Entry(p, false) in SavedWalk(s)
  {
    SettledSaves(s);
    SavedList(s, s.tree);
    assert HasPath(Headers(s.tree), p);
    var h :| h in Headers(s.tree) && h.path == p;
    WalkHas(s.tree, Entry(p, false));
  }

  lemma IdsOnce(s: State)
    requires Settled(s)
    ensures Entry(IdsFile(s.tree.Head()), true) !in Listing(TrimTree(s.tree))
  {
    WalkHas(s.tree, Entry(IdsFile(s.tree.Head()), true));
    IdsFileSplits(s.tree.Head());
    forall h | h in Headers(s.tree) && h != s.tree.Head()
      ensures StoreFile(h) != IdsFile(s.tree.Head())
    {
      StoreFileSplits(h);
    }
  }

  lemma WalkInOrder(s: State)
    requires Settled(s)
    ensures InOrder(s.tree.path, SavedWalk(s)) && Once(SavedWalk(s))
  {
    var t := TrimTree(s.tree);
    var ids := if s.core.list.groups == [] then [] else [Entry(IdsFile(s.tree.Head()), true)];
    TrimmedTree(s.tree);
    ListingInOrder(t);
    ListingOnce(t);
    IdsOnce(s);
    IdsFileSplits(s.tree.Head());
    assert InOrder(s.tree.path, ids) && Once(ids);
    InOrderConcat(s.tree.path, ids, Listing(t));
    OnceConcat(ids, Listing(t));
  }

  lemma IsWalkOf(root: Str, d: Disk, w: seq<Entry>)
    requires InOrder(root, w) && Once(w)
    requires forall e :: e in w ==> Under(root, e.path)
    requires forall e :: e in w ==> if e.isFile then e.path in d.files else e.path in d.dirs && e.path != root
    requires forall p :: p in d.files && Under(root, p) ==> Entry(p, true) in w
    requires forall p :: p in d.dirs && Under(root, p) && p != root ==> Entry(p, false) in w
    ensures IsWalk(root, d, w)
  {
    forall i | 0 <= i < |w|
      ensures Under(root, w[i].path)
      ensures if w[i].isFile then w[i].path in d.files else w[i].path in d.dirs && w[i].path != root
      ensures ParentPath(w[i].path) == root || Entry(ParentPath(w[i].path), false) in w[..i]
    {
      assert w[i] in w && Follows(root, w, i);
    }
  }

  /** Every settled bank has a walk once it is saved. */
  lemma SavedBankHasAWalk(s: State)
    requires Settled(s)
    ensures IsWalk(s.tree.path, Saved(s), SavedWalk(s))
  {
    WalkInOrder(s);
    forall e | e in SavedWalk(s)
      ensures Under(s.tree.path, e.path)
      ensures if e.isFile then e.path in Saved(s).files else e.path in Saved(s).dirs && e.path != s.tree.path
    {
      WalkEntry(s, e);
    }
    forall p | p in Saved(s).files && Under(s.tree.path, p)
      ensures Entry(p, true) in SavedWalk(s)
    {
      WalkHasFile(s, p);
    }
    forall p | p in Saved(s).dirs && Under(s.tree.path, p) && p != s.tree.path
      ensures Entry(p, false) in SavedWalk(s)
    {
      WalkHasDir(s, p);
    }
    IsWalkOf(s.tree.path, Saved(s), SavedWalk(s));
  }

  // ----- init with it -----

  lemma NamesAreApart(s: State)
    requires Settled(s)
    ensures NamesApart(s.core.index)
  {
    forall a, b | a in s.core.index && b in s.core.index && s.core.index[a] == s.core.index[b]
      ensures a == b
    {
      var x := IdOwner(s, a);
      var y := IdOwner(s, b);
      KeyOfOne(ByName, s.tree, x, y);
    }
  }

  lemma TrimmedRecorded(s: State, x: Header, c: Core)
    requires Settled(s) && AllFit(s) && AllReadable(s) && c == Core(s.core.index, s.core.list, Saved(s))
    requires x in HeadersOf(TrimTree(s.tree).kids)
    ensures Recorded(x, c)
  {
    TrimmedTree(s.tree);
    var h :| h in HeadersOf(s.tree.kids) && x == Trimmed(h);
    NotTheRoot(s.tree, h);
    PathIsName(s.tree, h);
    NamesAreApart(s);
    SettledSaves(s);
    assert IdOk(h.id) && StoreOk(h);
    if Kept(h) {
      assert h.stores[0] in h.stores;
      SavedStore(s, s.tree, h);
    }
  }

  lemma NotTheRoot(tree: Group, h: Header)
    requires Laid(tree) && h in HeadersOf(tree.kids)
    ensures h in Headers(tree) && h != tree.Head()
  {
    assert Key(ById, h) in KeysOf(ById, tree.kids);
  }

  lemma SkipsIds(s: State, c: Core, order: seq<Str>)
    ensures var start := State(Bare(s.tree), c);
      LoadAll(SavedWalk(s), start, order) == LoadAll(Listing(TrimTree(s.tree)), start, order)
  {
    var start := State(Bare(s.tree), c);
    var w := Listing(TrimTree(s.tree));
    if s.core.list.groups == [] {
      assert [] + w == w;
    } else {
      var e := Entry(IdsFile(s.tree.Head()), true);
      IdsFileSplits(s.tree.Head());
      LoadConcat([e], w, start, order);
      LoadOne(e, start, order);
    }
  }

  /** Saved and loaded again along that walk, the bank is the same down to the order of siblings, the
      stores without questions left out. */
  lemma RestartGivesTheTree(s: State, order: seq<Str>)
    requires Settled(s) && AllFit(s) && AllReadable(s) && Lists(order, s.core.index)
    ensures IsWalk(s.tree.path, Saved(s), SavedWalk(s))
    ensures Init(s.tree.path, Saved(s), SavedWalk(s), order) ==
            Loading(true, State(TrimTree(s.tree), Core(s.core.index, s.core.list, Saved(s))))
  {
    var t, c := TrimTree(s.tree), Core(s.core.index, s.core.list, Saved(s));
    SavedBankHasAWalk(s);
    SettledSaves(s);
    InitStarts(s, s.tree, SavedWalk(s), order);
    IndexComesBack(s);
    SkipsIds(s, c, order);
    TrimmedTree(s.tree);
    forall x | x in HeadersOf(t.kids)
      ensures Recorded(x, c)
    {
      TrimmedRecorded(s, x, c);
    }
    ListingIsPreorder(t);
    RebuildInvertsListing(t, c, Listing(t), order);
  }
}
