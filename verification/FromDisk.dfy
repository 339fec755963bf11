/** What init makes of any directory and any id list: when its three copies agree.  Every directory listed
    becomes a node with the id that the list has first for its name, and no file changes an id or a name;
    so the names tell, those of the directories and those of the list.  Then the same for a restart after
    any calls that kept the copies in agreement. */
module FromDisk {
  import opened Bytes
  import opened Records
  import opened Stores
  import opened Groups
  import opened Bank
  import opened Agreement
  import opened Layout
  import opened Reload

  // ----- the nodes' ids and names -----

  /** The ids of the nodes with their names. */
  function Pairs(g: Group): set<(Str, Str)> {
    set h | h in Headers(g) :: (h.id, h.name)
  }

  function PairsOf(gs: seq<Group>): set<(Str, Str)> {
    set h | h in HeadersOf(gs) :: (h.id, h.name)
  }

  function KeyOfPair(k: Kind, p: (Str, Str)): Str {
    if k == ById then p.0 else p.1
  }

  /** `g'` is `g` with one node more, of that id and name. */
  ghost predicate GainedNode(g: Group, g': Group, p: (Str, Str)) {
    && Pairs(g') == Pairs(g) + {p}
    && (forall k :: Keys(k, g') == Keys(k, g) + {KeyOfPair(k, p)})
    && (forall k :: Unique(k, g') <==> Unique(k, g) && KeyOfPair(k, p) !in Keys(k, g))
    && g'.id == g.id && g'.name == g.name && g'.path == g.path
  }

  ghost predicate GainedNodeIn(gs: seq<Group>, gs': seq<Group>, p: (Str, Str)) {
    && PairsOf(gs') == PairsOf(gs) + {p}
    && (forall k :: KeysOf(k, gs') == KeysOf(k, gs) + {KeyOfPair(k, p)})
    && (forall k :: UniqueAll(k, gs') <==> UniqueAll(k, gs) && KeyOfPair(k, p) !in KeysOf(k, gs))
  }

  /** `g'` has the ids and names of `g`. */
  ghost predicate SameNames(g: Group, g': Group) {
    && Pairs(g') == Pairs(g)
    && (forall k :: Keys(k, g') == Keys(k, g) && (Unique(k, g') <==> Unique(k, g)))
    && g'.id == g.id && g'.name == g.name && g'.path == g.path
  }

  ghost predicate SameNamesIn(gs: seq<Group>, gs': seq<Group>) {
    && PairsOf(gs') == PairsOf(gs)
    && (forall k :: KeysOf(k, gs') == KeysOf(k, gs) && (UniqueAll(k, gs') <==> UniqueAll(k, gs)))
  }

  lemma NodePairs(g: Group)
    ensures Pairs(g) == {(g.id, g.name)} + PairsOf(g.kids)
    ensures forall k :: Keys(k, g) == {KeyOfPair(k, (g.id, g.name))} + KeysOf(k, g.kids)
  {
    assert g.Head() in Headers(g);
    forall k
      ensures Keys(k, g) == {KeyOfPair(k, (g.id, g.name))} + KeysOf(k, g.kids)
    {
      KeysOfNode(k, g);
    }
  }

  lemma ListPairs(gs: seq<Group>)
    requires gs != []
    ensures PairsOf(gs) == Pairs(gs[0]) + PairsOf(gs[1..])
    ensures forall k :: KeysOf(k, gs) == Keys(k, gs[0]) + KeysOf(k, gs[1..])
  {
  }

  // ----- a node is hung -----

  lemma LeafHung(g: Group, leaf: Group)
    requires leaf.kids == []
    ensures GainedNode(g, g.(kids := g.kids + [leaf]), (leaf.id, leaf.name))
  {
    var g' := g.(kids := g.kids + [leaf]);
    LeafHeaders(leaf);
    HeadersConcat(g.kids, [leaf]);
    assert HeadersOf([leaf]) == Headers(leaf);
    NodePairs(g);
    NodePairs(g');
    assert PairsOf(g'.kids) == PairsOf(g.kids) + {(leaf.id, leaf.name)};
    forall k
      ensures Unique(k, g') <==> Unique(k, g) && KeyOfPair(k, (leaf.id, leaf.name)) !in Keys(k, g)
      ensures KeysOf(k, g'.kids) == KeysOf(k, g.kids) + {KeyOfPair(k, (leaf.id, leaf.name))}
    {
      LeafUnique(k, g, leaf);
    }
  }

  lemma LeafUnique(k: Kind, g: Group, leaf: Group)
    requires leaf.kids == []
    ensures var g' := g.(kids := g.kids + [leaf]); var key := Key(k, leaf.Head());
      && (Unique(k, g') <==> Unique(k, g) && key !in Keys(k, g))
      && KeysOf(k, g'.kids) == KeysOf(k, g.kids) + {key}
  {
    var g' := g.(kids := g.kids + [leaf]);
    LeafHeaders(leaf);
    KeysConcat(k, g.kids, [leaf]);
    UniqueConcat(k, g.kids, [leaf]);
    assert HeadersOf([leaf]) == Headers(leaf) && KeysOf(k, []) == {};
    assert KeysOf(k, [leaf]) == Keys(k, leaf) && (UniqueAll(k, [leaf]) <==> Unique(k, leaf));
    KeysOfNode(k, g);
    assert g'.Head() == g.Head();
  }

  lemma GainedBelow(g: Group, gs: seq<Group>, p: (Str, Str))
    requires GainedNodeIn(g.kids, gs, p)
    ensures GainedNode(g, g.(kids := gs), p)
  {
    NodePairs(g);
    NodePairs(g.(kids := gs));
  }

  lemma GainedFirst(gs: seq<Group>, g': Group, p: (Str, Str))
    requires gs != [] && GainedNode(gs[0], g', p)
    ensures GainedNodeIn(gs, [g'] + gs[1..], p)
  {
    ListPairs(gs);
    ListPairs([g'] + gs[1..]);
    assert ([g'] + gs[1..])[1..] == gs[1..];
  }

  lemma GainedLater(gs: seq<Group>, rest: seq<Group>, p: (Str, Str))
    requires gs != [] && GainedNodeIn(gs[1..], rest, p)
    ensures GainedNodeIn(gs, [gs[0]] + rest, p)
  {
    ListPairs(gs);
    ListPairs([gs[0]] + rest);
    assert ([gs[0]] + rest)[1..] == rest;
  }

  lemma KeptBelow(g: Group, gs: seq<Group>)
    requires SameNamesIn(g.kids, gs)
    ensures SameNames(g, g.(kids := gs))
  {
    NodePairs(g);
    NodePairs(g.(kids := gs));
  }

  lemma KeptFirst(gs: seq<Group>, g': Group, rest: seq<Group>)
    requires gs != [] && SameNames(gs[0], g') && SameNamesIn(gs[1..], rest)
    ensures SameNamesIn(gs, [g'] + rest)
  {
    ListPairs(gs);
    ListPairs([g'] + rest);
    assert ([g'] + rest)[1..] == rest;
  }

  // ----- one entry -----

  /** A directory's entry hangs a node where one of its parent's name is found, whichever is found first. */
  lemma {:induction false} DirVisit(parent: Str, path: Str, name: Str, order: seq<Str>, g: Group, c: Core)
    ensures var r := Visit(ByName, parent, AttachingDir(path, name, order), g, c);
      && r.c == c && (r.ok <==> parent in Keys(ByName, g))
      && (if r.ok then GainedNode(g, r.g, (IdOf(c.index, name, order), name)) else r.g == g)
    decreases g, 1
  {
    KeysOfNode(ByName, g);
    if g.name == parent {
      LeafHung(g, Group(name, IdOf(c.index, name, order), path, [], []));
    } else {
      DirVisitIn(parent, path, name, order, g.kids, c);
      var r := VisitIn(ByName, parent, AttachingDir(path, name, order), g.kids, c);
      if r.ok {
        GainedBelow(g, r.gs, (IdOf(c.index, name, order), name));
      }
    }
  }

  lemma {:induction false} DirVisitIn(parent: Str, path: Str, name: Str, order: seq<Str>, gs: seq<Group>, c: Core)
    ensures var r := VisitIn(ByName, parent, AttachingDir(path, name, order), gs, c);
      && r.c == c && (r.ok <==> parent in KeysOf(ByName, gs))
      && (if r.ok then GainedNodeIn(gs, r.gs, (IdOf(c.index, name, order), name)) else r.gs == gs)
    decreases gs, 0
  {
    if gs == [] {
      return;
    }
    var act := AttachingDir(path, name, order);
    DirVisit(parent, path, name, order, gs[0], c);
    DirVisitIn(parent, path, name, order, gs[1..], c);
    DirFirst(parent, gs, (IdOf(c.index, name, order), name),
             Visit(ByName, parent, act, gs[0], c), VisitIn(ByName, parent, act, gs[1..], c),
             VisitIn(ByName, parent, act, gs, c));
  }

  lemma DirFirst(parent: Str, gs: seq<Group>, p: (Str, Str), first: Visited, rest: VisitedAll, all: VisitedAll)
    requires gs != [] && (first.ok <==> parent in Keys(ByName, gs[0]))
    requires if first.ok then GainedNode(gs[0], first.g, p) else first.g == gs[0]
    requires !first.ok ==> (rest.ok <==> parent in KeysOf(ByName, gs[1..]))
    requires !first.ok ==> if rest.ok then GainedNodeIn(gs[1..], rest.gs, p) else rest.gs == gs[1..]
    requires all.ok == (first.ok || rest.ok)
    requires all.gs == [first.g] + if first.ok then gs[1..] else rest.gs
    ensures all.ok <==> parent in KeysOf(ByName, gs)
    ensures if all.ok then GainedNodeIn(gs, all.gs, p) else all.gs == gs
  {
    ListPairs(gs);
    if first.ok {
      GainedFirst(gs, first.g, p);
    } else if rest.ok {
      GainedLater(gs, rest.gs, p);
    } else {
      assert [gs[0]] + gs[1..] == gs;
    }
  }

  lemma StoresKept(g: Group, stores: seq<Store>)
    ensures SameNames(g, g.(stores := stores))
  {
    var g' := g.(stores := stores);
    NodePairs(g);
    NodePairs(g');
    forall k
      ensures Unique(k, g') <==> Unique(k, g)
    {
      assert Key(k, g'.Head()) == Key(k, g.Head());
    }
  }

  /** A file's entry changes no id and no name, loaded or not. */
  lemma {:induction false} FileVisit(parent: Str, path: Str, g: Group, c: Core)
    ensures var r := Visit(ByName, parent, AttachingFile(path), g, c); r.c == c && SameNames(g, r.g)
    decreases g, 1
  {
    if g.name == parent {
      StoresKept(g, Visit(ByName, parent, AttachingFile(path), g, c).g.stores);
    } else {
      FileVisitIn(parent, path, g.kids, c);
      KeptBelow(g, VisitIn(ByName, parent, AttachingFile(path), g.kids, c).gs);
    }
  }

  lemma {:induction false} FileVisitIn(parent: Str, path: Str, gs: seq<Group>, c: Core)
    ensures var r := VisitIn(ByName, parent, AttachingFile(path), gs, c); r.c == c && SameNamesIn(gs, r.gs)
    decreases gs, 0
  {
    if gs == [] {
      return;
    }
    var act := AttachingFile(path);
    var first := Visit(ByName, parent, act, gs[0], c);
    FileVisit(parent, path, gs[0], c);
    if first.ok {
      KeptFirst(gs, first.g, gs[1..]);
    } else {
      FileVisitIn(parent, path, gs[1..], c);
      KeptFirst(gs, first.g, VisitIn(ByName, parent, act, gs[1..], c).gs);
    }
  }

  lemma EntryGains(e: Entry, s: State, order: seq<Str>)
    ensures var r := LoadEntry(e, s, order); var name := FileName(e.path);
      && r.s.core == s.core
      && (e.isFile ==> SameNames(s.tree, r.s.tree))
      && (!e.isFile ==>
            && (r.ok <==> FileName(ParentPath(e.path)) in Keys(ByName, s.tree))
            && (r.ok ==> GainedNode(s.tree, r.s.tree, (IdOf(s.core.index, name, order), name))))
  {
    var parent, name := FileName(ParentPath(e.path)), FileName(e.path);
    if e.isFile {
      FileVisit(parent, e.path, s.tree, s.core);
    } else {
      DirVisit(parent, e.path, name, order, s.tree, s.core);
    }
  }

  // ----- the whole walk -----

  /** The names of the directories listed. */
  function DirNames(walk: seq<Entry>): seq<Str>
    decreases |walk|
  {
    if walk == [] then []
    else
      var e := walk[|walk| - 1];
      DirNames(walk[..|walk| - 1]) + if e.isFile then [] else [FileName(e.path)]
  }

  ghost predicate NoneTwice(xs: seq<Str>) {
    forall i, j :: 0 <= i < j < |xs| ==> xs[i] != xs[j]
  }

  lemma NoneTwiceMore(xs: seq<Str>, x: Str)
    ensures NoneTwice(xs + [x]) <==> NoneTwice(xs) && x !in xs
  {
    var more := xs + [x];
    if NoneTwice(more) {
      forall i, j | 0 <= i < j < |xs|
        ensures xs[i] != xs[j]
      {
        assert more[i] != more[j];
      }
      forall i | 0 <= i < |xs|
        ensures xs[i] != x
      {
        assert more[i] != more[|xs|];
      }
    }
  }

  function KeyFor(k: Kind, index: map<Str, Str>, order: seq<Str>, name: Str): Str {
    if k == ById then IdOf(index, name, order) else name
  }

  /** The keys that the root and the directories of those names get. */
  function KeysFor(k: Kind, root: Group, index: map<Str, Str>, order: seq<Str>, names: seq<Str>): seq<Str> {
    [Key(k, root.Head())] + seq(|names|, i requires 0 <= i < |names| => KeyFor(k, index, order, names[i]))
  }

  lemma KeysForMore(k: Kind, root: Group, index: map<Str, Str>, order: seq<Str>, names: seq<Str>, name: Str)
    ensures KeysFor(k, root, index, order, names + [name]) ==
            KeysFor(k, root, index, order, names) + [KeyFor(k, index, order, name)]
  {
  }

  function PairsFor(index: map<Str, Str>, order: seq<Str>, names: seq<Str>): set<(Str, Str)> {
    set n | n in names :: (IdOf(index, n, order), n)
  }

  lemma PairsForMore(index: map<Str, Str>, order: seq<Str>, names: seq<Str>, name: Str)
    ensures PairsFor(index, order, names + [name]) == PairsFor(index, order, names) + {(IdOf(index, name, order), name)}
  {
  }

  /** The tree has the root and one node for every name, with the id first found for it. */
  ghost predicate BuiltOf(root: Group, index: map<Str, Str>, order: seq<Str>, names: seq<Str>, t: Group) {
    && Pairs(t) == {(root.id, root.name)} + PairsFor(index, order, names)
    && (forall k :: Unique(k, t) <==> NoneTwice(KeysFor(k, root, index, order, names)))
    && (forall k, key :: key in Keys(k, t) <==> key in KeysFor(k, root, index, order, names))
    && t.id == root.id && t.name == root.name && t.path == root.path
  }

  lemma BuiltMore(root: Group, index: map<Str, Str>, order: seq<Str>, names: seq<Str>, t: Group, name: Str, t': Group)
    requires BuiltOf(root, index, order, names, t) && GainedNode(t, t', (IdOf(index, name, order), name))
    ensures BuiltOf(root, index, order, names + [name], t')
  {
    PairsForMore(index, order, names, name);
    forall k
      ensures Unique(k, t') <==> NoneTwice(KeysFor(k, root, index, order, names + [name]))
      ensures forall key :: key in Keys(k, t') <==> key in KeysFor(k, root, index, order, names + [name])
    {
      KeysForMore(k, root, index, order, names, name);
      NoneTwiceMore(KeysFor(k, root, index, order, names), KeyFor(k, index, order, name));
    }
  }

  lemma BuiltFromNothing(root: Group, index: map<Str, Str>, order: seq<Str>)
    ensures BuiltOf(root, index, order, [], Bare(root))
  {
    LeafHeaders(Bare(root));
    NodePairs(Bare(root));
    assert PairsOf([]) == {};
    forall k
      ensures KeysFor(k, root, index, order, []) == [Key(k, root.Head())]
    {
    }
  }

  /** What the whole walk builds, when it loads: a node for every directory. */
  lemma {:induction false} WalkBuilds(walk: seq<Entry>, root: Group, c: Core, order: seq<Str>)
    ensures var r := LoadAll(walk, State(Bare(root), c), order);
      r.s.core == c && (r.ok ==> BuiltOf(root, c.index, order, DirNames(walk), r.s.tree))
    decreases |walk|
  {
    if walk == [] {
      BuiltFromNothing(root, c.index, order);
      return;
    }
    var short, e := walk[..|walk| - 1], walk[|walk| - 1];
    WalkBuilds(short, root, c, order);
    var before := LoadAll(short, State(Bare(root), c), order);
    if before.ok {
      EntryGains(e, before.s, order);
      var after := LoadEntry(e, before.s, order);
      if after.ok && !e.isFile {
        BuiltMore(root, c.index, order, DirNames(short), before.s.tree, FileName(e.path), after.s.tree);
      } else if after.ok {
        assert DirNames(walk) == DirNames(short);
      }
    }
  }

  // ----- when the three copies agree -----

  /** The directories' names are the index's, none occurs twice on either side, and the list is one of
      distinct ids. */
  ghost predicate Named(c: Core, names: seq<Str>) {
    && Distinct(c.list.groups) && [] !in c.index && NamesApart(c.index)
    && NoneTwice(names) && (forall n :: n in names <==> n in c.index.Values)
  }

  lemma ListIsIndex(c: Core)
    requires c.index == Emplaced(c.list.groups, map[])
    ensures ListMap(c).Keys == c.index.Keys
    ensures forall id :: id in c.index ==> ListMap(c)[id].group == c.index[id]
  {
    forall id
      ensures id in ListMap(c) <==> id in c.index
      ensures id in c.index ==> ListMap(c)[id].group == c.index[id]
    {
      EmplacedKeepsFirst(c.list.groups, map[], id);
      IdsAreFound(c.list.groups, id);
    }
  }

  /** What the loop over the hash map finds. */
  lemma IdOfIs(index: map<Str, Str>, order: seq<Str>, name: Str)
    requires Lists(order, index) && [] !in index
    ensures name in index.Values <==> IdOf(index, name, order) != []
    ensures name in index.Values ==> IdOf(index, name, order) in index && index[IdOf(index, name, order)] == name
  {
    if name in index.Values {
      var id :| id in index && index[id] == name;
      assert id in order;
    }
  }

  lemma PairIs(root: Group, index: map<Str, Str>, order: seq<Str>, names: seq<Str>, t: Group, h: Header)
    requires BuiltOf(root, index, order, names, t) && h in Headers(t)
    ensures (h.id, h.name) == (root.id, root.name) || (h.name in names && h.id == IdOf(index, h.name, order))
  {
    assert (h.id, h.name) in Pairs(t);
  }

  lemma NameHasNode(root: Group, index: map<Str, Str>, order: seq<Str>, names: seq<Str>, t: Group, name: Str)
    requires BuiltOf(root, index, order, names, t) && name in names
    ensures HasId(Headers(t), IdOf(index, name, order))
  {
    assert (IdOf(index, name, order), name) in Pairs(t);
  }

  lemma IdsOnce(root: Group, index: map<Str, Str>, order: seq<Str>, names: seq<Str>)
    requires root.id == [] && NoneTwice(KeysFor(ById, root, index, order, names))
    ensures NoneTwice(names)
    ensures forall n :: n in names ==> IdOf(index, n, order) != []
  {
    var keys := KeysFor(ById, root, index, order, names);
    forall i | 0 <= i < |names|
      ensures IdOf(index, names[i], order) != []
    {
      assert keys[0] != keys[i + 1];
    }
    forall i, j | 0 <= i < j < |names|
      ensures names[i] != names[j]
    {
      assert keys[i + 1] != keys[j + 1];
    }
  }

  lemma OnceIds(root: Group, index: map<Str, Str>, order: seq<Str>, names: seq<Str>)
    requires root.id == [] && Lists(order, index) && [] !in index && NoneTwice(names)
    requires forall n :: n in names ==> n in index.Values
    ensures NoneTwice(KeysFor(ById, root, index, order, names))
  {
    var keys := KeysFor(ById, root, index, order, names);
    forall i | 0 <= i < |names|
      ensures keys[i + 1] in index && index[keys[i + 1]] == names[i]
    {
      assert names[i] in names;
      IdOfIs(index, order, names[i]);
    }
    forall i, j | 0 <= i < j < |keys|
      ensures keys[i] != keys[j]
    {
      if i > 0 {
        assert index[keys[(i - 1) + 1]] == names[i - 1] && index[keys[(j - 1) + 1]] == names[j - 1];
      } else {
        assert keys[(j - 1) + 1] in index;
      }
    }
  }

  /** Where the copies agree, every id of the index is that of a directory. */
  lemma AgreedNames(root: Group, c: Core, order: seq<Str>, names: seq<Str>, t: Group, id: Str)
    requires BuiltOf(root, c.index, order, names, t) && root.id == [] && Agree(State(t, c)) && id in c.index
    ensures c.index[id] in names && id == IdOf(c.index, c.index[id], order)
  {
    assert HasId(Headers(t), id);
    var h :| h in Headers(t) && h.id == id;
    PairIs(root, c.index, order, names, t, h);
  }

  lemma AgreeIsNamed(root: Group, c: Core, order: seq<Str>, names: seq<Str>, t: Group)
    requires BuiltOf(root, c.index, order, names, t) && root.id == [] && Lists(order, c.index)
    requires Agree(State(t, c))
    ensures Named(c, names)
  {
    IdsOnce(root, c.index, order, names);
    forall n
      ensures n in names <==> n in c.index.Values
    {
      IdOfIs(c.index, order, n);
      if n in c.index.Values {
        var id :| id in c.index && c.index[id] == n;
        AgreedNames(root, c, order, names, t, id);
      }
    }
    forall a, b | a in c.index && b in c.index && c.index[a] == c.index[b]
      ensures a == b
    {
      AgreedNames(root, c, order, names, t, a);
      AgreedNames(root, c, order, names, t, b);
    }
  }

  lemma NamedAgrees(root: Group, c: Core, order: seq<Str>, names: seq<Str>, t: Group)
    requires BuiltOf(root, c.index, order, names, t) && root.id == [] && Lists(order, c.index)
    requires c.list.path != [] && c.index == Emplaced(c.list.groups, map[]) && Named(c, names)
    ensures Agree(State(t, c)) && NamesAgree(State(t, c))
  {
    ListIsIndex(c);
    OnceIds(root, c.index, order, names);
    forall h | h in Headers(t)
      ensures h.id != [] ==> h.id in c.index && c.index[h.id] == h.name
      ensures h.id in c.index ==> c.index[h.id] == h.name
    {
      PairIs(root, c.index, order, names, t, h);
      IdOfIs(c.index, order, h.name);
    }
    forall id | id in c.index
      ensures HasId(Headers(t), id)
    {
      IdOfIs(c.index, order, c.index[id]);
      NameHasNode(root, c.index, order, names, t, c.index[id]);
    }
  }

  /** The root that init starts from. */
  function RootAt(path: Str): Group {
    Group(FileName(path), [], path, [], [])
  }

  /** init on any disk and any list, whatever its walk lists: when it comes up, tree, index and list agree
      if and only if the directories listed and the list have the same names, none of them twice on
      either side, and the list no id twice and not the empty one.  And names are unique in the tree if
      and only if no two directories, and no directory and the root, share one. */
  lemma InitAgreesIff(path: Str, d: Disk, walk: seq<Entry>, order: seq<Str>)
    ensures var r := Init(path, d, walk, order); var names := DirNames(walk);
      r.ok && Lists(order, r.s.core.index) ==>
        && (Agree(r.s) <==> Named(r.s.core, names))
        && (Agree(r.s) ==> NamesAgree(r.s))
        && (Unique(ByName, r.s.tree) <==> NoneTwice([FileName(path)] + names))
        && r.s.core.index == Emplaced(r.s.core.list.groups, map[])
  {
    var r := Init(path, d, walk, order);
    if r.ok && Lists(order, r.s.core.index) {
      InitWalks(path, d, walk, order);
      WalkBuilds(walk, RootAt(path), r.s.core, order);
      BuiltAgreesIff(RootAt(path), r.s.core, order, DirNames(walk), r.s.tree);
    }
  }

  lemma BuiltAgreesIff(root: Group, c: Core, order: seq<Str>, names: seq<Str>, t: Group)
    requires BuiltOf(root, c.index, order, names, t) && root.id == [] && Lists(order, c.index)
    requires c.list.path != [] && c.index == Emplaced(c.list.groups, map[])
    ensures Agree(State(t, c)) <==> Named(c, names)
    ensures Agree(State(t, c)) ==> NamesAgree(State(t, c))
    ensures Unique(ByName, t) <==> NoneTwice([root.name] + names)
  {
    if Agree(State(t, c)) {
      AgreeIsNamed(root, c, order, names, t);
    }
    if Named(c, names) {
      NamedAgrees(root, c, order, names, t);
    }
    assert KeysFor(ByName, root, c.index, order, names) == [root.name] + names;
  }

  lemma InitWalks(path: Str, d: Disk, walk: seq<Entry>, order: seq<Str>)
    requires Init(path, d, walk, order).ok
    ensures var r := Init(path, d, walk, order); var c := r.s.core;
      && r == LoadAll(walk, State(Bare(RootAt(path)), c), order)
      && c.list.path != [] && c.index == Emplaced(c.list.groups, map[])
  {
    var disk := if Exists(d, path) then d else d.(dirs := d.dirs + {path});
    var list := Opened(FRESH, disk, Join(path, IDS_DAT), false);
    var index := if list.ok then Emplaced(list.store.groups, map[]) else map[];
    WalkBuilds(walk, RootAt(path), Core(index, list.store, disk), order);
  }

  // ----- walks without stores -----

  /** Nothing but id lists among the files listed. */
  predicate OnlyLists(walk: seq<Entry>) {
    forall i :: 0 <= i < |walk| && walk[i].isFile ==> FileName(walk[i].path) == IDS_DAT
  }

  /** Directories before what is in them, as in a walk of `root`. */
  ghost predicate ParentsFirst(root: Str, walk: seq<Entry>) {
    forall i :: 0 <= i < |walk| ==>
      ParentPath(walk[i].path) == root || Entry(ParentPath(walk[i].path), false) in walk[..i]
  }

  lemma {:induction false} ListedName(walk: seq<Entry>, e: Entry)
    requires e in walk && !e.isFile
    ensures FileName(e.path) in DirNames(walk)
    decreases |walk|
  {
    if e != walk[|walk| - 1] {
      assert walk == walk[..|walk| - 1] + [walk[|walk| - 1]];
      ListedName(walk[..|walk| - 1], e);
    }
  }

  /** Such a walk always loads: every directory finds its parent's name. */
  lemma {:induction false} DirsLoad(walk: seq<Entry>, path: Str, c: Core, order: seq<Str>)
    requires OnlyLists(walk) && ParentsFirst(path, walk)
    ensures LoadAll(walk, State(Bare(RootAt(path)), c), order).ok
    decreases |walk|
  {
    if walk == [] {
      return;
    }
    var short, e := walk[..|walk| - 1], walk[|walk| - 1];
    ShorterWalk(path, walk);
    DirsLoad(short, path, c, order);
    WalkBuilds(short, RootAt(path), c, order);
    var before := LoadAll(short, State(Bare(RootAt(path)), c), order);
    EntryGains(e, before.s, order);
    if !e.isFile {
      ParentIsNamed(path, walk, c.index, order);
      assert FileName(ParentPath(e.path)) in Keys(ByName, before.s.tree);
    }
  }

  lemma ShorterWalk(path: Str, walk: seq<Entry>)
    requires walk != [] && OnlyLists(walk) && ParentsFirst(path, walk)
    ensures OnlyLists(walk[..|walk| - 1]) && ParentsFirst(path, walk[..|walk| - 1])
  {
    var short := walk[..|walk| - 1];
    forall i | 0 <= i < |short|
      ensures ParentPath(short[i].path) == path || Entry(ParentPath(short[i].path), false) in short[..i]
    {
      assert short[..i] == walk[..i] && short[i] == walk[i];
    }
  }

  lemma ParentIsNamed(path: Str, walk: seq<Entry>, index: map<Str, Str>, order: seq<Str>)
    requires walk != [] && ParentsFirst(path, walk)
    ensures FileName(ParentPath(walk[|walk| - 1].path)) in
            KeysFor(ByName, RootAt(path), index, order, DirNames(walk[..|walk| - 1]))
  {
    var e, short := walk[|walk| - 1], walk[..|walk| - 1];
    if ParentPath(e.path) != path {
      ListedName(short, Entry(ParentPath(e.path), false));
    }
    NamesAreKeys(RootAt(path), index, order, DirNames(short));
  }

  lemma NamesAreKeys(root: Group, index: map<Str, Str>, order: seq<Str>, names: seq<Str>)
    ensures KeysFor(ByName, root, index, order, names) == [root.name] + names
  {
  }

  // ----- in terms of the disk -----

  ghost predicate IsDirBelow(root: Str, d: Disk, p: Str) {
    p in d.dirs && Under(root, p) && p != root
  }

  /** The names that the walk lists are those of the directories on the disk, each once. */
  lemma WalkNames(root: Str, d: Disk, walk: seq<Entry>)
    requires IsWalk(root, d, walk)
    ensures forall n :: n in DirNames(walk) <==> exists p :: IsDirBelow(root, d, p) && FileName(p) == n
    ensures NoneTwice(DirNames(walk)) <==>
            forall p, q :: IsDirBelow(root, d, p) && IsDirBelow(root, d, q) && FileName(p) == FileName(q) ==> p == q
  {
    NamesOfDirs(walk);
    forall p
      ensures IsDirBelow(root, d, p) <==> Entry(p, false) in walk
    {
    }
  }

  /** The same for the entries of any list of different ones. */
  lemma {:induction false} NamesOfDirs(walk: seq<Entry>)
    requires forall i, j :: 0 <= i < j < |walk| ==> walk[i] != walk[j]
    ensures forall n :: n in DirNames(walk) <==> exists p :: Entry(p, false) in walk && FileName(p) == n
    ensures NoneTwice(DirNames(walk)) <==>
            forall p, q :: Entry(p, false) in walk && Entry(q, false) in walk && FileName(p) == FileName(q) ==> p == q
    decreases |walk|
  {
    if walk == [] {
      return;
    }
    var short, e := walk[..|walk| - 1], walk[|walk| - 1];
    assert walk == short + [e];
    NamesOfDirs(short);
    assert e !in short;
    if e.isFile {
      assert DirNames(walk) == DirNames(short);
    } else {
      NoneTwiceMore(DirNames(short), FileName(e.path));
    }
  }

  // ----- a restart from any state -----

  /** The list can be written, and no store lies at its file. */
  ghost predicate ListSaves(u: State) {
    && ListLaid(u.core, u.tree.Head()) && CanWrite(u.core.disk, IdsFile(u.tree.Head()))
    && u.tree.path in u.core.disk.dirs && Fits(u.core.list.groups)
    && forall st :: st in StoresOf(u.tree) ==> st.path != IdsFile(u.tree.Head())
  }

  lemma {:induction false} CloseAllSkips(stores: seq<Store>, d: Disk, p: Str)
    requires forall st :: st in stores ==> st.path != p
    ensures SameAt(d, CloseAll(stores, d), p) && CloseAll(stores, d).dirs == d.dirs
  {
    if stores != [] {
      assert stores[0] in stores;
      CloseAllSkips(stores[1..], Closed(stores[0], d), p);
    }
  }

  lemma ListIsBack(u: State)
    requires ListSaves(u)
    ensures var r := Opened(FRESH, Saved(u), IdsFile(u.tree.Head()), false);
      (r.ok <==> Readable(u.core.list.groups)) && (r.ok ==> r.store == u.core.list)
    ensures Saved(u).dirs == u.core.disk.dirs
  {
    var p := IdsFile(u.tree.Head());
    var d := Closed(u.core.list, u.core.disk);
    SaveIsCloseAll(u.tree, d);
    CloseAllSkips(StoresOf(u.tree), d, p);
    CloseThenOpen(u.core.list, u.core.disk, false);
    assert p != [];
  }

  /** What uninit and init make of any state whose list can be saved. */
  lemma RestartWalks(u: State, walk: seq<Entry>, order: seq<Str>)
    requires ListSaves(u)
    ensures var r := Init(u.tree.path, Saved(u), walk, order);
      var c := Core(Emplaced(u.core.list.groups, map[]), u.core.list, Saved(u));
      if Readable(u.core.list.groups) then r == LoadAll(walk, State(Bare(RootAt(u.tree.path)), c), order) else !r.ok
  {
    ListIsBack(u);
    assert Exists(Saved(u), u.tree.path);
  }

  /** The directories under the root have the index's names, each once, and the index has none twice. */
  ghost predicate DirsNamed(root: Str, d: Disk, index: map<Str, Str>) {
    && NamesApart(index)
    && (forall p, q :: IsDirBelow(root, d, p) && IsDirBelow(root, d, q) && FileName(p) == FileName(q) ==> p == q)
    && (forall n :: n in index.Values <==> IsDirName(root, d, n))
  }

  ghost predicate IsDirName(root: Str, d: Disk, n: Str) {
    exists p :: IsDirBelow(root, d, p) && FileName(p) == n
  }

  /** A restart after any calls that kept tree, index and list in agreement, renames and failing
      directories included: when it comes up, its three copies agree if and only if the directories on
      the disk have the names of the list, none twice. */
  lemma RestartAgreesIff(u: State, walk: seq<Entry>, order: seq<Str>)
    requires Agree(u) && ListSaves(u) && IsWalk(u.tree.path, Saved(u), walk)
    requires Lists(order, Emplaced(u.core.list.groups, map[]))
    ensures var r := Init(u.tree.path, Saved(u), walk, order); var index := Emplaced(u.core.list.groups, map[]);
      r.ok ==>
        && r.s.core == Core(index, u.core.list, Saved(u))
        && (Agree(r.s) <==> DirsNamed(u.tree.path, u.core.disk, index))
        && (Unique(ByName, r.s.tree) <==> NoneTwice([FileName(u.tree.path)] + DirNames(walk)))
  {
    var r := Init(u.tree.path, Saved(u), walk, order);
    if r.ok {
      RestartCore(u, walk, order);
      CoreAgreesIff(u, walk, order, r);
    }
  }

  lemma RestartCore(u: State, walk: seq<Entry>, order: seq<Str>)
    requires ListSaves(u) && Init(u.tree.path, Saved(u), walk, order).ok
    ensures Init(u.tree.path, Saved(u), walk, order).s.core ==
            Core(Emplaced(u.core.list.groups, map[]), u.core.list, Saved(u))
    ensures Saved(u).dirs == u.core.disk.dirs
  {
    RestartWalks(u, walk, order);
    ListIsBack(u);
    var c := Core(Emplaced(u.core.list.groups, map[]), u.core.list, Saved(u));
    WalkBuilds(walk, RootAt(u.tree.path), c, order);
  }

  lemma CoreAgreesIff(u: State, walk: seq<Entry>, order: seq<Str>, r: Loading)
    requires r == Init(u.tree.path, Saved(u), walk, order) && r.ok && Agree(u)
    requires r.s.core == Core(Emplaced(u.core.list.groups, map[]), u.core.list, Saved(u))
    requires Saved(u).dirs == u.core.disk.dirs && IsWalk(u.tree.path, Saved(u), walk) && Lists(order, r.s.core.index)
    ensures Agree(r.s) <==> DirsNamed(u.tree.path, u.core.disk, r.s.core.index)
    ensures Unique(ByName, r.s.tree) <==> NoneTwice([FileName(u.tree.path)] + DirNames(walk))
  {
    InitAgreesIff(u.tree.path, Saved(u), walk, order);
    NamedIff(u, walk, r.s.core);
  }

  lemma NamedIff(u: State, walk: seq<Entry>, c: Core)
    requires Agree(u) && c == Core(Emplaced(u.core.list.groups, map[]), u.core.list, c.disk)
    requires c.disk.dirs == u.core.disk.dirs && IsWalk(u.tree.path, c.disk, walk)
    ensures Named(c, DirNames(walk)) <==> DirsNamed(u.tree.path, u.core.disk, c.index)
  {
    WalkNames(u.tree.path, c.disk, walk);
    EmplacedKeepsFirst(u.core.list.groups, map[], []);
    IdsAreFound(u.core.list.groups, []);
    forall p
      ensures IsDirBelow(u.tree.path, c.disk, p) <==> IsDirBelow(u.tree.path, u.core.disk, p)
    {
    }
    forall n
      ensures n in DirNames(walk) <==> IsDirName(u.tree.path, u.core.disk, n)
    {
    }
  }
}
