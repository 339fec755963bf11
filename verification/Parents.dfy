/** Who is whose parent in a group tree, told by the subgroups alone. */
module Parents {
  import opened Bytes
  import opened Groups

  /** `kid` is a subgroup of the node whose id is `parent`. */
  datatype Edge = Edge(parent: Str, kid: Header)

  function Edges(g: Group): set<Edge>
    decreases g, 1
  {
    EdgesOf(g.id, g.kids)
  }

  function EdgesOf(pid: Str, gs: seq<Group>): set<Edge>
    decreases gs, 0
  {
    if gs == [] then {} else {Edge(pid, gs[0].Head())} + Edges(gs[0]) + EdgesOf(pid, gs[1..])
  }

  ghost predicate HasEdge(es: set<Edge>, h: Header) {
    exists e :: e in es && e.kid == h
  }

  /** No id is a subgroup's twice. */
  ghost predicate OneEach(es: set<Edge>) {
    forall a, b :: a in es && b in es && a.kid.id == b.kid.id ==> a == b
  }

  // ----- where edges begin and end -----

  lemma {:induction false} EdgeEnds(g: Group)
    ensures forall e :: e in Edges(g) ==> e.kid in HeadersOf(g.kids) && e.parent in Keys(ById, g)
    ensures forall h :: h in HeadersOf(g.kids) ==> HasEdge(Edges(g), h)
    decreases g, 1
  {
    EdgeEndsOf(g.id, g.kids);
    assert g.Head() in Headers(g) && Key(ById, g.Head()) == g.id;
  }

  lemma {:induction false} EdgeEndsOf(pid: Str, gs: seq<Group>)
    ensures forall e :: e in EdgesOf(pid, gs) ==>
      e.kid in HeadersOf(gs) && (e.parent == pid || e.parent in KeysOf(ById, gs))
    ensures forall h :: h in HeadersOf(gs) ==> HasEdge(EdgesOf(pid, gs), h)
    decreases gs, 0
  {
    if gs != [] {
      EdgeEnds(gs[0]);
      EdgeEndsOf(pid, gs[1..]);
      forall h | h in HeadersOf(gs)
        ensures HasEdge(EdgesOf(pid, gs), h)
      {
        if h == gs[0].Head() {
          assert Edge(pid, h) in EdgesOf(pid, gs);
        } else if h in HeadersOf(gs[0].kids) {
          var e :| e in Edges(gs[0]) && e.kid == h;
          assert e in EdgesOf(pid, gs);
        } else {
          assert Headers(gs[0]) == {gs[0].Head()} + HeadersOf(gs[0].kids);
          assert h in HeadersOf(gs[1..]) && HasEdge(EdgesOf(pid, gs[1..]), h);
          var e :| e in EdgesOf(pid, gs[1..]) && e.kid == h;
          assert e in EdgesOf(pid, gs);
        }
      }
    }
  }

  lemma {:induction false} OneParent(g: Group)
    requires Unique(ById, g)
    ensures OneEach(Edges(g))
    decreases g, 1
  {
    OneParentOf(g.id, g.kids);
  }

  lemma {:induction false} OneParentOf(pid: Str, gs: seq<Group>)
    requires UniqueAll(ById, gs)
    ensures OneEach(EdgesOf(pid, gs))
    decreases gs, 0
  {
    if gs != [] {
      OneParent(gs[0]);
      OneParentOf(pid, gs[1..]);
      EdgeEnds(gs[0]);
      EdgeEndsOf(pid, gs[1..]);
      forall a, b | a in EdgesOf(pid, gs) && b in EdgesOf(pid, gs) && a.kid.id == b.kid.id
        ensures a == b
      {
        SamePart(pid, gs, a, b);
      }
    }
  }

  /** Edges to the same id lie in the same part of the list. */
  lemma SamePart(pid: Str, gs: seq<Group>, a: Edge, b: Edge)
    requires gs != [] && UniqueAll(ById, gs)
    requires a in EdgesOf(pid, gs) && b in EdgesOf(pid, gs) && a.kid.id == b.kid.id
    ensures a == Edge(pid, gs[0].Head()) <==> b == Edge(pid, gs[0].Head())
    ensures a in Edges(gs[0]) <==> b in Edges(gs[0])
    ensures a in EdgesOf(pid, gs[1..]) <==> b in EdgesOf(pid, gs[1..])
  {
    PartOfEdge(pid, gs, a);
    PartOfEdge(pid, gs, b);
  }

  /** An edge's part of the list, told by the kid's id. */
  lemma PartOfEdge(pid: Str, gs: seq<Group>, e: Edge)
    requires gs != [] && UniqueAll(ById, gs) && e in EdgesOf(pid, gs)
    ensures e == Edge(pid, gs[0].Head()) <==> e.kid.id == gs[0].id
    ensures e in Edges(gs[0]) <==> e.kid.id in KeysOf(ById, gs[0].kids)
    ensures e in EdgesOf(pid, gs[1..]) <==> e.kid.id in KeysOf(ById, gs[1..])
  {
    EdgeEnds(gs[0]);
    EdgeEndsOf(pid, gs[1..]);
    KeysOfNode(ById, gs[0]);
    assert Key(ById, gs[0].Head()) == gs[0].id;
    if e in Edges(gs[0]) {
      assert Key(ById, e.kid) == e.kid.id;
    }
    if e in EdgesOf(pid, gs[1..]) {
      assert Key(ById, e.kid) == e.kid.id;
    }
  }

  // ----- lists of subgroups -----

  lemma {:induction false} EdgesConcat(pid: Str, a: seq<Group>, b: seq<Group>)
    ensures EdgesOf(pid, a + b) == EdgesOf(pid, a) + EdgesOf(pid, b)
  {
    if a == [] {
      assert a + b == b;
    } else {
      assert (a + b)[1..] == a[1..] + b;
      EdgesConcat(pid, a[1..], b);
    }
  }

  lemma EdgesSplit(pid: Str, gs: seq<Group>, i: nat)
    requires i < |gs|
    ensures EdgesOf(pid, gs) == EdgesOf(pid, gs[..i] + gs[i + 1..]) + {Edge(pid, gs[i].Head())} + Edges(gs[i])
  {
    SplitAround(gs, i);
    EdgesConcat(pid, gs[..i], [gs[i]] + gs[i + 1..]);
    EdgesConcat(pid, [gs[i]], gs[i + 1..]);
    EdgesConcat(pid, gs[..i], gs[i + 1..]);
    assert EdgesOf(pid, [gs[i]]) == {Edge(pid, gs[i].Head())} + Edges(gs[i]);
  }

  // ----- one node -----

  /** A node's edges are the tree's, and all those that begin in it. */
  lemma {:induction false} NodeEdges(g: Group, key: Str)
    requires Unique(ById, g) && key in Keys(ById, g)
    ensures Edges(Node(ById, g, key)) <= Edges(g)
    ensures forall e :: e in Edges(g) && e.parent in Keys(ById, Node(ById, g, key)) ==> e in Edges(Node(ById, g, key))
    decreases g, 1
  {
    if Key(ById, g.Head()) != key {
      NodeEdgesIn(g.id, g.kids, key);
    }
  }

  lemma {:induction false} NodeEdgesIn(pid: Str, gs: seq<Group>, key: Str)
    requires UniqueAll(ById, gs) && key in KeysOf(ById, gs) && pid !in KeysOf(ById, gs)
    ensures Edges(NodeIn(ById, gs, key)) <= EdgesOf(pid, gs)
    ensures forall e :: e in EdgesOf(pid, gs) && e.parent in Keys(ById, NodeIn(ById, gs, key)) ==>
      e in Edges(NodeIn(ById, gs, key))
    decreases gs, 0
  {
    var n := NodeIn(ById, gs, key);
    EdgeEnds(gs[0]);
    EdgeEndsOf(pid, gs[1..]);
    if key in Keys(ById, gs[0]) {
      NodeEdges(gs[0], key);
      PutHeaders(ById, gs[0], key, n);
      assert Keys(ById, n) <= Keys(ById, gs[0]) <= KeysOf(ById, gs);
    } else {
      NodeEdgesIn(pid, gs[1..], key);
      PutHeadersIn(ById, gs[1..], key, n);
      assert Keys(ById, n) <= KeysOf(ById, gs[1..]) <= KeysOf(ById, gs);
    }
  }

  /** `es'` is `es` with the edges of the node `m` replaced by those of `n`, and the edge to `m`, if there
      is one, by one to `n`. */
  ghost predicate Replaced(es: set<Edge>, m: Group, n: Group, es': set<Edge>) {
    forall e {:trigger e in es'} :: e in es' <==> Kept(es, m, n, e)
  }

  ghost predicate Kept(es: set<Edge>, m: Group, n: Group, e: Edge) {
    || e in Edges(n)
    || (e.kid == n.Head() && Edge(e.parent, m.Head()) in es)
    || (e in es && e !in Edges(m) && e.kid != m.Head())
  }

  lemma {:induction false} PutEdges(g: Group, key: Str, n: Group)
    requires Unique(ById, g) && key in Keys(ById, g) && n.id == key
    ensures Replaced(Edges(g), Node(ById, g, key), n, Edges(Put(ById, g, key, n)))
    decreases g, 1
  {
    if Key(ById, g.Head()) != key {
      PutEdgesOf(g.id, g.kids, key, n);
    } else {
      EdgeEnds(g);
      assert g.Head() !in HeadersOf(g.kids);
    }
  }

  lemma {:induction false} PutEdgesOf(pid: Str, gs: seq<Group>, key: Str, n: Group)
    requires UniqueAll(ById, gs) && key in KeysOf(ById, gs) && pid !in KeysOf(ById, gs) && n.id == key
    ensures Replaced(EdgesOf(pid, gs), NodeIn(ById, gs, key), n, EdgesOf(pid, PutIn(ById, gs, key, n)))
    decreases gs, 0
  {
    var m := NodeIn(ById, gs, key);
    if key in Keys(ById, gs[0]) {
      PutEdges(gs[0], key, n);
      var first := Put(ById, gs[0], key, n);
      assert PutIn(ById, gs, key, n) == [first] + gs[1..];
      assert ([first] + gs[1..])[1..] == gs[1..];
      FirstReplaced(pid, gs, key, n, first);
    } else {
      PutEdgesOf(pid, gs[1..], key, n);
      var rest := PutIn(ById, gs[1..], key, n);
      assert PutIn(ById, gs, key, n) == [gs[0]] + rest;
      assert ([gs[0]] + rest)[1..] == rest;
      RestReplaced(pid, gs, key, n, rest);
    }
  }

  lemma FirstReplaced(pid: Str, gs: seq<Group>, key: Str, n: Group, first: Group)
    requires gs != [] && UniqueAll(ById, gs) && key in Keys(ById, gs[0]) && n.id == key
    requires first == Put(ById, gs[0], key, n) && Replaced(Edges(gs[0]), Node(ById, gs[0], key), n, Edges(first))
    ensures Replaced(EdgesOf(pid, gs), Node(ById, gs[0], key), n,
                     {Edge(pid, first.Head())} + Edges(first) + EdgesOf(pid, gs[1..]))
  {
    var m, es := Node(ById, gs[0], key), EdgesOf(pid, gs);
    var es' := {Edge(pid, first.Head())} + Edges(first) + EdgesOf(pid, gs[1..]);
    NodeEdges(gs[0], key);
    PutHeaders(ById, gs[0], key, m);
    assert m.Head() in Headers(m) && Key(ById, m.Head()) == key;
    EdgeEnds(gs[0]);
    EdgeEnds(m);
    EdgeEndsOf(pid, gs[1..]);
    forall e
      ensures e in es' <==> Kept(es, m, n, e)
    {
      FirstKept(pid, gs, key, n, first, e);
    }
  }

  lemma FirstKept(pid: Str, gs: seq<Group>, key: Str, n: Group, first: Group, e: Edge)
    requires gs != [] && UniqueAll(ById, gs) && key in Keys(ById, gs[0]) && n.id == key
    requires first == Put(ById, gs[0], key, n) && Replaced(Edges(gs[0]), Node(ById, gs[0], key), n, Edges(first))
    ensures e in {Edge(pid, first.Head())} + Edges(first) + EdgesOf(pid, gs[1..]) <==>
            Kept(EdgesOf(pid, gs), Node(ById, gs[0], key), n, e)
  {
    var m, es := Node(ById, gs[0], key), EdgesOf(pid, gs);
    var up := Edge(e.parent, m.Head());
    NodeEdges(gs[0], key);
    EdgeEnds(m);
    EdgeEnds(gs[0]);
    assert Key(ById, m.Head()) == key == m.id;
    KeysOfNode(ById, gs[0]);
    if e in es {
      PartOfEdge(pid, gs, e);
    }
    if up in es {
      PartOfEdge(pid, gs, up);
    }
    if key == gs[0].id {
      assert m == gs[0] && first == n;
    } else {
      assert first.Head() == gs[0].Head();
    }
    assert e in Edges(first) <==> Kept(Edges(gs[0]), m, n, e);
  }

  lemma RestReplaced(pid: Str, gs: seq<Group>, key: Str, n: Group, rest: seq<Group>)
    requires gs != [] && UniqueAll(ById, gs) && key in KeysOf(ById, gs[1..]) && n.id == key
    requires Replaced(EdgesOf(pid, gs[1..]), NodeIn(ById, gs[1..], key), n, EdgesOf(pid, rest))
    requires pid !in KeysOf(ById, gs[1..])
    ensures Replaced(EdgesOf(pid, gs), NodeIn(ById, gs[1..], key), n,
                     {Edge(pid, gs[0].Head())} + Edges(gs[0]) + EdgesOf(pid, rest))
  {
    var m, es := NodeIn(ById, gs[1..], key), EdgesOf(pid, gs);
    forall e
      ensures e in {Edge(pid, gs[0].Head())} + Edges(gs[0]) + EdgesOf(pid, rest) <==> Kept(es, m, n, e)
    {
      RestKept(pid, gs, key, n, rest, e);
    }
  }

  lemma RestKept(pid: Str, gs: seq<Group>, key: Str, n: Group, rest: seq<Group>, e: Edge)
    requires gs != [] && UniqueAll(ById, gs) && key in KeysOf(ById, gs[1..]) && n.id == key
    requires Replaced(EdgesOf(pid, gs[1..]), NodeIn(ById, gs[1..], key), n, EdgesOf(pid, rest))
    requires pid !in KeysOf(ById, gs[1..])
    ensures e in {Edge(pid, gs[0].Head())} + Edges(gs[0]) + EdgesOf(pid, rest) <==>
            Kept(EdgesOf(pid, gs), NodeIn(ById, gs[1..], key), n, e)
  {
    var m, es := NodeIn(ById, gs[1..], key), EdgesOf(pid, gs);
    var up := Edge(e.parent, m.Head());
    NodeEdgesIn(pid, gs[1..], key);
    PutHeadersIn(ById, gs[1..], key, m);
    EdgeEnds(m);
    EdgeEnds(gs[0]);
    assert Key(ById, m.Head()) == key == m.id;
    KeysOfNode(ById, gs[0]);
    if e in es {
      PartOfEdge(pid, gs, e);
    }
    if up in es {
      PartOfEdge(pid, gs, up);
    }
    assert e in EdgesOf(pid, rest) <==> Kept(EdgesOf(pid, gs[1..]), m, n, e);
  }

  // ----- the edits -----

  /** A new leaf hangs at the node. */
  lemma EdgesAdded(g: Group, pid: Str, leaf: Group)
    requires Unique(ById, g) && pid in Keys(ById, g) && leaf.kids == []
    ensures var n := Node(ById, g, pid);
      Edges(Put(ById, g, pid, n.(kids := n.kids + [leaf]))) == Edges(g) + {Edge(pid, leaf.Head())}
  {
    var n := Node(ById, g, pid);
    var n' := n.(kids := n.kids + [leaf]);
    PutEdges(g, pid, n');
    NodeEdges(g, pid);
    EdgesConcat(pid, n.kids, [leaf]);
    assert Edges(leaf) == {} && EdgesOf(pid, [leaf][1..]) == {};
    assert EdgesOf(pid, [leaf]) == {Edge(pid, leaf.Head())};
    assert Key(ById, n.Head()) == n.id;
    assert n'.Head() == n.Head() && n'.id == n.id == pid;
    assert Edges(n') == EdgesOf(pid, n.kids + [leaf]);
    assert Edges(n) == EdgesOf(pid, n.kids);
    forall e
      ensures e in Edges(Put(ById, g, pid, n')) <==> e in Edges(g) + {Edge(pid, leaf.Head())}
    {
      if e.kid == n.Head() {
        assert Edge(e.parent, n.Head()) == e;
      }
    }
  }

  /** A subgroup of the node goes, with all below it. */
  lemma EdgesDropped(g: Group, pid: Str, i: nat)
    requires Unique(ById, g) && pid in Keys(ById, g) && i < |Node(ById, g, pid).kids|
    ensures var n := Node(ById, g, pid); var f := n.kids[i];
      && Edge(pid, f.Head()) in Edges(g) && Edges(f) <= Edges(g)
      && Edges(Put(ById, g, pid, n.(kids := n.kids[..i] + n.kids[i + 1..]))) ==
           Edges(g) - {Edge(pid, f.Head())} - Edges(f)
  {
    var n := Node(ById, g, pid);
    var f, n' := n.kids[i], n.(kids := n.kids[..i] + n.kids[i + 1..]);
    PutEdges(g, pid, n');
    NodeEdges(g, pid);
    NodeUnique(ById, ById, g, pid);
    EdgesSplit(pid, n.kids, i);
    PartsApart(n, i, pid);
    assert n'.Head() == n.Head() && Key(ById, n.Head()) == n.id;
    forall e
      ensures e in Edges(Put(ById, g, pid, n')) <==> e in Edges(g) - {Edge(pid, f.Head())} - Edges(f)
    {
      if e.kid == n.Head() {
        assert Edge(e.parent, n.Head()) == e;
        NotBelowItself(g, pid, e);
      }
    }
  }

  lemma PartsApart(n: Group, i: nat, pid: Str)
    requires Unique(ById, n) && i < |n.kids|
    ensures var f := n.kids[i]; var others := EdgesOf(pid, n.kids[..i] + n.kids[i + 1..]);
      Edge(pid, f.Head()) !in others && Edges(f) !! others
  {
    var f := n.kids[i];
    KidsSplit(n.kids, i);
    EdgeEndsOf(pid, n.kids[..i] + n.kids[i + 1..]);
    EdgeEnds(f);
    KeysOfNode(ById, f);
    assert Key(ById, f.Head()) in Keys(ById, f);
    forall e | e in EdgesOf(pid, n.kids[..i] + n.kids[i + 1..])
      ensures e.kid.id !in Keys(ById, f)
    {
      assert Key(ById, e.kid) in KeysOf(ById, n.kids[..i] + n.kids[i + 1..]);
    }
    forall e | e in Edges(f)
      ensures e.kid.id in Keys(ById, f)
    {
      assert Key(ById, e.kid) in KeysOf(ById, f.kids);
    }
  }

  /** The edge to a node is none of the node's own. */
  lemma NotBelowItself(g: Group, key: Str, e: Edge)
    requires Unique(ById, g) && key in Keys(ById, g) && e.kid == Node(ById, g, key).Head()
    ensures e !in Edges(Node(ById, g, key))
  {
    var n := Node(ById, g, key);
    NodeUnique(ById, ById, g, key);
    EdgeEnds(n);
    assert forall h :: h in HeadersOf(n.kids) ==> Key(ById, h) in KeysOf(ById, n.kids);
  }

  /** The header of a subgroup of the node changes, its id not. */
  lemma EdgesRekid(g: Group, pid: Str, i: nat, h: Header)
    requires Unique(ById, g) && pid in Keys(ById, g) && i < |Node(ById, g, pid).kids|
    requires h.id == Node(ById, g, pid).kids[i].id
    ensures var n := Node(ById, g, pid); var f := n.kids[i];
      && Edge(pid, f.Head()) in Edges(g)
      && Edges(Put(ById, g, pid, n.(kids := n.kids[i := Group(h.name, h.id, h.path, h.stores, f.kids)]))) ==
         Edges(g) - {Edge(pid, f.Head())} + {Edge(pid, h)}
  {
    var n := Node(ById, g, pid);
    var f := n.kids[i];
    var f' := Group(h.name, h.id, h.path, h.stores, f.kids);
    var n' := n.(kids := n.kids[i := f']);
    PutEdges(g, pid, n');
    NodeEdges(g, pid);
    EdgesSplit(pid, n.kids, i);
    EdgesSplit(pid, n'.kids, i);
    assert n'.kids[..i] + n'.kids[i + 1..] == n.kids[..i] + n.kids[i + 1..];
    NodeUnique(ById, ById, g, pid);
    PartsApart(n, i, pid);
    assert f'.Head() == h && f'.id == f.id && Edges(f') == Edges(f);
    assert n'.Head() == n.Head() && Key(ById, n.Head()) == n.id;
    KidsSplit(n.kids, i);
    OneParent(g);
    forall e
      ensures e in Edges(Put(ById, g, pid, n')) <==> e in Edges(g) - {Edge(pid, f.Head())} + {Edge(pid, h)}
    {
      if e.kid == n.Head() {
        assert Edge(e.parent, n.Head()) == e;
        NotBelowItself(g, pid, e);
      }
      NotBelowKid(f, Edge(pid, f.Head()));
    }
  }

  lemma NotBelowKid(f: Group, e: Edge)
    requires Unique(ById, f) && e.kid == f.Head()
    ensures e !in Edges(f)
  {
    EdgeEnds(f);
    assert forall h :: h in HeadersOf(f.kids) ==> Key(ById, h) in KeysOf(ById, f.kids);
  }

  /** The header of the node itself changes, its id not; the node is not the root. */
  lemma EdgesRehead(g: Group, key: Str, h: Header) returns (p: Str)
    requires Unique(ById, g) && key in Keys(ById, g) && key != g.id && h.id == key
    ensures var n := Node(ById, g, key);
      && Edge(p, n.Head()) in Edges(g)
      && Edges(Put(ById, g, key, Group(h.name, h.id, h.path, h.stores, n.kids))) ==
         Edges(g) - {Edge(p, n.Head())} + {Edge(p, h)}
  {
    var n := Node(ById, g, key);
    var n' := Group(h.name, h.id, h.path, h.stores, n.kids);
    PutEdges(g, key, n');
    NodeEdges(g, key);
    EdgeEnds(g);
    OneParent(g);
    PutHeaders(ById, g, key, n);
    assert n.Head() in Headers(n) && n.Head() != g.Head();
    assert HasEdge(Edges(g), n.Head());
    var e :| e in Edges(g) && e.kid == n.Head();
    p := e.parent;
    assert n'.Head() == h && Edges(n') == Edges(n);
    NotBelowItself(g, key, e);
  }

  // ----- subgroups as edges -----

  /** The edges from the list's own parent lead to its members. */
  lemma {:induction false} HeadEdge(pid: Str, gs: seq<Group>, e: Edge)
    requires pid !in KeysOf(ById, gs) && e in EdgesOf(pid, gs) && e.parent == pid
    ensures exists i :: 0 <= i < |gs| && gs[i].Head() == e.kid
    decreases gs
  {
    if e.kid == gs[0].Head() {
      return;
    }
    EdgeEnds(gs[0]);
    assert Keys(ById, gs[0]) <= KeysOf(ById, gs) && KeysOf(ById, gs[1..]) <= KeysOf(ById, gs);
    HeadEdge(pid, gs[1..], e);
    var i :| 0 <= i < |gs[1..]| && gs[1..][i].Head() == e.kid;
    assert gs[i + 1].Head() == e.kid;
  }

  /** An edge that begins in a subgroup is the subgroup's. */
  lemma KidClosed(n: Group, i: nat, e: Edge)
    requires Unique(ById, n) && i < |n.kids| && e in Edges(n) && e.parent in Keys(ById, n.kids[i])
    ensures e in Edges(n.kids[i])
  {
    EdgesSplit(n.id, n.kids, i);
    KidsSplit(n.kids, i);
    EdgeEndsOf(n.id, n.kids[..i] + n.kids[i + 1..]);
    assert Keys(ById, n.kids[i]) <= KeysOf(ById, n.kids);
    assert Key(ById, n.Head()) == n.id;
  }

  lemma EdgeOfKid(g: Group, pid: Str, i: nat)
    requires Unique(ById, g) && pid in Keys(ById, g) && i < |Node(ById, g, pid).kids|
    ensures Edge(pid, Node(ById, g, pid).kids[i].Head()) in Edges(g)
  {
    var n := Node(ById, g, pid);
    assert Key(ById, n.Head()) == n.id;
    NodeEdges(g, pid);
    EdgesSplit(pid, n.kids, i);
  }

  lemma KidOfEdge(g: Group, e: Edge) returns (i: nat)
    requires Unique(ById, g) && e in Edges(g)
    ensures e.parent in Keys(ById, g) && i < |Node(ById, g, e.parent).kids|
    ensures Node(ById, g, e.parent).kids[i].Head() == e.kid
  {
    EdgeEnds(g);
    var n := Node(ById, g, e.parent);
    NodeEdges(g, e.parent);
    NodeUnique(ById, ById, g, e.parent);
    assert n.Head() in Headers(n) && Key(ById, n.Head()) == n.id;
    HeadEdge(e.parent, n.kids, e);
    i :| 0 <= i < |n.kids| && n.kids[i].Head() == e.kid;
  }
}
