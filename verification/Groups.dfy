/** The group tree of src/notebook_impl.h, and replacing one node of it found by id or by name. */
module Groups {
  import opened Bytes
  import opened Stores

  /** CQuestionGroupParam: a value that holds its subgroups. */
  datatype Group = Group(name: Str, id: Str, path: Str, stores: seq<Store>, kids: seq<Group>)
  {
    function Head(): Header {
      Header(name, id, path, stores)
    }
  }

  /** A group without its subgroups. */
  datatype Header = Header(name: Str, id: Str, path: Str, stores: seq<Store>)

  /** A group without subgroups and stores: what a directory is loaded as. */
  function Bare(g: Group): Group {
    g.(stores := [], kids := [])
  }

  datatype Kind = ById | ByName

  function Key(k: Kind, h: Header): Str {
    if k == ById then h.id else h.name
  }

  // ----- the nodes of a tree -----

  function Headers(g: Group): set<Header>
    decreases g, 1
  {
    {g.Head()} + HeadersOf(g.kids)
  }

  function HeadersOf(gs: seq<Group>): set<Header>
    decreases gs, 0
  {
    if gs == [] then {} else Headers(gs[0]) + HeadersOf(gs[1..])
  }

  function Keys(k: Kind, g: Group): set<Str> {
    set h | h in Headers(g) :: Key(k, h)
  }

  function KeysOf(k: Kind, gs: seq<Group>): set<Str> {
    set h | h in HeadersOf(gs) :: Key(k, h)
  }

  /** Every node has a key of its own. */
  predicate Unique(k: Kind, g: Group)
    decreases g, 1
  {
    Key(k, g.Head()) !in KeysOf(k, g.kids) && UniqueAll(k, g.kids)
  }

  predicate UniqueAll(k: Kind, gs: seq<Group>)
    decreases gs, 0
  {
    gs == [] || (Unique(k, gs[0]) && Keys(k, gs[0]) !! KeysOf(k, gs[1..]) && UniqueAll(k, gs[1..]))
  }

  function Size(g: Group): nat
    decreases g, 1
  {
    1 + SizeOf(g.kids)
  }

  function SizeOf(gs: seq<Group>): nat
    decreases gs, 0
  {
    if gs == [] then 0 else Size(gs[0]) + SizeOf(gs[1..])
  }

  // ----- one node -----

  function Node(k: Kind, g: Group, key: Str): (n: Group)
    requires key in Keys(k, g)
    ensures Key(k, n.Head()) == key
    decreases g, 1
  {
    if Key(k, g.Head()) == key then g else NodeIn(k, g.kids, key)
  }

  function NodeIn(k: Kind, gs: seq<Group>, key: Str): (n: Group)
    requires key in KeysOf(k, gs)
    ensures Key(k, n.Head()) == key
    decreases gs, 0
  {
    if key in Keys(k, gs[0]) then Node(k, gs[0], key) else NodeIn(k, gs[1..], key)
  }

  /** `g` with the node of that key replaced by `n`. */
  function Put(k: Kind, g: Group, key: Str, n: Group): Group
    decreases g, 1
  {
    if Key(k, g.Head()) == key then n else g.(kids := PutIn(k, g.kids, key, n))
  }

  function PutIn(k: Kind, gs: seq<Group>, key: Str, n: Group): seq<Group>
    decreases gs, 0
  {
    if gs == [] then []
    else if key in Keys(k, gs[0]) then [Put(k, gs[0], key, n)] + gs[1..]
    else [gs[0]] + PutIn(k, gs[1..], key, n)
  }

  lemma {:induction false} PutSame(k: Kind, g: Group, key: Str)
    requires key in Keys(k, g)
    ensures Put(k, g, key, Node(k, g, key)) == g
    decreases g, 1
  {
    if Key(k, g.Head()) != key {
      PutSameIn(k, g.kids, key);
    }
  }

  lemma {:induction false} PutSameIn(k: Kind, gs: seq<Group>, key: Str)
    requires key in KeysOf(k, gs)
    ensures PutIn(k, gs, key, NodeIn(k, gs, key)) == gs
    decreases gs, 0
  {
    if key in Keys(k, gs[0]) {
      PutSame(k, gs[0], key);
    } else {
      PutSameIn(k, gs[1..], key);
    }
  }

  /** What was put at a key is found there, and replaced by the next that is put there. */
  lemma {:induction false} PutTwice(k: Kind, g: Group, key: Str, n: Group, n': Group)
    requires key in Keys(k, g) && Key(k, n.Head()) == key
    ensures key in Keys(k, Put(k, g, key, n)) && Node(k, Put(k, g, key, n), key) == n
    ensures Put(k, Put(k, g, key, n), key, n') == Put(k, g, key, n')
    decreases g, 1
  {
    if Key(k, g.Head()) == key {
      assert n.Head() in Headers(n);
    } else {
      PutTwiceIn(k, g.kids, key, n, n');
      assert g.(kids := PutIn(k, g.kids, key, n)).Head() == g.Head();
    }
  }

  lemma {:induction false} PutTwiceIn(k: Kind, gs: seq<Group>, key: Str, n: Group, n': Group)
    requires key in KeysOf(k, gs) && Key(k, n.Head()) == key
    ensures key in KeysOf(k, PutIn(k, gs, key, n)) && NodeIn(k, PutIn(k, gs, key, n), key) == n
    ensures PutIn(k, PutIn(k, gs, key, n), key, n') == PutIn(k, gs, key, n')
    decreases gs, 0
  {
    var put := PutIn(k, gs, key, n);
    if key in Keys(k, gs[0]) {
      PutTwice(k, gs[0], key, n, n');
      assert put[1..] == gs[1..] && Keys(k, put[0]) <= KeysOf(k, put);
    } else {
      PutTwiceIn(k, gs[1..], key, n, n');
      assert put[1..] == PutIn(k, gs[1..], key, n) && KeysOf(k, put[1..]) <= KeysOf(k, put);
    }
  }

  /** In a tree of unique ids a subtree holds all the nodes of its ids. */
  lemma SubtreeById(g: Group, f: Group)
    requires Unique(ById, g) && Headers(f) <= Headers(g)
    ensures forall h :: h in Headers(g) ==> (h in Headers(f) <==> h.id in Keys(ById, f))
  {
    forall h | h in Headers(g) && h.id in Keys(ById, f)
      ensures h in Headers(f)
    {
      var x :| x in Headers(f) && x.id == h.id;
      KeyOfOne(ById, g, h, x);
    }
  }

  lemma {:induction false} PutHeaders(k: Kind, g: Group, key: Str, n: Group)
    requires Unique(k, g) && key in Keys(k, g)
    ensures Headers(Node(k, g, key)) <= Headers(g)
    ensures Headers(Put(k, g, key, n)) == (Headers(g) - Headers(Node(k, g, key))) + Headers(n)
    decreases g, 1
  {
    if Key(k, g.Head()) != key {
      PutHeadersIn(k, g.kids, key, n);
      assert g.Head() !in HeadersOf(g.kids);
    }
  }

  lemma {:induction false} PutHeadersIn(k: Kind, gs: seq<Group>, key: Str, n: Group)
    requires UniqueAll(k, gs) && key in KeysOf(k, gs)
    ensures Headers(NodeIn(k, gs, key)) <= HeadersOf(gs)
    ensures HeadersOf(PutIn(k, gs, key, n)) == (HeadersOf(gs) - Headers(NodeIn(k, gs, key))) + Headers(n)
    decreases gs, 0
  {
    var rest := HeadersOf(gs[1..]);
    assert forall h :: h in Headers(gs[0]) && h in rest ==>
      Key(k, h) in Keys(k, gs[0]) && Key(k, h) in KeysOf(k, gs[1..]);
    assert Headers(gs[0]) !! rest;
    if key in Keys(k, gs[0]) {
      PutHeaders(k, gs[0], key, n);
      assert PutIn(k, gs, key, n)[1..] == gs[1..];
    } else {
      PutHeadersIn(k, gs[1..], key, n);
      assert PutIn(k, gs, key, n)[1..] == PutIn(k, gs[1..], key, n);
    }
  }

  /** Keys no other node has may be put in. */
  predicate FitsIn(j: Kind, n: Group, m: Group, keys: set<Str>) {
    Unique(j, n) && Keys(j, n) !! (keys - Keys(j, m))
  }

  lemma {:induction false} PutUnique(k: Kind, j: Kind, g: Group, key: Str, n: Group)
    requires Unique(k, g) && Unique(j, g) && key in Keys(k, g)
    requires FitsIn(j, n, Node(k, g, key), Keys(j, g))
    ensures Unique(j, Put(k, g, key, n))
    decreases g, 1
  {
    if Key(k, g.Head()) != key {
      var m := NodeIn(k, g.kids, key);
      PutHeadersIn(k, g.kids, key, n);
      assert Key(j, g.Head()) !in Keys(j, m);
      assert KeysOf(j, g.kids) <= Keys(j, g);
      PutUniqueIn(k, j, g.kids, key, n);
      assert Key(j, g.Head()) !in Keys(j, n);
      assert g.(kids := PutIn(k, g.kids, key, n)).Head() == g.Head();
    }
  }

  lemma {:induction false} PutUniqueIn(k: Kind, j: Kind, gs: seq<Group>, key: Str, n: Group)
    requires UniqueAll(k, gs) && UniqueAll(j, gs) && key in KeysOf(k, gs)
    requires FitsIn(j, n, NodeIn(k, gs, key), KeysOf(j, gs))
    ensures UniqueAll(j, PutIn(k, gs, key, n))
    decreases gs, 0
  {
    var m, rest := NodeIn(k, gs, key), gs[1..];
    assert Keys(j, gs[0]) <= KeysOf(j, gs) && KeysOf(j, rest) <= KeysOf(j, gs);
    if key in Keys(k, gs[0]) {
      PutHeaders(k, gs[0], key, n);
      assert Keys(j, m) <= Keys(j, gs[0]);
      PutUnique(k, j, gs[0], key, n);
      assert Keys(j, Put(k, gs[0], key, n)) <= Keys(j, gs[0]) + Keys(j, n);
      assert PutIn(k, gs, key, n)[1..] == rest;
    } else {
      PutHeadersIn(k, rest, key, n);
      assert Keys(j, m) <= KeysOf(j, rest);
      PutUniqueIn(k, j, rest, key, n);
      assert KeysOf(j, PutIn(k, rest, key, n)) <= KeysOf(j, rest) + Keys(j, n);
      assert PutIn(k, gs, key, n)[1..] == PutIn(k, rest, key, n);
    }
  }

  /** In a tree of unique keys a key belongs to one node. */
  lemma {:induction false} KeyOfOne(k: Kind, g: Group, a: Header, b: Header)
    requires Unique(k, g) && a in Headers(g) && b in Headers(g) && Key(k, a) == Key(k, b)
    ensures a == b
    decreases g, 1
  {
    assert forall h :: h in HeadersOf(g.kids) ==> Key(k, h) in KeysOf(k, g.kids);
    if a in HeadersOf(g.kids) && b in HeadersOf(g.kids) {
      KeyOfOneIn(k, g.kids, a, b);
    }
  }

  lemma {:induction false} KeyOfOneIn(k: Kind, gs: seq<Group>, a: Header, b: Header)
    requires UniqueAll(k, gs) && a in HeadersOf(gs) && b in HeadersOf(gs) && Key(k, a) == Key(k, b)
    ensures a == b
    decreases gs, 0
  {
    var first, rest := gs[0], gs[1..];
    assert forall h :: h in Headers(first) ==> Key(k, h) in Keys(k, first);
    assert forall h :: h in HeadersOf(rest) ==> Key(k, h) in KeysOf(k, rest);
    if a in Headers(first) && b in Headers(first) {
      KeyOfOne(k, first, a, b);
    } else if a in HeadersOf(rest) && b in HeadersOf(rest) {
      KeyOfOneIn(k, rest, a, b);
    }
  }

  lemma {:induction false} NodeUnique(k: Kind, j: Kind, g: Group, key: Str)
    requires Unique(j, g) && key in Keys(k, g)
    ensures Unique(j, Node(k, g, key))
    decreases g, 1
  {
    if Key(k, g.Head()) != key {
      NodeUniqueIn(k, j, g.kids, key);
    }
  }

  lemma {:induction false} NodeUniqueIn(k: Kind, j: Kind, gs: seq<Group>, key: Str)
    requires UniqueAll(j, gs) && key in KeysOf(k, gs)
    ensures Unique(j, NodeIn(k, gs, key))
    decreases gs, 0
  {
    if key in Keys(k, gs[0]) {
      NodeUnique(k, j, gs[0], key);
    } else {
      NodeUniqueIn(k, j, gs[1..], key);
    }
  }

  // ----- lists of subgroups -----

  lemma {:induction false} HeadersConcat(a: seq<Group>, b: seq<Group>)
    ensures HeadersOf(a + b) == HeadersOf(a) + HeadersOf(b)
  {
    if a == [] {
      assert a + b == b;
    } else {
      assert (a + b)[1..] == a[1..] + b;
      HeadersConcat(a[1..], b);
    }
  }

  lemma KeysConcat(k: Kind, a: seq<Group>, b: seq<Group>)
    ensures KeysOf(k, a + b) == KeysOf(k, a) + KeysOf(k, b)
  {
    HeadersConcat(a, b);
  }

  lemma KeysOfNode(k: Kind, g: Group)
    ensures Keys(k, g) == {Key(k, g.Head())} + KeysOf(k, g.kids)
  {
    assert g.Head() in Headers(g);
  }

  lemma {:induction false} UniqueConcat(k: Kind, a: seq<Group>, b: seq<Group>)
    ensures UniqueAll(k, a + b) <==> UniqueAll(k, a) && UniqueAll(k, b) && KeysOf(k, a) !! KeysOf(k, b)
  {
    if a == [] {
      assert a + b == b;
    } else {
      assert (a + b)[1..] == a[1..] + b;
      HeadersConcat(a[1..], b);
      UniqueConcat(k, a[1..], b);
      assert KeysOf(k, a) == Keys(k, a[0]) + KeysOf(k, a[1..]);
      assert KeysOf(k, a[1..] + b) == KeysOf(k, a[1..]) + KeysOf(k, b);
    }
  }

  lemma {:induction false} SizeConcat(a: seq<Group>, b: seq<Group>)
    ensures SizeOf(a + b) == SizeOf(a) + SizeOf(b)
  {
    if a == [] {
      assert a + b == b;
    } else {
      assert (a + b)[1..] == a[1..] + b;
      SizeConcat(a[1..], b);
    }
  }

  lemma SplitAround<T>(xs: seq<T>, i: nat)
    requires i < |xs|
    ensures xs == xs[..i] + ([xs[i]] + xs[i + 1..])
  {
  }

  /** A list splits around one of its elements. */
  lemma KidsSplit(gs: seq<Group>, i: nat)
    requires i < |gs|
    ensures HeadersOf(gs) == HeadersOf(gs[..i] + gs[i + 1..]) + Headers(gs[i])
    ensures SizeOf(gs) == SizeOf(gs[..i] + gs[i + 1..]) + Size(gs[i])
    ensures forall k :: UniqueAll(k, gs) ==>
      UniqueAll(k, gs[..i] + gs[i + 1..]) && Unique(k, gs[i]) && Keys(k, gs[i]) !! KeysOf(k, gs[..i] + gs[i + 1..])
  {
    var a, x, b := gs[..i], [gs[i]], gs[i + 1..];
    SplitAround(gs, i);
    assert x[1..] == [];
    HeadersConcat(a, x + b);
    HeadersConcat(x, b);
    HeadersConcat(a, b);
    SizeConcat(a, x + b);
    SizeConcat(x, b);
    SizeConcat(a, b);
    forall k | UniqueAll(k, gs)
      ensures UniqueAll(k, a + b) && Unique(k, gs[i]) && Keys(k, gs[i]) !! KeysOf(k, a + b)
    {
      UniqueConcat(k, a, x + b);
      UniqueConcat(k, x, b);
      UniqueConcat(k, a, b);
      assert KeysOf(k, x + b) == Keys(k, gs[i]) + KeysOf(k, b);
      assert KeysOf(k, a + b) == KeysOf(k, a) + KeysOf(k, b);
    }
  }

  // ----- the edits made at a node -----

  /** A branch behind the subgroups of the node. */
  lemma PutBranch(k: Kind, g: Group, key: Str, f: Group)
    requires Unique(k, g) && key in Keys(k, g)
    ensures var n := Node(k, g, key);
      Headers(Put(k, g, key, n.(kids := n.kids + [f]))) == Headers(g) + Headers(f)
  {
    var n := Node(k, g, key);
    var n' := n.(kids := n.kids + [f]);
    PutHeaders(k, g, key, n');
    HeadersConcat(n.kids, [f]);
    assert HeadersOf([f]) == Headers(f);
    assert n'.Head() == n.Head();
  }

  lemma PutBranchUnique(k: Kind, j: Kind, g: Group, key: Str, f: Group)
    requires Unique(k, g) && key in Keys(k, g)
    requires Unique(j, g) && Unique(j, f) && Keys(j, f) !! Keys(j, g)
    ensures var n := Node(k, g, key);
      Unique(j, Put(k, g, key, n.(kids := n.kids + [f])))
  {
    var n := Node(k, g, key);
    PutHeaders(k, g, key, n);
    NodeUnique(k, j, g, key);
    BranchUnique(j, n, f);
    PutUnique(k, j, g, key, n.(kids := n.kids + [f]));
  }

  lemma BranchUnique(j: Kind, n: Group, f: Group)
    requires Unique(j, n) && Unique(j, f) && Keys(j, f) !! Keys(j, n)
    ensures var n' := n.(kids := n.kids + [f]); Unique(j, n') && Keys(j, n') == Keys(j, n) + Keys(j, f)
  {
    var n' := n.(kids := n.kids + [f]);
    HeadersConcat(n.kids, [f]);
    UniqueConcat(j, n.kids, [f]);
    assert HeadersOf([f]) == Headers(f) && KeysOf(j, []) == {};
    assert UniqueAll(j, [f]) && KeysOf(j, [f]) == Keys(j, f);
    KeysOfNode(j, n);
    KeysOfNode(j, n');
    KeysConcat(j, n.kids, [f]);
    assert n'.Head() == n.Head();
  }

  lemma LeafHeaders(leaf: Group)
    requires leaf.kids == []
    ensures Headers(leaf) == {leaf.Head()} && forall j :: Unique(j, leaf) && Keys(j, leaf) == {Key(j, leaf.Head())}
  {
    forall j
      ensures Keys(j, leaf) == {Key(j, leaf.Head())} && KeysOf(j, leaf.kids) == {}
    {
      KeysOfNode(j, leaf);
    }
  }

  /** A new leaf behind the subgroups of the node. */
  lemma PutKid(k: Kind, g: Group, key: Str, leaf: Group)
    requires Unique(k, g) && key in Keys(k, g) && leaf.kids == []
    ensures var n := Node(k, g, key);
      Headers(Put(k, g, key, n.(kids := n.kids + [leaf]))) == Headers(g) + {leaf.Head()}
  {
    LeafHeaders(leaf);
    PutBranch(k, g, key, leaf);
  }

  lemma PutKidUnique(k: Kind, j: Kind, g: Group, key: Str, leaf: Group)
    requires Unique(k, g) && key in Keys(k, g) && leaf.kids == []
    requires Unique(j, g) && Key(j, leaf.Head()) !in Keys(j, g)
    ensures var n := Node(k, g, key);
      Unique(j, Put(k, g, key, n.(kids := n.kids + [leaf])))
  {
    LeafHeaders(leaf);
    PutBranchUnique(k, j, g, key, leaf);
  }

  /** One subgroup, with all below it, taken out. */
  lemma DropKid(k: Kind, g: Group, key: Str, i: nat)
    requires Unique(k, g) && key in Keys(k, g) && i < |Node(k, g, key).kids|
    ensures var n := Node(k, g, key); var g' := Put(k, g, key, n.(kids := n.kids[..i] + n.kids[i + 1..]));
      && Headers(g') == Headers(g) - Headers(n.kids[i])
      && Headers(n.kids[i]) <= Headers(g)
      && (forall j :: Unique(j, g) ==> Unique(j, g') && Keys(j, g') == Keys(j, g) - Keys(j, n.kids[i]))
  {
    var n := Node(k, g, key);
    var n' := n.(kids := n.kids[..i] + n.kids[i + 1..]);
    PutHeaders(k, g, key, n');
    NodeUnique(k, k, g, key);
    KidsSplit(n.kids, i);
    assert n'.Head() == n.Head();
    KeysApart(k, n', n.kids[i], n);
    forall j | Unique(j, g)
      ensures Unique(j, Put(k, g, key, n')) && Keys(j, Put(k, g, key, n')) == Keys(j, g) - Keys(j, n.kids[i])
    {
      DropKidKeys(k, j, g, key, i, n');
    }
  }

  lemma DropKidKeys(k: Kind, j: Kind, g: Group, key: Str, i: nat, n': Group)
    requires Unique(k, g) && Unique(j, g) && key in Keys(k, g) && i < |Node(k, g, key).kids|
    requires n' == Node(k, g, key).(kids := Node(k, g, key).kids[..i] + Node(k, g, key).kids[i + 1..])
    requires Headers(Put(k, g, key, n')) == Headers(g) - Headers(Node(k, g, key).kids[i])
    requires Headers(Node(k, g, key).kids[i]) <= Headers(g)
    requires HeadersOf(n'.kids) <= HeadersOf(Node(k, g, key).kids) && n'.Head() == Node(k, g, key).Head()
    ensures Unique(j, Put(k, g, key, n'))
    ensures Keys(j, Put(k, g, key, n')) == Keys(j, g) - Keys(j, Node(k, g, key).kids[i])
  {
    NodeUnique(k, j, g, key);
    KidsSplit(Node(k, g, key).kids, i);
    PutUnique(k, j, g, key, n');
    KeyOfOneEach(j, g);
  }

  /** Nodes whose keys differ have different headers. */
  lemma KeysApart(k: Kind, n': Group, gone: Group, n: Group)
    requires Unique(k, n) && n'.Head() == n.Head() && UniqueAll(k, n.kids)
    requires HeadersOf(n.kids) == HeadersOf(n'.kids) + Headers(gone)
    requires Keys(k, gone) !! KeysOf(k, n'.kids)
    ensures Headers(n') == Headers(n) - Headers(gone)
  {
    assert forall h :: h in Headers(gone) ==> Key(k, h) in Keys(k, gone) && Key(k, h) in KeysOf(k, n.kids);
    assert forall h :: h in HeadersOf(n'.kids) ==> Key(k, h) in KeysOf(k, n'.kids);
  }

  lemma KeyOfOneEach(k: Kind, g: Group)
    requires Unique(k, g)
    ensures forall a, b :: a in Headers(g) && b in Headers(g) && Key(k, a) == Key(k, b) ==> a == b
  {
    forall a, b | a in Headers(g) && b in Headers(g) && Key(k, a) == Key(k, b)
      ensures a == b
    {
      KeyOfOne(k, g, a, b);
    }
  }

  /** The node's own header changed. */
  lemma PutHead(k: Kind, g: Group, key: Str, h: Header)
    requires Unique(k, g) && key in Keys(k, g)
    ensures var n := Node(k, g, key);
      var g' := Put(k, g, key, Group(h.name, h.id, h.path, h.stores, n.kids));
      && n.Head() in Headers(g)
      && Headers(g') == Headers(g) - {n.Head()} + {h}
      && (forall j :: Unique(j, g) && Key(j, h) == Key(j, n.Head()) ==> Unique(j, g') && Keys(j, g') == Keys(j, g))
  {
    var n := Node(k, g, key);
    var n' := Group(h.name, h.id, h.path, h.stores, n.kids);
    PutHeaders(k, g, key, n');
    NodeUnique(k, k, g, key);
    assert n'.Head() == h;
    assert n.Head() !in HeadersOf(n.kids);
    forall j | Unique(j, g) && Key(j, h) == Key(j, n.Head())
      ensures Unique(j, Put(k, g, key, n')) && Keys(j, Put(k, g, key, n')) == Keys(j, g)
    {
      NodeUnique(k, j, g, key);
      assert Keys(j, n') == Keys(j, n);
      PutUnique(k, j, g, key, n');
    }
  }

  lemma RekidHeaders(gs: seq<Group>, i: nat, h: Header)
    requires i < |gs|
    ensures var gs' := gs[i := Group(h.name, h.id, h.path, h.stores, gs[i].kids)];
      && HeadersOf(gs) == HeadersOf(gs[..i] + gs[i + 1..]) + Headers(gs[i])
      && HeadersOf(gs') == HeadersOf(gs[..i] + gs[i + 1..]) + HeadersOf(gs[i].kids) + {h}
  {
    var gs' := gs[i := Group(h.name, h.id, h.path, h.stores, gs[i].kids)];
    KidsSplit(gs, i);
    KidsSplit(gs', i);
    assert gs'[..i] == gs[..i] && gs'[i + 1..] == gs[i + 1..];
    assert gs'[i].Head() == h;
  }

  lemma RekidUnique(k: Kind, gs: seq<Group>, i: nat, h: Header)
    requires i < |gs| && UniqueAll(k, gs) && Key(k, h) == Key(k, gs[i].Head())
    ensures UniqueAll(k, gs[i := Group(h.name, h.id, h.path, h.stores, gs[i].kids)])
  {
    var kid := gs[i];
    var kid' := Group(h.name, h.id, h.path, h.stores, kid.kids);
    var a, b := gs[..i], gs[i + 1..];
    assert gs == a + ([kid] + b) && gs[i := kid'] == a + ([kid'] + b);
    assert ([kid] + b)[1..] == b && ([kid'] + b)[1..] == b;
    assert kid'.Head() == h;
    UniqueConcat(k, a, [kid] + b);
    UniqueConcat(k, a, [kid'] + b);
    assert Keys(k, kid') == Keys(k, kid);
    assert KeysOf(k, [kid'] + b) == Keys(k, kid') + KeysOf(k, b) == KeysOf(k, [kid] + b);
  }

  lemma RekidNode(k: Kind, n: Group, i: nat, h: Header)
    requires Unique(k, n) && i < |n.kids| && Key(k, h) == Key(k, n.kids[i].Head())
    ensures var n' := n.(kids := n.kids[i := Group(h.name, h.id, h.path, h.stores, n.kids[i].kids)]);
      && n.kids[i].Head() in Headers(n)
      && Headers(n') == Headers(n) - {n.kids[i].Head()} + {h}
  {
    var kid, others := n.kids[i], n.kids[..i] + n.kids[i + 1..];
    KidsSplit(n.kids, i);
    RekidHeaders(n.kids, i, h);
    assert Key(k, kid.Head()) in Keys(k, kid);
    assert forall x :: x in HeadersOf(others) ==> Key(k, x) in KeysOf(k, others);
    assert forall x :: x in HeadersOf(kid.kids) ==> Key(k, x) in KeysOf(k, kid.kids);
    assert kid.Head() !in HeadersOf(others) && kid.Head() !in HeadersOf(kid.kids);
    assert Key(k, kid.Head()) in KeysOf(k, n.kids);
    assert n.Head() != kid.Head();
  }

  lemma RekidNodeUnique(k: Kind, n: Group, i: nat, h: Header)
    requires Unique(k, n) && i < |n.kids| && Key(k, h) == Key(k, n.kids[i].Head())
    ensures var n' := n.(kids := n.kids[i := Group(h.name, h.id, h.path, h.stores, n.kids[i].kids)]);
      Unique(k, n') && Keys(k, n') == Keys(k, n)
  {
    var n' := n.(kids := n.kids[i := Group(h.name, h.id, h.path, h.stores, n.kids[i].kids)]);
    RekidNode(k, n, i, h);
    RekidUnique(k, n.kids, i, h);
    RekidHeaders(n.kids, i, h);
    assert KeysOf(k, n'.kids) <= KeysOf(k, n.kids) + {Key(k, h)};
    assert n'.Head() == n.Head();
  }

  /** The header of one of the node's subgroups changed, its key not. */
  lemma PutKidHead(k: Kind, g: Group, key: Str, i: nat, h: Header)
    requires Unique(k, g) && key in Keys(k, g) && i < |Node(k, g, key).kids|
    requires Key(k, h) == Key(k, Node(k, g, key).kids[i].Head())
    ensures var n := Node(k, g, key); var kid := n.kids[i];
      var g' := Put(k, g, key, n.(kids := n.kids[i := Group(h.name, h.id, h.path, h.stores, kid.kids)]));
      && kid.Head() in Headers(g)
      && Headers(g') == Headers(g) - {kid.Head()} + {h}
      && Unique(k, g')
  {
    var n := Node(k, g, key);
    var n' := n.(kids := n.kids[i := Group(h.name, h.id, h.path, h.stores, n.kids[i].kids)]);
    NodeUnique(k, k, g, key);
    RekidNode(k, n, i, h);
    RekidNodeUnique(k, n, i, h);
    PutHeaders(k, g, key, n');
    PutUnique(k, k, g, key, n');
  }
}
