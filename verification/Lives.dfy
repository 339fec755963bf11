/** Whole lives of a bank, calls and restarts mixed, as runs of the plain map. */
module Lives {
  import opened Bytes
  import opened Groups
  import opened Parents
  import opened Bank
  import opened Layout
  import opened Calls
  import opened Reload
  import opened Restart
  import opened PlainBank

  // ----- parents by path -----

  ghost predicate LiesIn(hs: set<Header>, e: Edge) {
    exists p :: p in hs && p.id == e.parent && e.kid.path == Join(p.path, e.kid.name)
  }

  /** A subgroup lies directly in its parent's directory. */
  lemma {:induction false} EdgesPlaced(g: Group)
    requires Placed(g)
    ensures forall e :: e in Edges(g) ==> LiesIn(Headers(g), e)
    decreases g, 1
  {
    EdgesPlacedIn(g.Head(), g.kids);
    forall e | e in Edges(g)
      ensures LiesIn(Headers(g), e)
    {
      assert LiesIn({g.Head()} + HeadersOf(g.kids), e);
    }
  }

  lemma {:induction false} EdgesPlacedIn(root: Header, gs: seq<Group>)
    requires PlacedIn(root.path, gs)
    ensures forall e :: e in EdgesOf(root.id, gs) ==> LiesIn({root} + HeadersOf(gs), e)
    decreases gs, 0
  {
    if gs == [] {
      return;
    }
    EdgesPlaced(gs[0]);
    EdgesPlacedIn(root, gs[1..]);
    forall e | e in EdgesOf(root.id, gs)
      ensures LiesIn({root} + HeadersOf(gs), e)
    {
      PlacedPart(root, gs, e);
    }
  }

  lemma PlacedPart(root: Header, gs: seq<Group>, e: Edge)
    requires gs != [] && PlacedIn(root.path, gs) && e in EdgesOf(root.id, gs)
    requires e in Edges(gs[0]) ==> LiesIn(Headers(gs[0]), e)
    requires e in EdgesOf(root.id, gs[1..]) ==> LiesIn({root} + HeadersOf(gs[1..]), e)
    ensures LiesIn({root} + HeadersOf(gs), e)
  {
    var hs := {root} + HeadersOf(gs);
    if e == Edge(root.id, gs[0].Head()) {
      assert root in hs;
    } else if e in Edges(gs[0]) {
      var p :| p in Headers(gs[0]) && p.id == e.parent && e.kid.path == Join(p.path, e.kid.name);
      assert p in hs;
    } else {
      var p :| p in {root} + HeadersOf(gs[1..]) && p.id == e.parent && e.kid.path == Join(p.path, e.kid.name);
      assert p in hs;
    }
  }

  /** In a laid tree the path alone tells the parent. */
  lemma ParentByPath(tree: Group, e: Edge, p: Header)
    requires Laid(tree) && e in Edges(tree) && p in Headers(tree) && ParentPath(e.kid.path) == p.path
    ensures e.parent == p.id
  {
    EdgesPlaced(tree);
    EdgeEnds(tree);
    assert LiesIn(Headers(tree), e);
    var q :| q in Headers(tree) && q.id == e.parent && e.kid.path == Join(q.path, e.kid.name);
    EdgeNamed(tree, e);
    JoinSplits(q.path, e.kid.name);
    PathsDiffer(tree, p, q);
  }

  lemma EdgeNamed(tree: Group, e: Edge)
    requires Laid(tree) && e in Edges(tree)
    ensures e.kid in Headers(tree) && e.kid != tree.Head() && NoSep(e.kid.name)
  {
    EdgeEnds(tree);
    assert Key(ById, e.kid) in KeysOf(ById, tree.kids) && Key(ById, tree.Head()) == tree.id;
    PathIsName(tree, e.kid);
  }

  // ----- a restart keeps the plain map -----

  lemma RestartSteps(s: State, walk: seq<Entry>, order: seq<Str>)
    requires Lists(order, s.core.index)
    requires Settled(s) && AllFit(s) && AllReadable(s) && IsWalk(s.tree.path, Saved(s), walk)
    ensures var r := Init(s.tree.path, Saved(s), walk, order);
      r.ok && Settled(r.s) && Abs(r.s) == Abs(s)
  {
    InitRestores(s, walk, order);
    RestartKeepsTheBank(s, walk, order);
    MirrorStands(s.tree, Init(s.tree.path, Saved(s), walk, order).s.tree, s.core.index);
  }

  /** Trees whose nodes mirror each other stand for the same map. */
  lemma MirrorStands(tree: Group, tree': Group, index: map<Str, Str>)
    requires Laid(tree) && tree.id == [] && Laid(tree') && tree'.Head() == tree.Head() && Mirrors(tree, tree')
    ensures AbsOf(Edges(tree'), index) == AbsOf(Edges(tree), index)
  {
    var es, es' := Edges(tree), Edges(tree');
    OneParent(tree);
    OneParent(tree');
    AbsStands(es, index);
    forall e' | e' in es'
      ensures e'.kid.id in AbsOf(es, index) && AbsOf(es, index)[e'.kid.id] == InfoOf(e', index)
    {
      var e := MirrorEdge(tree, tree', e');
    }
    forall id | id in AbsOf(es, index)
      ensures LeadsTo(es', id)
    {
      assert LeadsTo(es, id);
      var e :| e in es && e.kid.id == id;
      MirrorLeads(tree, tree', e);
    }
    StandsIsAbs(es', index, AbsOf(es, index));
  }

  lemma MirrorEdge(tree: Group, tree': Group, e': Edge) returns (e: Edge)
    requires Laid(tree) && tree.id == [] && Laid(tree') && tree'.Head() == tree.Head() && Mirrors(tree, tree')
    requires e' in Edges(tree')
    ensures e in Edges(tree) && e.parent == e'.parent && e'.kid == Trimmed(e.kid)
    ensures forall index :: InfoOf(e', index) == InfoOf(e, index)
  {
    var p, h := MirrorEnds(tree, tree', e');
    EdgeEnds(tree);
    assert HasEdge(Edges(tree), h);
    e :| e in Edges(tree) && e.kid == h;
    ParentByPath(tree, e, p);
    TrimmedKeeps(h);
  }

  lemma MirrorEnds(tree: Group, tree': Group, e': Edge) returns (p: Header, h: Header)
    requires Laid(tree) && tree.id == [] && Laid(tree') && tree'.Head() == tree.Head() && Mirrors(tree, tree')
    requires e' in Edges(tree')
    ensures p in Headers(tree) && p.id == e'.parent && ParentPath(h.path) == p.path
    ensures h in Headers(tree) && h in HeadersOf(tree.kids) && e'.kid == Trimmed(h)
  {
    EdgeNamed(tree', e');
    EdgesPlaced(tree');
    assert LiesIn(Headers(tree'), e') && IsTrimmed(Headers(tree), e'.kid);
    var p' :| p' in Headers(tree') && p'.id == e'.parent && e'.kid.path == Join(p'.path, e'.kid.name);
    assert IsTrimmed(Headers(tree), p');
    p :| p in Headers(tree) && p' == Trimmed(p);
    h :| h in Headers(tree) && e'.kid == Trimmed(h);
    JoinSplits(p'.path, e'.kid.name);
  }

  lemma MirrorLeads(tree: Group, tree': Group, e: Edge)
    requires Laid(tree) && tree.id == [] && Laid(tree') && tree'.Head() == tree.Head() && Mirrors(tree, tree')
    requires e in Edges(tree)
    ensures LeadsTo(Edges(tree'), e.kid.id)
  {
    EdgeNamed(tree, e);
    EdgeEnds(tree');
    RootOnly(tree, e.kid);
    assert Trimmed(e.kid) in Headers(tree') && Trimmed(e.kid) != tree'.Head();
    assert HasEdge(Edges(tree'), Trimmed(e.kid));
    var e' :| e' in Edges(tree') && e'.kid == Trimmed(e.kid);
  }

  lemma RootOnly(tree: Group, h: Header)
    requires Laid(tree) && tree.id == [] && h in Headers(tree)
    ensures h.id == [] <==> h == tree.Head()
  {
    assert tree.Head() in Headers(tree);
    if h.id == [] {
      KeyOfOne(ById, tree, h, tree.Head());
    }
  }

  // ----- whole lives -----

  datatype Event = Called(call: Call) | Restarted(walk: seq<Entry>, order: seq<Str>)

  /** Any regular call, renames included.  Restarts, whatever orders directory and hash map list in, of a
      settled bank that fits into files and is UTF-8 throughout. */
  ghost predicate Possible(e: Event, s: State) {
    match e
    case Called(call) => Regular(call, s)
    case Restarted(walk, order) =>
      Settled(s) && Lists(order, s.core.index) && AllFit(s) && AllReadable(s) && IsWalk(s.tree.path, Saved(s), walk)
  }

  ghost function Happen(e: Event, s: State): Outcome {
    match e
    case Called(call) => Do(call, s)
    case Restarted(walk, order) =>
      var r := Init(s.tree.path, Saved(s), walk, order);
      Outcome(r.ok, r.s, [])
  }

  /** The event on the plain map. */
  ghost function PlainEvent(e: Event, m: Plain): (Reply, Plain) {
    match e
    case Called(call) => Step(call, m)
    case Restarted(walk, order) => (Reply(true, []), m)
  }

  lemma EventSteps(e: Event, s: State)
    requires Sound(s) && Possible(e, s)
    ensures var o := Happen(e, s);
      Sound(o.s) && (Reply(o.ok, o.answer), Abs(o.s)) == PlainEvent(e, Abs(s))
  {
    match e
    case Called(call) => CallSteps(call, s);
    case Restarted(walk, order) =>
      RestartSteps(s, walk, order);
      SettledIsSound(Init(s.tree.path, Saved(s), walk, order).s);
  }

  ghost predicate AllPossible(events: seq<Event>, s: State) {
    events == [] || (Possible(events[0], s) && AllPossible(events[1..], Happen(events[0], s).s))
  }

  /** All replies of a life, and the state it ends in. */
  ghost function Life(events: seq<Event>, s: State): (seq<Reply>, State) {
    if events == [] then ([], s)
    else
      var o := Happen(events[0], s);
      var (replies, end) := Life(events[1..], o.s);
      ([Reply(o.ok, o.answer)] + replies, end)
  }

  ghost function PlainLife(events: seq<Event>, m: Plain): (seq<Reply>, Plain) {
    if events == [] then ([], m)
    else
      var (reply, m') := PlainEvent(events[0], m);
      var (replies, end) := PlainLife(events[1..], m');
      ([reply] + replies, end)
  }

  /** Over any life the bank stays sound, gives every reply that the plain map gives, and stands at the
      end for the plain map's end. */
  lemma {:induction false} LifeRefines(events: seq<Event>, s: State)
    requires Sound(s) && AllPossible(events, s)
    ensures var (replies, end) := Life(events, s);
      Sound(end) && (replies, Abs(end)) == PlainLife(events, Abs(s))
  {
    if events == [] {
      return;
    }
    EventSteps(events[0], s);
    LifeRefines(events[1..], Happen(events[0], s).s);
  }

  // ----- lives of proper calls -----

  ghost predicate ProperLife(events: seq<Event>, s: State) {
    events == [] ||
    ((events[0].Called? ==> Proper(events[0].call, s)) && (events[0].Restarted? ==> Possible(events[0], s)) &&
     ProperLife(events[1..], Happen(events[0], s).s))
  }

  /** From a settled bank a life of proper calls and restarts is possible and ends settled. */
  lemma {:induction false} ProperLifeSettles(events: seq<Event>, s: State)
    requires Settled(s) && ProperLife(events, s)
    ensures AllPossible(events, s) && Settled(Life(events, s).1)
  {
    if events == [] {
      return;
    }
    match events[0] {
      case Called(call) =>
        ProperIsRegular(call, s);
        CallSettles(call, s);
      case Restarted(walk, order) =>
        RestartSteps(s, walk, order);
    }
    ProperLifeSettles(events[1..], Happen(events[0], s).s);
  }
}
