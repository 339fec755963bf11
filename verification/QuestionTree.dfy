/** The tree of items shown for a bank: initQuestionTree of ui/notebook.cpp. */
module QuestionTree {
  import opened Bytes
  import opened Records
  import opened Stores
  import opened Groups
  import W = Walker
  import H = Hanging

  type Item = W.Item
  type Pos = W.Pos

  /** getQuestions: a store that is not open gives none. */
  function Given(s: Store): seq<Question> {
    if s.path == [] then [] else s.questions
  }

  /** The questions of a group's own stores, store by store. */
  function Own(stores: seq<Store>): seq<Question> {
    if stores == [] then [] else Given(stores[0]) + Own(stores[1..])
  }

  function Leaves(n: nat): (r: seq<Item>)
    ensures |r| == n
    ensures forall i :: 0 <= i < n ==> r[i] == W.Item(false, [])
  {
    seq(n, _ => W.Item(false, []))
  }

  function TreeItem(g: Group): Item
    decreases g, 1
  {
    W.Item(true, GroupItems(g.kids) + Leaves(|Own(g.stores)|))
  }

  function GroupItems(gs: seq<Group>): (r: seq<Item>)
    ensures |r| == |gs|
    decreases gs, 0
  {
    if gs == [] then [] else [TreeItem(gs[0])] + GroupItems(gs[1..])
  }

  /** Subgroups first, each with all that is under it, then the questions of the group's stores. */
  method InitQuestionTree(g: Group) returns (item: Item)
    ensures item == TreeItem(g)
    decreases g
  {
    var kids: seq<Item> := [];
    for i := 0 to |g.kids|
      invariant kids + GroupItems(g.kids[i..]) == GroupItems(g.kids)
    {
      var child := InitQuestionTree(g.kids[i]);
      assert g.kids[i..][1..] == g.kids[i + 1..];
      kids := kids + [child];
    }
    ghost var all := TreeItem(g).kids;
    ghost var left: nat := |Own(g.stores)|;
    for i := 0 to |g.stores|
      invariant left == |Own(g.stores[i..])| && kids + Leaves(left) == all
    {
      assert g.stores[i..][1..] == g.stores[i + 1..];
      var questions := Given(g.stores[i]);
      for j := 0 to |questions|
        invariant left == |questions| - j + |Own(g.stores[i + 1..])| && kids + Leaves(left) == all
      {
        LeafFirst(kids, left);
        kids, left := kids + [W.Item(false, [])], left - 1;
      }
    }
    item := W.Item(true, kids);
  }

  lemma LeafFirst(kids: seq<Item>, n: nat)
    requires n > 0
    ensures kids + Leaves(n) == kids + [W.Item(false, [])] + Leaves(n - 1)
  {
  }

  lemma {:induction false} GroupItemAt(gs: seq<Group>, i: nat)
    requires i < |gs|
    ensures GroupItems(gs)[i] == TreeItem(gs[i])
  {
    if i > 0 {
      GroupItemAt(gs[1..], i - 1);
    }
  }

  /** The walk's assumption about the tree holds of every bank. */
  lemma {:induction false} TreeIsWellFormed(g: Group)
    ensures W.WellFormed(TreeItem(g)) && TreeItem(g).isGroup
  {
    forall k | k in TreeItem(g).kids
      ensures W.WellFormed(k)
    {
      var i :| 0 <= i < |TreeItem(g).kids| && TreeItem(g).kids[i] == k;
      if i < |g.kids| {
        GroupItemAt(g.kids, i);
        TreeIsWellFormed(g.kids[i]);
      }
    }
  }

  // ----- the order in which the questions are read -----

  function Reading(g: Group): seq<Question>
    decreases g, 1
  {
    ReadingAll(g.kids) + Own(g.stores)
  }

  function ReadingAll(gs: seq<Group>): seq<Question>
    decreases gs, 0
  {
    if gs == [] then [] else ReadingAll(gs[..|gs| - 1]) + Reading(gs[|gs| - 1])
  }

  /** The question an item shows; None for a group, and where there is no item. */
  function Displayed(g: Group, p: Pos): Option<Question> {
    if p == [] then None
    else if p[0] < |g.kids| then Displayed(g.kids[p[0]], p[1..])
    else if |p| == 1 && p[0] - |g.kids| < |Own(g.stores)| then Some(Own(g.stores)[p[0] - |g.kids|])
    else None
  }

  /** The positions `ps` show the questions `qs`, in order. */
  ghost predicate Shows(g: Group, ps: seq<Pos>, qs: seq<Question>) {
    |ps| == |qs| && forall i :: 0 <= i < |ps| ==> Displayed(g, ps[i]) == Some(qs[i])
  }

  lemma ShowsConcat(g: Group, ps: seq<Pos>, qs: seq<Question>, ps': seq<Pos>, qs': seq<Question>)
    requires Shows(g, ps, qs) && Shows(g, ps', qs')
    ensures Shows(g, ps + ps', qs + qs')
  {
  }

  /** Left to right, the question items of the tree show exactly the questions of the bank. */
  lemma {:induction false} TreeShowsReading(g: Group)
    ensures Shows(g, W.Questions(TreeItem(g)), Reading(g))
    decreases g, 1, 0
  {
    var items, n := TreeItem(g).kids, |g.kids|;
    FirstKidsShow(g, n);
    assert items[..|items|] == items && g.kids[..n] == g.kids;
    assert ReadingAll(g.kids) + Own(g.stores)[..0] == ReadingAll(g.kids);
    LeavesShow(g, |Own(g.stores)|);
    assert Own(g.stores)[..|Own(g.stores)|] == Own(g.stores);
  }

  lemma {:induction false} FirstKidsShow(g: Group, j: nat)
    requires j <= |g.kids|
    ensures Shows(g, W.KidQuestions(TreeItem(g).kids[..j]), ReadingAll(g.kids[..j]))
    decreases g, 0, j
  {
    if j == 0 {
      return;
    }
    var n := j - 1;
    var items, kid := TreeItem(g).kids, g.kids[n];
    FirstKidsShow(g, n);
    TreeShowsReading(kid);
    GroupItemAt(g.kids, n);
    QuestionsOfMore(items, n);
    Shorter(g.kids, n);
    KidShows(g, n);
    ShowsConcat(g, W.KidQuestions(items[..n]), ReadingAll(g.kids[..n]),
                W.Indexed(n, W.Questions(TreeItem(kid))), Reading(kid));
  }

  lemma Shorter<T>(xs: seq<T>, n: nat)
    requires n < |xs|
    ensures |xs[..n + 1]| == n + 1 && xs[..n + 1][n] == xs[n] && xs[..n + 1][..n] == xs[..n]
  {
  }

  lemma QuestionsOfMore(items: seq<Item>, n: nat)
    requires n < |items|
    ensures W.KidQuestions(items[..n + 1]) == W.KidQuestions(items[..n]) + W.Indexed(n, W.Questions(items[n]))
  {
    Shorter(items, n);
  }

  lemma KidShows(g: Group, n: nat)
    requires n < |g.kids| && Shows(g.kids[n], W.Questions(TreeItem(g.kids[n])), Reading(g.kids[n]))
    ensures Shows(g, W.Indexed(n, W.Questions(TreeItem(g.kids[n]))), Reading(g.kids[n]))
  {
  }

  /** The items before leaf `j` show what they should. */
  ghost predicate ShownBefore(g: Group, j: nat)
    requires j <= |Own(g.stores)|
  {
    Shows(g, W.KidQuestions(TreeItem(g).kids[..|g.kids| + j]), ReadingAll(g.kids) + Own(g.stores)[..j])
  }

  lemma {:induction false} LeavesShow(g: Group, j: nat)
    requires j <= |Own(g.stores)| && ShownBefore(g, 0)
    ensures ShownBefore(g, j)
    decreases j
  {
    if j > 0 {
      LeavesShow(g, j - 1);
      LeafShown(g, j - 1);
    }
  }

  lemma LeafShown(g: Group, j: nat)
    requires j < |Own(g.stores)| && ShownBefore(g, j)
    ensures ShownBefore(g, j + 1)
  {
    LeafStep(g, j);
    OneMoreShows(g, j, W.KidQuestions(TreeItem(g).kids[..|g.kids| + j]), ReadingAll(g.kids));
  }

  lemma OneMoreShows(g: Group, j: nat, ps: seq<Pos>, before: seq<Question>)
    requires j < |Own(g.stores)| && Shows(g, ps, before + Own(g.stores)[..j])
    ensures Shows(g, ps + W.Indexed(|g.kids| + j, [[]]), before + Own(g.stores)[..j + 1])
  {
    LeafShows(g, j);
    Grown(before, Own(g.stores), j);
    ShowsConcat(g, ps, before + Own(g.stores)[..j], W.Indexed(|g.kids| + j, [[]]), [Own(g.stores)[j]]);
  }

  lemma LeafStep(g: Group, j: nat)
    requires j < |Own(g.stores)|
    ensures var items, n := TreeItem(g).kids, |g.kids| + j;
      W.KidQuestions(items[..n + 1]) == W.KidQuestions(items[..n]) + W.Indexed(n, [[]])
  {
    var items, n := TreeItem(g).kids, |g.kids| + j;
    QuestionsOfMore(items, n);
    assert items[n] == W.Item(false, []);
    assert W.Questions(items[n]) == [[]];
  }

  lemma Grown<T>(a: seq<T>, b: seq<T>, j: nat)
    requires j < |b|
    ensures a + b[..j] + [b[j]] == a + b[..j + 1]
  {
  }

  lemma LeafShows(g: Group, j: nat)
    requires j < |Own(g.stores)|
    ensures Shows(g, W.Indexed(|g.kids| + j, [[]]), [Own(g.stores)[j]])
  {
    var p := W.Indexed(|g.kids| + j, [[]])[0];
    assert p == [p[0]] + p[1..];
  }

  /** The reading holds the questions of every group's stores, and no others. */
  lemma {:induction false} ReadingIsTheBank(g: Group, q: Question)
    ensures q in Reading(g) <==> exists h :: h in Headers(g) && q in Own(h.stores)
    decreases g, 1
  {
    ReadingsAreTheBank(g.kids, q);
    assert g.Head() in Headers(g);
  }

  lemma {:induction false} ReadingsAreTheBank(gs: seq<Group>, q: Question)
    ensures q in ReadingAll(gs) <==> exists h :: h in HeadersOf(gs) && q in Own(h.stores)
    decreases gs, 0
  {
    if gs != [] {
      var n := |gs| - 1;
      ReadingsAreTheBank(gs[..n], q);
      ReadingIsTheBank(gs[n], q);
      HeadersConcat(gs[..n], [gs[n]]);
      assert gs[..n] + [gs[n]] == gs;
      assert HeadersOf([gs[n]]) == Headers(gs[n]);
    }
  }

  /** A session of Next presses from the first question to the end runs through exactly when Next
      stops at every question, and then reads the whole bank out, in order, one question a press. */
  lemma NextReadsTheBank(g: Group, seen: seq<Pos>)
    requires Reading(g) != []
    ensures W.Session(TreeItem(g), seen) <==> seen == W.Questions(TreeItem(g)) && W.AllStop(TreeItem(g), false)
    ensures W.Session(TreeItem(g), seen) ==> Shows(g, seen, Reading(g))
  {
    TreeIsWellFormed(g);
    TreeShowsReading(g);
    W.NextVisitsAll(TreeItem(g), seen);
  }

  // ----- banks on which the buttons never hang -----

  /** A group that shows as an empty one. */
  predicate Blank(g: Group) {
    g.kids == [] && Own(g.stores) == []
  }

  /** No group below the root starts (ends, when `flag`) with a blank one.  Own questions come last,
      so a group with any ends with a question. */
  predicate EdgesFilled(flag: bool, g: Group) {
    forall k <- g.kids :: EdgesFilledBelow(flag, k)
  }

  predicate EdgesFilledBelow(flag: bool, g: Group) {
    && (g.kids != [] && (flag ==> Own(g.stores) == []) ==> !Blank(g.kids[if flag then |g.kids| - 1 else 0]))
    && forall k <- g.kids :: EdgesFilledBelow(flag, k)
  }

  lemma BlankIsEmpty(g: Group)
    ensures Blank(g) <==> TreeItem(g).kids == []
  {
  }

  lemma EdgeItem(flag: bool, g: Group)
    requires TreeItem(g).kids != []
    ensures var e := TreeItem(g).kids[W.Edge(flag, TreeItem(g))];
      (e.isGroup && e.kids == []) <==>
      (g.kids != [] && (flag ==> Own(g.stores) == []) && Blank(g.kids[if flag then |g.kids| - 1 else 0]))
  {
    var i := W.Edge(flag, TreeItem(g));
    if i < |g.kids| {
      GroupItemAt(g.kids, i);
      BlankIsEmpty(g.kids[i]);
    }
  }

  lemma {:induction false} EdgesAlikeBelow(flag: bool, g: Group)
    ensures W.NoEmptyEdgeBelow(flag, TreeItem(g)) <==> EdgesFilledBelow(flag, g)
    decreases g
  {
    var item := TreeItem(g);
    if item.kids != [] {
      EdgeItem(flag, g);
    }
    forall i | 0 <= i < |g.kids|
      ensures W.NoEmptyEdgeBelow(flag, item.kids[i]) <==> EdgesFilledBelow(flag, g.kids[i])
    {
      GroupItemAt(g.kids, i);
      EdgesAlikeBelow(flag, g.kids[i]);
    }
    KidsAlike(flag, g);
  }

  lemma KidsAlike(flag: bool, g: Group)
    requires forall i :: 0 <= i < |g.kids| ==>
      (W.NoEmptyEdgeBelow(flag, TreeItem(g).kids[i]) <==> EdgesFilledBelow(flag, g.kids[i]))
    ensures (forall k <- TreeItem(g).kids :: W.NoEmptyEdgeBelow(flag, k)) <==>
            (forall k <- g.kids :: EdgesFilledBelow(flag, k))
  {
    var items := TreeItem(g).kids;
    assert forall i :: |g.kids| <= i < |items| ==> W.NoEmptyEdgeBelow(flag, items[i]);
    if forall k <- items :: W.NoEmptyEdgeBelow(flag, k) {
      forall k | k in g.kids
        ensures EdgesFilledBelow(flag, k)
      {
        var i :| 0 <= i < |g.kids| && g.kids[i] == k;
        assert items[i] in items;
      }
    }
    if forall k <- g.kids :: EdgesFilledBelow(flag, k) {
      forall k | k in items
        ensures W.NoEmptyEdgeBelow(flag, k)
      {
        var i :| 0 <= i < |items| && items[i] == k;
      }
    }
  }

  /** The condition on the bank is the condition on its tree. */
  lemma EdgesAlike(flag: bool, g: Group)
    ensures W.NoEmptyEdge(flag, TreeItem(g)) <==> EdgesFilled(flag, g)
  {
    forall i | 0 <= i < |g.kids|
      ensures W.NoEmptyEdgeBelow(flag, TreeItem(g).kids[i]) <==> EdgesFilledBelow(flag, g.kids[i])
    {
      GroupItemAt(g.kids, i);
      EdgesAlikeBelow(flag, g.kids[i]);
    }
    KidsAlike(flag, g);
  }

  /** On a bank without such groups every search stops, a session of Next presses reads the bank
      out, and Previous undoes Next where the last groups are filled as well. */
  lemma FilledBankIsRead(g: Group)
    requires Reading(g) != [] && EdgesFilled(false, g)
    ensures var root := TreeItem(g);
      && W.AllStop(root, false)
      && W.Session(root, W.Questions(root))
      && Shows(g, W.Questions(root), Reading(g))
    ensures var root := TreeItem(g); EdgesFilled(true, g) ==>
      forall p, next :: W.IsQuestion(root, p) && W.Returns(root, false, p, Some(next)) ==>
        W.Valid(root, next) && W.Returns(root, true, next, Some(p))
  {
    var root := TreeItem(g);
    TreeIsWellFormed(g);
    TreeShowsReading(g);
    EdgesAlike(false, g);
    EdgesAlike(true, g);
    W.NextReadsOut(root);
    W.NextVisitsAll(root, W.Questions(root));
    if EdgesFilled(true, g) {
      forall p, next | W.IsQuestion(root, p) && W.Returns(root, false, p, Some(next))
        ensures W.Valid(root, next) && W.Returns(root, true, next, Some(p))
      {
        W.LastUndoesNext(root, p, next);
        W.NoEmptyEdgeStops(root, true, next);
      }
    }
  }

  // ----- exactly the banks on which a button hangs -----

  /** First subgroups alone (own last question or last subgroup, when `flag`) lead to a question. */
  predicate Leads(flag: bool, g: Group) {
    if g.kids == [] || (flag && Own(g.stores) != []) then Own(g.stores) != []
    else Leads(flag, g.kids[if flag then |g.kids| - 1 else 0])
  }

  /** A subgroup of `g` that neither shows as empty nor leads to a question, and a question the button
      comes from to get there: one in an earlier subgroup (later, when `flag`), or an own one. */
  ghost predicate TrapIn(flag: bool, g: Group, j: nat) {
    && j < |g.kids| && !Blank(g.kids[j]) && !Leads(flag, g.kids[j])
    && ((flag && Own(g.stores) != []) ||
        exists i: nat :: i < |g.kids| && W.Beyond(flag, i, j) && Reading(g.kids[i]) != [])
  }

  ghost predicate Trapped(flag: bool, g: Group) {
    (exists j: nat :: TrapIn(flag, g, j)) || exists k <- g.kids :: Trapped(flag, k)
  }

  lemma {:induction false} LeadsAlike(flag: bool, g: Group)
    ensures Leads(flag, g) <==> W.EndsInQuestion(flag, TreeItem(g))
  {
    var item := TreeItem(g);
    if item.kids != [] {
      var e := W.Edge(flag, item);
      if e < |g.kids| {
        GroupItemAt(g.kids, e);
        LeadsAlike(flag, g.kids[e]);
      } else {
        assert item.kids[e] == W.Item(false, []);
      }
    }
  }

  lemma ReadingAlike(g: Group)
    ensures Reading(g) != [] <==> W.Questions(TreeItem(g)) != []
  {
    TreeShowsReading(g);
  }

  lemma KidAlike(flag: bool, g: Group, i: nat)
    requires i < |g.kids|
    ensures var item := TreeItem(g).kids[i];
      && item == TreeItem(g.kids[i])
      && (Reading(g.kids[i]) != [] <==> W.Questions(item) != [])
      && (Leads(flag, g.kids[i]) <==> W.EndsInQuestion(flag, item))
      && (Blank(g.kids[i]) <==> H.IsEmptyGroup(item))
  {
    GroupItemAt(g.kids, i);
    ReadingAlike(g.kids[i]);
    LeadsAlike(flag, g.kids[i]);
    BlankIsEmpty(g.kids[i]);
  }

  lemma TrapsHereAlike(flag: bool, g: Group)
    ensures (exists j: nat :: TrapIn(flag, g, j)) <==> exists i: nat, j: nat :: H.Trap(TreeItem(g), flag, [], i, j)
  {
    if j: nat :| TrapIn(flag, g, j) {
      KidAlike(flag, g, j);
      if flag && Own(g.stores) != [] {
        assert H.Trap(TreeItem(g), flag, [], |g.kids|, j);
      } else {
        var i: nat :| i < |g.kids| && W.Beyond(flag, i, j) && Reading(g.kids[i]) != [];
        KidAlike(flag, g, i);
        assert H.Trap(TreeItem(g), flag, [], i, j);
      }
    }
    if i: nat, j: nat :| H.Trap(TreeItem(g), flag, [], i, j) {
      TrapIsHere(flag, g, i, j);
    }
  }

  lemma TrapIsHere(flag: bool, g: Group, i: nat, j: nat)
    requires H.Trap(TreeItem(g), flag, [], i, j)
    ensures TrapIn(flag, g, j)
  {
    if j < |g.kids| {
      KidAlike(flag, g, j);
    }
    if i < |g.kids| {
      KidAlike(flag, g, i);
    }
  }

  /** A trap lies between subgroups of the root or below one of them. */
  lemma TrapBelow(root: Item, flag: bool)
    ensures H.HasTrap(root, flag) <==>
            (exists i: nat, j: nat :: H.Trap(root, flag, [], i, j)) || (exists k <- root.kids :: H.HasTrap(k, flag))
  {
    if H.HasTrap(root, flag) {
      var p: Pos, i: nat, j: nat :| H.Trap(root, flag, p, i, j);
      if p != [] {
        assert H.Trap(root.kids[p[0]], flag, p[1..], i, j);
        assert root.kids[p[0]] in root.kids;
      }
    }
    forall k | k in root.kids && H.HasTrap(k, flag)
      ensures H.HasTrap(root, flag)
    {
      var n :| 0 <= n < |root.kids| && root.kids[n] == k;
      var p: Pos, i: nat, j: nat :| H.Trap(k, flag, p, i, j);
      assert ([n] + p)[1..] == p;
      assert H.Trap(root, flag, [n] + p, i, j);
    }
  }

  lemma {:induction false} TrapsAlike(flag: bool, g: Group)
    ensures Trapped(flag, g) <==> H.HasTrap(TreeItem(g), flag)
    decreases g
  {
    TrapBelow(TreeItem(g), flag);
    TrapsHereAlike(flag, g);
    forall i | 0 <= i < |g.kids|
      ensures Trapped(flag, g.kids[i]) <==> H.HasTrap(TreeItem(g).kids[i], flag)
    {
      GroupItemAt(g.kids, i);
      TrapsAlike(flag, g.kids[i]);
    }
    TrappedBelow(flag, g);
  }

  lemma TrappedBelow(flag: bool, g: Group)
    requires forall i :: 0 <= i < |g.kids| ==> (Trapped(flag, g.kids[i]) <==> H.HasTrap(TreeItem(g).kids[i], flag))
    ensures (exists k <- g.kids :: Trapped(flag, k)) <==> exists k <- TreeItem(g).kids :: H.HasTrap(k, flag)
  {
    var items := TreeItem(g).kids;
    forall k | k in g.kids && Trapped(flag, k)
      ensures exists x <- items :: H.HasTrap(x, flag)
    {
      var i :| 0 <= i < |g.kids| && g.kids[i] == k;
      assert items[i] in items;
    }
    forall x | x in items && H.HasTrap(x, flag)
      ensures exists k <- g.kids :: Trapped(flag, k)
    {
      var i :| 0 <= i < |items| && items[i] == x;
      if i >= |g.kids| {
        NoTrapInLeaf(flag);
      }
    }
  }

  lemma NoTrapInLeaf(flag: bool)
    ensures !H.HasTrap(W.Item(false, []), flag)
  {
    forall p: Pos, i: nat, j: nat
      ensures !H.Trap(W.Item(false, []), flag, p, i, j)
    {
      if W.Valid(W.Item(false, []), p) {
        assert p == [];
      }
    }
  }

  /** Next (Previous, when `flag`) returns from every question of the bank exactly when the bank has no
      such subgroup. */
  lemma ButtonStopsIffUntrapped(flag: bool, g: Group)
    ensures W.AllStop(TreeItem(g), flag) <==> !Trapped(flag, g)
  {
    TreeIsWellFormed(g);
    TrapsAlike(flag, g);
    H.AllStopIffNoTrap(TreeItem(g), flag);
  }

  /** A session reads the bank out if and only if the bank has no such subgroup. */
  lemma BankIsReadIffUntrapped(g: Group)
    requires Reading(g) != []
    ensures (exists seen :: W.Session(TreeItem(g), seen)) <==> !Trapped(false, g)
    ensures forall seen :: W.Session(TreeItem(g), seen) ==> Shows(g, seen, Reading(g))
  {
    ButtonStopsIffUntrapped(false, g);
    forall seen
      ensures W.Session(TreeItem(g), seen) <==> seen == W.Questions(TreeItem(g)) && !Trapped(false, g)
      ensures W.Session(TreeItem(g), seen) ==> Shows(g, seen, Reading(g))
    {
      NextReadsTheBank(g, seen);
    }
    if !Trapped(false, g) {
      assert W.Session(TreeItem(g), W.Questions(TreeItem(g)));
    }
  }
}
