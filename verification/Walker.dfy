/** The Next/Previous walk over the question tree: findTreeWidgetItem of ui/notebook.cpp.

    A QTreeWidgetItem is its position: the child indices on the way from the root.  Its parent is
    the position without the last index, and indexOfChild is that last index. */
module Walker {
  import opened Bytes

  datatype Item = Item(isGroup: bool, kids: seq<Item>)

  type Pos = seq<nat>

  predicate Valid(root: Item, p: Pos) {
    p == [] || (p[0] < |root.kids| && Valid(root.kids[p[0]], p[1..]))
  }

  function At(root: Item, p: Pos): Item
    requires Valid(root, p)
  {
    if p == [] then root else At(root.kids[p[0]], p[1..])
  }

  predicate IsQuestion(root: Item, p: Pos) {
    Valid(root, p) && !At(root, p).isGroup
  }

  /** Questions have no children. */
  predicate WellFormed(item: Item) {
    (item.isGroup || item.kids == []) && forall k <- item.kids :: WellFormed(k)
  }

  function Parent(p: Pos): Pos
    requires p != []
  {
    p[..|p| - 1]
  }

  function Last(p: Pos): nat
    requires p != []
  {
    p[|p| - 1]
  }

  // ----- left-to-right order -----

  /** `flag` chooses the direction, as in the source: true is Previous, false is Next. */
  predicate Beyond(flag: bool, i: nat, j: nat) {
    if flag then j < i else j > i
  }

  /** `q` comes after everything under `p` (before everything under `p`, when `flag`). */
  predicate Ahead(flag: bool, p: Pos, q: Pos) {
    p != [] && q != [] && (Beyond(flag, p[0], q[0]) || (p[0] == q[0] && Ahead(flag, p[1..], q[1..])))
  }

  /** `r` is the nearest question ahead of `p`, or null when there is none. */
  ghost predicate Nearest(root: Item, flag: bool, p: Pos, r: Option<Pos>) {
    match r
    case None => forall q :: IsQuestion(root, q) ==> !Ahead(flag, p, q)
    case Some(n) =>
      && IsQuestion(root, n) && Ahead(flag, p, n)
      && forall q :: IsQuestion(root, q) && Ahead(flag, p, q) ==> q == n || Ahead(flag, n, q)
  }

  // ----- one turn of the loop -----

  datatype Outcome = Running(cur: Pos, val: int) | Done(result: Option<Pos>)

  function Edge(flag: bool, item: Item): nat
    requires item.kids != []
  {
    if flag then |item.kids| - 1 else 0
  }

  function Dir(flag: bool): int {
    if flag then -1 else 1
  }

  function Turn(root: Item, flag: bool, cur: Pos, val: int): Outcome
    requires Valid(root, cur)
  {
    if cur == [] then Done(None)
    else
      assert cur == Parent(cur) + [Last(cur)];
      ValidSplit(root, Parent(cur), Last(cur));
      var parent := At(root, Parent(cur));
      var index := Last(cur) + val;
      if index < 0 || index >= |parent.kids| then Running(Parent(cur), Dir(flag))
      else
        Met(flag, parent.kids[index], Parent(cur) + [index], val)
  }

  /** A sibling is met at `at`: a question ends the search, a group is descended into. */
  function Met(flag: bool, item: Item, at: Pos, val: int): Outcome {
    if !item.isGroup then Done(Some(at))
    else if item.kids == [] then Running(at, val)
    else
      var e := Edge(flag, item);
      if !item.kids[e].isGroup then Done(Some(at + [e])) else Running(at + [e], 0)
  }

  /** `n` turns; a finished search stays finished. */
  function Turns(root: Item, flag: bool, o: Outcome, n: nat): Outcome
    requires o.Running? ==> Valid(root, o.cur)
    decreases n
  {
    if n == 0 || o.Done? then o
    else
      TurnValid(root, flag, o.cur, o.val);
      Turns(root, flag, Turn(root, flag, o.cur, o.val), n - 1)
  }

  // ----- positions -----

  lemma {:induction false} ValidSplit(root: Item, p: Pos, i: nat)
    ensures Valid(root, p + [i]) <==> Valid(root, p) && i < |At(root, p).kids|
    ensures Valid(root, p + [i]) ==> At(root, p + [i]) == At(root, p).kids[i]
    ensures Parent(p + [i]) == p && Last(p + [i]) == i
  {
    if p != [] {
      assert (p + [i])[1..] == p[1..] + [i];
      if p[0] < |root.kids| {
        ValidSplit(root.kids[p[0]], p[1..], i);
      }
    } else {
      assert (p + [i])[1..] == [];
    }
  }

  lemma TurnValid(root: Item, flag: bool, cur: Pos, val: int)
    requires Valid(root, cur)
    ensures var o := Turn(root, flag, cur, val); o.Running? ==> Valid(root, o.cur)
  {
    if cur != [] {
      var up := Parent(cur);
      assert cur == up + [Last(cur)];
      ValidSplit(root, up, Last(cur));
      var index := Last(cur) + val;
      if 0 <= index < |At(root, up).kids| {
        ValidSplit(root, up, index);
        var item := At(root, up).kids[index];
        if item.kids != [] {
          ValidSplit(root, up + [index], Edge(flag, item));
        }
      }
    }
  }

  lemma {:induction false} ValidPrefix(root: Item, p: Pos, q: Pos)
    requires Valid(root, q) && p <= q
    ensures Valid(root, p)
    ensures p < q ==> q[|p|] < |At(root, p).kids| && p + [q[|p|]] <= q
  {
    if p != [] {
      ValidPrefix(root.kids[p[0]], p[1..], q[1..]);
    }
  }

  lemma {:induction false} AheadSnoc(flag: bool, p: Pos, i: nat, q: Pos)
    ensures Ahead(flag, p + [i], q) <==> Ahead(flag, p, q) || (p < q && Beyond(flag, i, q[|p|]))
  {
    if p != [] && q != [] {
      assert (p + [i])[1..] == p[1..] + [i];
      AheadSnoc(flag, p[1..], i, q[1..]);
      if p[0] == q[0] {
        assert p < q <==> p[1..] < q[1..];
      }
    }
  }

  lemma PrefixSnoc(p: Pos, i: nat, q: Pos)
    ensures p + [i] <= q <==> p < q && q[|p|] == i
    ensures p <= q <==> p < q || p == q
  {
    if p < q && q[|p|] == i {
      assert p + [i] == q[..|p| + 1];
    }
    if p + [i] <= q {
      assert p == q[..|p|];
    }
  }

  lemma {:induction false} WellFormedAt(root: Item, p: Pos)
    requires WellFormed(root) && Valid(root, p)
    ensures WellFormed(At(root, p))
  {
    if p != [] {
      WellFormedAt(root.kids[p[0]], p[1..]);
    }
  }

  /** A turn that finds a sibling in the direction of the search. */
  lemma TurnSideways(root: Item, flag: bool, up: Pos, i: nat, val: int, j: nat)
    requires Valid(root, up + [i]) && Valid(root, up) && j == i + val && j < |At(root, up).kids|
    ensures Valid(root, up + [j])
    ensures Turn(root, flag, up + [i], val) == Met(flag, At(root, up + [j]), up + [j], val)
  {
    ValidSplit(root, up, i);
    ValidSplit(root, up, j);
  }

  /** The two ways a turn goes below the root. */
  lemma TurnCases(root: Item, flag: bool, cur: Pos, val: int)
    requires Valid(root, cur) && cur != []
    ensures Valid(root, Parent(cur))
    ensures forall j: nat :: j == Last(cur) + val && j < |At(root, Parent(cur)).kids| ==>
      var at := Parent(cur) + [j];
      Valid(root, at) && Turn(root, flag, cur, val) == Met(flag, At(root, at), at, val)
    ensures !(0 <= Last(cur) + val < |At(root, Parent(cur)).kids|) ==>
      Turn(root, flag, cur, val) == Running(Parent(cur), Dir(flag))
  {
    var up, i := Parent(cur), Last(cur);
    assert cur == up + [i];
    ValidSplit(root, up, i);
    if 0 <= i + val < |At(root, up).kids| {
      TurnSideways(root, flag, up, i, val, i + val);
    }
  }

  // ----- what one turn keeps -----

  /** The questions still to be considered from `cur` are those ahead of `start`: those ahead of
      `cur` and, when the search has just descended onto `cur`, those under it. */
  ghost predicate Covers(root: Item, flag: bool, start: Pos, cur: Pos, val: int) {
    && Valid(root, cur)
    && (val == Dir(flag) || (val == 0 && cur != [] && At(root, cur).isGroup))
    && forall q :: IsQuestion(root, q) ==>
         (Ahead(flag, start, q) <==> Ahead(flag, cur, q) || (val == 0 && cur < q))
  }

  /** As Covers, for an item the search has arrived at but not looked at yet. */
  ghost predicate Arrived(root: Item, flag: bool, start: Pos, at: Pos) {
    && Valid(root, at)
    && forall q :: IsQuestion(root, q) ==> (Ahead(flag, start, q) <==> Ahead(flag, at, q) || at <= q)
  }

  lemma ArriveSideways(root: Item, flag: bool, start: Pos, up: Pos, i: nat, val: int, j: nat)
    requires Valid(root, up + [i]) && Covers(root, flag, start, up + [i], val)
    requires Valid(root, up) && j == i + val && j < |At(root, up).kids|
    ensures Arrived(root, flag, start, up + [j])
  {
    ValidSplit(root, up, j);
    forall q | IsQuestion(root, q)
      ensures Ahead(flag, start, q) <==> Ahead(flag, up + [j], q) || up + [j] <= q
    {
      AheadSnoc(flag, up, i, q);
      AheadSnoc(flag, up, j, q);
      PrefixSnoc(up, j, q);
      PrefixSnoc(up + [i], 0, q);
    }
  }

  lemma ArriveDown(root: Item, flag: bool, start: Pos, at: Pos)
    requires Arrived(root, flag, start, at)
    requires At(root, at).isGroup && At(root, at).kids != []
    ensures Arrived(root, flag, start, at + [Edge(flag, At(root, at))])
  {
    var e := Edge(flag, At(root, at));
    ValidSplit(root, at, e);
    forall q | IsQuestion(root, q)
      ensures Ahead(flag, start, q) <==> Ahead(flag, at + [e], q) || at + [e] <= q
    {
      AheadSnoc(flag, at, e, q);
      PrefixSnoc(at, e, q);
      if at < q {
        ValidPrefix(root, at, q);
      }
    }
  }

  lemma Climb(root: Item, flag: bool, start: Pos, up: Pos, i: nat)
    requires Covers(root, flag, start, up + [i], Dir(flag)) && Valid(root, up)
    requires !(0 <= i + Dir(flag) < |At(root, up).kids|)
    ensures Covers(root, flag, start, up, Dir(flag))
  {
    ValidSplit(root, up, i);
    forall q | IsQuestion(root, q)
      ensures Ahead(flag, start, q) <==> Ahead(flag, up, q)
    {
      AheadSnoc(flag, up, i, q);
      if up < q {
        ValidPrefix(root, up, q);
      }
    }
  }

  lemma OnlyItself(root: Item, at: Pos, q: Pos)
    requires Valid(root, at) && At(root, at).kids == []
    requires Valid(root, q) && at <= q
    ensures q == at
  {
    if at != q {
      ValidPrefix(root, at, q);
    }
  }

  lemma ArrivedAtQuestion(root: Item, flag: bool, start: Pos, at: Pos)
    requires WellFormed(root) && Arrived(root, flag, start, at) && !At(root, at).isGroup
    ensures Nearest(root, flag, start, Some(at))
  {
    WellFormedAt(root, at);
    forall q | IsQuestion(root, q) && at <= q
      ensures q == at
    {
      OnlyItself(root, at, q);
    }
  }

  lemma PassEmptyGroup(root: Item, flag: bool, start: Pos, at: Pos)
    requires Arrived(root, flag, start, at) && At(root, at).isGroup && At(root, at).kids == []
    ensures Covers(root, flag, start, at, Dir(flag))
  {
    forall q | Valid(root, q) && at <= q
      ensures q == at
    {
      OnlyItself(root, at, q);
    }
  }

  lemma StartDown(root: Item, flag: bool, start: Pos, at: Pos)
    requires Arrived(root, flag, start, at) && At(root, at).isGroup && at != []
    ensures Covers(root, flag, start, at, 0)
  {
    forall q | IsQuestion(root, q)
      ensures at <= q <==> at < q
    {
      PrefixSnoc(at, 0, q);
    }
  }

  /** The turn ends the search with the nearest question, or keeps the set of questions ahead. */
  ghost predicate Sound(root: Item, flag: bool, start: Pos, cur: Pos, val: int, o: Outcome) {
    match o
    case Done(r) => Nearest(root, flag, start, r)
    case Running(next, step) => o == Running(cur, val) || Covers(root, flag, start, next, step)
  }

  lemma MeetingSound(root: Item, flag: bool, start: Pos, cur: Pos, val: int, at: Pos, o: Outcome)
    requires WellFormed(root) && Arrived(root, flag, start, at) && at != []
    requires (val == 0 && at == cur) || val == Dir(flag)
    requires o == Met(flag, At(root, at), at, val)
    ensures Sound(root, flag, start, cur, val, o)
  {
    var item := At(root, at);
    if !item.isGroup {
      ArrivedAtQuestion(root, flag, start, at);
    } else if item.kids == [] {
      PassEmptyGroup(root, flag, start, at);
    } else {
      var c := at + [Edge(flag, item)];
      ValidSplit(root, at, Edge(flag, item));
      ArriveDown(root, flag, start, at);
      if At(root, c).isGroup {
        StartDown(root, flag, start, c);
      } else {
        ArrivedAtQuestion(root, flag, start, c);
      }
    }
  }

  lemma SidewaysSound(root: Item, flag: bool, start: Pos, up: Pos, i: nat, val: int, j: nat)
    requires WellFormed(root) && Covers(root, flag, start, up + [i], val)
    requires Valid(root, up) && j == i + val && j < |At(root, up).kids|
    ensures Sound(root, flag, start, up + [i], val, Turn(root, flag, up + [i], val))
  {
    TurnSideways(root, flag, up, i, val, j);
    ArriveSideways(root, flag, start, up, i, val, j);
    MeetingSound(root, flag, start, up + [i], val, up + [j], Turn(root, flag, up + [i], val));
  }

  /** A turn that ends the search ends it with the nearest question; a turn that does not keeps
      the set of questions still to be considered. */
  lemma TurnSound(root: Item, flag: bool, start: Pos, cur: Pos, val: int)
    requires WellFormed(root) && root.isGroup && Covers(root, flag, start, cur, val)
    ensures Sound(root, flag, start, cur, val, Turn(root, flag, cur, val))
  {
    if cur != [] {
      var up, i := Parent(cur), Last(cur);
      assert cur == up + [i];
      ValidSplit(root, up, i);
      if 0 <= i + val < |At(root, up).kids| {
        SidewaysSound(root, flag, start, up, i, val, i + val);
      } else {
        Climb(root, flag, start, up, i);
      }
    }
  }

  // ----- progress -----

  function Size(item: Item): nat {
    1 + Sizes(item.kids)
  }

  function Sizes(items: seq<Item>): nat {
    if items == [] then 0 else Size(items[0]) + Sizes(items[1..])
  }

  lemma {:induction false} SizesConcat(a: seq<Item>, b: seq<Item>)
    ensures Sizes(a + b) == Sizes(a) + Sizes(b)
  {
    if a == [] {
      assert a + b == b;
    } else {
      assert (a + b)[1..] == a[1..] + b;
      SizesConcat(a[1..], b);
    }
  }

  lemma SizesSnoc(kids: seq<Item>, i: nat)
    requires i < |kids|
    ensures Sizes(kids[..i + 1]) == Sizes(kids[..i]) + Size(kids[i])
    ensures i + 1 == |kids| ==> kids[..i + 1] == kids
  {
    SizesConcat(kids[..i], [kids[i]]);
    assert kids[..i] + [kids[i]] == kids[..i + 1];
  }

  lemma SizesCons(kids: seq<Item>, i: nat)
    requires i < |kids|
    ensures Sizes(kids[i..]) == Size(kids[i]) + Sizes(kids[i + 1..])
    ensures kids[0..] == kids && kids[|kids|..] == []
  {
    assert kids[i..][1..] == kids[i + 1..];
  }

  /** Items under the siblings beyond index `i`. */
  function SizeBeyond(kids: seq<Item>, flag: bool, i: nat): nat
    requires i < |kids|
  {
    if flag then Sizes(kids[..i]) else Sizes(kids[i + 1..])
  }

  lemma SizeBeyondStep(kids: seq<Item>, flag: bool, i: nat)
    requires i < |kids|
    ensures 0 <= i + Dir(flag) < |kids| ==>
      SizeBeyond(kids, flag, i) == Size(kids[i + Dir(flag)]) + SizeBeyond(kids, flag, i + Dir(flag))
    ensures !(0 <= i + Dir(flag) < |kids|) ==> SizeBeyond(kids, flag, i) == 0
    ensures i == (if flag then |kids| - 1 else 0) ==> SizeBeyond(kids, flag, i) + Size(kids[i]) == Sizes(kids)
  {
    if flag {
      SizesSnoc(kids, i);
      if i > 0 {
        SizesSnoc(kids, i - 1);
      }
    } else {
      SizesCons(kids, i);
      if i + 1 < |kids| {
        SizesCons(kids, i + 1);
      }
    }
  }

  /** Items ahead of `p`: not entered yet. */
  function SizeAhead(root: Item, flag: bool, p: Pos): nat
    requires Valid(root, p)
  {
    if p == [] then 0
    else SizeBeyond(root.kids, flag, p[0]) + SizeAhead(root.kids[p[0]], flag, p[1..])
  }

  lemma {:induction false} SizeAheadSnoc(root: Item, flag: bool, p: Pos, i: nat)
    requires Valid(root, p) && i < |At(root, p).kids| && Valid(root, p + [i])
    ensures SizeAhead(root, flag, p + [i]) == SizeAhead(root, flag, p) + SizeBeyond(At(root, p).kids, flag, i)
  {
    if p != [] {
      assert (p + [i])[1..] == p[1..] + [i];
      SizeAheadSnoc(root.kids[p[0]], flag, p[1..], i);
    } else {
      assert (p + [i])[1..] == [];
    }
  }

  function ToEnter(root: Item, flag: bool, cur: Pos, val: int): nat
    requires Valid(root, cur)
  {
    SizeAhead(root, flag, cur) + if val == 0 then Size(At(root, cur)) - 1 else 0
  }

  predicate AtRest(root: Item, flag: bool, cur: Pos, val: int) {
    Valid(root, cur) && (val == Dir(flag) || (val == 0 && cur != [] && At(root, cur).isGroup))
  }

  /** The stay on an empty group with no step to take. */
  predicate Stuck(root: Item, o: Outcome, cur: Pos, val: int)
    requires Valid(root, cur)
  {
    val == 0 && o == Running(cur, val) && At(root, cur).kids == []
  }

  lemma SidewaysSize(root: Item, flag: bool, up: Pos, i: nat)
    requires Valid(root, up) && i < |At(root, up).kids|
    ensures Valid(root, up + [i])
    ensures SizeAhead(root, flag, up + [i]) == SizeAhead(root, flag, up) + SizeBeyond(At(root, up).kids, flag, i)
    ensures var j := i + Dir(flag);
      0 <= j < |At(root, up).kids| ==>
        && Valid(root, up + [j])
        && SizeAhead(root, flag, up + [i]) == Size(At(root, up + [j])) + SizeAhead(root, flag, up + [j])
  {
    ValidSplit(root, up, i);
    SizeAheadSnoc(root, flag, up, i);
    SizeBeyondStep(At(root, up).kids, flag, i);
    var j := i + Dir(flag);
    if 0 <= j < |At(root, up).kids| {
      ValidSplit(root, up, j);
      SizeAheadSnoc(root, flag, up, j);
    }
  }

  lemma DownSize(root: Item, flag: bool, at: Pos)
    requires Valid(root, at) && At(root, at).kids != []
    ensures var e := at + [Edge(flag, At(root, at))];
      && Valid(root, e)
      && At(root, e) == At(root, at).kids[Edge(flag, At(root, at))]
      && SizeAhead(root, flag, e) + Size(At(root, e)) == SizeAhead(root, flag, at) + Size(At(root, at)) - 1
  {
    var item := At(root, at);
    ValidSplit(root, at, Edge(flag, item));
    SizeAheadSnoc(root, flag, at, Edge(flag, item));
    SizeBeyondStep(item.kids, flag, Edge(flag, item));
  }

  predicate Progress(root: Item, flag: bool, cur: Pos, val: int, o: Outcome)
    requires Valid(root, cur)
  {
    o.Running? ==>
      && Valid(root, o.cur)
      && (Stuck(root, o, cur, val) ||
          (&& AtRest(root, flag, o.cur, o.val)
           && (|| ToEnter(root, flag, o.cur, o.val) < ToEnter(root, flag, cur, val)
               || (ToEnter(root, flag, o.cur, o.val) == ToEnter(root, flag, cur, val) && |o.cur| < |cur|))))
  }

  lemma SidewaysProgress(root: Item, flag: bool, up: Pos, i: nat, val: int, j: nat)
    requires AtRest(root, flag, up + [i], val) && Valid(root, up)
    requires i < |At(root, up).kids| && j == i + val && j < |At(root, up).kids|
    ensures Progress(root, flag, up + [i], val, Turn(root, flag, up + [i], val))
  {
    TurnSideways(root, flag, up, i, val, j);
    EntersAt(root, flag, up, i, val, j);
    MeetingProgress(root, flag, up + [i], val, up + [j], Turn(root, flag, up + [i], val));
  }

  lemma MeetingProgress(root: Item, flag: bool, cur: Pos, val: int, at: Pos, o: Outcome)
    requires AtRest(root, flag, cur, val) && (val == 0 ==> at == cur)
    requires Valid(root, at) && o == Met(flag, At(root, at), at, val)
    requires ToEnter(root, flag, cur, val) == SizeAhead(root, flag, at) + Size(At(root, at)) - if val == 0 then 1 else 0
    ensures Progress(root, flag, cur, val, o)
  {
    if At(root, at).kids != [] {
      DownSize(root, flag, at);
    }
  }

  lemma EntersAt(root: Item, flag: bool, up: Pos, i: nat, val: int, j: nat)
    requires AtRest(root, flag, up + [i], val) && Valid(root, up)
    requires i < |At(root, up).kids| && j == i + val && j < |At(root, up).kids| && Valid(root, up + [j])
    ensures var at := up + [j];
      ToEnter(root, flag, up + [i], val) == SizeAhead(root, flag, at) + Size(At(root, at)) - if val == 0 then 1 else 0
  {
    SidewaysSize(root, flag, up, i);
  }

  /** Every turn enters a new item or climbs, except the one that stays on an empty group. */
  lemma TurnProgress(root: Item, flag: bool, cur: Pos, val: int)
    requires AtRest(root, flag, cur, val)
    ensures Progress(root, flag, cur, val, Turn(root, flag, cur, val))
  {
    if cur != [] {
      var up, i := Parent(cur), Last(cur);
      assert cur == up + [i];
      ValidSplit(root, up, i);
      if 0 <= i + val < |At(root, up).kids| {
        SidewaysProgress(root, flag, up, i, val, i + val);
      } else {
        SidewaysSize(root, flag, up, i);
        SizeBeyondStep(At(root, up).kids, flag, i);
      }
    }
  }

  // ----- when the search stops -----

  /** The nearest item ahead of `cur`, climbing where a group is used up and passing empty groups. */
  function Landing(root: Item, flag: bool, cur: Pos): (r: Option<Pos>)
    requires Valid(root, cur)
    ensures r.Some? ==> Valid(root, r.value) && r.value != []
    ensures r.Some? ==> !(At(root, r.value).isGroup && At(root, r.value).kids == [])
    decreases SizeAhead(root, flag, cur), |cur|
  {
    if cur == [] then None
    else
      TurnProgress(root, flag, cur, Dir(flag));
      var up := Parent(cur);
      assert cur == up + [Last(cur)];
      ValidSplit(root, up, Last(cur));
      var j := Last(cur) + Dir(flag);
      if !(0 <= j < |At(root, up).kids|) then Landing(root, flag, up)
      else
        ValidSplit(root, up, j);
        var item := At(root, up).kids[j];
        if item.isGroup && item.kids == [] then Landing(root, flag, up + [j]) else Some(up + [j])
  }

  /** Following first children (last ones, when `flag`) from `item` ends at a question, not at an
      empty group. */
  predicate EndsInQuestion(flag: bool, item: Item) {
    !item.isGroup || (item.kids != [] && EndsInQuestion(flag, item.kids[Edge(flag, item)]))
  }

  /** What the caller can check: either nothing lies ahead, or the nearest item that is not an
      empty group leads to a question by first (last) children alone. */
  predicate Stops(root: Item, flag: bool, cur: Pos)
    requires Valid(root, cur)
  {
    match Landing(root, flag, cur)
    case None => true
    case Some(at) => EndsInQuestion(flag, At(root, at))
  }

  predicate Hopeful(root: Item, flag: bool, cur: Pos, val: int)
    requires Valid(root, cur)
  {
    if val == 0 then EndsInQuestion(flag, At(root, cur)) else Stops(root, flag, cur)
  }

  /** A turn never turns a search that stops into one that does not, or the other way round. */
  lemma TurnHope(root: Item, flag: bool, cur: Pos, val: int)
    requires AtRest(root, flag, cur, val)
    ensures var o := Turn(root, flag, cur, val);
      && (o.Done? ==> Hopeful(root, flag, cur, val))
      && (o.Running? ==> Valid(root, o.cur) && (Hopeful(root, flag, cur, val) <==> Hopeful(root, flag, o.cur, o.val)))
  {
    TurnProgress(root, flag, cur, val);
    if cur != [] {
      var up, i := Parent(cur), Last(cur);
      assert cur == up + [i];
      ValidSplit(root, up, i);
      if 0 <= i + val < |At(root, up).kids| {
        SidewaysHope(root, flag, up, i, val, i + val);
      }
    }
  }

  /** What Hopeful says of a search about to meet the sibling at `at`. */
  predicate MeetingIsHopeful(root: Item, flag: bool, at: Pos, val: int)
    requires Valid(root, at)
  {
    if val != 0 && At(root, at).isGroup && At(root, at).kids == [] then Stops(root, flag, at)
    else EndsInQuestion(flag, At(root, at))
  }

  lemma SidewaysHope(root: Item, flag: bool, up: Pos, i: nat, val: int, j: nat)
    requires AtRest(root, flag, up + [i], val) && Valid(root, up)
    requires j == i + val && j < |At(root, up).kids|
    ensures var cur := up + [i]; var o := Turn(root, flag, cur, val);
      && (o.Done? ==> Hopeful(root, flag, cur, val))
      && (o.Running? ==> Valid(root, o.cur) && (Hopeful(root, flag, cur, val) <==> Hopeful(root, flag, o.cur, o.val)))
  {
    TurnSideways(root, flag, up, i, val, j);
    HopeOfMeeting(root, flag, up, i, val, j);
    MeetingHope(root, flag, up + [j], val, Turn(root, flag, up + [i], val));
  }

  lemma HopeOfMeeting(root: Item, flag: bool, up: Pos, i: nat, val: int, j: nat)
    requires AtRest(root, flag, up + [i], val) && Valid(root, up) && Valid(root, up + [j])
    requires j == i + val && j < |At(root, up).kids|
    ensures Hopeful(root, flag, up + [i], val) == MeetingIsHopeful(root, flag, up + [j], val)
  {
    ValidSplit(root, up, i);
    ValidSplit(root, up, j);
    if val != 0 {
      LandingStep(root, flag, up + [i], up, j);
    }
  }

  lemma LandingStep(root: Item, flag: bool, cur: Pos, up: Pos, j: nat)
    requires Valid(root, cur) && cur != [] && up == Parent(cur) && j == Last(cur) + Dir(flag)
    requires Valid(root, up) && j < |At(root, up).kids| && Valid(root, up + [j])
    ensures var item := At(root, up + [j]);
      Landing(root, flag, cur) ==
        if item.isGroup && item.kids == [] then Landing(root, flag, up + [j]) else Some(up + [j])
  {
    ValidSplit(root, up, j);
  }

  lemma MeetingHope(root: Item, flag: bool, at: Pos, val: int, o: Outcome)
    requires Valid(root, at) && (val == 0 || val == Dir(flag)) && o == Met(flag, At(root, at), at, val)
    ensures o.Done? ==> MeetingIsHopeful(root, flag, at, val)
    ensures o.Running? ==>
      Valid(root, o.cur) && (MeetingIsHopeful(root, flag, at, val) <==> Hopeful(root, flag, o.cur, o.val))
  {
    if At(root, at).kids != [] {
      ValidSplit(root, at, Edge(flag, At(root, at)));
    }
  }

  lemma {:induction false} NeverStops(root: Item, flag: bool, cur: Pos, val: int, n: nat)
    requires AtRest(root, flag, cur, val) && !Hopeful(root, flag, cur, val)
    ensures Turns(root, flag, Running(cur, val), n).Running?
    decreases n
  {
    if n > 0 {
      var o := Turn(root, flag, cur, val);
      TurnProgress(root, flag, cur, val);
      TurnHope(root, flag, cur, val);
      NeverStops(root, flag, o.cur, o.val, n - 1);
    }
  }

  lemma {:induction false} StopsAfter(root: Item, flag: bool, cur: Pos, val: int) returns (n: nat)
    requires AtRest(root, flag, cur, val) && Hopeful(root, flag, cur, val)
    ensures Turns(root, flag, Running(cur, val), n).Done?
    decreases ToEnter(root, flag, cur, val), |cur|
  {
    var o := Turn(root, flag, cur, val);
    if o.Done? {
      return 1;
    }
    TurnProgress(root, flag, cur, val);
    TurnHope(root, flag, cur, val);
    n := StopsAfter(root, flag, o.cur, o.val);
    n := n + 1;
  }

  /** The loop ends exactly when Stops holds; otherwise it turns for ever. */
  lemma LoopEndsIffStops(root: Item, flag: bool, start: Pos)
    requires Valid(root, start)
    ensures (exists n: nat :: Turns(root, flag, Running(start, Dir(flag)), n).Done?) <==> Stops(root, flag, start)
  {
    if Stops(root, flag, start) {
      var n := StopsAfter(root, flag, start, Dir(flag));
    } else {
      forall n: nat
        ensures Turns(root, flag, Running(start, Dir(flag)), n).Running?
      {
        NeverStops(root, flag, start, Dir(flag), n);
      }
    }
  }

  /** The loop started at `p` returns `r`. */
  ghost predicate Returns(root: Item, flag: bool, p: Pos, r: Option<Pos>)
    requires Valid(root, p)
  {
    exists n: nat :: Turns(root, flag, Running(p, Dir(flag)), n) == Done(r)
  }

  /** The loop started at `p` gets to `cur` and `val`. */
  ghost predicate Reaches(root: Item, flag: bool, p: Pos, cur: Pos, val: int)
    requires Valid(root, p)
  {
    exists n: nat :: Turns(root, flag, Running(p, Dir(flag)), n) == Running(cur, val)
  }

  lemma {:induction false} TurnsSnoc(root: Item, flag: bool, from: Pos, v: int, n: nat, cur: Pos, val: int)
    requires Valid(root, from) && Valid(root, cur) && Turns(root, flag, Running(from, v), n) == Running(cur, val)
    ensures Turns(root, flag, Running(from, v), n + 1) == Turn(root, flag, cur, val)
    decreases n
  {
    TurnValid(root, flag, from, v);
    if n == 0 {
      assert Turns(root, flag, Turn(root, flag, from, v), 0) == Turn(root, flag, from, v);
    } else {
      var o := Turn(root, flag, from, v);
      TurnsSnoc(root, flag, o.cur, o.val, n - 1, cur, val);
    }
  }

  lemma ReachesOn(root: Item, flag: bool, start: Pos, cur: Pos, val: int)
    requires Valid(root, start) && Valid(root, cur) && Reaches(root, flag, start, cur, val)
    ensures var o := Turn(root, flag, cur, val);
      && (o.Done? ==> Returns(root, flag, start, o.result))
      && (o.Running? ==> Reaches(root, flag, start, o.cur, o.val))
  {
    var n: nat :| Turns(root, flag, Running(start, Dir(flag)), n) == Running(cur, val);
    TurnsSnoc(root, flag, start, Dir(flag), n, cur, val);
    var o := Turn(root, flag, cur, val);
    if o.Done? {
      assert Turns(root, flag, Running(start, Dir(flag)), n + 1) == Done(o.result);
    } else {
      assert Turns(root, flag, Running(start, Dir(flag)), n + 1) == Running(o.cur, o.val);
    }
  }

  /** A search that will end, and what is still ahead of it. */
  ghost predicate Searching(root: Item, flag: bool, start: Pos, cur: Pos, val: int) {
    && WellFormed(root) && root.isGroup && Valid(root, start)
    && Underway(root, flag, start, cur, val)
  }

  ghost predicate Underway(root: Item, flag: bool, start: Pos, cur: Pos, val: int)
    requires Valid(root, start)
  {
    && Reaches(root, flag, start, cur, val)
    && AtRest(root, flag, cur, val)
    && Covers(root, flag, start, cur, val)
    && Hopeful(root, flag, cur, val)
  }

  lemma SearchStarts(root: Item, flag: bool, p: Pos)
    requires WellFormed(root) && root.isGroup && Valid(root, p) && Stops(root, flag, p)
    ensures Searching(root, flag, p, p, Dir(flag))
  {
    assert Turns(root, flag, Running(p, Dir(flag)), 0) == Running(p, Dir(flag));
    assert Reaches(root, flag, p, p, Dir(flag));
  }

  lemma TurnStep(root: Item, flag: bool, start: Pos, cur: Pos, val: int)
    requires Searching(root, flag, start, cur, val)
    ensures var o := Turn(root, flag, cur, val);
      && (o.Done? ==> Nearest(root, flag, start, o.result) && Returns(root, flag, start, o.result))
      && (o.Running? ==>
            && Searching(root, flag, start, o.cur, o.val)
            && (|| ToEnter(root, flag, o.cur, o.val) < ToEnter(root, flag, cur, val)
                || (ToEnter(root, flag, o.cur, o.val) == ToEnter(root, flag, cur, val) && |o.cur| < |cur|)))
  {
    ReachesOn(root, flag, start, cur, val);
    TurnSound(root, flag, start, cur, val);
    TurnProgress(root, flag, cur, val);
    TurnHope(root, flag, cur, val);
  }

  /** No group but the root starts (ends, when `flag`) with an empty group. */
  predicate NoEmptyEdge(flag: bool, root: Item) {
    forall k <- root.kids :: NoEmptyEdgeBelow(flag, k)
  }

  predicate NoEmptyEdgeBelow(flag: bool, item: Item) {
    && (item.kids != [] ==> var e := item.kids[Edge(flag, item)]; !(e.isGroup && e.kids == []))
    && forall k <- item.kids :: NoEmptyEdgeBelow(flag, k)
  }

  lemma {:induction false} EdgesLead(flag: bool, item: Item)
    requires NoEmptyEdgeBelow(flag, item) && !(item.isGroup && item.kids == [])
    ensures EndsInQuestion(flag, item)
  {
    if item.isGroup {
      EdgesLead(flag, item.kids[Edge(flag, item)]);
    }
  }

  lemma {:induction false} EdgesBelow(flag: bool, item: Item, p: Pos)
    requires NoEmptyEdgeBelow(flag, item) && Valid(item, p)
    ensures NoEmptyEdgeBelow(flag, At(item, p))
  {
    if p != [] {
      EdgesBelow(flag, item.kids[p[0]], p[1..]);
    }
  }

  /** A condition on the tree alone under which every search stops. */
  lemma NoEmptyEdgeStops(root: Item, flag: bool, cur: Pos)
    requires Valid(root, cur) && NoEmptyEdge(flag, root)
    ensures Stops(root, flag, cur)
  {
    var at := Landing(root, flag, cur);
    if at.Some? {
      EdgesBelow(flag, root.kids[at.value[0]], at.value[1..]);
      EdgesLead(flag, At(root, at.value));
    }
  }

  // ----- the left-to-right question list -----

  function Indexed(i: nat, ps: seq<Pos>): (r: seq<Pos>)
    ensures |r| == |ps|
    ensures forall k :: 0 <= k < |ps| ==> r[k] != [] && r[k][0] == i && r[k][1..] == ps[k]
  {
    seq(|ps|, k requires 0 <= k < |ps| => [i] + ps[k])
  }

  function Questions(item: Item): seq<Pos>
    decreases item, 1
  {
    if !item.isGroup then [[]] else KidQuestions(item.kids)
  }

  function KidQuestions(kids: seq<Item>): seq<Pos>
    decreases kids, 0
  {
    if kids == [] then []
    else
      var n := |kids| - 1;
      KidQuestions(kids[..n]) + Indexed(n, Questions(kids[n]))
  }

  ghost predicate Ordered(ps: seq<Pos>) {
    forall i, j :: 0 <= i < j < |ps| ==> Ahead(false, ps[i], ps[j])
  }

  /** The list holds exactly the questions, each before the next. */
  lemma {:induction false} QuestionsAreListed(item: Item)
    requires WellFormed(item)
    ensures forall q :: q in Questions(item) <==> IsQuestion(item, q)
    ensures Ordered(Questions(item))
    decreases item, 1
  {
    if item.isGroup {
      KidsAreListed(item.kids);
      forall q
        ensures q in Questions(item) <==> IsQuestion(item, q)
      {
        assert q in KidQuestions(item.kids) <==> q != [] && q[0] < |item.kids| && IsQuestion(item.kids[q[0]], q[1..]);
      }
    } else {
      assert forall q :: Valid(item, q) ==> q == [];
      assert Questions(item) == [[]];
    }
  }

  lemma {:induction false} KidsAreListed(kids: seq<Item>)
    requires forall k <- kids :: WellFormed(k)
    ensures forall q :: q in KidQuestions(kids) <==> q != [] && q[0] < |kids| && IsQuestion(kids[q[0]], q[1..])
    ensures Ordered(KidQuestions(kids))
    decreases kids, 0
  {
    if kids != [] {
      var n := |kids| - 1;
      var a, b := KidQuestions(kids[..n]), Indexed(n, Questions(kids[n]));
      KidsAreListed(kids[..n]);
      QuestionsAreListed(kids[n]);
      forall q
        ensures q in a + b <==> q != [] && q[0] < |kids| && IsQuestion(kids[q[0]], q[1..])
      {
        if q != [] && q[0] == n && IsQuestion(kids[n], q[1..]) {
          var k :| 0 <= k < |b| && Questions(kids[n])[k] == q[1..];
          assert q == [q[0]] + q[1..] && b[k] == [b[k][0]] + b[k][1..];
          assert b[k] == q;
        }
      }
      forall i, j | 0 <= i < j < |a + b|
        ensures Ahead(false, (a + b)[i], (a + b)[j])
      {
        if i < |a| <= j {
          assert a[i] in a && b[j - |a|] in b;
        }
      }
    }
  }

  lemma {:induction false} AheadIsStrict(flag: bool, p: Pos, q: Pos)
    ensures Ahead(flag, p, q) ==> !Ahead(flag, q, p) && p != q
    ensures Ahead(flag, p, q) <==> Ahead(!flag, q, p)
  {
    if p != [] && q != [] {
      AheadIsStrict(flag, p[1..], q[1..]);
    }
  }

  lemma OrderedAhead(ps: seq<Pos>, flag: bool, k: nat, i: nat)
    requires Ordered(ps) && k < |ps| && i < |ps|
    ensures Ahead(flag, ps[k], ps[i]) <==> Beyond(flag, k, i)
  {
    AheadIsStrict(false, ps[k], ps[i]);
    AheadIsStrict(false, ps[i], ps[k]);
  }

  /** From the k-th question the nearest one ahead is the (k+1)-th, the nearest one behind the
      (k-1)-th, and at either end there is none. */
  lemma NearestIsNeighbour(root: Item, flag: bool, k: nat, r: Option<Pos>)
    requires WellFormed(root) && k < |Questions(root)|
    requires Nearest(root, flag, Questions(root)[k], r)
    ensures var j := k + Dir(flag);
      r == if 0 <= j < |Questions(root)| then Some(Questions(root)[j]) else None
  {
    QuestionsAreListed(root);
    var qs, j := Questions(root), k + Dir(flag);
    forall i | 0 <= i < |qs|
      ensures Ahead(flag, qs[k], qs[i]) <==> Beyond(flag, k, i)
      ensures 0 <= j < |qs| ==> (Ahead(flag, qs[j], qs[i]) <==> Beyond(flag, j, i))
    {
      OrderedAhead(qs, flag, k, i);
      if 0 <= j < |qs| {
        OrderedAhead(qs, flag, j, i);
      }
    }
    assert 0 <= j < |qs| ==> IsQuestion(root, qs[j]);
    if r.Some? {
      var i :| 0 <= i < |qs| && qs[i] == r.value;
      assert Beyond(flag, k, i);
      AheadIsStrict(flag, qs[j], r.value);
    }
  }

  // ----- presses -----

  lemma {:induction false} TurnsSound(root: Item, flag: bool, start: Pos, cur: Pos, val: int, n: nat, r: Option<Pos>)
    requires WellFormed(root) && root.isGroup && Covers(root, flag, start, cur, val)
    requires Turns(root, flag, Running(cur, val), n) == Done(r)
    ensures Nearest(root, flag, start, r)
    decreases n
  {
    var o := Turn(root, flag, cur, val);
    TurnSound(root, flag, start, cur, val);
    if o.Running? {
      TurnsSound(root, flag, start, o.cur, o.val, n - 1, r);
    }
  }

  /** The loop returns exactly when it stops, and what it returns is the nearest question. */
  lemma ReturnsNearest(root: Item, flag: bool, p: Pos)
    requires WellFormed(root) && root.isGroup && Valid(root, p)
    ensures forall r :: Returns(root, flag, p, r) ==> Nearest(root, flag, p, r)
    ensures (exists r :: Returns(root, flag, p, r)) <==> Stops(root, flag, p)
  {
    forall r | Returns(root, flag, p, r)
      ensures Nearest(root, flag, p, r)
    {
      var n: nat :| Turns(root, flag, Running(p, Dir(flag)), n) == Done(r);
      TurnsSound(root, flag, p, p, Dir(flag), n, r);
    }
    LoopEndsIffStops(root, flag, p);
    if Stops(root, flag, p) {
      var n: nat :| Turns(root, flag, Running(p, Dir(flag)), n).Done?;
      var r := Turns(root, flag, Running(p, Dir(flag)), n).result;
      assert Turns(root, flag, Running(p, Dir(flag)), n) == Done(r);
      assert Returns(root, flag, p, r);
    }
    forall r | Returns(root, flag, p, r)
      ensures Stops(root, flag, p)
    {
      var n: nat :| Turns(root, flag, Running(p, Dir(flag)), n) == Done(r);
      if !Stops(root, flag, p) {
        NeverStops(root, flag, p, Dir(flag), n);
      }
    }
  }

  /** From the k-th question the loop returns its neighbour in the list, if it returns at all. */
  lemma PressFromQuestion(root: Item, flag: bool, k: nat, r: Option<Pos>)
    requires WellFormed(root) && root.isGroup && k < |Questions(root)| && Valid(root, Questions(root)[k])
    ensures Returns(root, flag, Questions(root)[k], r) <==>
            Stops(root, flag, Questions(root)[k]) &&
            r == var j := k + Dir(flag); if 0 <= j < |Questions(root)| then Some(Questions(root)[j]) else None
  {
    var p := Questions(root)[k];
    ReturnsNearest(root, flag, p);
    if Returns(root, flag, p, r) {
      NearestIsNeighbour(root, flag, k, r);
    }
    if Stops(root, flag, p) {
      var r' :| Returns(root, flag, p, r');
      NearestIsNeighbour(root, flag, k, r');
    }
  }

  /** A session: Next is pressed from the first question on until it reports the end. */
  ghost predicate Session(root: Item, seen: seq<Pos>) {
    && seen != [] && Questions(root) != [] && seen[0] == Questions(root)[0]
    && (forall i :: 0 <= i < |seen| ==> Valid(root, seen[i]))
    && (forall i :: 0 <= i < |seen| - 1 ==> Returns(root, false, seen[i], Some(seen[i + 1])))
    && Returns(root, false, seen[|seen| - 1], None)
  }

  /** The search stops from every question. */
  ghost predicate AllStop(root: Item, flag: bool) {
    forall q :: IsQuestion(root, q) ==> Stops(root, flag, q)
  }

  /** A session runs to its end exactly when Next stops at every question, and then it has shown
      exactly the questions of the tree, left to right, each once. */
  lemma NextVisitsAll(root: Item, seen: seq<Pos>)
    requires WellFormed(root) && root.isGroup && Questions(root) != []
    ensures Session(root, seen) <==> seen == Questions(root) && AllStop(root, false)
    ensures Session(root, seen) ==>
      (forall q :: q in seen <==> IsQuestion(root, q)) && forall i, j :: 0 <= i < j < |seen| ==> seen[i] != seen[j]
  {
    QuestionsAreListed(root);
    var qs := Questions(root);
    if Session(root, seen) {
      SessionIsTheList(root, seen);
    }
    if seen == qs && AllStop(root, false) {
      ListIsASession(root);
    }
    forall i, j | 0 <= i < j < |qs|
      ensures qs[i] != qs[j]
    {
      AheadIsStrict(false, qs[i], qs[j]);
    }
  }

  lemma SessionIsTheList(root: Item, seen: seq<Pos>)
    requires WellFormed(root) && root.isGroup && Session(root, seen)
    ensures seen == Questions(root) && AllStop(root, false)
  {
    var qs := Questions(root);
    SessionFollowsTheList(root, seen, |seen|);
    assert seen[..|seen|] == seen;
    PressFromQuestion(root, false, |seen| - 1, None);
    QuestionsAreListed(root);
    forall q | IsQuestion(root, q)
      ensures Stops(root, false, q)
    {
      var k :| 0 <= k < |qs| && qs[k] == q;
      SessionStops(root, seen, k);
    }
  }

  lemma SessionStops(root: Item, seen: seq<Pos>, k: nat)
    requires WellFormed(root) && root.isGroup && Session(root, seen) && k < |seen|
    ensures Stops(root, false, seen[k])
  {
    ReturnsNearest(root, false, seen[k]);
    if k + 1 < |seen| {
      assert Returns(root, false, seen[k], Some(seen[k + 1]));
    } else {
      assert Returns(root, false, seen[k], None);
    }
  }

  lemma ListIsASession(root: Item)
    requires WellFormed(root) && root.isGroup && Questions(root) != [] && AllStop(root, false)
    ensures Session(root, Questions(root))
  {
    QuestionsAreListed(root);
    var qs := Questions(root);
    forall k | 0 <= k < |qs|
      ensures IsQuestion(root, qs[k])
      ensures Returns(root, false, qs[k], if k + 1 < |qs| then Some(qs[k + 1]) else None)
    {
      assert qs[k] in qs;
      PressFromQuestion(root, false, k, if k + 1 < |qs| then Some(qs[k + 1]) else None);
    }
    PressFromQuestion(root, false, |qs| - 1, None);
  }

  lemma {:induction false} SessionFollowsTheList(root: Item, seen: seq<Pos>, k: nat)
    requires WellFormed(root) && root.isGroup && Session(root, seen) && k <= |seen|
    ensures seen[..k] <= Questions(root)
    decreases k
  {
    if k > 1 {
      SessionFollowsTheList(root, seen, k - 1);
      assert seen[k - 2] == seen[..k - 1][k - 2] == Questions(root)[k - 2];
      assert Returns(root, false, seen[k - 2], Some(seen[k - 1]));
      PressFromQuestion(root, false, k - 2, Some(seen[k - 1]));
    }
  }

  /** Where no group but the root starts with an empty group every session runs to its end. */
  lemma NextReadsOut(root: Item)
    requires WellFormed(root) && root.isGroup && Questions(root) != [] && NoEmptyEdge(false, root)
    ensures Session(root, Questions(root))
  {
    QuestionsAreListed(root);
    forall q | IsQuestion(root, q)
      ensures Stops(root, false, q)
    {
      NoEmptyEdgeStops(root, false, q);
    }
    ListIsASession(root);
  }

  /** Previous right after a Next that found a question goes back to where Next was pressed exactly
      when it stops, and goes nowhere else. */
  lemma LastUndoesNext(root: Item, p: Pos, next: Pos)
    requires WellFormed(root) && root.isGroup && IsQuestion(root, p)
    requires Returns(root, false, p, Some(next))
    ensures Valid(root, next)
    ensures Returns(root, true, next, Some(p)) <==> Stops(root, true, next)
    ensures forall r :: Returns(root, true, next, r) ==> r == Some(p)
  {
    QuestionsAreListed(root);
    var k :| 0 <= k < |Questions(root)| && Questions(root)[k] == p;
    PressFromQuestion(root, false, k, Some(next));
    assert next in Questions(root);
    forall r
      ensures Returns(root, true, next, r) <==> Stops(root, true, next) && r == Some(p)
    {
      PressFromQuestion(root, true, k + 1, r);
    }
  }

  /** A group of a group of one question and an empty group, then a group of one question. */
  const ONE: Item := Item(true, [Item(false, [])])
  const FIRST: Item := Item(true, [ONE, Item(true, [])])
  const TWO_GROUPS: Item := Item(true, [FIRST, ONE])

  lemma TwoGroupsPlaces()
    ensures var root := TWO_GROUPS;
      && Valid(root, [0]) && At(root, [0]) == FIRST && Valid(root, [1]) && At(root, [1]) == ONE
      && Valid(root, [0, 0]) && At(root, [0, 0]) == ONE && Valid(root, [0, 1])
      && Valid(root, [1, 0]) && At(root, [1, 0]) == Item(false, [])
      && Valid(root, [0, 0, 0]) && At(root, [0, 0, 0]) == Item(false, [])
  {
    var root := TWO_GROUPS;
    ValidSplit(root, [], 0);
    ValidSplit(root, [], 1);
    assert [] + [0] == [0] && [] + [1] == [1];
    ValidSplit(root, [0], 0);
    ValidSplit(root, [0], 1);
    ValidSplit(root, [1], 0);
    assert [0] + [0] == [0, 0] && [0] + [1] == [0, 1] && [1] + [0] == [1, 0];
    ValidSplit(root, [0, 0], 0);
    assert [0, 0] + [0] == [0, 0, 0];
  }

  lemma NextPasses()
    requires Valid(TWO_GROUPS, [0, 0, 0])
    ensures Turns(TWO_GROUPS, false, Running([0, 0, 0], 1), 4) == Done(Some([1, 0]))
  {
    var root := TWO_GROUPS;
    TwoGroupsPlaces();
    FourPlaces();
    TurnCases(root, false, [0, 0, 0], 1);
    TurnCases(root, false, [0, 0], 1);
    TurnCases(root, false, [0, 1], 1);
    TurnCases(root, false, [0], 1);
    FourTurns(root, false, [0, 0, 0], [0, 0], [0, 1], [0], Some([1, 0]));
  }

  lemma FourPlaces()
    ensures Parent([0, 0, 0]) == [0, 0] && Last([0, 0, 0]) == 0
    ensures Parent([0, 0]) == [0] && Last([0, 0]) == 0 && [0] + [1] == [0, 1]
    ensures Parent([0, 1]) == [0] && Last([0, 1]) == 1
    ensures Parent([0]) == [] && Last([0]) == 0 && [] + [1] == [1] && [1] + [0] == [1, 0]
  {
  }

  lemma FourTurns(root: Item, flag: bool, a: Pos, b: Pos, c: Pos, d: Pos, r: Option<Pos>)
    requires Valid(root, a) && Valid(root, b) && Valid(root, c) && Valid(root, d)
    requires Turn(root, flag, a, Dir(flag)) == Running(b, Dir(flag))
    requires Turn(root, flag, b, Dir(flag)) == Running(c, Dir(flag))
    requires Turn(root, flag, c, Dir(flag)) == Running(d, Dir(flag)) && Turn(root, flag, d, Dir(flag)) == Done(r)
    ensures Turns(root, flag, Running(a, Dir(flag)), 4) == Done(r)
  {
    assert Turns(root, flag, Done(r), 0) == Done(r);
    assert Turns(root, flag, Running(d, Dir(flag)), 1) == Done(r);
    assert Turns(root, flag, Running(c, Dir(flag)), 2) == Done(r);
    assert Turns(root, flag, Running(b, Dir(flag)), 3) == Done(r);
  }

  /** Previous need not stop after a Next that did: here Next goes from the first question to the
      second, and Previous from there turns for ever. */
  lemma LastMayNotReturn()
    ensures var root := TWO_GROUPS;
      && WellFormed(root) && IsQuestion(root, [0, 0, 0]) && Valid(root, [1, 0])
      && Returns(root, false, [0, 0, 0], Some([1, 0]))
      && !Stops(root, true, [1, 0])
      && forall n: nat :: Turns(root, true, Running([1, 0], Dir(true)), n).Running?
  {
    TwoGroupsPlaces();
    NextReturns();
    LastHangs();
    LastTurnsForEver();
  }

  lemma NextReturns()
    requires Valid(TWO_GROUPS, [0, 0, 0])
    ensures Returns(TWO_GROUPS, false, [0, 0, 0], Some([1, 0]))
  {
    NextPasses();
    assert Dir(false) == 1;
    assert Turns(TWO_GROUPS, false, Running([0, 0, 0], Dir(false)), 4) == Done(Some([1, 0]));
  }

  lemma LastTurnsForEver()
    requires Valid(TWO_GROUPS, [1, 0]) && !Stops(TWO_GROUPS, true, [1, 0])
    ensures forall n: nat :: Turns(TWO_GROUPS, true, Running([1, 0], Dir(true)), n).Running?
  {
    forall n: nat
      ensures Turns(TWO_GROUPS, true, Running([1, 0], Dir(true)), n).Running?
    {
      NeverStops(TWO_GROUPS, true, [1, 0], Dir(true), n);
    }
  }

  lemma LastHangs()
    requires Valid(TWO_GROUPS, [1, 0]) && Valid(TWO_GROUPS, [1]) && Valid(TWO_GROUPS, [0])
    requires At(TWO_GROUPS, [0]) == FIRST
    ensures !Stops(TWO_GROUPS, true, [1, 0])
  {
    var root := TWO_GROUPS;
    assert Parent([1, 0]) == [1] && Parent([1]) == [] && [] + [0] == [0];
    assert Landing(root, true, [1, 0]) == Landing(root, true, [1]);
    assert Landing(root, true, [1]) == Some([0]);
    assert !EndsInQuestion(true, FIRST.kids[1]);
  }

  // ----- the widget -----

  class Notebook {
    const root: Item
    var current: Option<Pos>

    constructor (root: Item)
      ensures this.root == root && current == None
    {
      this.root := root;
      current := None;
    }

    predicate CanSearch(item: Option<Pos>, flag: bool) {
      && WellFormed(root) && root.isGroup
      && (item.Some? ==> Valid(root, item.value) && Stops(root, flag, item.value))
    }

    method FindTreeWidgetItem(item: Option<Pos>, flag: bool) returns (r: Option<Pos>)
      requires CanSearch(item, flag)
      modifies this`current
      ensures item == None ==> r == None
      ensures item.Some? ==> Nearest(root, flag, item.value, r) && Returns(root, flag, item.value, r)
      ensures current == if r.Some? then r else old(current)
    {
      if item == None {
        return None;
      }
      var val := if flag then -1 else 1;
      var cur: Pos := item.value;
      SearchStarts(root, flag, cur);
      while true
        invariant Searching(root, flag, item.value, cur, val)
        invariant current == old(current)
        decreases ToEnter(root, flag, cur, val), |cur|
      {
        TurnStep(root, flag, item.value, cur, val);
        ghost var turn := Turn(root, flag, cur, val);
        if cur == [] {
          return None;
        }
        TurnCases(root, flag, cur, val);
        var parent := Parent(cur);
        var index := Last(cur) + val;
        if index < 0 || index >= |At(root, parent).kids| {
          cur, val := parent, if flag then -1 else 1;
          assert turn == Running(cur, val);
          continue;
        }
        var child: nat := index;
        cur := parent + [child];
        assert turn == Met(flag, At(root, cur), cur, val);
        if !At(root, cur).isGroup {
          current := Some(cur);
          return current;
        }
        var kids := At(root, cur).kids;
        if |kids| > 0 {
          var edge: nat := if flag then |kids| - 1 else 0;
          ValidSplit(root, cur, edge);
          cur := cur + [edge];
          if !At(root, cur).isGroup {
            current := Some(cur);
            return current;
          }
          val := 0;
        }
        assert turn == Running(cur, val);
      }
      r := None;
    }

    /** Both buttons search from the current item and report the end without moving. */
    method OnBtnClickedNextQuestion() returns (shown: Option<Pos>)
      requires CanSearch(current, false)
      modifies this`current
      ensures old(current) == None ==> shown == None
      ensures old(current).Some? ==>
        Nearest(root, false, old(current).value, shown) && Returns(root, false, old(current).value, shown)
      ensures current == if shown.Some? then shown else old(current)
    {
      shown := FindTreeWidgetItem(current, false);
    }

    method OnBtnClickedLastQuestion() returns (shown: Option<Pos>)
      requires CanSearch(current, true)
      modifies this`current
      ensures old(current) == None ==> shown == None
      ensures old(current).Some? ==>
        Nearest(root, true, old(current).value, shown) && Returns(root, true, old(current).value, shown)
      ensures current == if shown.Some? then shown else old(current)
    {
      shown := FindTreeWidgetItem(current, true);
    }
  }
}
