/** On which trees the Next and Previous buttons hang, told from the tree alone. */
module Hanging {
  import opened Bytes
  import opened Walker

  predicate IsEmptyGroup(item: Item) {
    item.isGroup && item.kids == []
  }

  /** Two siblings, in the order of the search: the first holds a question, so a search gets past it;
      the second is no empty group, so a search past the first lands on it unless it lands before; and
      its first children alone (last ones, when `flag`) lead to an empty group. */
  ghost predicate Trap(root: Item, flag: bool, p: Pos, i: nat, j: nat) {
    && Valid(root, p) && i < |At(root, p).kids| && j < |At(root, p).kids| && Beyond(flag, i, j)
    && Questions(At(root, p).kids[i]) != []
    && !IsEmptyGroup(At(root, p).kids[j]) && !EndsInQuestion(flag, At(root, p).kids[j])
  }

  ghost predicate HasTrap(root: Item, flag: bool) {
    exists p: Pos, i: nat, j: nat :: Trap(root, flag, p, i, j)
  }

  // ----- order -----

  lemma {:induction false} AheadTransitive(flag: bool, p: Pos, q: Pos, r: Pos)
    requires Ahead(flag, p, q) && Ahead(flag, q, r)
    ensures Ahead(flag, p, r)
  {
    if p[0] == q[0] == r[0] {
      AheadTransitive(flag, p[1..], q[1..], r[1..]);
    }
  }

  /** What is ahead of an item is ahead of all under it, and what is behind is behind all under it. */
  lemma {:induction false} AheadOfAll(flag: bool, p: Pos, q: Pos, r: Pos)
    requires Ahead(flag, p, q)
    ensures q <= r ==> Ahead(flag, p, r)
    ensures p <= r ==> Ahead(flag, r, q)
    ensures !(p <= q) && !(q <= p)
  {
    if p[0] == q[0] {
      if q <= r || p <= r {
        AheadOfAll(flag, p[1..], q[1..], r[1..]);
      } else {
        AheadOfAll(flag, p[1..], q[1..], []);
      }
    }
  }

  lemma {:induction false} SiblingsAhead(flag: bool, up: Pos, i: nat, j: nat)
    requires Beyond(flag, i, j)
    ensures Ahead(flag, up + [i], up + [j])
  {
    if up != [] {
      assert (up + [i])[1..] == up[1..] + [i] && (up + [j])[1..] == up[1..] + [j];
      SiblingsAhead(flag, up[1..], i, j);
    }
  }

  lemma {:induction false} QuestionUnder(root: Item, p: Pos, r: Pos)
    requires Valid(root, p)
    ensures IsQuestion(root, p + r) <==> IsQuestion(At(root, p), r)
  {
    if p == [] {
      assert p + r == r;
    } else {
      assert (p + r)[1..] == p[1..] + r;
      QuestionUnder(root.kids[p[0]], p[1..], r);
    }
  }

  lemma {:induction false} EdgeLeads(flag: bool, item: Item) returns (e: Pos)
    requires EndsInQuestion(flag, item)
    ensures IsQuestion(item, e)
  {
    if !item.isGroup {
      e := [];
    } else {
      var below := EdgeLeads(flag, item.kids[Edge(flag, item)]);
      e := [Edge(flag, item)] + below;
      assert e[1..] == below;
    }
  }

  // ----- where a search lands -----

  /** Landing, one sibling or one climb at a time. */
  lemma LandingFrom(root: Item, flag: bool, up: Pos, i: nat)
    requires Valid(root, up) && i < |At(root, up).kids| && Valid(root, up + [i])
    ensures !(0 <= i + Dir(flag) < |At(root, up).kids|) ==> Landing(root, flag, up + [i]) == Landing(root, flag, up)
    ensures forall j: nat :: j == i + Dir(flag) && j < |At(root, up).kids| ==>
      Valid(root, up + [j]) && LandsNext(root, flag, up + [i], up + [j])
  {
    if 0 <= i + Dir(flag) < |At(root, up).kids| {
      LandingSideways(root, flag, up, i, i + Dir(flag));
    } else {
      LandingUp(root, flag, up, i);
    }
  }

  ghost predicate LandsNext(root: Item, flag: bool, cur: Pos, at: Pos)
    requires Valid(root, cur) && Valid(root, at)
  {
    Landing(root, flag, cur) == if IsEmptyGroup(At(root, at)) then Landing(root, flag, at) else Some(at)
  }

  lemma LandingSideways(root: Item, flag: bool, up: Pos, i: nat, j: nat)
    requires Valid(root, up) && Valid(root, up + [i]) && j == i + Dir(flag) && j < |At(root, up).kids|
    ensures Valid(root, up + [j]) && LandsNext(root, flag, up + [i], up + [j])
  {
    ValidSplit(root, up, i);
    ValidSplit(root, up, j);
    LandingStep(root, flag, up + [i], up, j);
  }

  lemma LandingUp(root: Item, flag: bool, up: Pos, i: nat)
    requires Valid(root, up) && Valid(root, up + [i]) && !(0 <= i + Dir(flag) < |At(root, up).kids|)
    ensures Landing(root, flag, up + [i]) == Landing(root, flag, up)
  {
    ParentOfSnoc(up, i);
  }

  lemma ParentOfSnoc(up: Pos, i: nat)
    ensures Parent(up + [i]) == up && Last(up + [i]) == i
  {
  }

  lemma LandingDescends(root: Item, flag: bool, up: Pos, i: nat)
    requires Valid(root, up) && i < |At(root, up).kids| && Valid(root, up + [i])
    ensures !(0 <= i + Dir(flag) < |At(root, up).kids|) ==> SizeAhead(root, flag, up) == SizeAhead(root, flag, up + [i])
    ensures forall j: nat :: j == i + Dir(flag) && j < |At(root, up).kids| ==>
      Valid(root, up + [j]) && SizeAhead(root, flag, up + [j]) < SizeAhead(root, flag, up + [i])
  {
    SidewaysSize(root, flag, up, i);
    SizeBeyondStep(At(root, up).kids, flag, i);
  }

  lemma SnocPrefix(a: Pos, i: nat, b: Pos, j: nat)
    requires a + [i] <= b + [j]
    ensures |a| < |b| ==> a + [i] <= b
    ensures |a| >= |b| ==> a == b && i == j
  {
    if |a| >= |b| {
      assert a + [i] == b + [j];
      assert a == (a + [i])[..|a|] && b == (b + [j])[..|b|];
    }
  }

  /** A search lands on a sibling of an item it has left. */
  lemma {:induction false} LandingIsSibling(root: Item, flag: bool, cur: Pos) returns (up: Pos, i: nat, j: nat)
    requires Valid(root, cur) && Landing(root, flag, cur).Some?
    ensures Valid(root, up) && i < |At(root, up).kids| && j < |At(root, up).kids| && Beyond(flag, i, j)
    ensures up + [i] <= cur && Landing(root, flag, cur) == Some(up + [j])
    decreases SizeAhead(root, flag, cur), |cur|
  {
    up, i := Parent(cur), Last(cur);
    assert cur == up + [i];
    ValidSplit(root, up, i);
    LandingFrom(root, flag, up, i);
    LandingDescends(root, flag, up, i);
    if 0 <= i + Dir(flag) < |At(root, up).kids| {
      j := i + Dir(flag);
      if IsEmptyGroup(At(root, up + [j])) {
        var up', i', j' := LandingIsSibling(root, flag, up + [j]);
        SnocPrefix(up', i', up, j);
        if |up'| < |up| {
          up, i, j := up', i', j';
        } else {
          j := j';
        }
      }
    } else {
      up, i, j := LandingIsSibling(root, flag, up);
    }
  }

  lemma LandingIsAhead(root: Item, flag: bool, cur: Pos)
    requires Valid(root, cur) && Landing(root, flag, cur).Some?
    ensures Ahead(flag, cur, Landing(root, flag, cur).value)
  {
    var up, i, j := LandingIsSibling(root, flag, cur);
    SiblingsAhead(flag, up, i, j);
    AheadOfAll(flag, up + [i], up + [j], cur);
  }

  ghost predicate NotPast(flag: bool, at: Option<Pos>, x: Pos) {
    at.Some? && (at.value <= x || Ahead(flag, at.value, x))
  }

  /** A search passes nothing but empty groups before it lands. */
  lemma {:induction false} LandingIsFirst(root: Item, flag: bool, cur: Pos, x: Pos)
    requires Valid(root, cur) && Valid(root, x) && Ahead(flag, cur, x) && !IsEmptyGroup(At(root, x))
    ensures NotPast(flag, Landing(root, flag, cur), x)
    decreases SizeAhead(root, flag, cur), |cur|
  {
    var up, i := Parent(cur), Last(cur);
    assert cur == up + [i];
    ValidSplit(root, up, i);
    NextOrUp(root, flag, up, i, x);
    LandingFrom(root, flag, up, i);
    LandingDescends(root, flag, up, i);
    if 0 <= i + Dir(flag) < |At(root, up).kids| {
      var j: nat := i + Dir(flag);
      if IsEmptyGroup(At(root, up + [j])) {
        if up + [j] <= x {
          OnlyItself(root, up + [j], x);
        }
        LandingIsFirst(root, flag, up + [j], x);
      }
    } else {
      LandingIsFirst(root, flag, up, x);
    }
  }

  /** What is ahead of an item is at, under or ahead of the next sibling, or ahead of the parent. */
  lemma NextOrUp(root: Item, flag: bool, up: Pos, i: nat, x: Pos)
    requires Valid(root, up) && i < |At(root, up).kids| && Valid(root, x) && Ahead(flag, up + [i], x)
    ensures !(0 <= i + Dir(flag) < |At(root, up).kids|) ==> Ahead(flag, up, x)
    ensures forall j: nat :: j == i + Dir(flag) && j < |At(root, up).kids| ==>
      Valid(root, up + [j]) && At(root, up + [j]) == At(root, up).kids[j] && (up + [j] <= x || Ahead(flag, up + [j], x))
  {
    AheadSnoc(flag, up, i, x);
    if up < x {
      ValidPrefix(root, up, x);
    }
    if 0 <= i + Dir(flag) < |At(root, up).kids| {
      var j: nat := i + Dir(flag);
      ValidSplit(root, up, j);
      AheadSnoc(flag, up, j, x);
      PrefixSnoc(up, j, x);
    }
  }

  // ----- traps are what hangs -----

  lemma NoTrapStops(root: Item, flag: bool, q: Pos)
    requires WellFormed(root) && !HasTrap(root, flag) && IsQuestion(root, q)
    ensures Stops(root, flag, q)
  {
    if Landing(root, flag, q).Some? {
      var up, i, j := LandingIsSibling(root, flag, q);
      ValidSplit(root, up, i);
      ValidSplit(root, up, j);
      HoldsQuestion(root, up + [i], q);
      assert !Trap(root, flag, up, i, j);
    }
  }

  lemma HoldsQuestion(root: Item, p: Pos, q: Pos)
    requires WellFormed(root) && Valid(root, p) && IsQuestion(root, q) && p <= q
    ensures Questions(At(root, p)) != []
  {
    var rest := q[|p|..];
    assert q == p + rest;
    QuestionUnder(root, p, rest);
    WellFormedAt(root, p);
    QuestionsAreListed(At(root, p));
  }

  /** `q`, the k-th question, is past the question `first` under `p`, and the trap's second item is
      still ahead: Next does not stop at every question from `q` on. */
  lemma {:induction false} TrapCatches(root: Item, flag: bool, p: Pos, j: nat, first: Pos, k: nat)
    requires WellFormed(root) && k < |Questions(root)| && Valid(root, p + [j])
    requires !IsEmptyGroup(At(root, p + [j])) && !EndsInQuestion(flag, At(root, p + [j]))
    requires p <= first && (Questions(root)[k] == first || Ahead(flag, first, Questions(root)[k]))
    requires Ahead(flag, Questions(root)[k], p + [j])
    ensures !AllStop(root, flag)
    decreases if flag then k else |Questions(root)| - k
  {
    QuestionsAreListed(root);
    var qs, x := Questions(root), p + [j];
    var q := qs[k];
    assert q in qs && IsQuestion(root, q);
    LandingIsFirst(root, flag, q, x);
    LandingIsAhead(root, flag, q);
    var at := Landing(root, flag, q).value;
    if AllStop(root, flag) && at != x {
      if at <= x {
        assert at <= p;
        if q != first {
          AheadTransitive(flag, first, q, at);
        }
        AheadOfAll(flag, first, at, []);
      } else {
        var next := NextQuestion(root, flag, q, at, x);
        var k' :| 0 <= k' < |qs| && qs[k'] == next;
        OrderedAhead(qs, flag, k, k');
        if q != first {
          AheadTransitive(flag, first, q, next);
        }
        TrapCatches(root, flag, p, j, first, k');
      }
    }
  }

  lemma NextQuestion(root: Item, flag: bool, q: Pos, at: Pos, x: Pos) returns (next: Pos)
    requires WellFormed(root) && IsQuestion(root, q) && Stops(root, flag, q) && Landing(root, flag, q) == Some(at)
    requires Ahead(flag, q, at) && Ahead(flag, at, x)
    ensures IsQuestion(root, next) && Ahead(flag, q, next) && Ahead(flag, next, x)
    ensures next in Questions(root)
  {
    var e := EdgeLeads(flag, At(root, at));
    next := at + e;
    QuestionUnder(root, at, e);
    AheadOfAll(flag, q, at, next);
    AheadOfAll(flag, at, x, next);
    QuestionsAreListed(root);
  }

  lemma TrapHangs(root: Item, flag: bool, p: Pos, i: nat, j: nat)
    requires WellFormed(root) && root.isGroup && Trap(root, flag, p, i, j)
    ensures !AllStop(root, flag)
  {
    ValidSplit(root, p, i);
    ValidSplit(root, p, j);
    var item := At(root, p + [i]);
    WellFormedAt(root, p + [i]);
    QuestionsAreListed(item);
    var r := Questions(item)[0];
    var q := (p + [i]) + r;
    assert r in Questions(item);
    QuestionUnder(root, p + [i], r);
    QuestionsAreListed(root);
    var k :| 0 <= k < |Questions(root)| && Questions(root)[k] == q;
    SiblingsAhead(flag, p, i, j);
    AheadOfAll(flag, p + [i], p + [j], q);
    TrapCatches(root, flag, p, j, q, k);
  }

  /** The button stops at every question exactly when the tree holds no trap. */
  lemma AllStopIffNoTrap(root: Item, flag: bool)
    requires WellFormed(root) && root.isGroup
    ensures AllStop(root, flag) <==> !HasTrap(root, flag)
  {
    if HasTrap(root, flag) {
      var p: Pos, i: nat, j: nat :| Trap(root, flag, p, i, j);
      TrapHangs(root, flag, p, i, j);
    } else {
      forall q | IsQuestion(root, q)
        ensures Stops(root, flag, q)
      {
        NoTrapStops(root, flag, q);
      }
    }
  }

  // ----- starting anywhere -----

  /** An item that is no empty group, with a sibling before it (behind it, when `flag`), whose first
      children alone (last ones, when `flag`) lead to an empty group. */
  ghost predicate Snag(root: Item, flag: bool, p: Pos, j: nat) {
    && Valid(root, p) && j < |At(root, p).kids| && 0 <= j - Dir(flag) < |At(root, p).kids|
    && !IsEmptyGroup(At(root, p).kids[j]) && !EndsInQuestion(flag, At(root, p).kids[j])
  }

  ghost predicate HasSnag(root: Item, flag: bool) {
    exists p: Pos, j: nat :: Snag(root, flag, p, j)
  }

  lemma SnagHangs(root: Item, flag: bool, p: Pos, j: nat)
    requires Snag(root, flag, p, j)
    ensures Valid(root, p + [j - Dir(flag)]) && !Stops(root, flag, p + [j - Dir(flag)])
  {
    ValidSplit(root, p, j);
    ValidSplit(root, p, j - Dir(flag));
    LandingFrom(root, flag, p, j - Dir(flag));
  }

  lemma NoSnagStops(root: Item, flag: bool, cur: Pos)
    requires Valid(root, cur) && !Stops(root, flag, cur)
    ensures HasSnag(root, flag)
  {
    var up, i, j := LandingIsSibling(root, flag, cur);
    ValidSplit(root, up, j);
    assert Snag(root, flag, up, j);
  }

  /** The user may select any item, a group too: the button stops from every one of them exactly when no
      item but a first (last, when `flag`) child leads to an empty group that way. */
  lemma StopsAnywhereIffNoSnag(root: Item, flag: bool)
    ensures (forall p :: Valid(root, p) ==> Stops(root, flag, p)) <==> !HasSnag(root, flag)
  {
    if HasSnag(root, flag) {
      var p: Pos, j: nat :| Snag(root, flag, p, j);
      SnagHangs(root, flag, p, j);
    }
    forall p | Valid(root, p) && !HasSnag(root, flag)
      ensures Stops(root, flag, p)
    {
      if !Stops(root, flag, p) {
        NoSnagStops(root, flag, p);
      }
    }
  }
}
