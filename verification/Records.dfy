/** The records of xn.proto and the lists of them that src/question_answer_impl.cpp searches and
    edits: append if absent, swap with last and drop, overwrite in place. */
module Records {
  import opened Bytes
  import opened Wire

  datatype Record =
    | QuestionAnswer(question: Str, answer: Str, group: Str, id: Str)
    | QuestionAnswerGroup(group: Str, path: Str, id: Str)
  {
    /** In field-number order. */
    function Fields(): (fs: Fields)
      ensures |fs| == if QuestionAnswer? then 4 else 3
    {
      if QuestionAnswer? then [question, answer, group, id] else [group, path, id]
    }
  }

  type Question = r: Record | r.QuestionAnswer? witness QuestionAnswer([], [], [], [])
  type GroupEntry = r: Record | r.QuestionAnswerGroup? witness QuestionAnswerGroup([], [], [])

  // ----- searching and editing -----

  /** std::find_if by id: the first match, or |items|. */
  function IndexOf(items: seq<Record>, id: Str): (i: nat)
    ensures i <= |items|
    ensures i < |items| ==> items[i].id == id
    ensures forall k :: 0 <= k < i ==> items[k].id != id
  {
    if items == [] || items[0].id == id then 0 else 1 + IndexOf(items[1..], id)
  }

  predicate Has(items: seq<Record>, id: Str) {
    IndexOf(items, id) < |items|
  }

  function Added(items: seq<Record>, r: Record): seq<Record> {
    if Has(items, r.id) then items else items + [r]
  }

  /** SwapElements with the last element, then RemoveLast. */
  function SwapRemoved(items: seq<Record>, id: Str): seq<Record> {
    if !Has(items, id) then items
    else
      var n := |items| - 1;
      items[IndexOf(items, id) := items[n]][..n]
  }

  function Overwritten(items: seq<Record>, r: Record): seq<Record> {
    if Has(items, r.id) then items[IndexOf(items, r.id) := r] else items
  }

  // ----- the map a list stands for -----

  function Ids(items: seq<Record>): set<Str> {
    set r | r in items :: r.id
  }

  ghost predicate Distinct(items: seq<Record>) {
    forall i, j :: 0 <= i < j < |items| ==> items[i].id != items[j].id
  }

  function ToMap(items: seq<Record>): map<Str, Record> {
    map id | id in Ids(items) :: items[IndexOf(items, id)]
  }

  lemma IdsAreFound(items: seq<Record>, id: Str)
    ensures id in Ids(items) <==> Has(items, id)
    ensures id in ToMap(items) <==> Has(items, id)
  {
    if Has(items, id) {
      assert items[IndexOf(items, id)] in items;
    }
  }

  lemma MapHolds(items: seq<Record>, r: Record)
    requires Distinct(items)
    ensures r in items <==> r.id in ToMap(items) && ToMap(items)[r.id] == r
  {
    IdsAreFound(items, r.id);
    if r in items {
      var k :| 0 <= k < |items| && items[k] == r;
    }
  }

  /** A distinct list stands for the map with the same records. */
  lemma MapIs(items: seq<Record>, m: map<Str, Record>)
    requires Distinct(items)
    requires forall r :: r in items ==> r.id in m && m[r.id] == r
    requires forall id :: id in m ==> m[id].id == id && m[id] in items
    ensures ToMap(items) == m
  {
    forall id
      ensures id in ToMap(items) <==> id in m
      ensures id in m ==> ToMap(items)[id] == m[id]
    {
      IdsAreFound(items, id);
      assert Has(items, id) ==> items[IndexOf(items, id)] in items;
      if id in m {
        MapHolds(items, m[id]);
      }
    }
  }

  lemma MapRecords(items: seq<Record>)
    requires Distinct(items)
    ensures forall r :: r in items ==> r.id in ToMap(items) && ToMap(items)[r.id] == r
    ensures forall id :: id in ToMap(items) ==> ToMap(items)[id].id == id && ToMap(items)[id] in items
  {
    forall r | r in items
      ensures r.id in ToMap(items) && ToMap(items)[r.id] == r
    {
      MapHolds(items, r);
    }
    forall id | id in ToMap(items)
      ensures ToMap(items)[id].id == id && ToMap(items)[id] in items
    {
      IdsAreFound(items, id);
    }
  }

  // ----- every operation refines its map operation -----

  lemma AddRefines(items: seq<Record>, r: Record)
    requires Distinct(items)
    ensures Distinct(Added(items, r))
    ensures ToMap(Added(items, r)) == if r.id in ToMap(items) then ToMap(items) else ToMap(items)[r.id := r]
  {
    IdsAreFound(items, r.id);
    MapRecords(items);
    if !Has(items, r.id) {
      MapIs(items + [r], ToMap(items)[r.id := r]);
    }
  }

  lemma RemoveKeeps(items: seq<Record>, id: Str, r: Record)
    requires Distinct(items) && Has(items, id)
    ensures r in SwapRemoved(items, id) <==> r in items && r.id != id
  {
    var items', i, n := SwapRemoved(items, id), IndexOf(items, id), |items| - 1;
    if r in items && r.id != id {
      var k :| 0 <= k < |items| && items[k] == r;
      assert items'[if k == n then i else k] == r;
    }
  }

  /** Swap-with-last removal drops exactly the matching record. */
  lemma RemoveRefines(items: seq<Record>, id: Str)
    requires Distinct(items)
    ensures Distinct(SwapRemoved(items, id))
    ensures ToMap(SwapRemoved(items, id)) == ToMap(items) - {id}
  {
    IdsAreFound(items, id);
    if Has(items, id) {
      forall r: Record
        ensures r in SwapRemoved(items, id) <==> r in items && r.id != id
      {
        RemoveKeeps(items, id, r);
      }
      RemoveDistinct(items, id);
      MapWithout(items, id, SwapRemoved(items, id));
    }
  }

  lemma RemoveDistinct(items: seq<Record>, id: Str)
    requires Distinct(items)
    ensures Distinct(SwapRemoved(items, id))
  {
  }

  lemma MapWithout(items: seq<Record>, id: Str, items': seq<Record>)
    requires Distinct(items) && Distinct(items')
    requires forall r: Record :: r in items' <==> r in items && r.id != id
    ensures ToMap(items') == ToMap(items) - {id}
  {
    MapRecords(items);
    MapIs(items', ToMap(items) - {id});
  }

  /** As a multiset, and for any list, removal drops the first match and nothing else. */
  lemma RemoveDropsOne(items: seq<Record>, id: Str)
    ensures multiset(SwapRemoved(items, id)) ==
            if Has(items, id) then multiset(items) - multiset{items[IndexOf(items, id)]} else multiset(items)
  {
    if Has(items, id) {
      var i, n := IndexOf(items, id), |items| - 1;
      var swapped := items[i := items[n]];
      assert swapped == SwapRemoved(items, id) + [items[n]];
      assert multiset(swapped) == multiset(items) - multiset{items[i]} + multiset{items[n]};
      assert multiset(swapped) == multiset(SwapRemoved(items, id)) + multiset{items[n]};
      assert multiset(swapped) - multiset{items[n]} == multiset(items) - multiset{items[i]};
    }
  }

  lemma OverwriteKeeps(items: seq<Record>, r: Record, x: Record)
    requires Distinct(items) && Has(items, r.id)
    ensures x in Overwritten(items, r) <==> x == r || (x in items && x.id != r.id)
  {
    var items', i := Overwritten(items, r), IndexOf(items, r.id);
    assert items'[i] == r;
    if x in items && x.id != r.id {
      var k :| 0 <= k < |items| && items[k] == x;
      assert items'[k] == x;
    }
  }

  /** Overwriting keeps the ids and changes one entry. */
  lemma OverwriteRefines(items: seq<Record>, r: Record)
    requires Distinct(items)
    ensures Distinct(Overwritten(items, r))
    ensures ToMap(Overwritten(items, r)) == if r.id in ToMap(items) then ToMap(items)[r.id := r] else ToMap(items)
  {
    IdsAreFound(items, r.id);
    if Has(items, r.id) {
      forall x: Record
        ensures x in Overwritten(items, r) <==> x == r || (x in items && x.id != r.id)
      {
        OverwriteKeeps(items, r, x);
      }
      OverwriteDistinct(items, r);
      MapWith(items, r, Overwritten(items, r));
    }
  }

  lemma OverwriteDistinct(items: seq<Record>, r: Record)
    requires Distinct(items)
    ensures Distinct(Overwritten(items, r))
  {
    var items' := Overwritten(items, r);
    assert forall k :: 0 <= k < |items| ==> items'[k].id == items[k].id;
  }

  lemma MapWith(items: seq<Record>, r: Record, items': seq<Record>)
    requires Distinct(items) && Distinct(items')
    requires forall x: Record :: x in items' <==> x == r || (x in items && x.id != r.id)
    ensures ToMap(items') == ToMap(items)[r.id := r]
  {
    MapRecords(items);
    MapIs(items', ToMap(items)[r.id := r]);
  }

  // ----- the bytes of a list -----

  function FieldsOf(items: seq<Record>): (fss: seq<Fields>)
    ensures |fss| == |items|
  {
    seq(|items|, i requires 0 <= i < |items| => items[i].Fields())
  }

  function QuestionsOf(fss: seq<Fields>): seq<Question>
    requires OfArity(4, fss)
  {
    seq(|fss|, i requires 0 <= i < |fss| => QuestionAnswer(fss[i][0], fss[i][1], fss[i][2], fss[i][3]))
  }

  function GroupsOf(fss: seq<Fields>): seq<GroupEntry>
    requires OfArity(3, fss)
  {
    seq(|fss|, i requires 0 <= i < |fss| => QuestionAnswerGroup(fss[i][0], fss[i][1], fss[i][2]))
  }

  function Encode(items: seq<Record>): Str {
    EncodeList(FieldsOf(items))
  }

  function DecodeQuestions(b: Str): Option<seq<Question>> {
    match DecodeList(4, b, [])
    case None => None
    case Some(fss) => Some(QuestionsOf(fss))
  }

  function DecodeGroups(b: Str): Option<seq<GroupEntry>> {
    match DecodeList(3, b, [])
    case None => None
    case Some(fss) => Some(GroupsOf(fss))
  }

  /** What a parser will take back: every string UTF-8. */
  predicate Readable(items: seq<Record>) {
    ListUtf8(FieldsOf(items))
  }

  /** What one file can hold. */
  predicate Fits(items: seq<Record>) {
    ListSize(FieldsOf(items)) <= MAX_SIZE
  }

  lemma QuestionsRoundTrip(items: seq<Question>)
    requires Fits(items)
    ensures DecodeQuestions(Encode(items)) == if Readable(items) then Some(items) else None
  {
    ListRoundTrip(4, FieldsOf(items));
    assert QuestionsOf(FieldsOf(items)) == items;
  }

  lemma GroupsRoundTrip(items: seq<GroupEntry>)
    requires Fits(items)
    ensures DecodeGroups(Encode(items)) == if Readable(items) then Some(items) else None
  {
    ListRoundTrip(3, FieldsOf(items));
    assert GroupsOf(FieldsOf(items)) == items;
  }
}
