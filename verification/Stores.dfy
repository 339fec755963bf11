/** A store of src/question_answer_impl.cpp and the disk it is opened from and closed to. */
module Stores {
  import opened Bytes
  import opened Records

  /** Regular files with their bytes, and directories, by full path. */
  datatype Disk = Disk(files: map<Str, Str>, dirs: set<Str>)

  predicate Exists(d: Disk, path: Str) {
    path in d.files || path in d.dirs
  }

  /** A stream opens for writing in a directory that exists, and not over a directory. */
  predicate CanWrite(d: Disk, path: Str) {
    path !in d.dirs && ParentPath(path) in d.dirs
  }

  // ----- the values a store goes through -----

  datatype Store = Store(path: Str, groups: seq<GroupEntry>, questions: seq<Question>)

  const FRESH: Store := Store([], [], [])

  datatype Result = Result(ok: bool, store: Store)

  /** `flag` is the mode: true reads questions, false reads groups. */
  function Opened(s: Store, d: Disk, path: Str, flag: bool): Result {
    if path == [] then Result(false, s)
    else if !Exists(d, path) then Result(true, s.(path := path))
    else if path !in d.files then Result(false, s)
    else if flag then
      match DecodeQuestions(d.files[path])
      case None => Result(false, s)
      case Some(items) => Result(true, s.(path := path, questions := items))
    else
      match DecodeGroups(d.files[path])
      case None => Result(false, s)
      case Some(items) => Result(true, s.(path := path, groups := items))
  }

  function FileBytes(s: Store): Str {
    (if s.groups == [] then [] else Encode(s.groups)) + (if s.questions == [] then [] else Encode(s.questions))
  }

  predicate IsEmpty(s: Store) {
    s.groups == [] && s.questions == []
  }

  /** A store with nothing in it leaves no file. */
  function Closed(s: Store, d: Disk): Disk {
    if IsEmpty(s) then d.(files := d.files - {s.path})
    else if !CanWrite(d, s.path) then d
    else d.(files := d.files[s.path := FileBytes(s)])
  }

  /** getGroups: emplace keeps the entry that is there. */
  function Emplaced(items: seq<GroupEntry>, m: map<Str, Str>): map<Str, Str> {
    if items == [] then m
    else Emplaced(items[1..], if items[0].id in m then m else m[items[0].id := items[0].group])
  }

  function WithGroup(s: Store, gid: Str, name: Str): Result {
    if s.path == [] || Has(s.groups, gid) then Result(false, s)
    else Result(true, s.(groups := s.groups + [QuestionAnswerGroup(name, [], gid)]))
  }

  function WithoutGroup(s: Store, gid: Str): Result {
    if s.path == [] || !Has(s.groups, gid) then Result(false, s)
    else Result(true, s.(groups := SwapRemoved(s.groups, gid)))
  }

  function WithGroupRenamed(s: Store, gid: Str, name: Str): Result {
    if s.path == [] || !Has(s.groups, gid) then Result(false, s)
    else
      var i := IndexOf(s.groups, gid);
      Result(true, s.(groups := s.groups[i := QuestionAnswerGroup(name, s.groups[i].path, gid)]))
  }

  function WithQuestion(s: Store, q: Question): Result {
    if s.path == [] || Has(s.questions, q.id) then Result(false, s)
    else Result(true, s.(questions := s.questions + [q]))
  }

  function WithoutQuestion(s: Store, qid: Str): Result {
    if s.path == [] || !Has(s.questions, qid) then Result(false, s)
    else Result(true, s.(questions := SwapRemoved(s.questions, qid)))
  }

  function WithQuestionUpdated(s: Store, qid: Str, q: Question): Result {
    if s.path == [] || qid != q.id || !Has(s.questions, qid) then Result(false, s)
    else Result(true, s.(questions := Overwritten(s.questions, q)))
  }

  /** queryQuestion; None is the failure. */
  function Answer(s: Store, qid: Str): Option<Str> {
    if s.path == [] || !Has(s.questions, qid) then None
    else Some(s.questions[IndexOf(s.questions, qid)].answer)
  }

  // ----- what they mean -----

  lemma AnswerRefinesMap(s: Store, qid: Str)
    requires s.path != []
    ensures var m := ToMap(s.questions);
      Answer(s, qid) == if qid in m then Some(m[qid].answer) else None
  {
    IdsAreFound(s.questions, qid);
  }

  /** For every open store and every call: success, answer and new contents are those of the map
      operation, a failure changes nothing, and ids stay distinct. */
  lemma QuestionCallsRefineMap(s: Store, q: Question, qid: Str)
    requires s.path != [] && Distinct(s.questions)
    ensures var m, add := ToMap(s.questions), WithQuestion(s, q);
      && Distinct(add.store.questions) && add.ok == (q.id !in m)
      && add.store == s.(questions := add.store.questions) && (!add.ok ==> add.store == s)
      && ToMap(add.store.questions) == if add.ok then m[q.id := q] else m
    ensures var m, del := ToMap(s.questions), WithoutQuestion(s, qid);
      && Distinct(del.store.questions) && del.ok == (qid in m)
      && del.store == s.(questions := del.store.questions) && (!del.ok ==> del.store == s)
      && ToMap(del.store.questions) == m - {qid}
    ensures var m, upd := ToMap(s.questions), WithQuestionUpdated(s, qid, q);
      && Distinct(upd.store.questions) && upd.ok == (qid == q.id && qid in m)
      && upd.store == s.(questions := upd.store.questions) && (!upd.ok ==> upd.store == s)
      && ToMap(upd.store.questions) == if upd.ok then m[qid := q] else m
    ensures var m := ToMap(s.questions);
      Answer(s, qid) == if qid in m then Some(m[qid].answer) else None
  {
    AnswerRefinesMap(s, qid);
    IdsAreFound(s.questions, q.id);
    IdsAreFound(s.questions, qid);
    AddRefines(s.questions, q);
    RemoveRefines(s.questions, qid);
    OverwriteRefines(s.questions, q);
  }

  /** The same for the group calls of the id store. */
  lemma GroupCallsRefineMap(s: Store, gid: Str, name: Str)
    requires s.path != [] && Distinct(s.groups)
    ensures var m, add := ToMap(s.groups), WithGroup(s, gid, name);
      && Distinct(add.store.groups) && add.ok == (gid !in m)
      && add.store == s.(groups := add.store.groups) && (!add.ok ==> add.store == s)
      && ToMap(add.store.groups) == if add.ok then m[gid := QuestionAnswerGroup(name, [], gid)] else m
    ensures var m, del := ToMap(s.groups), WithoutGroup(s, gid);
      && Distinct(del.store.groups) && del.ok == (gid in m)
      && del.store == s.(groups := del.store.groups) && (!del.ok ==> del.store == s)
      && ToMap(del.store.groups) == m - {gid}
    ensures var m, upd := ToMap(s.groups), WithGroupRenamed(s, gid, name);
      && Distinct(upd.store.groups) && upd.ok == (gid in m)
      && upd.store == s.(groups := upd.store.groups) && (!upd.ok ==> upd.store == s)
      && ToMap(upd.store.groups) ==
         if upd.ok then m[gid := QuestionAnswerGroup(name, s.groups[IndexOf(s.groups, gid)].path, gid)] else m
  {
    IdsAreFound(s.groups, gid);
    AddRefines(s.groups, QuestionAnswerGroup(name, [], gid));
    RemoveRefines(s.groups, gid);
    if Has(s.groups, gid) {
      OverwriteRefines(s.groups, QuestionAnswerGroup(name, s.groups[IndexOf(s.groups, gid)].path, gid));
    }
  }

  /** Close, then open in the same mode: a store used in one mode comes back exactly when its
      strings are UTF-8, the empty one through the missing file; otherwise open fails. */
  lemma CloseThenOpen(s: Store, d: Disk, flag: bool)
    requires s.path != [] && CanWrite(d, s.path)
    requires if flag then s.groups == [] && Fits(s.questions) else s.questions == [] && Fits(s.groups)
    ensures var r := Opened(FRESH, Closed(s, d), s.path, flag);
      && (r.ok <==> Readable(if flag then s.questions else s.groups))
      && (r.ok ==> r.store == s)
  {
    if flag {
      QuestionsRoundTrip(s.questions);
      assert s.questions != [] ==> FileBytes(s) == Encode(s.questions);
    } else {
      GroupsRoundTrip(s.groups);
      assert s.groups != [] ==> FileBytes(s) == Encode(s.groups);
    }
  }

  /** The first entry of an id wins, behind what the map held before. */
  lemma {:induction false} EmplacedKeepsFirst(items: seq<GroupEntry>, m: map<Str, Str>, id: Str)
    ensures id in Emplaced(items, m) <==> id in m || Has(items, id)
    ensures id in Emplaced(items, m) ==>
      Emplaced(items, m)[id] == if id in m then m[id] else items[IndexOf(items, id)].group
  {
    if items != [] {
      EmplacedKeepsFirst(items[1..], if items[0].id in m then m else m[items[0].id := items[0].group], id);
    }
  }

  // ----- the objects -----

  class FileSystem {
    var files: map<Str, Str>
    var dirs: set<Str>

    ghost function State(): Disk
      reads this
    {
      Disk(files, dirs)
    }

    constructor (files: map<Str, Str>, dirs: set<Str>)
      ensures State() == Disk(files, dirs)
    {
      this.files, this.dirs := files, dirs;
    }

    method Remove(path: Str)
      modifies this`files
      ensures files == old(files) - {path}
    {
      files := files - {path};
    }

    /** An output stream: false when it does not open. */
    method Write(path: Str, bytes: Str) returns (ok: bool)
      modifies this`files
      ensures ok == CanWrite(State(), path)
      ensures files == if ok then old(files)[path := bytes] else old(files)
    {
      ok := path !in dirs && ParentPath(path) in dirs;
      if ok {
        files := files[path := bytes];
      }
    }
  }

  class QuestionAnswerStore {
    var path: Str
    var groups: seq<GroupEntry>
    var questions: seq<Question>

    ghost function State(): Store
      reads this
    {
      Store(path, groups, questions)
    }

    constructor ()
      ensures State() == FRESH
    {
      path, groups, questions := [], [], [];
    }

    /** The object of a store that is kept by value. */
    constructor Of(s: Store)
      ensures State() == s
    {
      path, groups, questions := s.path, s.groups, s.questions;
    }

    method Value() returns (s: Store)
      ensures s == State()
    {
      s := Store(path, groups, questions);
    }

    /** On a parse failure the callers drop the object, so what was read by then is left open. */
    method Open(fs: FileSystem, p: Str, flag: bool) returns (ok: bool)
      modifies this
      ensures ok == Opened(old(State()), fs.State(), p, flag).ok
      ensures ok ==> State() == Opened(old(State()), fs.State(), p, flag).store
    {
      if p == [] {
        return false;
      }
      if p !in fs.files && p !in fs.dirs {
        path := p;
        return true;
      }
      if p !in fs.files {
        return false;
      }
      if !flag {
        var parsed := DecodeGroups(fs.files[p]);
        if parsed.None? {
          return false;
        }
        groups := parsed.value;
      }
      if flag {
        var parsed := DecodeQuestions(fs.files[p]);
        if parsed.None? {
          return false;
        }
        questions := parsed.value;
      }
      path := p;
      return true;
    }

    method Close(fs: FileSystem)
      modifies fs`files
      ensures fs.State() == Closed(State(), old(fs.State()))
    {
      if |groups| == 0 && |questions| == 0 {
        fs.Remove(path);
        return;
      }
      var bytes: Str := [];
      if |groups| > 0 {
        bytes := bytes + Encode(groups);
      }
      if |questions| > 0 {
        bytes := bytes + Encode(questions);
      }
      assert bytes == FileBytes(State());
      var written := fs.Write(path, bytes);
    }

    method GetGroups(m: map<Str, Str>) returns (ok: bool, res: map<Str, Str>)
      ensures ok == (path != [])
      ensures res == if ok then Emplaced(groups, m) else m
    {
      res := m;
      if path == [] {
        return false, res;
      }
      for i := 0 to |groups|
        invariant Emplaced(groups[i..], res) == Emplaced(groups, m)
      {
        if groups[i].id !in res {
          res := res[groups[i].id := groups[i].group];
        }
        assert groups[i..][1..] == groups[i + 1..];
      }
      ok := true;
    }

    method Find(items: seq<Record>, id: Str) returns (i: nat)
      ensures i == IndexOf(items, id)
    {
      i := 0;
      while i < |items| && items[i].id != id
        invariant i <= |items|
        invariant i + IndexOf(items[i..], id) == IndexOf(items, id)
      {
        assert items[i..][1..] == items[i + 1..];
        i := i + 1;
      }
    }

    method AddGroup(gid: Str, name: Str) returns (ok: bool)
      modifies this`groups
      ensures Result(ok, State()) == WithGroup(old(State()), gid, name)
    {
      if path == [] {
        return false;
      }
      var found := Find(groups, gid);
      if found != |groups| {
        return false;
      }
      groups := groups + [QuestionAnswerGroup(name, [], gid)];
      return true;
    }

    method DeleteGroup(gid: Str) returns (ok: bool)
      modifies this`groups
      ensures Result(ok, State()) == WithoutGroup(old(State()), gid)
    {
      if path == [] {
        return false;
      }
      var index := Find(groups, gid);
      if index == |groups| {
        return false;
      }
      var last := |groups| - 1;
      groups := groups[index := groups[last]][last := groups[index]];
      groups := groups[..last];
      assert groups == SwapRemoved(old(groups), gid);
      return true;
    }

    method UpdateGroup(gid: Str, name: Str) returns (ok: bool)
      modifies this`groups
      ensures Result(ok, State()) == WithGroupRenamed(old(State()), gid, name)
    {
      if path == [] {
        return false;
      }
      var index := Find(groups, gid);
      if index == |groups| {
        return false;
      }
      groups := groups[index := QuestionAnswerGroup(name, groups[index].path, groups[index].id)];
      return true;
    }

    method AddQuestion(q: Question) returns (ok: bool)
      modifies this`questions
      ensures Result(ok, State()) == WithQuestion(old(State()), q)
    {
      if path == [] {
        return false;
      }
      var found := Find(questions, q.id);
      if found != |questions| {
        return false;
      }
      questions := questions + [q];
      return true;
    }

    method DeleteQuestion(qid: Str) returns (ok: bool)
      modifies this`questions
      ensures Result(ok, State()) == WithoutQuestion(old(State()), qid)
    {
      if path == [] {
        return false;
      }
      var index := Find(questions, qid);
      if index == |questions| {
        return false;
      }
      var last := |questions| - 1;
      questions := questions[index := questions[last]][last := questions[index]];
      questions := questions[..last];
      assert questions == SwapRemoved(old(questions), qid);
      return true;
    }

    method QueryQuestion(qid: Str) returns (ok: bool, answer: Str)
      ensures (if ok then Some(answer) else None) == Answer(State(), qid)
    {
      answer := [];
      if path == [] {
        return false, answer;
      }
      var index := Find(questions, qid);
      if index == |questions| {
        return false, answer;
      }
      return true, questions[index].answer;
    }

    method UpdateQuestion(qid: Str, dst: Question) returns (ok: bool)
      modifies this`questions
      ensures Result(ok, State()) == WithQuestionUpdated(old(State()), qid, dst)
    {
      if path == [] || qid != dst.id {
        return false;
      }
      var index := Find(questions, qid);
      if index == |questions| {
        return false;
      }
      var updated := questions[index].(group := dst.group, question := dst.question, answer := dst.answer);
      questions := questions[index := updated];
      return true;
    }
  }
}
