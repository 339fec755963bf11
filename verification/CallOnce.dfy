/** The one-time initialisation protocol of dep/include/absl/base/call_once.h, as a state
    machine: any number of threads, one atomic action of one thread at a time. */
module CallOnce {

  // ----- the control word and the transition table -----

  const ONCE_INIT: nat := 0
  const ONCE_RUNNING: nat := 0x65C2937B
  const ONCE_WAITER: nat := 0x05A308D2
  const ONCE_DONE: nat := 221

  datatype Transition = Transition(from: nat, to: nat, done: bool)

  const TRANS: seq<Transition> := [
    Transition(ONCE_INIT, ONCE_RUNNING, true),
    Transition(ONCE_RUNNING, ONCE_WAITER, false),
    Transition(ONCE_DONE, ONCE_DONE, true)
  ]

  /** The first row that starts at `v`, or |TRANS| when no row does. */
  function Row(v: nat, i: nat := 0): (row: nat)
    requires i <= |TRANS|
    ensures i <= row <= |TRANS|
    ensures row < |TRANS| ==> TRANS[row].from == v
    ensures forall k :: i <= k < row ==> TRANS[k].from != v
    decreases |TRANS| - i
  {
    if i == |TRANS| || TRANS[i].from == v then i else Row(v, i + 1)
  }

  // ----- threads -----

  /** Where a thread is; each value names its next atomic action. */
  datatype Pc =
    | Entry                         // call_once: load the word
    | Check                         // CallOnceImpl: the debug check of the word
    | FirstCas                      // compare_exchange_strong(kOnceInit, kOnceRunning)
    | SpinLoad                      // SpinLockWait: load the word and find its row
    | SpinSwap(seen: nat, row: nat) // SpinLockWait: take row `row`, found for the value `seen`
    | Delay(seen: nat)              // SpinLockWait: no row for `seen`; sleep if it is still there
    | Asleep
    | Invoke                        // won; start the callable
    | InCallable                    // the callable runs
    | Finish                        // exchange the word for kOnceDone
    | Wake                          // the exchange saw kOnceWaiter; SpinLockWake(all)
    | Returned
    | Fatal                         // the debug check failed

  /** `started` and `finished` count the runs of the callable. */
  datatype State = State(control: nat, pcs: seq<Pc>, started: nat, finished: nat)

  function Initial(n: nat): State {
    State(ONCE_INIT, seq(n, _ => Entry), 0, 0)
  }

  /** One action of a thread, or a sleeper waking for no reason. */
  datatype Move = Step(t: nat) | Spurious(t: nat)

  predicate Enabled(s: State, m: Move) {
    && m.t < |s.pcs|
    && match m
       case Step(t) => s.pcs[t] !in {Asleep, Returned, Fatal}
       case Spurious(t) => s.pcs[t] == Asleep
  }

  function Goto(s: State, t: nat, pc: Pc): State
    requires t < |s.pcs|
  {
    s.(pcs := s.pcs[t := pc])
  }

  /** SpinLockWait at the row it found: a null transition needs no exchange. */
  function TakeRow(s: State, t: nat, seen: nat, row: nat): State
    requires t < |s.pcs|
  {
    if row >= |TRANS| then Goto(s, t, SpinLoad)
    else if TRANS[row].to != seen && s.control != seen then Goto(s, t, SpinLoad)
    else
      var s' := if TRANS[row].to == seen then s else s.(control := TRANS[row].to);
      Goto(s', t,
           if !TRANS[row].done then SpinLoad
           else if seen == ONCE_INIT then Invoke
           else Returned)
  }

  function Awake(pc: Pc): Pc {
    if pc == Asleep then SpinLoad else pc
  }

  function Next(s: State, m: Move): State
    requires Enabled(s, m)
  {
    var t := m.t;
    if m.Spurious? then Goto(s, t, SpinLoad)
    else
      match s.pcs[t]
      case Entry => Goto(s, t, if s.control == ONCE_DONE then Returned else Check)
      case Check =>
        Goto(s, t, if s.control in {ONCE_INIT, ONCE_RUNNING, ONCE_WAITER, ONCE_DONE} then FirstCas else Fatal)
      case FirstCas =>
        if s.control == ONCE_INIT then Goto(s, t, Invoke).(control := ONCE_RUNNING)
        else Goto(s, t, SpinLoad)
      case SpinLoad =>
        var row := Row(s.control);
        Goto(s, t, if row == |TRANS| then Delay(s.control) else SpinSwap(s.control, row))
      case SpinSwap(seen, row) => TakeRow(s, t, seen, row)
      case Delay(seen) => Goto(s, t, if s.control == seen then Asleep else SpinLoad)
      case Invoke => Goto(s, t, InCallable).(started := s.started + 1)
      case InCallable => Goto(s, t, Finish).(finished := s.finished + 1)
      case Finish =>
        Goto(s, t, if s.control == ONCE_WAITER then Wake else Returned).(control := ONCE_DONE)
      case Wake =>
        Goto(s.(pcs := seq(|s.pcs|, i requires 0 <= i < |s.pcs| => Awake(s.pcs[i]))), t, Returned)
  }

  /** A schedule every move of which is possible when its turn comes. */
  predicate Legal(s: State, moves: seq<Move>)
    decreases |moves|
  {
    moves == [] || (Enabled(s, moves[0]) && Legal(Next(s, moves[0]), moves[1..]))
  }

  function Exec(s: State, moves: seq<Move>): State
    requires Legal(s, moves)
    decreases |moves|
  {
    if moves == [] then s else Exec(Next(s, moves[0]), moves[1..])
  }

  // ----- the invariant -----

  /** Between winning the word and the exchange to kOnceDone. */
  ghost predicate Winning(pc: Pc) {
    pc in {Invoke, InCallable, Finish}
  }

  /** How far the word still has to go. */
  function Rank(control: nat): nat {
    if control == ONCE_INIT then 3
    else if control == ONCE_RUNNING then 2
    else if control == ONCE_WAITER then 1
    else 0
  }

  /** What a thread's position says about the word and the callable. */
  ghost predicate PcInv(s: State, pc: Pc) {
    match pc
    case Entry => true
    case Check => true
    case FirstCas => true
    case SpinLoad => s.control != ONCE_INIT
    case SpinSwap(seen, row) =>
      && s.control != ONCE_INIT
      && seen in {ONCE_RUNNING, ONCE_DONE}
      && row == Row(seen)
      && (seen == ONCE_DONE ==> s.control == ONCE_DONE)
    case Delay(seen) => seen == ONCE_WAITER && s.control in {ONCE_WAITER, ONCE_DONE}
    case Asleep => s.control in {ONCE_WAITER, ONCE_DONE}
    case Invoke => s.control in {ONCE_RUNNING, ONCE_WAITER} && s.started == 0 && s.finished == 0
    case InCallable => s.control in {ONCE_RUNNING, ONCE_WAITER} && s.started == 1 && s.finished == 0
    case Finish => s.control in {ONCE_RUNNING, ONCE_WAITER} && s.started == 1 && s.finished == 1
    case Wake => s.control == ONCE_DONE
    case Returned => s.control == ONCE_DONE
    case Fatal => false
  }

  ghost predicate WordInv(s: State) {
    && s.control in {ONCE_INIT, ONCE_RUNNING, ONCE_WAITER, ONCE_DONE}
    && (s.control == ONCE_INIT ==> s.started == 0 && s.finished == 0)
    && (s.control == ONCE_DONE ==> s.started == 1 && s.finished == 1)
  }

  /** `w` is the one thread between winning and the exchange, and there is one exactly while
      the word says kOnceRunning or kOnceWaiter. */
  ghost predicate Winner(s: State, w: nat) {
    && (s.control in {ONCE_RUNNING, ONCE_WAITER} <==> w < |s.pcs|)
    && (forall t :: 0 <= t < |s.pcs| ==> (Winning(s.pcs[t]) <==> t == w))
  }

  ghost predicate HasWaker(s: State) {
    exists t :: 0 <= t < |s.pcs| && s.pcs[t] == Wake
  }

  /** A sleeper is always going to be woken: the mark is set or a wake-up is due. */
  ghost predicate NoLostWaiter(s: State) {
    (exists t :: 0 <= t < |s.pcs| && s.pcs[t] == Asleep) ==> s.control == ONCE_WAITER || HasWaker(s)
  }

  ghost predicate Inv(s: State) {
    && WordInv(s)
    && (forall t :: 0 <= t < |s.pcs| ==> PcInv(s, s.pcs[t]))
    && (exists w: nat :: Winner(s, w))
    && NoLostWaiter(s)
  }

  lemma RowsOfTheTable(v: nat)
    ensures Row(ONCE_INIT) == 0 && Row(ONCE_RUNNING) == 1 && Row(ONCE_DONE) == 2
    ensures Row(v) == |TRANS| <==> v !in {ONCE_INIT, ONCE_RUNNING, ONCE_DONE}
  {
    assert TRANS[0].from == ONCE_INIT && TRANS[1].from == ONCE_RUNNING && TRANS[2].from == ONCE_DONE;
  }

  /** The word and the counters after a move, and the moved thread itself. */
  lemma NextOwnPc(s: State, m: Move)
    requires Inv(s) && Enabled(s, m)
    ensures WordInv(Next(s, m))
    ensures PcInv(Next(s, m), Next(s, m).pcs[m.t])
    ensures Rank(Next(s, m).control) <= Rank(s.control)
  {
    RowsOfTheTable(s.control);
    assert PcInv(s, s.pcs[m.t]);
  }

  lemma NextOtherPc(s: State, m: Move, u: nat, w: nat)
    requires Inv(s) && Enabled(s, m) && Winner(s, w)
    requires u < |s.pcs| && u != m.t
    ensures PcInv(Next(s, m), Next(s, m).pcs[u])
  {
    RowsOfTheTable(s.control);
    assert PcInv(s, s.pcs[m.t]);
    assert PcInv(s, s.pcs[u]);
    assert Winning(s.pcs[u]) <==> u == w;
    assert Winning(s.pcs[m.t]) <==> m.t == w;
  }

  lemma NextWinner(s: State, m: Move)
    requires Inv(s) && Enabled(s, m)
    ensures exists w: nat :: Winner(Next(s, m), w)
  {
    var w: nat :| Winner(s, w);
    var t, s' := m.t, Next(s, m);
    assert PcInv(s, s.pcs[t]);
    var w' := if Winning(s'.pcs[t]) then t else if Winning(s.pcs[t]) then |s.pcs| else w;
    assert Winner(s', w');
  }

  lemma NextWaiter(s: State, m: Move)
    requires Inv(s) && Enabled(s, m)
    ensures NoLostWaiter(Next(s, m))
  {
    var t, s' := m.t, Next(s, m);
    assert PcInv(s, s.pcs[t]);
    if u :| 0 <= u < |s'.pcs| && s'.pcs[u] == Asleep {
      if u != t {
        assert s.pcs[u] == Asleep;
        assert PcInv(s, s.pcs[u]);
        if HasWaker(s) {
          var k :| 0 <= k < |s.pcs| && s.pcs[k] == Wake;
          assert s'.pcs[k] == Wake || k == t;
        } else if s'.control != ONCE_WAITER {
          assert s'.pcs[t] == Wake;
        }
      }
    }
  }

  lemma NextInv(s: State, m: Move)
    requires Inv(s) && Enabled(s, m)
    ensures Inv(Next(s, m))
    ensures Rank(Next(s, m).control) <= Rank(s.control)
  {
    NextOwnPc(s, m);
    var w: nat :| Winner(s, w);
    forall u: nat | u < |s.pcs| && u != m.t
      ensures PcInv(Next(s, m), Next(s, m).pcs[u])
    {
      NextOtherPc(s, m, u, w);
    }
    NextWinner(s, m);
    NextWaiter(s, m);
  }

  // ----- every schedule -----

  lemma {:induction false} ExecInv(s: State, moves: seq<Move>)
    requires Inv(s) && Legal(s, moves)
    ensures Inv(Exec(s, moves))
    ensures Rank(Exec(s, moves).control) <= Rank(s.control)
    ensures |Exec(s, moves).pcs| == |s.pcs|
    decreases |moves|
  {
    if moves != [] {
      NextInv(s, moves[0]);
      ExecInv(Next(s, moves[0]), moves[1..]);
    }
  }

  lemma InitialInv(n: nat)
    ensures Inv(Initial(n))
  {
    assert Winner(Initial(n), n);
  }

  /** For any number of threads and any interleaving: the callable is started at most once, no
      thread has returned before it finished, no two threads are inside it, and the debug check
      never fails. */
  lemma RunsExactlyOnce(n: nat, moves: seq<Move>)
    requires Legal(Initial(n), moves)
    ensures var s := Exec(Initial(n), moves);
      && s.finished <= s.started <= 1
      && (forall t :: 0 <= t < |s.pcs| && s.pcs[t] == Returned ==> s.started == 1 && s.finished == 1)
      && (forall t, u :: 0 <= t < |s.pcs| && 0 <= u < |s.pcs| && Winning(s.pcs[t]) && Winning(s.pcs[u]) ==> t == u)
      && Fatal !in s.pcs
  {
    InitialInv(n);
    ExecInv(Initial(n), moves);
    var s := Exec(Initial(n), moves);
    var w: nat :| Winner(s, w);
    if w < |s.pcs| {
      assert PcInv(s, s.pcs[w]);
    }
    forall t | 0 <= t < |s.pcs|
      ensures s.pcs[t] != Fatal && (s.pcs[t] == Returned ==> s.control == ONCE_DONE)
    {
      assert PcInv(s, s.pcs[t]);
    }
  }

  /** The word only moves forward, kOnceInit to kOnceRunning to kOnceWaiter to kOnceDone, from any
      reachable state on: it leaves kOnceInit once and never comes back. */
  lemma WordMovesForward(n: nat, past: seq<Move>, future: seq<Move>)
    requires Legal(Initial(n), past) && Legal(Exec(Initial(n), past), future)
    ensures var s := Exec(Initial(n), past); var s' := Exec(s, future);
      && Rank(s'.control) <= Rank(s.control)
      && (s.control != ONCE_INIT ==> s'.control != ONCE_INIT)
      && (s.control == ONCE_DONE ==> s'.control == ONCE_DONE)
  {
    InitialInv(n);
    ExecInv(Initial(n), past);
    ExecInv(Exec(Initial(n), past), future);
  }

  /** No waiter is lost.  While the word carries the mark some thread is still to make the
      finishing exchange; that exchange sees the mark and goes on to wake; and after the wake-up
      nobody sleeps, so a thread can only be asleep when the mark is set or a wake-up is due. */
  lemma NoWaiterIsLost(n: nat, moves: seq<Move>, t: nat)
    requires Legal(Initial(n), moves)
    requires t < |Exec(Initial(n), moves).pcs|
    ensures var s := Exec(Initial(n), moves);
      && (s.pcs[t] == Asleep ==> s.control == ONCE_WAITER || HasWaker(s))
      && (s.control == ONCE_WAITER ==> exists w :: 0 <= w < |s.pcs| && Winning(s.pcs[w]))
      && (s.control == ONCE_WAITER && s.pcs[t] == Finish ==> Next(s, Step(t)).pcs[t] == Wake)
      && (s.pcs[t] == Wake ==> Asleep !in Next(s, Step(t)).pcs)
  {
    InitialInv(n);
    ExecInv(Initial(n), moves);
    var s := Exec(Initial(n), moves);
    var w: nat :| Winner(s, w);
    assert s.control == ONCE_WAITER ==> Winning(s.pcs[w]);
  }

  // ----- every schedule ends -----

  /** Actions a thread can still take while the word keeps the value `c`. */
  function Weight(pc: Pc, c: nat): nat {
    match pc
    case Entry => 5
    case Check => 4
    case FirstCas => 3
    case SpinLoad => 2
    case SpinSwap(seen, _) => if seen == c then 1 else 3
    case Delay(seen) => if seen == c then 1 else 3
    case Asleep => if c == ONCE_WAITER then 0 else 3
    case Invoke => 3
    case InCallable => 2
    case Finish => 1
    case Wake => 1
    case Returned => 0
    case Fatal => 0
  }

  function Weights(pcs: seq<Pc>, c: nat): (sum: nat)
    ensures sum <= 5 * |pcs|
  {
    if pcs == [] then 0 else Weight(pcs[0], c) + Weights(pcs[1..], c)
  }

  function Measure(s: State): nat {
    Rank(s.control) * (5 * |s.pcs| + 1) + Weights(s.pcs, s.control)
  }

  /** One thread gets lighter and no other gets heavier. */
  lemma {:induction false} WeightsDrop(a: seq<Pc>, b: seq<Pc>, c: nat, t: nat)
    requires |a| == |b| && t < |a|
    requires forall u :: 0 <= u < |a| ==> Weight(b[u], c) <= Weight(a[u], c)
    requires Weight(b[t], c) < Weight(a[t], c)
    ensures Weights(b, c) < Weights(a, c)
    decreases |a|
  {
    WeightsFall(a[1..], b[1..], c);
    if t > 0 {
      WeightsDrop(a[1..], b[1..], c, t - 1);
    }
  }

  lemma {:induction false} WeightsFall(a: seq<Pc>, b: seq<Pc>, c: nat)
    requires |a| == |b|
    requires forall u :: 0 <= u < |a| ==> Weight(b[u], c) <= Weight(a[u], c)
    ensures Weights(b, c) <= Weights(a, c)
  {
    if a != [] {
      WeightsFall(a[1..], b[1..], c);
    }
  }

  /** While the word stays the same no move makes a thread heavier, and the moved one gets lighter. */
  lemma StepLightens(s: State, t: nat, u: nat)
    requires Inv(s) && Enabled(s, Step(t)) && u < |s.pcs|
    requires Next(s, Step(t)).control == s.control
    ensures Weight(Next(s, Step(t)).pcs[u], s.control) <= Weight(s.pcs[u], s.control)
    ensures u == t ==> Weight(Next(s, Step(t)).pcs[u], s.control) < Weight(s.pcs[u], s.control)
  {
    RowsOfTheTable(s.control);
    assert PcInv(s, s.pcs[t]);
  }

  /** Every action of a thread, a failed exchange or a retry included, makes progress. */
  lemma StepDescends(s: State, t: nat)
    requires Inv(s) && Enabled(s, Step(t))
    ensures Measure(Next(s, Step(t))) < Measure(s)
  {
    var s' := Next(s, Step(t));
    NextInv(s, Step(t));
    if s'.control == s.control {
      forall u: nat | u < |s.pcs|
        ensures Weight(s'.pcs[u], s.control) <= Weight(s.pcs[u], s.control)
        ensures u == t ==> Weight(s'.pcs[u], s.control) < Weight(s.pcs[u], s.control)
      {
        StepLightens(s, t, u);
      }
      WeightsDrop(s.pcs, s'.pcs, s.control, t);
    } else {
      RankDrops(Rank(s'.control), Rank(s.control), 5 * |s.pcs| + 1);
    }
  }

  lemma RankDrops(a: nat, b: nat, k: nat)
    requires a < b
    ensures a * k + k <= b * k
  {
    assert (a + 1) * k <= b * k;
  }

  lemma {:induction false} ExecDescends(s: State, moves: seq<Move>)
    requires Inv(s) && Legal(s, moves)
    requires forall m :: m in moves ==> m.Step?
    ensures |moves| + Measure(Exec(s, moves)) <= Measure(s)
    decreases |moves|
  {
    if moves != [] {
      var t := moves[0].t;
      assert moves[0] == Step(t);
      NextInv(s, moves[0]);
      StepDescends(s, t);
      ExecDescends(Next(s, moves[0]), moves[1..]);
    }
  }

  /** While a thread sleeps, another one can move: the waker, or the thread in the callable. */
  lemma SleeperIsNotAlone(s: State, t: nat) returns (k: nat)
    requires Inv(s) && t < |s.pcs| && s.pcs[t] == Asleep
    ensures Enabled(s, Step(k))
  {
    assert PcInv(s, s.pcs[t]);
    if HasWaker(s) {
      k :| 0 <= k < |s.pcs| && s.pcs[k] == Wake;
    } else {
      k :| Winner(s, k);
    }
  }

  /** Without any fairness assumption, and with sleepers that only a wake-up rouses: no schedule
      of `n` threads is longer than 20n + 3, and where no thread can move every one of them has
      returned and the callable has run. */
  lemma EveryScheduleEnds(n: nat, moves: seq<Move>)
    requires Legal(Initial(n), moves)
    requires forall m :: m in moves ==> m.Step?
    ensures |moves| <= 20 * n + 3
    ensures var s := Exec(Initial(n), moves);
      && |s.pcs| == n
      && ((forall t: nat :: !Enabled(s, Step(t))) ==>
            (forall t :: 0 <= t < |s.pcs| ==> s.pcs[t] == Returned) && (n > 0 ==> s.started == 1 && s.finished == 1))
  {
    InitialInv(n);
    ExecInv(Initial(n), moves);
    ExecDescends(Initial(n), moves);
    var s := Exec(Initial(n), moves);
    if forall t: nat :: !Enabled(s, Step(t)) {
      forall t | 0 <= t < n
        ensures s.pcs[t] == Returned
      {
        assert !Enabled(s, Step(t));
        assert PcInv(s, s.pcs[t]);
        if s.pcs[t] == Asleep {
          var k := SleeperIsNotAlone(s, t);
        }
      }
    }
  }
}
