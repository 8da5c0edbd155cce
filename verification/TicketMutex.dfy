/**
 The turn-based mutex of asgard/lib/critical_section.c, as the interleaved steps of any
 number of threads. A block between `enter_block` and `exit_block` is one step; the spin
 read of `wait_mutex` and each of the three writes after it are steps of their own. Every
 interleaving in which at most MAXTURN threads hold or wait is shown to refine a first-come
 first-served lock, and any step that makes them more to lead to two holders.
 */
module TicketMutex {
  import opened Sequences

  const MAXTURN: nat := 65000

  type Thread = nat

  datatype Lock = UNLOCKED | LOCKED | WAITING

  /** `struct mutex`; a `lockingThread` of -1 is no thread. */
  datatype Mutex = Mutex(availableTurn: nat, lockingTurn: nat, locked: Lock, lockingThread: int, recursion: int)

  /** What a thread does between two steps. `Holding` lasts from a `wait_mutex` that returned to
      the `leave_mutex` that released. */
  datatype Activity = Outside | Spinning(turn: nat) | Granted | Entering | Resetting | Holding

  datatype State = State(mon: Mutex, at: map<Thread, Activity>)

  function At(s: State, t: Thread): Activity { if t in s.at then s.at[t] else Outside }

  function Bump(turn: nat): nat { if turn + 1 == MAXTURN then 0 else turn + 1 }

  // ------------------------------------------------------- the blocks of code

  function InitMutex(): Mutex { Mutex(0, 0, UNLOCKED, -1, 0) }

  predicate Owns(m: Mutex, me: Thread) { m.lockingThread == me && m.locked == LOCKED }

  /** Lines 45-72. */
  function WaitBlock(m: Mutex, me: Thread): (Mutex, Activity)
  {
    if Owns(m, me) then (m.(recursion := m.recursion + 1), Holding)
    else if m.locked == UNLOCKED then (Mutex(0, 0, LOCKED, me, 0), Holding)
    else var turn := Bump(m.availableTurn); (m.(availableTurn := turn), Spinning(turn))
  }

  /** Lines 86-122; the flag says that the mutex was released. */
  function LeaveBlock(m: Mutex, me: Thread): (Mutex, bool)
  {
    if !Owns(m, me) then (m, false)
    else if m.recursion > 1 then (m.(recursion := m.recursion - 1), false)
    else if m.availableTurn != m.lockingTurn then
      (m.(lockingTurn := Bump(m.lockingTurn), locked := WAITING, recursion := 0), true)
    else (Mutex(0, 0, UNLOCKED, -1, 0), true)
  }

  // ------------------------------------------------------------- the protocol

  /** The steps of one thread. */
  datatype Step = Wait | Leave | Read | WriteThread | WriteLocked | WriteRecursion

  function Init(): State { State(InitMutex(), map[]) }

  predicate Enabled(s: State, t: Thread, step: Step)
  {
    match step
    case Wait | Leave => At(s, t) in {Outside, Holding}
    case Read => At(s, t).Spinning?
    case WriteThread => At(s, t) == Granted
    case WriteLocked => At(s, t) == Entering
    case WriteRecursion => At(s, t) == Resetting
  }

  function Take(s: State, t: Thread, step: Step): State
    requires Enabled(s, t, step)
  {
    match step
    case Wait =>
      var (m, a) := WaitBlock(s.mon, t);
      State(m, s.at[t := a])
    case Leave =>
      var (m, released) := LeaveBlock(s.mon, t);
      State(m, s.at[t := if released then Outside else At(s, t)])
    case Read => if At(s, t).turn == s.mon.lockingTurn then s.(at := s.at[t := Granted]) else s
    case WriteThread => State(s.mon.(lockingThread := t), s.at[t := Entering])
    case WriteLocked => State(s.mon.(locked := LOCKED), s.at[t := Resetting])
    case WriteRecursion => State(s.mon.(recursion := 0), s.at[t := Holding])
  }

  // -------------------------------------------------- the lock it should be

  /** A lock that serves its queue in order: who holds it (-1 is nobody), and who waits. */
  datatype Fifo = Fifo(holder: int, queue: seq<Thread>)

  ghost predicate FifoNext(a: Fifo, b: Fifo)
  {
    || a == b
    // a free lock nobody waits for is taken at once
    || (a.holder == -1 && a.queue == [] && b.holder >= 0 && b.queue == [])
    // otherwise a thread joins at the end of the queue
    || ((a.holder >= 0 || a.queue != []) &&
        exists t :: t !in a.queue && t != a.holder && b == a.(queue := a.queue + [t]))
    // the holder releases
    || (a.holder >= 0 && b == a.(holder := -1))
    // the first of the queue, and no other, gets a released lock
    || (a.holder == -1 && a.queue != [] && b == Fifo(a.queue[0], a.queue[1..]))
  }

  function Without(q: seq<Thread>, t: Thread): seq<Thread>
  {
    if q == [] then [] else if q[0] == t then q[1..] else [q[0]] + Without(q[1..], t)
  }

  /** The history of a run: threads are queued when they take a turn, and leave the queue for
      the lock when their `wait_mutex` returns. Nothing here says that this happens in order. */
  function Track(f: Fifo, s: State, t: Thread, step: Step): Fifo
    requires Enabled(s, t, step)
  {
    match step
    case Wait =>
      var a := WaitBlock(s.mon, t).1;
      if a == Holding then f.(holder := t) else f.(queue := f.queue + [t])
    case Leave => if LeaveBlock(s.mon, t).1 then f.(holder := -1) else f
    case WriteRecursion => Fifo(t, Without(f.queue, t))
    case _ => f
  }

  // ----------------------------------------------------------- the invariant

  predicate IsWaiting(a: Activity) { a.Spinning? || a == Granted || a == Entering || a == Resetting }

  function Waiters(s: State): set<Thread> { set t | t in s.at && IsWaiting(s.at[t]) }

  /** The threads that hold the mutex or wait for it. */
  function Users(s: State): set<Thread> { set t | t in s.at && s.at[t] != Outside }

  /** The turn `i` places after `turn`. */
  function After(turn: nat, i: nat): int { if turn + i < MAXTURN then turn + i else turn + i - MAXTURN }

  /** The history is the state of the threads: one holder, and the waiters in the queue. */
  ghost predicate Agrees(s: State, f: Fifo)
  {
    && -1 <= f.holder && Distinct(f.queue)
    && (forall t: Thread :: At(s, t) == Holding <==> t == f.holder)
    && (forall t: Thread :: IsWaiting(At(s, t)) <==> t in f.queue)
  }

  /** The outstanding turns are consecutive from `first` on, in the order of the queue. */
  ghost predicate TurnsFrom(s: State, q: seq<Thread>, from: nat, first: nat)
  {
    forall i :: from <= i < |q| ==> At(s, q[i]) == Spinning(After(first, i))
  }

  /** How many threads hold or wait. */
  function Load(f: Fifo): nat { |f.queue| + if f.holder >= 0 then 1 else 0 }

  ghost predicate Inv(s: State, f: Fifo)
  {
    var m := s.mon;
    && Agrees(s, f)
    && m.availableTurn < MAXTURN && m.lockingTurn < MAXTURN && Load(f) <= MAXTURN
    && (if f.holder >= 0 then
          // held: the waiters have the turns after the locking one
          && Owns(m, f.holder)
          && TurnsFrom(s, f.queue, 0, Bump(m.lockingTurn))
          && m.availableTurn == After(m.lockingTurn, |f.queue|)
        else if f.queue != [] then
          // handed over: the first waiter has the locking turn, or has already seen that it has
          && (m.locked == if At(s, f.queue[0]) == Resetting then LOCKED else WAITING)
          && (At(s, f.queue[0]) in {Entering, Resetting} ==> m.lockingThread == f.queue[0])
          && (At(s, f.queue[0]).Spinning? ==> At(s, f.queue[0]).turn == m.lockingTurn)
          && TurnsFrom(s, f.queue, 1, m.lockingTurn)
          && m.availableTurn == After(m.lockingTurn, |f.queue| - 1)
        else m.locked == UNLOCKED)
  }

  lemma UsersCount(s: State, f: Fifo)
    requires Agrees(s, f)
    ensures |Users(s)| == Load(f) && |Waiters(s)| == |f.queue|
  {
    assert forall t :: t in Waiters(s) <==> IsWaiting(At(s, t));
    SeqCount(f.queue, Waiters(s));
    if f.holder >= 0 {
      assert Users(s) == Waiters(s) + {f.holder};
    } else {
      assert forall t: Thread :: At(s, t) != Holding;
      assert Users(s) == Waiters(s);
    }
  }

  /** The step takes a turn, and there are already MAXTURN threads that hold or wait. */
  ghost predicate Overflows(s: State, f: Fifo, t: Thread, step: Step)
    requires Enabled(s, t, step)
  {
    step == Wait && WaitBlock(s.mon, t).1 != Holding && Load(f) == MAXTURN
  }

  /** Every other step keeps the invariant, and is a step of the first-come first-served lock. */
  lemma StepRefines(s: State, f: Fifo, t: Thread, step: Step)
    requires Inv(s, f) && Enabled(s, t, step) && !Overflows(s, f, t, step)
    ensures Inv(Take(s, t, step), Track(f, s, t, step))
    ensures FifoNext(f, Track(f, s, t, step))
  {
    match step
    case Wait => WaitRefines(s, f, t);
    case Leave => LeaveRefines(s, f, t);
    case Read => ReadRefines(s, f, t);
    case _ => WriteRefines(s, f, t, step);
  }

  /** A step is one too many just when it makes more than MAXTURN threads hold or wait. */
  lemma OverflowIs(s: State, f: Fifo, t: Thread, step: Step)
    requires Inv(s, f) && Enabled(s, t, step)
    ensures Overflows(s, f, t, step) <==> |Users(Take(s, t, step))| > MAXTURN
  {
    if Overflows(s, f, t, step) {
      UsersCount(s, f);
      var s' := Take(s, t, step);
      assert At(s, t) == Outside && t !in Users(s);
      assert forall u: Thread :: u != t ==> At(s', u) == At(s, u);
      assert Users(s') == Users(s) + {t};
    } else {
      StepRefines(s, f, t, step);
      UsersCount(Take(s, t, step), Track(f, s, t, step));
    }
  }

  lemma WaitRefines(s: State, f: Fifo, t: Thread)
    requires Inv(s, f) && Enabled(s, t, Wait) && !Overflows(s, f, t, Wait)
    ensures Inv(Take(s, t, Wait), Track(f, s, t, Wait))
    ensures FifoNext(f, Track(f, s, t, Wait))
  {
    if WaitBlock(s.mon, t).1 == Holding {
      var s' := Take(s, t, Wait);
      assert forall u: Thread :: u != t ==> At(s', u) == At(s, u);
    } else {
      TurnRefines(s, f, t);
    }
  }

  lemma AgreesJoined(s: State, s': State, f: Fifo, t: Thread)
    requires Agrees(s, f) && t !in f.queue && t != f.holder
    requires forall u: Thread :: u != t ==> At(s', u) == At(s, u)
    requires IsWaiting(At(s', t))
    ensures Agrees(s', f.(queue := f.queue + [t]))
  {
    assert forall u :: u in f.queue + [t] <==> u in f.queue || u == t;
  }

  lemma AgreesReturned(s: State, s': State, f: Fifo, t: Thread)
    requires Agrees(s, f) && f.holder == -1 && f.queue != [] && f.queue[0] == t
    requires forall u: Thread :: u != t ==> At(s', u) == At(s, u)
    requires At(s', t) == Holding
    ensures Agrees(s', Fifo(t, f.queue[1..]))
  {
    var q := f.queue[1..];
    assert f.queue == [t] + q;
    assert forall u :: u in f.queue <==> u == t || u in q;
    forall i | 0 <= i < |q| ensures q[i] != t { assert q[i] == f.queue[i + 1]; }
  }

  lemma TurnsExtend(s: State, s': State, q: seq<Thread>, from: nat, first: nat, t: Thread)
    requires TurnsFrom(s, q, from, first) && t !in q
    requires forall u: Thread :: u != t ==> At(s', u) == At(s, u)
    requires At(s', t) == Spinning(After(first, |q|))
    ensures TurnsFrom(s', q + [t], from, first)
  {
    forall i | from <= i < |q| + 1 ensures At(s', (q + [t])[i]) == Spinning(After(first, i)) {
      if i < |q| { assert q[i] != t; }
    }
  }

  lemma TurnRefines(s: State, f: Fifo, t: Thread)
    requires Inv(s, f) && Enabled(s, t, Wait) && !Owns(s.mon, t) && s.mon.locked != UNLOCKED && Load(f) < MAXTURN
    ensures Inv(Take(s, t, Wait), Track(f, s, t, Wait))
    ensures FifoNext(f, Track(f, s, t, Wait))
  {
    var s', q := Take(s, t, Wait), f.queue + [t];
    assert Track(f, s, t, Wait) == f.(queue := q);
    assert t !in f.queue && t != f.holder;
    assert forall u: Thread :: u != t ==> At(s', u) == At(s, u);
    AgreesJoined(s, s', f, t);
    if f.holder >= 0 {
      TurnsExtend(s, s', f.queue, 0, Bump(s.mon.lockingTurn), t);
    } else {
      TurnsExtend(s, s', f.queue, 1, s.mon.lockingTurn, t);
    }
  }

  lemma LeaveRefines(s: State, f: Fifo, t: Thread)
    requires Inv(s, f) && Enabled(s, t, Leave)
    ensures Inv(Take(s, t, Leave), Track(f, s, t, Leave))
    ensures FifoNext(f, Track(f, s, t, Leave))
  {
    var s' := Take(s, t, Leave);
    assert forall u: Thread :: u != t ==> At(s', u) == At(s, u);
  }

  lemma ReadRefines(s: State, f: Fifo, t: Thread)
    requires Inv(s, f) && Enabled(s, t, Read)
    ensures Inv(Take(s, t, Read), f)
  {
    var s' := Take(s, t, Read);
    assert forall u: Thread :: u != t ==> At(s', u) == At(s, u);
    assert t in f.queue;
    var i :| 0 <= i < |f.queue| && f.queue[i] == t;
  }

  /** Only the first of the queue can have seen its turn come. */
  lemma GranteeIsFirst(s: State, f: Fifo, t: Thread)
    requires Inv(s, f) && At(s, t) in {Granted, Entering, Resetting}
    ensures f.holder == -1 && f.queue != [] && f.queue[0] == t
  {
    assert t in f.queue;
    var i :| 0 <= i < |f.queue| && f.queue[i] == t;
  }

  lemma WriteRefines(s: State, f: Fifo, t: Thread, step: Step)
    requires Inv(s, f) && Enabled(s, t, step) && step in {WriteThread, WriteLocked, WriteRecursion}
    ensures Inv(Take(s, t, step), Track(f, s, t, step))
    ensures FifoNext(f, Track(f, s, t, step))
  {
    GranteeIsFirst(s, f, t);
    var s' := Take(s, t, step);
    assert forall u: Thread :: u != t ==> At(s', u) == At(s, u);
    if step == WriteRecursion {
      var q := f.queue[1..];
      AgreesReturned(s, s', f, t);
      assert TurnsFrom(s', q, 0, Bump(s.mon.lockingTurn)) by {
        forall i | 0 <= i < |q| ensures At(s', q[i]) == Spinning(After(Bump(s.mon.lockingTurn), i)) {
          assert q[i] == f.queue[i + 1] && q[i] != t;
        }
      }
    } else {
      assert forall i :: 1 <= i < |f.queue| ==> f.queue[i] != t;
    }
  }

  // -------------------------------------------------------------------- runs

  /** A run is the list of its steps, each with the thread that takes it. */
  datatype Event = Event(t: Thread, step: Step)

  /** Every step is one its thread can take, and never do more than MAXTURN threads hold or wait. */
  predicate Legal(es: seq<Event>)
    decreases |es|, 0
  {
    es == [] ||
    var k := |es| - 1;
    && Legal(es[..k])
    && Enabled(Run(es[..k]), es[k].t, es[k].step)
    && |Users(Take(Run(es[..k]), es[k].t, es[k].step))| <= MAXTURN
  }

  /** The state a run leads to, from the one `init_mutex` sets up. */
  function Run(es: seq<Event>): State
    requires Legal(es)
    decreases |es|, 1
  {
    if es == [] then Init()
    else var k := |es| - 1; Take(Run(es[..k]), es[k].t, es[k].step)
  }

  function History(es: seq<Event>): Fifo
    requires Legal(es)
  {
    if es == [] then Fifo(-1, [])
    else var k := |es| - 1; Track(History(es[..k]), Run(es[..k]), es[k].t, es[k].step)
  }

  /** Every run refines the first-come first-served lock, step by step. */
  lemma {:induction false} RunRefines(es: seq<Event>)
    requires Legal(es)
    ensures Inv(Run(es), History(es))
    ensures es != [] ==> FifoNext(History(es[..|es| - 1]), History(es))
  {
    if es != [] {
      var k := |es| - 1;
      RunRefines(es[..k]);
      OverflowIs(Run(es[..k]), History(es[..k]), es[k].t, es[k].step);
      StepRefines(Run(es[..k]), History(es[..k]), es[k].t, es[k].step);
    }
  }

  /** At most one thread is between a `wait_mutex` that returned and its releasing `leave_mutex`. */
  lemma MutualExclusion(es: seq<Event>, t: Thread, u: Thread)
    requires Legal(es) && At(Run(es), t) == Holding && At(Run(es), u) == Holding
    ensures t == u
  {
    RunRefines(es);
  }

  /** `own_mutex` is true of exactly the thread that holds the mutex or is about to return with it. */
  lemma OwnershipIsHolding(es: seq<Event>, t: Thread)
    requires Legal(es)
    ensures Owns(Run(es).mon, t) <==> At(Run(es), t) in {Holding, Resetting}
  {
    RunRefines(es);
    if At(Run(es), t) == Resetting { GranteeIsFirst(Run(es), History(es), t); }
  }

  /** A thread whose `wait_mutex` returns after queueing is the one that took its turn first. */
  lemma ServedInOrder(es: seq<Event>, t: Thread)
    requires Legal(es) && Enabled(Run(es), t, WriteRecursion)
    ensures History(es).queue != [] && History(es).queue[0] == t
    ensures Track(History(es), Run(es), t, WriteRecursion) == Fifo(t, History(es).queue[1..])
  {
    RunRefines(es);
    GranteeIsFirst(Run(es), History(es), t);
  }

  /** The mutex has been handed to `t`, which has not taken it yet. */
  predicate Grantee(s: State, t: Thread)
  {
    At(s, t) == Spinning(s.mon.lockingTurn) || At(s, t) in {Granted, Entering}
  }

  /** No hand-over is lost: WAITING has exactly one thread that can take the mutex. */
  lemma OneGrantee(es: seq<Event>)
    requires Legal(es) && Run(es).mon.locked == WAITING
    ensures exists t :: Grantee(Run(es), t) && forall u :: Grantee(Run(es), u) ==> u == t
  {
    RunRefines(es);
    var s, q := Run(es), History(es).queue;
    assert Grantee(s, q[0]);
    forall u | Grantee(s, u) ensures u == q[0] {
      assert u in q;
      var i :| 0 <= i < |q| && q[i] == u;
    }
  }

  /** A waiter exists only while somebody holds the mutex or is being given it. */
  lemma NobodyForgotten(es: seq<Event>)
    requires Legal(es) && Waiters(Run(es)) != {}
    ensures exists t :: At(Run(es), t) == Holding || At(Run(es), t) == Resetting || Grantee(Run(es), t)
  {
    RunRefines(es);
    var s, f := Run(es), History(es);
    var w :| w in Waiters(s);
    assert IsWaiting(At(s, w)) && w in f.queue;
    if f.holder >= 0 {
      assert At(s, f.holder) == Holding;
    } else {
      assert At(s, f.queue[0]) == Resetting || Grantee(s, f.queue[0]);
    }
  }

  /** Having a turn is having a place in the queue: turns are counted from the one after the locking turn while the
      mutex is held, and from the locking turn itself while it is handed over. */
  lemma TurnIsPlace(s: State, f: Fifo, t: Thread, turn: nat) returns (i: nat)
    requires Inv(s, f) && At(s, t) == Spinning(turn)
    ensures i < |f.queue| && f.queue[i] == t
    ensures turn == After(s.mon.lockingTurn, if f.holder >= 0 then i + 1 else i)
  {
    assert t in f.queue;
    i :| 0 <= i < |f.queue| && f.queue[i] == t;
    if f.holder >= 0 {
      assert turn == After(Bump(s.mon.lockingTurn), i) == After(s.mon.lockingTurn, i + 1);
    }
  }

  /** The turns that threads spin on go from the locking turn to the available turn, round at MAXTURN. The locking
      turn itself is among them just when the mutex is handed over to a thread that has yet to see it. */
  ghost predicate TurnsInterval(s: State, turn: nat)
    requires Waiters(s) != {}
  {
    var n := |Waiters(s)|;
    var held := exists t :: At(s, t) == Holding;
    var seen := exists t :: At(s, t) in {Granted, Entering, Resetting};
    && s.mon.availableTurn == After(s.mon.lockingTurn, if held then n else n - 1)
    && ((exists t :: At(s, t) == Spinning(turn)) <==>
        exists i :: (if held || seen then 1 else 0) <= i <= (if held then n else n - 1)
                    && turn == After(s.mon.lockingTurn, i))
  }

  lemma OutstandingTurns(es: seq<Event>, turn: nat)
    requires Legal(es) && Waiters(Run(es)) != {}
    ensures TurnsInterval(Run(es), turn)
  {
    RunRefines(es);
    hide Legal, Run, History, Inv;
    TurnsAre(Run(es), History(es), turn);
  }

  lemma TurnsAre(s: State, f: Fifo, turn: nat)
    requires Inv(s, f) && Waiters(s) != {}
    ensures TurnsInterval(s, turn)
  {
    UsersCount(s, f);
    assert f.queue != [];
    assert f.holder >= 0 ==> At(s, f.holder) == Holding;
    Seen(s, f);
    var d := if f.holder >= 0 then 1 else 0;
    if t :| At(s, t) == Spinning(turn) {
      var i := TurnIsPlace(s, f, t, turn);
      assert turn == After(s.mon.lockingTurn, i + d);
    }
    var low := if f.holder >= 0 || At(s, f.queue[0]) in {Granted, Entering, Resetting} then 1 else 0;
    if i :| low <= i <= |f.queue| - 1 + d && turn == After(s.mon.lockingTurn, i) {
      PlaceHasTurn(s, f, i - d);
      assert At(s, f.queue[i - d]) == Spinning(turn);
    }
  }

  /** Only the first of the queue can be past its spin. */
  lemma Seen(s: State, f: Fifo)
    requires Inv(s, f)
    ensures (exists t :: At(s, t) in {Granted, Entering, Resetting}) <==>
      f.holder == -1 && f.queue != [] && At(s, f.queue[0]) in {Granted, Entering, Resetting}
  {
    if t :| At(s, t) in {Granted, Entering, Resetting} { GranteeIsFirst(s, f, t); }
  }

  lemma PlaceHasTurn(s: State, f: Fifo, i: nat)
    requires Inv(s, f) && i < |f.queue|
    requires f.holder >= 0 || i > 0 || At(s, f.queue[0]) !in {Granted, Entering, Resetting}
    ensures At(s, f.queue[i]) == Spinning(After(s.mon.lockingTurn, if f.holder >= 0 then i + 1 else i))
  {
    assert IsWaiting(At(s, f.queue[i]));
    if f.holder >= 0 { assert After(Bump(s.mon.lockingTurn), i) == After(s.mon.lockingTurn, i + 1); }
  }

  /** No two waiters share a turn. */
  lemma TurnsUnique(es: seq<Event>, t: Thread, u: Thread)
    requires Legal(es) && At(Run(es), t).Spinning? && At(Run(es), u) == At(Run(es), t)
    ensures t == u
  {
    RunRefines(es);
    hide Legal, Run, History, Inv;
    PlacesUnique(Run(es), History(es), t, u);
  }

  lemma PlacesUnique(s: State, f: Fifo, t: Thread, u: Thread)
    requires Inv(s, f) && At(s, t).Spinning? && At(s, u) == At(s, t)
    ensures t == u
  {
    hide TurnsFrom, Agrees;
    var i := TurnIsPlace(s, f, t, At(s, t).turn);
    var j := TurnIsPlace(s, f, u, At(s, t).turn);
  }

  /** Steps the thread a released mutex is meant for still has to take. */
  function Remaining(a: Activity): nat
  {
    match a
    case Spinning(_) => 4
    case Granted => 3
    case Entering => 2
    case Resetting => 1
    case _ => 0
  }

  /** A hand-over completes: each step of the first waiter brings it nearer, and no step of
      another thread sets it back. */
  lemma HandOverAdvances(s: State, f: Fifo, t: Thread, step: Step)
    requires Inv(s, f) && f.holder == -1 && f.queue != [] && Enabled(s, t, step)
    ensures var first := f.queue[0];
      Remaining(At(Take(s, t, step), first)) == Remaining(At(s, first)) - (if t == first then 1 else 0)
  {
    var first := f.queue[0];
    assert IsWaiting(At(s, first));
  }

  // ---------------------------------------------------------------- releasing

  /** How often `t` has waited since it got the mutex, the wait that got it included; 0 if it does not hold it. */
  function WaitsSince(es: seq<Event>, t: Thread): nat
    requires Legal(es)
  {
    if es == [] || At(Run(es), t) != Holding then 0 else
    var k := |es| - 1;
    if At(Run(es[..k]), t) != Holding then 1
    else WaitsSince(es[..k], t) + if es[k] == Event(t, Wait) then 1 else 0
  }

  /** How often it has left since then. */
  function LeavesSince(es: seq<Event>, t: Thread): nat
    requires Legal(es)
  {
    if es == [] || At(Run(es), t) != Holding then 0 else
    var k := |es| - 1;
    if At(Run(es[..k]), t) != Holding then 0
    else LeavesSince(es[..k], t) + if es[k] == Event(t, Leave) then 1 else 0
  }

  /** `recursion` is the waits that came after the first one, less the leaves. */
  lemma {:induction false} RecursionCounts(es: seq<Event>, t: Thread)
    requires Legal(es) && At(Run(es), t) == Holding
    ensures WaitsSince(es, t) >= 1
    ensures Run(es).mon.recursion == WaitsSince(es, t) - 1 - LeavesSince(es, t)
  {
    var k := |es| - 1;
    var s, e := Run(es[..k]), es[k];
    RunRefines(es[..k]);
    if At(s, t) == Holding {
      RecursionCounts(es[..k], t);
      HeldStep(s, History(es[..k]), t, e);
    } else {
      GotStep(s, History(es[..k]), t, e);
    }
  }

  /** One step while `t` holds the mutex and goes on holding it. */
  lemma HeldStep(s: State, f: Fifo, t: Thread, e: Event)
    requires Inv(s, f) && At(s, t) == Holding && Enabled(s, e.t, e.step) && At(Take(s, e.t, e.step), t) == Holding
    ensures Take(s, e.t, e.step).mon.recursion == s.mon.recursion
      + (if e == Event(t, Wait) then 1 else 0) - (if e == Event(t, Leave) then 1 else 0)
  {
    if e.step in {WriteThread, WriteLocked, WriteRecursion} { GranteeIsFirst(s, f, e.t); }
  }

  /** The step with which `t` gets the mutex. */
  lemma GotStep(s: State, f: Fifo, t: Thread, e: Event)
    requires Inv(s, f) && At(s, t) != Holding && Enabled(s, e.t, e.step) && At(Take(s, e.t, e.step), t) == Holding
    ensures Take(s, e.t, e.step).mon.recursion == 0
  {
  }

  /** A thread that has waited `w` times since it got the mutex is outside after its leave number max(1, w - 1), and
      holds the mutex until then. A leave of a thread that does not hold it changes nothing. */
  lemma LeaveReleases(es: seq<Event>, t: Thread)
    requires Legal(es) && Enabled(Run(es), t, Leave)
    ensures var s, s' := Run(es), Take(Run(es), t, Leave);
      && (forall u: Thread :: u != t ==> At(s', u) == At(s, u))
      && (At(s, t) == Holding ==>
            At(s', t) == if LeavesSince(es, t) + 1 >= WaitsSince(es, t) - 1 then Outside else Holding)
      && (At(s, t) != Holding ==> s'.mon == s.mon && At(s', t) == Outside)
  {
    RunRefines(es);
    if At(Run(es), t) == Holding { RecursionCounts(es, t); }
    hide Legal, Run, History, WaitsSince, LeavesSince;
  }

  /** A wait returns at once with the mutex just when nobody holds it or waits, or the thread has it already. */
  lemma WaitReturns(es: seq<Event>, u: Thread)
    requires Legal(es) && Enabled(Run(es), u, Wait)
    ensures At(Take(Run(es), u, Wait), u) == Holding <==> Users(Run(es)) == {} || At(Run(es), u) == Holding
  {
    RunRefines(es);
    UsersCount(Run(es), History(es));
    hide Legal, Run, History, Users, Waiters;
  }

  /** After a release, with nobody waiting, the next wait of any thread gets the mutex. Otherwise the thread that has
      waited longest has been given it, and takes it by steps of its own. */
  lemma ReleaseHandsOver(es: seq<Event>, t: Thread) returns (more: seq<Event>)
    requires Legal(es) && Enabled(Run(es), t, Leave)
    requires At(Run(es), t) == Holding && At(Take(Run(es), t, Leave), t) == Outside
    ensures var s', queue := Take(Run(es), t, Leave), History(es).queue;
      if Waiters(Run(es)) == {} then
        Users(s') == {} && forall u: Thread :: Enabled(s', u, Wait) && At(Take(s', u, Wait), u) == Holding
      else
        && queue != [] && Grantee(s', queue[0]) && Path(s', more) && At(Follow(s', more), queue[0]) == Holding
        && (forall e :: e in more ==> e.t == queue[0])
  {
    RunRefines(es);
    LeaveRefines(Run(es), History(es), t);
    hide Legal, Run, History;
    more := Handed(Run(es), History(es), t);
  }

  lemma Handed(s: State, f: Fifo, t: Thread) returns (more: seq<Event>)
    requires Inv(s, f) && Enabled(s, t, Leave) && At(s, t) == Holding && At(Take(s, t, Leave), t) == Outside
    requires Inv(Take(s, t, Leave), f.(holder := -1))
    ensures var s' := Take(s, t, Leave);
      if Waiters(s) == {} then
        Users(s') == {} && forall u: Thread :: Enabled(s', u, Wait) && At(Take(s', u, Wait), u) == Holding
      else
        && f.queue != [] && Grantee(s', f.queue[0]) && Path(s', more) && At(Follow(s', more), f.queue[0]) == Holding
        && (forall e :: e in more ==> e.t == f.queue[0])
  {
    var s' := Take(s, t, Leave);
    UsersCount(s, f);
    UsersCount(s', f.(holder := -1));
    more := [];
    if Waiters(s) == {} {
      assert f.queue == [];
      NobodyIn(s');
    } else {
      more := GetsIn(s', f.queue[0]);
    }
  }

  lemma NobodyIn(s: State)
    requires |Users(s)| == 0
    ensures forall u: Thread :: At(s, u) == Outside
  {
    forall u: Thread ensures At(s, u) == Outside { assert u !in Users(s); }
  }

  // ------------------------------------------------ more than MAXTURN threads

  /** Steps that can be taken from `s`, however many threads wait. */
  predicate Path(s: State, es: seq<Event>)
    decreases |es|
  {
    es == [] || (Enabled(s, es[0].t, es[0].step) && Path(Take(s, es[0].t, es[0].step), es[1..]))
  }

  function Follow(s: State, es: seq<Event>): State
    requires Path(s, es)
    decreases |es|
  {
    if es == [] then s else Follow(Take(s, es[0].t, es[0].step), es[1..])
  }

  lemma {:induction false} PathJoin(s: State, a: seq<Event>, b: seq<Event>)
    requires Path(s, a) && Path(Follow(s, a), b)
    ensures Path(s, a + b) && Follow(s, a + b) == Follow(Follow(s, a), b)
    decreases |a|
  {
    if a == [] { assert a + b == b; } else {
      assert (a + b)[1..] == a[1..] + b;
      PathJoin(Take(s, a[0].t, a[0].step), a[1..], b);
    }
  }

  /** The next step of a thread on its way into the mutex. */
  function NextStep(a: Activity): Step
  {
    match a
    case Granted => WriteThread
    case Entering => WriteLocked
    case Resetting => WriteRecursion
    case _ => Read
  }

  /** A thread whose turn it is, or that has seen so, gets in by steps of its own, whoever else is in. */
  lemma {:induction false} GetsIn(s: State, t: Thread) returns (es: seq<Event>)
    requires At(s, t) == Holding || At(s, t) == Resetting || Grantee(s, t)
    ensures Path(s, es) && At(Follow(s, es), t) == Holding
    ensures Follow(s, es).mon.lockingTurn == s.mon.lockingTurn && forall e :: e in es ==> e.t == t
    ensures forall u: Thread :: u != t ==> At(Follow(s, es), u) == At(s, u)
    decreases Remaining(At(s, t))
  {
    if At(s, t) == Holding {
      es := [];
    } else {
      var step := NextStep(At(s, t));
      var s' := Take(s, t, step);
      assert forall u: Thread :: u != t ==> At(s', u) == At(s, u);
      var rest := GetsIn(s', t);
      es := [Event(t, step)] + rest;
      assert es[1..] == rest;
    }
  }

  /** One thread too many gets the turn of the thread that holds the mutex, or that it is handed over to, and both
      get in. */
  lemma OverflowBreaks(s: State, f: Fifo, t: Thread) returns (es: seq<Event>, u: Thread)
    requires Inv(s, f) && Enabled(s, t, Wait) && Overflows(s, f, t, Wait)
    ensures u != t && Path(Take(s, t, Wait), es)
    ensures At(Follow(Take(s, t, Wait), es), t) == Holding && At(Follow(Take(s, t, Wait), es), u) == Holding
  {
    var s1 := Take(s, t, Wait);
    assert forall v: Thread :: v != t ==> At(s1, v) == At(s, v);
    assert At(s1, t) == Spinning(s.mon.lockingTurn);
    es := GetsIn(s1, t);
    if f.holder >= 0 {
      u := f.holder;
      assert At(s, u) == Holding;
    } else {
      u := f.queue[0];
      assert IsWaiting(At(s, u)) && At(s, t) == Outside;
      var s2 := Follow(s1, es);
      var more := GetsIn(s2, u);
      PathJoin(s1, es, more);
      es := es + more;
    }
  }

  /** The limit is exact. A step after a legal run either leaves at most MAXTURN threads that hold or wait, and the run
      is legal with it, so that it refines the lock; or it can be followed by steps that make two threads hold. */
  lemma LimitExact(es: seq<Event>, t: Thread, step: Step)
    requires Legal(es) && Enabled(Run(es), t, step)
    ensures |Users(Take(Run(es), t, step))| <= MAXTURN <==> Legal(es + [Event(t, step)])
    ensures |Users(Take(Run(es), t, step))| > MAXTURN ==>
      exists more, u, v :: Path(Take(Run(es), t, step), more) && TwoHold(Follow(Take(Run(es), t, step), more), u, v)
  {
    assert (es + [Event(t, step)])[..|es|] == es;
    RunRefines(es);
    OverflowIs(Run(es), History(es), t, step);
    if |Users(Take(Run(es), t, step))| > MAXTURN {
      var more, u := OverflowBreaks(Run(es), History(es), t);
      assert TwoHold(Follow(Take(Run(es), t, step), more), t, u);
    }
  }

  predicate TwoHold(s: State, t: Thread, u: Thread) { t != u && At(s, t) == Holding && At(s, u) == Holding }

  /** The state in which thread 0 holds the mutex and threads 1 to `n` have taken turns. */
  function Crowd(n: nat): State
  {
    State(Mutex(n, 0, LOCKED, 0, 0), CrowdAt(n))
  }

  function CrowdAt(n: nat): (at: map<Thread, Activity>)
    ensures forall t: Thread :: t in at <==> t <= n
    ensures forall t: Thread :: t in at ==> at[t] == if t == 0 then Holding else Spinning(t)
  {
    if n == 0 then map[0 := Holding] else CrowdAt(n - 1)[n := Spinning(n)]
  }

  function AllWait(n: nat): seq<Event> { seq(n, (i: nat) => Event(i, Wait)) }

  lemma CrowdUsers(n: nat)
    ensures |Users(Crowd(n))| == n + 1
  {
    var q := seq(n + 1, (i: nat) => i);
    assert forall t: Thread :: t in q <==> t <= n by {
      forall t: Thread | t <= n ensures t in q { assert q[t] == t; }
    }
    SeqCount(q, Users(Crowd(n)));
  }

  /** Any number of threads up to MAXTURN can crowd about the mutex. */
  lemma {:induction false} CrowdGathers(n: nat)
    requires n < MAXTURN
    ensures Legal(AllWait(n + 1)) && Run(AllWait(n + 1)) == Crowd(n)
  {
    CrowdUsers(n);
    hide Users, CrowdAt;
    var es := AllWait(n + 1);
    assert es[..n] == AllWait(n);
    if n == 0 {
      CrowdStarts();
    } else {
      CrowdGathers(n - 1);
      CrowdGrows(n);
    }
  }

  lemma CrowdStarts()
    ensures Legal(AllWait(0)) && Run(AllWait(0)) == Init()
    ensures Enabled(Init(), 0, Wait) && Take(Init(), 0, Wait) == Crowd(0)
  {
    assert AllWait(0) == [];
  }

  lemma CrowdGrows(n: nat)
    requires 0 < n < MAXTURN
    ensures Enabled(Crowd(n - 1), n, Wait) && Take(Crowd(n - 1), n, Wait) == Crowd(n)
  {
  }

  /** MAXTURN threads waiting in turn are a legal run; one more enters beside the holder. */
  lemma OneWaiterTooMany()
    ensures Legal(AllWait(MAXTURN)) && |Users(Run(AllWait(MAXTURN)))| == MAXTURN
    ensures var s, es := Run(AllWait(MAXTURN)), BargesIn(MAXTURN);
      Path(s, es) && TwoHold(Follow(s, es), 0, MAXTURN)
  {
    hide Users, CrowdAt, Path, Follow, Legal, Run;
    CrowdGathers(MAXTURN - 1);
    CrowdUsers(MAXTURN - 1);
    CrowdBreaks();
  }

  /** A thread takes a turn, sees it come and takes the mutex. */
  function BargesIn(t: Thread): seq<Event>
  {
    [Event(t, Wait), Event(t, Read), Event(t, WriteThread), Event(t, WriteLocked), Event(t, WriteRecursion)]
  }

  lemma CrowdBreaks()
    ensures var s, es := Crowd(MAXTURN - 1), BargesIn(MAXTURN);
      Path(s, es) && TwoHold(Follow(s, es), 0, MAXTURN)
  {
    hide CrowdAt;
    var s, t, es := Crowd(MAXTURN - 1), MAXTURN, BargesIn(MAXTURN);
    var s1 := Take(s, t, Wait);
    assert At(s1, t) == Spinning(0) && At(s1, 0) == Holding && s1.mon.lockingTurn == 0;
    InFour(s1, t);
    assert es[1..] == BargesIn(t)[1..];
  }

  /** Four steps take a thread whose turn it is into the mutex. */
  lemma InFour(s: State, t: Thread)
    requires At(s, t) == Spinning(s.mon.lockingTurn)
    ensures var es := BargesIn(t)[1..];
      Path(s, es) && At(Follow(s, es), t) == Holding && forall u: Thread :: u != t ==> At(Follow(s, es), u) == At(s, u)
  {
    var s2 := Take(s, t, Read);
    var s3 := Take(s2, t, WriteThread);
    var s4 := Take(s3, t, WriteLocked);
    var s5 := Take(s4, t, WriteRecursion);
    assert forall u: Thread :: u != t ==> At(s5, u) == At(s, u);
    FollowStep(s4, t, WriteRecursion, []);
    FollowStep(s3, t, WriteLocked, [Event(t, WriteRecursion)]);
    FollowStep(s2, t, WriteThread, [Event(t, WriteLocked), Event(t, WriteRecursion)]);
    var rest := [Event(t, WriteThread), Event(t, WriteLocked), Event(t, WriteRecursion)];
    FollowStep(s, t, Read, rest);
    hide Path, Follow, Take;
    assert BargesIn(t)[1..] == [Event(t, Read)] + rest;
    assert rest == [Event(t, WriteThread)] + [Event(t, WriteLocked), Event(t, WriteRecursion)];
    assert [Event(t, WriteLocked)] + [Event(t, WriteRecursion)] == [Event(t, WriteLocked), Event(t, WriteRecursion)];
    assert [Event(t, WriteRecursion)] + [] == [Event(t, WriteRecursion)];
  }

  lemma FollowStep(s: State, t: Thread, step: Step, rest: seq<Event>)
    requires Enabled(s, t, step)
    ensures rest == [] ==> Path(Take(s, t, step), rest) && Follow(Take(s, t, step), rest) == Take(s, t, step)
    ensures Path(Take(s, t, step), rest) ==>
      && Path(s, [Event(t, step)] + rest)
      && Follow(s, [Event(t, step)] + rest) == Follow(Take(s, t, step), rest)
  {
    assert ([Event(t, step)] + rest)[1..] == rest;
  }

  // ------------------------------------------------------------ struct mutex

  /** The mutex itself. Its methods are the blocks and writes above, on the fields. */
  class MutexCell {
    var availableTurn: nat
    var lockingTurn: nat
    var locked: Lock
    var lockingThread: int
    var recursion: int

    ghost function Value(): Mutex
      reads this
    {
      Mutex(availableTurn, lockingTurn, locked, lockingThread, recursion)
    }

    /** `init_mutex`. */
    constructor ()
      ensures Value() == Init().mon
    {
      availableTurn := 0;
      lockingTurn := 0;
      lockingThread := -1;
      locked := UNLOCKED;
      recursion := 0;
    }

    /** `wait_mutex` up to line 72: either it returns with the mutex, or with the turn to spin on. */
    method WaitMutex(currthread: Thread) returns (next: Activity)
      modifies this
      ensures (Value(), next) == WaitBlock(old(Value()), currthread)
    {
      if lockingThread == currthread && locked == LOCKED {
        recursion := recursion + 1;
        return Holding;
      }
      if locked == UNLOCKED {
        lockingThread := currthread;
        locked := LOCKED;
        lockingTurn, availableTurn := 0, 0;
        recursion := 0;
        return Holding;
      }
      availableTurn := availableTurn + 1;
      if availableTurn == MAXTURN { availableTurn := 0; }
      return Spinning(availableTurn);
    }

    /** `leave_mutex`. */
    method LeaveMutex(currthread: Thread) returns (ghost released: bool)
      modifies this
      ensures (Value(), released) == LeaveBlock(old(Value()), currthread)
    {
      if lockingThread != currthread || locked != LOCKED { return false; }
      if lockingThread == currthread && locked == LOCKED && recursion > 1 {
        recursion := recursion - 1;
        return false;
      }
      if availableTurn != lockingTurn {
        lockingTurn := lockingTurn + 1;
        if lockingTurn == MAXTURN { lockingTurn := 0; }
        locked := WAITING;
        recursion := 0;
        return true;
      }
      lockingTurn, availableTurn := 0, 0;
      locked := UNLOCKED;
      lockingThread := -1;
      recursion := 0;
      return true;
    }
  }
}
