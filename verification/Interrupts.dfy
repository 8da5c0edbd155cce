/**
 The interrupt stack of sartoris/mk/interrupt.c: the handler records, the interrupt each thread is
 handling, and the stack of nested interrupts threaded through the `prev` fields.
 */
module Interrupts {
  import opened Sequences

  /** `struct int_handler`; `thr` is -1 when there is no handler. */
  datatype Handler = Handler(thr: int, nesting: bool, active: bool, prev: int)

  /** `handling` has the existing threads; a thread outside interrupts handles number 64. */
  datatype State = State(handlers: seq<Handler>, handling: map<int, int>,
                         first: int, count: int, firstThread: int, curr: int)

  /** What may happen to the state. */
  datatype Event =
    | NewThread(thread: int)
    | Install(number: int, thread: int, nesting: bool)
    | Uninstall(number: int, thread: int)
    | Interrupt(number: int)
    | Return
    | Switch(thread: int, allowed: bool, started: bool)
    | SoftInterrupt(thread: int, allowed: bool, started: bool)

  /** Numbers and threads are in range. */
  ghost predicate Shape(s: State)
  {
    && |s.handlers| == 64 && s.curr in s.handling && -1 <= s.first < 64
    && (forall t :: t in s.handling ==> t >= 0 && 0 <= s.handling[t] <= 64)
    && (forall k :: 0 <= k < 64 ==> -1 <= s.handlers[k].prev < 64)
    && (forall k :: 0 <= k < 64 ==> s.handlers[k].thr == -1 || s.handlers[k].thr in s.handling)
    && (s.firstThread == -1 || s.firstThread in s.handling)
  }

  // --------------------------------------------------------------- the steps

  /** The condition of line 181: the interrupt reaches its thread. */
  ghost predicate Accepts(s: State, n: int)
    requires Shape(s) && 0 <= n < 64
  {
    var h := s.handlers[n].thr;
    h != -1 && h != s.curr && s.handling[h] == 64 && !s.handlers[n].active
  }

  /** A thread inside a non-nesting interrupt leaves it (lines 205-210). */
  ghost function LeaveNonNesting(s: State): State
    requires Shape(s)
  {
    var k := s.handling[s.curr];
    if k != 64 && !s.handlers[k].nesting then
      s.(handling := s.handling[s.curr := 64], handlers := s.handlers[k := s.handlers[k].(active := false)])
    else s
  }

  /** A nesting interrupt goes on top of the stack (lines 189-194). */
  ghost function Push(s: State, n: int): State
    requires Shape(s) && 0 <= n < 64
  {
    s.(firstThread := if s.count == 0 then s.curr else s.firstThread, count := s.count + 1, first := n,
       handlers := s.handlers[n := s.handlers[n].(prev := s.first)])
  }

  /** The thread of an interrupt takes over (lines 199-217). */
  ghost function Enter(s: State, n: int): State
    requires Shape(s) && 0 <= n < 64 && s.handlers[n].thr in s.handling
  {
    var h := s.handlers[n].thr;
    var s' := LeaveNonNesting(s.(handling := s.handling[h := n]));
    s'.(curr := h, handlers := s'.handlers[n := s'.handlers[n].(active := true)])
  }

  ghost function HandleInt(s: State, n: int): State
    requires Shape(s) && 0 <= n < 64
  {
    if !Accepts(s, n) || (s.handlers[n].nesting && s.count == 64) then s
    else Enter(if s.handlers[n].nesting then Push(s, n) else s, n)
  }

  /** The condition of line 264, once past that of line 258. */
  ghost predicate Returns(s: State)
    requires Shape(s)
  {
    s.handling[s.curr] != 64 && s.count > 0 && s.handling[s.curr] == s.first
  }

  ghost function RetFromInt(s: State): State
    requires Shape(s)
  {
    if !Returns(s) then s else
    var next := s.handlers[s.first].prev;
    var s1 := s.(count := s.count - 1, first := next,
                 handlers := s.handlers[s.first := s.handlers[s.first].(active := false)]);
    if next == -1 then s1.(handling := s.handling[s.curr := 64], curr := s.firstThread, firstThread := -1)
    else
      s1.(handling := s.handling[s.curr := if s.curr != s.handlers[next].thr then 64 else next],
          curr := s.handlers[next].thr)
  }

  /** `run_thread`: `allowed` is the permission and mode tests, `started` what `arch_run_thread` says. */
  ghost function RunThread(s: State, id: int, allowed: bool, started: bool): State
    requires Shape(s)
  {
    var k := s.handling[s.curr];
    if k != 64 && s.handlers[k].nesting then s
    else if id in s.handling && s.handling[id] == 64 && allowed && id != s.curr then
      var s1 := LeaveNonNesting(s);
      s1.(curr := if started then id else s.curr)
    else s
  }

  /** `run_thread_int`: the thread runs whatever interrupts are being handled, and those stay so. */
  ghost function RunThreadInt(s: State, id: int, allowed: bool, started: bool): State
    requires Shape(s)
  {
    if id in s.handling && allowed && started then s.(curr := id) else s
  }

  ghost function Step(s: State, e: Event): State
    requires Shape(s)
  {
    match e
    case NewThread(t) => if 0 <= t && t !in s.handling then s.(handling := s.handling[t := 64]) else s
    case Install(n, t, nesting) =>
      if 0 <= n < 64 && t in s.handling && s.handlers[n].thr == -1 then
        s.(handlers := s.handlers[n := Handler(t, nesting, false, s.handlers[n].prev)])
      else s
    case Uninstall(n, t) =>
      if 0 <= n < 64 && s.handlers[n].thr == t && !s.handlers[n].active then
        s.(handlers := s.handlers[n := Handler(-1, false, false, s.handlers[n].prev)])
      else s
    case Interrupt(n) => if 0 <= n < 64 then HandleInt(s, n) else s
    case Return => RetFromInt(s)
    case Switch(t, allowed, started) => RunThread(s, t, allowed, started)
    case SoftInterrupt(t, allowed, started) => RunThreadInt(s, t, allowed, started)
  }

  // ----------------------------------------------------------- the invariant

  /** Following `prev` from `p` visits the interrupts of `c`, in that order, and ends in -1. */
  ghost predicate Chain(h: seq<Handler>, p: int, c: seq<int>)
    decreases c
  {
    if c == [] then p == -1 else p == c[0] && 0 <= p < |h| && Chain(h, h[p].prev, c[1..])
  }

  /** No thread is the handler of two interrupts. */
  ghost predicate OneEach(h: seq<Handler>)
  {
    forall j, k :: 0 <= j < k < |h| && h[j].thr != -1 ==> h[j].thr != h[k].thr
  }

  /** `handling` and the active flags say the same. */
  ghost predicate Agree(s: State)
    requires Shape(s)
  {
    && (forall t :: t in s.handling && s.handling[t] != 64 ==>
          s.handlers[s.handling[t]].thr == t && s.handlers[s.handling[t]].active)
    && (forall k :: 0 <= k < 64 && s.handlers[k].active ==>
          s.handlers[k].thr != -1 && s.handling[s.handlers[k].thr] == k)
  }

  /** `c` is the stack: the active nesting interrupts. */
  ghost predicate Stacked(s: State, c: seq<int>)
    requires Shape(s)
  {
    && Chain(s.handlers, s.first, c) && |c| == s.count && Distinct(c)
    && (forall k :: k in c ==> 0 <= k < 64 && s.handlers[k].active && s.handlers[k].nesting)
    && (forall k :: 0 <= k < 64 && s.handlers[k].active && s.handlers[k].nesting ==> k in c)
    && (s.firstThread == -1 <==> s.count == 0)
  }

  ghost predicate Inv(s: State, c: seq<int>)
  {
    Shape(s) && OneEach(s.handlers) && Agree(s) && Stacked(s, c)
  }

  lemma {:induction false} ChainFrame(h: seq<Handler>, h': seq<Handler>, p: int, c: seq<int>)
    requires Chain(h, p, c) && |h'| == |h|
    requires forall k :: k in c && 0 <= k < |h| ==> h'[k].prev == h[k].prev
    ensures Chain(h', p, c)
    decreases c
  {
    if c != [] { ChainFrame(h, h', h[p].prev, c[1..]); }
  }

  /** The stack never fills up, so line 187 is never taken. */
  lemma RoomOnStack(s: State, c: seq<int>, n: int)
    requires Inv(s, c) && 0 <= n < 64 && Accepts(s, n)
    ensures s.count < 64
  {
    DistinctLength(c, 64);
  }

  /** The condition of line 224 never holds after that of line 181 failed. */
  lemma SecondBranchDead(s: State, c: seq<int>, n: int)
    requires Inv(s, c) && 0 <= n < 64 && s.handlers[n].thr != -1 && !Accepts(s, n)
    ensures !(s.handlers[n].thr != s.curr && !s.handlers[n].active && s.handlers[n].nesting)
  {
    var k := s.handling[s.handlers[n].thr];
    if k != 64 && k != n {
      assert s.handlers[k].thr == s.handlers[n].thr;
    }
  }

  // -------------------------------------------------- every step keeps it

  /** Leaving a non-nesting interrupt changes nothing else. */
  lemma LeaveKeeps(s: State, c: seq<int>)
    requires Inv(s, c)
    ensures var s' := LeaveNonNesting(s);
      && Inv(s', c) && s' == s.(handling := s'.handling, handlers := s'.handlers)
      && (forall k :: 0 <= k < 64 ==> s'.handlers[k] == s.handlers[k].(active := s'.handlers[k].active))
      && (forall k :: 0 <= k < 64 && !s.handlers[k].active ==> !s'.handlers[k].active)
      && s'.handling.Keys == s.handling.Keys
      && forall t :: t in s.handling && t != s.curr ==> s'.handling[t] == s.handling[t]
  {
    var s' := LeaveNonNesting(s);
    ChainFrame(s.handlers, s'.handlers, s.first, c);
    hide Chain;
  }

  /** A thread that handles nothing takes up an interrupt of its own. */
  ghost function Activate(s: State, n: int): State
    requires Shape(s) && 0 <= n < 64 && s.handlers[n].thr in s.handling
  {
    s.(handling := s.handling[s.handlers[n].thr := n], curr := s.handlers[n].thr,
       handlers := s.handlers[n := s.handlers[n].(active := true)])
  }

  lemma ActivateKeeps(s: State, c: seq<int>, n: int)
    requires Inv(s, c) && 0 <= n < 64 && Accepts(s, n)
    ensures !s.handlers[n].nesting ==> Inv(Activate(s, n), c)
    ensures s.handlers[n].nesting ==> Inv(Activate(Push(s, n), n), [n] + c)
  {
    if s.handlers[n].nesting {
      PushStacked(s, c, n);
      PushAgrees(s, n);
      hide Stacked, Agree, OneEach, Activate, Push;
    } else {
      assert n !in c;
      ChainFrame(s.handlers, Activate(s, n).handlers, s.first, c);
      hide Chain;
    }
  }

  lemma PushAgrees(s: State, n: int)
    requires Shape(s) && Agree(s) && OneEach(s.handlers) && 0 <= n < 64 && Accepts(s, n)
    ensures var s' := Activate(Push(s, n), n); Shape(s') && Agree(s') && OneEach(s'.handlers)
  {
    var s' := Activate(Push(s, n), n);
    forall k | 0 <= k < 64 && k != n
      ensures s'.handlers[k] == s.handlers[k] && s.handlers[k].thr != s.handlers[n].thr {}
  }

  lemma PushStacked(s: State, c: seq<int>, n: int)
    requires Shape(s) && Stacked(s, c) && 0 <= n < 64 && Accepts(s, n) && s.handlers[n].nesting
    ensures var s' := Activate(Push(s, n), n); Shape(s') && Stacked(s', [n] + c)
  {
    assert n !in c;
    var s' := Activate(Push(s, n), n);
    ChainFrame(s.handlers, s'.handlers, s.first, c);
    assert ([n] + c)[1..] == c;
    assert Chain(s'.handlers, n, [n] + c);
    hide Chain;
    assert forall k :: k in [n] + c <==> k == n || k in c;
  }

  /** The order in which `handle_int` writes does not matter. */
  lemma HandleIs(s: State, c: seq<int>, n: int)
    requires Inv(s, c) && 0 <= n < 64 && Accepts(s, n)
    ensures var s0 := LeaveNonNesting(s);
      Shape(s0) && s0.handlers[n].thr in s0.handling
      && HandleInt(s, n) == if s.handlers[n].nesting then Activate(Push(s0, n), n) else Activate(s0, n)
  {
    hide Chain;
    RoomOnStack(s, c, n);
    LeaveKeeps(s, c);
    assert s.handling[s.curr] != n;
    hide Inv, Activate, Push;
    if s.handlers[n].nesting { HandleNests(s, n); } else { HandleOnce(s, n); }
  }

  lemma HandleNests(s: State, n: int)
    requires Shape(s) && 0 <= n < 64 && Accepts(s, n) && s.handlers[n].nesting && s.count < 64
    requires s.handling[s.curr] != n && Shape(LeaveNonNesting(s))
    ensures HandleInt(s, n) == Activate(Push(LeaveNonNesting(s), n), n)
  {
    var s0, s1, h := LeaveNonNesting(s), Push(s, n), s.handlers[n].thr;
    var s2 := LeaveNonNesting(s1.(handling := s1.handling[h := n]));
    assert s2.handling == s0.handling[h := n];
    assert s2.handlers == s0.handlers[n := s0.handlers[n].(prev := s.first)];
  }

  lemma HandleOnce(s: State, n: int)
    requires Shape(s) && 0 <= n < 64 && Accepts(s, n) && !s.handlers[n].nesting
    requires s.handling[s.curr] != n && Shape(LeaveNonNesting(s))
    ensures HandleInt(s, n) == Activate(LeaveNonNesting(s), n)
  {
    var s0, h := LeaveNonNesting(s), s.handlers[n].thr;
    var s2 := LeaveNonNesting(s.(handling := s.handling[h := n]));
    assert s2.handling == s0.handling[h := n];
    assert s2.handlers == s0.handlers;
  }

  lemma HandleKeeps(s: State, c: seq<int>, n: int)
    requires Inv(s, c) && 0 <= n < 64
    ensures Inv(HandleInt(s, n), if Accepts(s, n) && s.handlers[n].nesting then [n] + c else c)
  {
    if Accepts(s, n) {
      HandleIs(s, c, n);
      LeaveKeeps(s, c);
      hide HandleInt, Chain, OneEach, Agree, Stacked;
      ActivateKeeps(LeaveNonNesting(s), c, n);
    }
  }

  lemma ReturnKeeps(s: State, c: seq<int>)
    requires Inv(s, c) && Returns(s)
    ensures c != [] && s.first == c[0] && s.handlers[s.first].prev == Head(c[1..], -1)
    ensures Inv(RetFromInt(s), c[1..])
  {
    var n, c', s' := c[0], c[1..], RetFromInt(s);
    assert c == [n] + c' && n in c;
    ChainFrame(s.handlers, s'.handlers, s.handlers[n].prev, c');
    if c' != [] { assert c'[0] in c; }
    hide Chain;
    ReturnAgrees(s);
    hide Agree, OneEach;
    assert forall k :: k in c <==> k == n || k in c';
    assert n !in c' && Distinct(c');
    hide Distinct;
  }

  lemma ReturnAgrees(s: State)
    requires Shape(s) && Agree(s) && OneEach(s.handlers) && Returns(s)
    requires s.handlers[s.first].prev == -1 ==> s.firstThread != -1
    requires s.handlers[s.first].prev != -1 ==> s.handlers[s.handlers[s.first].prev].thr != -1
    requires s.handlers[s.first].prev != s.first
    ensures var s' := RetFromInt(s); Shape(s') && Agree(s') && OneEach(s'.handlers)
  {
  }

  lemma SwitchKeeps(s: State, c: seq<int>, id: int, allowed: bool, started: bool)
    requires Inv(s, c)
    ensures Inv(RunThread(s, id, allowed, started), c)
  {
    LeaveKeeps(s, c);
    hide Chain, OneEach, Distinct;
  }

  lemma InstallKeeps(s: State, c: seq<int>, n: int, x: Handler)
    requires Inv(s, c) && 0 <= n < 64 && !s.handlers[n].active && !x.active && x.prev == s.handlers[n].prev
    requires x.thr == -1 || (x.thr in s.handling && forall k :: 0 <= k < 64 ==> s.handlers[k].thr != x.thr)
    ensures Inv(s.(handlers := s.handlers[n := x]), c)
  {
    ChainFrame(s.handlers, s.handlers[n := x], s.first, c);
    hide Chain, Distinct;
  }

  /** An event that makes no thread the handler of a second interrupt. */
  ghost predicate Single(s: State, e: Event)
  {
    e.Install? ==> forall k :: 0 <= k < |s.handlers| ==> s.handlers[k].thr != e.thread
  }

  lemma StepKeeps(s: State, c: seq<int>, e: Event) returns (c': seq<int>)
    requires Inv(s, c) && Single(s, e)
    ensures Inv(Step(s, e), c')
  {
    c' := c;
    match e
    case NewThread(t) =>
      hide Chain, Distinct;
    case Install(n, t, nesting) =>
      if 0 <= n < 64 && t in s.handling && s.handlers[n].thr == -1 {
        assert !s.handlers[n].active;
        InstallKeeps(s, c, n, Handler(t, nesting, false, s.handlers[n].prev));
      }
    case Uninstall(n, t) =>
      if 0 <= n < 64 && s.handlers[n].thr == t && !s.handlers[n].active {
        InstallKeeps(s, c, n, Handler(-1, false, false, s.handlers[n].prev));
      }
    case Interrupt(n) =>
      if 0 <= n < 64 {
        HandleKeeps(s, c, n);
        if Accepts(s, n) && s.handlers[n].nesting { c' := [n] + c; }
      }
    case Return =>
      if Returns(s) {
        ReturnKeeps(s, c);
        c' := c[1..];
      }
    case Switch(t, allowed, started) =>
      SwitchKeeps(s, c, t, allowed, started);
    case SoftInterrupt(t, allowed, started) =>
      hide Chain, Distinct;
  }

  /** The kernel before its first event: no handlers, and no thread in an interrupt. */
  ghost predicate Boot(s: State)
  {
    && Shape(s) && s.first == -1 && s.count == 0 && s.firstThread == -1
    && (forall k :: 0 <= k < 64 ==> s.handlers[k] == Handler(-1, false, false, -1))
    && (forall t :: t in s.handling ==> s.handling[t] == 64)
  }

  ghost function Next(s: State, e: Event): State { if Shape(s) then Step(s, e) else s }

  /** The events of `es`, in order, take `s` to `s'`, each thread having one interrupt at most to handle. */
  ghost predicate Reaches(s: State, es: seq<Event>, s': State)
    decreases es
  {
    if es == [] then s' == s else Single(s, es[0]) && Reaches(Next(s, es[0]), es[1..], s')
  }

  lemma {:induction false} RunKeeps(s: State, c: seq<int>, es: seq<Event>, s': State) returns (c': seq<int>)
    requires Inv(s, c) && Reaches(s, es, s')
    ensures Inv(s', c')
    decreases es
  {
    if es == [] { c' := c; } else {
      var c1 := StepKeeps(s, c, es[0]);
      hide Inv, Step;
      c' := RunKeeps(Next(s, es[0]), c1, es[1..], s');
    }
  }

  /** In every run from boot the `prev` chain has `int_stack_count` distinct entries, each active, nesting and
      the one its thread is handling; they are all the active nesting interrupts. */
  lemma StackSound(s0: State, es: seq<Event>, s: State) returns (c: seq<int>)
    requires Boot(s0) && Reaches(s0, es, s)
    ensures Shape(s) && Chain(s.handlers, s.first, c) && |c| == s.count <= 64 && Distinct(c)
    ensures forall k :: 0 <= k < 64 ==>
      (k in c <==> s.handlers[k].active && s.handlers[k].nesting)
      && (s.handlers[k].active <==> s.handlers[k].thr in s.handling && s.handling[s.handlers[k].thr] == k)
    ensures forall t :: t in s.handling && s.handling[t] != 64 ==> s.handlers[s.handling[t]].thr == t
    ensures forall n :: 0 <= n < 64 && Accepts(s, n) ==> s.count < 64
  {
    c := RunFromBoot(s0, es, s);
    hide Chain;
    DistinctLength(c, 64);
    forall n | 0 <= n < 64 && Accepts(s, n) ensures s.count < 64 { RoomOnStack(s, c, n); }
  }

  // ---------------------------------------------------------------- delivery

  /** The interrupt that the current thread is in, if it is one that does not nest; 64 otherwise. */
  function Loose(s: State): int
    requires Shape(s)
  {
    var k := s.handling[s.curr];
    if k != 64 && !s.handlers[k].nesting then k else 64
  }

  /** The current thread has left such an interrupt, if it was in one, and no other thread any. */
  ghost predicate LeftLoose(s: State, s': State, t: int)
    requires Shape(s)
  {
    && s'.handling.Keys == s.handling.Keys
    && (forall u :: u in s.handling && u != t ==>
          s'.handling[u] == if u == s.curr && Loose(s) != 64 then 64 else s.handling[u])
  }

  /** What an interrupt does. A thread other than the current one that handles nothing gets it, whether it nests or
      not: the thread runs, and is handling the interrupt, which is active. A nesting one goes on top of the stack.
      The current thread leaves an interrupt that does not nest. In every other case nothing changes. */
  ghost predicate Delivered(s: State, n: int, s': State)
    requires Shape(s)
  {
    if 0 <= n < 64 && s.handlers[n].thr in s.handling && s.handlers[n].thr != s.curr
       && s.handling[s.handlers[n].thr] == 64
    then
      var t, nests := s.handlers[n].thr, s.handlers[n].nesting;
      && s'.curr == t && t in s'.handling && s'.handling[t] == n && LeftLoose(s, s', t)
      && |s'.handlers| == 64
      && (forall k :: 0 <= k < 64 ==>
            && s'.handlers[k].thr == s.handlers[k].thr && s'.handlers[k].nesting == s.handlers[k].nesting
            && s'.handlers[k].active == (k == n || (s.handlers[k].active && k != Loose(s)))
            && s'.handlers[k].prev == if k == n && nests then s.first else s.handlers[k].prev)
      && s'.first == (if nests then n else s.first) && s'.count == s.count + (if nests then 1 else 0)
      && s'.firstThread == if nests && s.count == 0 then s.curr else s.firstThread
    else s' == s
  }

  /** So in every state reached from boot. */
  lemma InterruptsDelivered(s0: State, es: seq<Event>, s: State, n: int)
    requires Boot(s0) && Reaches(s0, es, s)
    ensures Shape(s) && Delivered(s, n, Next(s, Interrupt(n)))
  {
    var c := RunFromBoot(s0, es, s);
    if 0 <= n < 64 {
      hide Reaches, Boot, Inv;
      Delivers(s, c, n);
    } else {
      hide Reaches, Boot;
    }
  }

  lemma RunFromBoot(s0: State, es: seq<Event>, s: State) returns (c: seq<int>)
    requires Boot(s0) && Reaches(s0, es, s)
    ensures Inv(s, c)
  {
    assert Chain(s0.handlers, -1, []);
    c := RunKeeps(s0, [], es, s);
  }

  lemma Delivers(s: State, c: seq<int>, n: int)
    requires Inv(s, c) && 0 <= n < 64
    ensures Shape(s) && Step(s, Interrupt(n)) == HandleInt(s, n) && Delivered(s, n, HandleInt(s, n))
  {
    hide Chain, Distinct;
    if Accepts(s, n) {
      HandleIs(s, c, n);
      LeaveKeeps(s, c);
      hide OneEach, HandleInt;
    }
  }

  /** What `run_thread` does, in every such state. From inside a nesting interrupt, nothing. Otherwise a thread that is
      allowed to run, other than the current one and handling nothing, runs if it starts; the current thread leaves an
      interrupt that does not nest in any case. The stack does not change. */
  lemma SwitchRuns(s0: State, es: seq<Event>, s: State, id: int, allowed: bool, started: bool)
    requires Boot(s0) && Reaches(s0, es, s)
    ensures Shape(s)
    ensures var s' := Next(s, Switch(id, allowed, started));
      if allowed && id in s.handling && id != s.curr && s.handling[id] == 64 && s.handling[s.curr] == Loose(s) then
        && s'.curr == (if started then id else s.curr) && LeftLoose(s, s', -1)
        && s'.first == s.first && s'.count == s.count && s'.firstThread == s.firstThread
        && |s'.handlers| == 64
        && forall k :: 0 <= k < 64 ==>
             s'.handlers[k] == s.handlers[k].(active := s.handlers[k].active && k != Loose(s))
      else s' == s
  {
    var c := RunFromBoot(s0, es, s);
    hide Reaches, Boot, Chain, Distinct, OneEach;
  }

  /** What a return does, in every such state. The thread of the interrupt on top of the stack is done with it, and the
      processor goes to the thread of the one below, or to the thread that was there before the first. From any other
      thread nothing changes. */
  lemma ReturnResumes(s0: State, es: seq<Event>, s: State)
    requires Boot(s0) && Reaches(s0, es, s)
    ensures Shape(s)
    ensures var s' := Next(s, Return);
      if s.count > 0 && s.handling[s.curr] == s.first then
        var below := s.handlers[s.first].prev;
        && s'.handling == s.handling[s.curr := 64] && s'.first == below && s'.count == s.count - 1
        && s'.handlers == s.handlers[s.first := s.handlers[s.first].(active := false)]
        && (if s.count == 1 then s'.curr == s.firstThread else 0 <= below < 64 && s'.curr == s.handlers[below].thr)
        && s'.firstThread == if s.count == 1 then -1 else s.firstThread
      else s' == s
  {
    var c := RunFromBoot(s0, es, s);
    hide Reaches, Boot;
    if Returns(s) {
      ReturnKeeps(s, c);
      if |c| > 1 { assert c[1] in c; }
    }
    hide Chain;
  }

  /** A new thread that is made the handler of a free interrupt is the one that the interrupt runs; it cannot be removed
      then. Before that it can, and the interrupt is lost. */
  lemma HandlerServes(s0: State, es: seq<Event>, s: State, n: int, t: int, nesting: bool)
    requires Boot(s0) && Reaches(s0, es, s)
    requires Shape(s) && 0 <= n < 64 && s.handlers[n].thr == -1 && 0 <= t && t !in s.handling
    ensures var s1 := Next(Next(s, NewThread(t)), Install(n, t, nesting));
      && (var s2 := Next(s1, Interrupt(n));
          s2.curr == t && t in s2.handling && s2.handling[t] == n && Next(s2, Uninstall(n, t)) == s2)
      && (var s3 := Next(s1, Uninstall(n, t));
          Next(s3, Interrupt(n)) == s3 && s3.curr == s.curr && s3.handling == s.handling[t := 64])
  {
    var c := RunFromBoot(s0, es, s);
    hide Reaches, Boot;
    var sa := Next(s, NewThread(t));
    var c1 := StepKeeps(s, c, NewThread(t));
    var c2 := StepKeeps(sa, c1, Install(n, t, nesting));
    hide Chain, Distinct;
    var s1 := Next(sa, Install(n, t, nesting));
    Delivers(s1, c2, n);
  }

  // ---------------------------------------------------------- bracketed runs

  /** Nesting interrupts and their returns, properly bracketed. */
  datatype Trace = Quiet | Nest(number: int, inner: Trace, rest: Trace)

  ghost function Exec(s: State, t: Trace): State
    decreases t
  {
    match t
    case Quiet => s
    case Nest(n, inner, rest) => Exec(Next(Exec(Next(s, Interrupt(n)), inner), Return), rest)
  }

  /** Every interrupt of the trace is accepted when it comes. */
  ghost predicate Accepted(s: State, t: Trace)
    decreases t
  {
    match t
    case Quiet => true
    case Nest(n, inner, rest) =>
      && Shape(s) && 0 <= n < 64 && Accepts(s, n) && s.handlers[n].nesting
      && Accepted(Next(s, Interrupt(n)), inner)
      && Accepted(Next(Exec(Next(s, Interrupt(n)), inner), Return), rest)
  }

  /** The current thread is the one on top of the stack, or there is no stack and it is in no interrupt. */
  ghost predicate Settled(s: State)
    requires Shape(s)
  {
    s.handling[s.curr] == if s.first == -1 then 64 else s.first
  }

  /** The same current thread, stack, and interrupt of every thread. */
  ghost predicate Restored(s: State, s': State, c: seq<int>)
  {
    && s'.curr == s.curr && s'.handling == s.handling && Inv(s, c) && Inv(s', c)
    && s'.first == s.first && s'.count == s.count && s'.firstThread == s.firstThread
    && forall k :: 0 <= k < 64 ==> s'.handlers[k] == s.handlers[k].(prev := s'.handlers[k].prev)
  }

  lemma RestoredTrans(s: State, s1: State, s2: State, c: seq<int>)
    requires Restored(s, s1, c) && Restored(s1, s2, c)
    ensures Restored(s, s2, c)
  {
    hide Inv;
  }

  /** What an accepted nesting interrupt leaves. */
  lemma PushGives(s: State, c: seq<int>, n: int)
    requires Inv(s, c) && 0 <= n < 64 && Accepts(s, n) && s.handlers[n].nesting
    ensures var s0, s1 := LeaveNonNesting(s), HandleInt(s, n);
      && Inv(s0, c) && Inv(s1, [n] + c) && Settled(s1) && s1.first == n && s1.curr == s.handlers[n].thr
      && s0.handlers[n] == s.handlers[n] && s1 == Activate(Push(s0, n), n) && s0.curr == s.curr
  {
    HandleIs(s, c, n);
    LeaveKeeps(s, c);
    HandleKeeps(s, c, n);
  }

  lemma RestoredBack(s: State, s': State, c: seq<int>)
    requires Restored(s, s', c)
    ensures Restored(s', s, c)
  {
    hide Inv;
  }

  /** What the return from it leaves, if nothing else has changed in between. */
  lemma BracketGives(s: State, c: seq<int>, n: int, s2: State)
    requires Inv(s, c) && 0 <= n < 64 && Accepts(s, n) && s.handlers[n].nesting
    requires Restored(HandleInt(s, n), s2, [n] + c)
    ensures var s0, s3 := LeaveNonNesting(s), RetFromInt(s2);
      && Inv(s0, c) && Inv(s3, c) && s3.handling == s0.handling
      && s3.first == s.first && s3.count == s.count && s3.firstThread == s.firstThread
      && s3.curr == (if c == [] then s.curr else s.handlers[c[0]].thr)
      && (forall k :: 0 <= k < 64 ==> s3.handlers[k] == s0.handlers[k].(prev := s3.handlers[k].prev))
  {
    hide Chain, Distinct, OneEach, HandleInt, LeaveNonNesting;
    PushGives(s, c, n);
    assert ([n] + c)[1..] == c;
    ReturnKeeps(s2, [n] + c);
    LeaveKeeps(s, c);
    StackTop(s, c);
    hide Agree, Stacked;
    var s0, s3, h := LeaveNonNesting(s), RetFromInt(s2), s.handlers[n].thr;
    assert s0.handling[h] == 64;
    assert s2.handling == s0.handling[h := n];
    assert s3.handling == s0.handling;
  }

  lemma StackTop(s: State, c: seq<int>)
    requires Inv(s, c)
    ensures s.first == Head(c, -1) && (c == [] <==> s.count == 0) && (s.count == 0 <==> s.firstThread == -1)
    ensures c != [] ==> c[0] in c && 0 <= c[0] < 64 && s.handlers[c[0]].active && s.handlers[c[0]].nesting
    ensures c != [] ==> s.handlers[c[0]].thr in s.handling && s.handling[s.handlers[c[0]].thr] == c[0]
  {
    if c != [] { assert c[0] in c; }
  }

  lemma BracketRestores(s: State, c: seq<int>, n: int, s2: State)
    requires Inv(s, c) && 0 <= n < 64 && Accepts(s, n) && s.handlers[n].nesting
    requires Restored(HandleInt(s, n), s2, [n] + c)
    ensures var s3 := RetFromInt(s2);
      Inv(s3, c) && Settled(s3) && (Restored(s, s3, c) <==> Settled(s))
  {
    BracketGives(s, c, n, s2);
    LeaveKeeps(s, c);
    assert s.first == Head(c, -1);
    if c != [] { assert c[0] in c; }
    hide Chain, Distinct, OneEach, HandleInt, RetFromInt;
  }

  /** A bracketed run of accepted nesting interrupts leaves things as they were just when it starts settled. */
  lemma {:induction false} BracketedRestores(s: State, c: seq<int>, t: Trace)
    requires Inv(s, c) && Accepted(s, t)
    ensures Inv(Exec(s, t), c)
    ensures Settled(s) ==> Restored(s, Exec(s, t), c)
    ensures t != Quiet && Restored(s, Exec(s, t), c) ==> Settled(s)
    decreases t
  {
    match t
    case Quiet =>
    case Nest(n, inner, rest) =>
      var s1 := Next(s, Interrupt(n));
      PushGives(s, c, n);
      var s2 := Exec(s1, inner);
      BracketedRestores(s1, [n] + c, inner);
      var s3 := Next(s2, Return);
      BracketRestores(s, c, n, s2);
      var s4 := Exec(s3, rest);
      BracketedRestores(s3, c, rest);
      hide Inv, Restored;
      if Settled(s) { RestoredTrans(s, s3, s4, c); }
      if Restored(s, s4, c) {
        RestoredBack(s3, s4, c);
        RestoredTrans(s, s4, s3, c);
      }
  }

  // ---------------------------------------------------------------- a detour

  const NO_HANDLER := Handler(-1, false, false, -1)

  /** Records with handlers for numbers 1, 2 and 3 at most. */
  function Table(a: Handler, b: Handler, c: Handler): (t: seq<Handler>)
    ensures |t| == 64 && t[1] == a && t[2] == b && t[3] == c
    ensures forall k :: 0 <= k < 64 && !(1 <= k <= 3) ==> t[k] == NO_HANDLER
  {
    seq(64, i => if i == 1 then a else if i == 2 then b else if i == 3 then c else NO_HANDLER)
  }

  lemma TableSet(a: Handler, b: Handler, c: Handler, x: Handler)
    ensures Table(a, b, c)[1 := x] == Table(x, b, c)
    ensures Table(a, b, c)[2 := x] == Table(a, x, c)
    ensures Table(a, b, c)[3 := x] == Table(a, b, x)
  {
  }

  function Threads(a: int, b: int, c: int): map<int, int> { map[0 := 64, 1 := a, 2 := b, 3 := c] }

  function Installs(): seq<Event> { [Install(1, 1, true), Install(2, 2, false), Install(3, 3, true)] }

  /** Threads 1, 2 and 3 handle the interrupts of their numbers, of which 2 does not nest. */
  function Installed(): State
  {
    State(Table(Handler(1, true, false, -1), Handler(2, false, false, -1), Handler(3, true, false, -1)),
          Threads(64, 64, 64), -1, 0, -1, 0)
  }

  /** Thread 0 runs while interrupt 1 is on the stack. */
  function Detoured(): State
  {
    State(Table(Handler(1, true, true, -1), Handler(2, false, false, -1), Handler(3, true, false, -1)),
          Threads(1, 64, 64), 1, 1, 0, 0)
  }

  lemma DetourInstalls()
    ensures var s0 := State(Table(NO_HANDLER, NO_HANDLER, NO_HANDLER), Threads(64, 64, 64), -1, 0, -1, 0);
      Boot(s0) && forall es, s :: Reaches(Installed(), es, s) ==> Reaches(s0, Installs() + es, s)
  {
    var a, b, c := Handler(1, true, false, -1), Handler(2, false, false, -1), Handler(3, true, false, -1);
    var th := Threads(64, 64, 64);
    var s0 := State(Table(NO_HANDLER, NO_HANDLER, NO_HANDLER), th, -1, 0, -1, 0);
    var s1 := State(Table(a, NO_HANDLER, NO_HANDLER), th, -1, 0, -1, 0);
    var s2, s3 := State(Table(a, b, NO_HANDLER), th, -1, 0, -1, 0), State(Table(a, b, c), th, -1, 0, -1, 0);
    TableSet(NO_HANDLER, NO_HANDLER, NO_HANDLER, a);
    TableSet(a, NO_HANDLER, NO_HANDLER, b);
    TableSet(a, b, NO_HANDLER, c);
    hide Table;
    var e1, e2, e3 := Install(1, 1, true), Install(2, 2, false), Install(3, 3, true);
    assert Next(s0, e1) == s1 && Next(s1, e2) == s2 && Next(s2, e3) == s3;
    hide Next;
    assert Single(s0, e1) && Single(s1, e2) && Single(s2, e3);
    hide Single;
    forall es, s | Reaches(s3, es, s) ensures Reaches(s0, [e1, e2, e3] + es, s) {
      assert ([e3] + es)[1..] == es && ([e2, e3] + es)[1..] == [e3] + es && ([e1, e2, e3] + es)[1..] == [e2, e3] + es;
      assert Reaches(s2, [e3] + es, s);
      assert Reaches(s1, [e2, e3] + es, s);
    }
  }

  /** Interrupt 1, interrupt 2 above it, and a thread that the handler of 2 starts. */
  lemma DetourTaken()
    ensures Reaches(Installed(), [Interrupt(1), Interrupt(2), Switch(0, true, true)], Detoured())
  {
    var s4, s5, s6 := Nested(), Above(), Detoured();
    DetourFirst();
    DetourSecond();
    DetourThird();
    hide Next, Installed, Nested, Above, Detoured;
    var es := [Interrupt(1), Interrupt(2), Switch(0, true, true)];
    assert es[2..][1..] == [] && es[1..][1..] == es[2..];
    assert Reaches(s5, es[2..], s6);
    assert Reaches(s4, es[1..], s6);
  }

  /** Interrupt 1 is handled. */
  function Nested(): State
  {
    State(Table(Handler(1, true, true, -1), Handler(2, false, false, -1), Handler(3, true, false, -1)),
          Threads(1, 64, 64), 1, 1, 0, 1)
  }

  /** Interrupt 2 is handled above it. */
  function Above(): State
  {
    State(Table(Handler(1, true, true, -1), Handler(2, false, true, -1), Handler(3, true, false, -1)),
          Threads(1, 2, 64), 1, 1, 0, 2)
  }

  lemma DetourFirst()
    ensures Next(Installed(), Interrupt(1)) == Nested()
  {
    var a, b, c := Handler(1, true, false, -1), Handler(2, false, false, -1), Handler(3, true, false, -1);
    TableSet(a, b, c, a);
    TableSet(a, b, c, a.(active := true));
    hide Table;
  }

  lemma DetourSecond()
    ensures Next(Nested(), Interrupt(2)) == Above()
  {
    var a, b, c := Handler(1, true, true, -1), Handler(2, false, false, -1), Handler(3, true, false, -1);
    TableSet(a, b, c, b.(active := true));
    hide Table;
  }

  lemma DetourThird()
    ensures Next(Above(), Switch(0, true, true)) == Detoured()
  {
    var a, b, c := Handler(1, true, true, -1), Handler(2, false, true, -1), Handler(3, true, false, -1);
    TableSet(a, b, c, b.(active := false));
    hide Table;
  }

  /** Being outside every interrupt is not enough: a thread started from a non-nesting handler while the stack is
      not empty does not get the processor back after a nested interrupt. */
  lemma DetourLost() returns (s0: State, es: seq<Event>, s: State)
    ensures Boot(s0) && Reaches(s0, es, s) && Shape(s) && s.handling[s.curr] == 64
    ensures Accepts(s, 3) && s.handlers[3].nesting && Exec(s, Nest(3, Quiet, Quiet)).curr != s.curr
  {
    DetourInstalls();
    DetourTaken();
    var a, b, c := Handler(1, true, true, -1), Handler(2, false, false, -1), Handler(3, true, false, -1);
    s0 := State(Table(NO_HANDLER, NO_HANDLER, NO_HANDLER), Threads(64, 64, 64), -1, 0, -1, 0);
    s := State(Table(a, b, c), Threads(1, 64, 64), 1, 1, 0, 0);
    hide Table, Reaches, Boot;
    es := Installs() + [Interrupt(1), Interrupt(2), Switch(0, true, true)];
    var s7 := Next(s, Interrupt(3));
    assert s7.first == 3 && s7.handlers[3].prev == 1 && s7.handling[3] == 3 && s7.curr == 3;
    assert Exec(s7, Quiet) == s7;
    var s8 := Next(s7, Return);
    assert s8.curr == 1;
  }

  // -------------------------------------------------------------- the kernel

  /** The globals of sartoris/mk/main.c that the interrupt code updates. */
  class Kernel {
    var handlers: seq<Handler>
    var handling: map<int, int>
    var stackFirst: int
    var stackCount: int
    var stackFirstThread: int
    var currThread: int
    ghost var stack: seq<int>

    ghost function View(): State
      reads this
    {
      State(handlers, handling, stackFirst, stackCount, stackFirstThread, currThread)
    }

    ghost predicate Valid()
      reads this
    {
      Inv(View(), stack)
    }

    /** The part of `init_kernel` at lines 85-97, for a kernel whose threads are in no interrupt. */
    constructor (threads: map<int, int>, curr: int)
      requires curr in threads && forall t :: t in threads ==> t >= 0 && threads[t] == 64
      ensures Valid() && stack == [] && Boot(View())
    {
      var table := [];
      for i := 0 to 64
        invariant |table| == i && forall k :: 0 <= k < i ==> table[k] == Handler(-1, false, false, -1)
      {
        table := table + [Handler(-1, false, false, -1)];
      }
      handlers, handling := table, threads;
      stackFirst, stackCount, stackFirstThread, currThread := -1, 0, -1, curr;
      stack := [];
    }

    /** `handle_int`, without the page fault records. */
    method HandleInt(number: int)
      requires Valid() && 0 <= number < 64
      modifies this
      ensures Valid() && View() == Step(old(View()), Interrupt(number))
      ensures var taken := Accepts(old(View()), number);
        && (taken ==> currThread == old(handlers)[number].thr && handling[currThread] == number)
        && (taken && old(handlers)[number].nesting ==> stack == [number] + old(stack))
        && (!taken ==> unchanged(this))
      ensures Delivered(old(View()), number, View())
    {
      hide Inv, Step, LeaveNonNesting, Delivered;
      HandleKeeps(View(), stack, number);
      HandleReads(View(), stack, number);
      Delivers(View(), stack, number);
      var h := handlers[number].thr;
      if h >= 0 {
        if h != currThread && handling[h] == 64 && !handlers[number].active {
          RoomOnStack(View(), stack, number);
          if handlers[number].nesting {
            if stackCount == 64 { return; }
            PushInt(number);
          }
          RunHandler(number, h);
        } else {
          SecondBranchDead(View(), stack, number);
        }
      }
    }

    /** Lines 189-194. */
    method PushInt(number: int)
      requires Shape(View()) && 0 <= number < 64
      modifies this`stackFirstThread, this`stackCount, this`stackFirst, this`handlers, this`stack
      ensures View() == Push(old(View()), number) && stack == [number] + old(stack)
    {
      if stackCount == 0 { stackFirstThread := currThread; }
      stackCount := stackCount + 1;
      handlers := handlers[number := handlers[number].(prev := stackFirst)];
      stackFirst := number;
      stack := [number] + stack;
    }

    /** Lines 199-217. */
    method RunHandler(number: int, h: int)
      requires Shape(View()) && 0 <= number < 64 && h == handlers[number].thr && h in handling
      modifies this`handling, this`handlers, this`currThread
      ensures View() == Enter(old(View()), number)
    {
      handling := handling[h := number];
      var hint := handling[currThread];
      if hint != 64 && !handlers[hint].nesting {
        handling := handling[currThread := 64];
        handlers := handlers[hint := handlers[hint].(active := false)];
      }
      currThread := h;
      handlers := handlers[number := handlers[number].(active := true)];
    }

    /** `ret_from_int`. */
    method RetFromInt(soft: bool) returns (success: bool)
      requires Valid()
      modifies this
      ensures Valid() && View() == if soft then old(View()) else Step(old(View()), Return)
      ensures !soft && Returns(old(View())) ==> old(stack) != [] && stack == old(stack)[1..]
      ensures success <==> soft || old(handling[currThread] == 64) || Returns(old(View()))
    {
      success := false;
      if soft || handling[currThread] == 64 { return true; }
      if stackCount > 0 && handling[currThread] == stackFirst {
        ReturnKeeps(View(), stack);
        StackTop(View(), stack);
        hide Inv, Chain;
        success := true;
        stackCount := stackCount - 1;
        handlers := handlers[stackFirst := handlers[stackFirst].(active := false)];
        stackFirst := handlers[stackFirst].prev;
        if stackFirst == -1 {
          handling := handling[currThread := 64];
          currThread := stackFirstThread;
          stackFirstThread := -1;
        } else {
          handling := handling[currThread := if currThread != handlers[stackFirst].thr then 64 else stackFirst];
          currThread := handlers[stackFirst].thr;
        }
        stack := stack[1..];
      }
    }
  }

  lemma HandleReads(s: State, c: seq<int>, n: int)
    requires Inv(s, c) && 0 <= n < 64
    ensures Shape(s) && Step(s, Interrupt(n)) == HandleInt(s, n)
    ensures Accepts(s, n) ==> Enter(s, n).curr == Enter(Push(s, n), n).curr == s.handlers[n].thr
    ensures Accepts(s, n) ==> Enter(s, n).handling == Enter(Push(s, n), n).handling && Taken(Enter(s, n), n)
  {
  }

  /** The current thread is the one of interrupt `n`, and handles it. */
  predicate Taken(s: State, n: int) { s.curr in s.handling && s.handling[s.curr] == n }
}
