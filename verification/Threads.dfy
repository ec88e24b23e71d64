/**
 Threads, run queue, wait registrations and reaping as a state machine. One transition is one
 interrupt-off section of kernel/src/sched.c, wait.c or thread.c; any order of them is a run.
 */
module Threads {
  import opened Links

  /** `Freed` is the state after the thread's memory went back; the others are the kernel's. */
  datatype ThreadState = New | Runnable | Running | Waiting | Zombie | Freed

  /** The boot thread, which is never queued, stopped or freed. */
  const IDLE: nat := 0

  /**
   Threads and wait entries are numbered. `task[e]`/`queue[e]` name the owner and the resource of a
   linked entry (-1: unlinked); `queues[q]` and `regs[t]` list the entries of a resource and of a thread.
   `reaping` is the zombie the reaper has taken off the list but not freed yet.
   */
  datatype Sys = Sys(st: seq<ThreadState>, cur: nat, runq: seq<nat>, zombies: seq<nat>, all: seq<nat>, reaping: int,
                     queues: seq<seq<nat>>, regs: seq<seq<nat>>, task: seq<int>, queue: seq<int>)

  // ----- invariant -----

  predicate Is(s: Sys, t: int, x: ThreadState) {
    0 <= t < |s.st| && s.st[t] == x
  }

  /** Exactly the non-idle runnable threads are queued, each once, and the current thread is not. */
  ghost predicate SchedOk(s: Sys) {
    && s.cur < |s.st| && IDLE < |s.st|
    && NoDup(s.runq)
    && (forall t :: t in s.runq <==> t != IDLE && Is(s, t, Runnable))
    && s.st[s.cur] in {Running, Waiting, Zombie}
    && (forall t :: Is(s, t, Running) ==> t == s.cur)
    && (Is(s, IDLE, Running) || Is(s, IDLE, Runnable))
  }

  predicate Published(s: Sys, t: int) {
    0 <= t < |s.st| && s.st[t] != New && s.st[t] != Freed
  }

  /** The thread list holds the published threads, the zombie list the zombies nobody is reaping. */
  ghost predicate LifeOk(s: Sys) {
    && NoDup(s.zombies) && NoDup(s.all)
    && (forall t :: t in s.zombies <==> Is(s, t, Zombie) && t != s.reaping)
    && (forall t :: t in s.all ==> Published(s, t))
    && (forall t: nat :: Published(s, t) && t != s.reaping ==> t in s.all)
    && (s.reaping != -1 ==> Is(s, s.reaping, Zombie) && s.reaping != s.cur)
  }

  predicate Registered(s: Sys, e: int) {
    0 <= e < |s.task| == |s.queue| && s.task[e] != -1
  }

  /** Only threads that are neither new nor dead hold registrations, and every sleeper holds one. */
  predicate MayWait(s: Sys, t: int) {
    t != IDLE && (Is(s, t, Runnable) || Is(s, t, Running) || Is(s, t, Waiting))
  }

  /** A linked entry is in exactly the list of its resource and of its owner. */
  ghost predicate LinksMatch(s: Sys) {
    && |s.task| == |s.queue| && |s.regs| == |s.st|
    && Distinct(s.queues) && Distinct(s.regs)
    && (forall e :: 0 <= e < |s.task| ==> (s.task[e] == -1 <==> s.queue[e] == -1))
    && (forall q, e :: 0 <= q < |s.queues| ==> (e in s.queues[q] <==> Registered(s, e) && s.queue[e] == q))
    && (forall t, e :: 0 <= t < |s.regs| ==> (e in s.regs[t] <==> Registered(s, e) && s.task[e] == t))
    && (forall e :: Registered(s, e) ==> MayWait(s, s.task[e]) && 0 <= s.queue[e] < |s.queues|)
  }

  ghost predicate WaitOk(s: Sys) {
    LinksMatch(s) && (forall t :: Is(s, t, Waiting) ==> s.regs[t] != [])
  }

  ghost predicate Inv(s: Sys) {
    SchedOk(s) && LifeOk(s) && WaitOk(s)
  }

  lemma LinksFacts(s: Sys)
    requires Inv(s)
    ensures LinksMatch(s) && |s.regs| == |s.st|
  {
  }

  /** After bootstrap: only the boot thread, running, and unused wait queues. */
  function Boot(queueCount: nat): Sys {
    Sys([Running], IDLE, [], [], [IDLE], -1, seq(queueCount, _ => []), [[]], [], [])
  }

  lemma BootOk(queueCount: nat)
    ensures Inv(Boot(queueCount))
  {
    var s := Boot(queueCount);
    assert forall t :: t in s.all <==> t == IDLE;
  }

  // ----- scheduler -----

  /** Round robin: the head of the queue runs, a still runnable worker goes to the tail; idle is the fallback. */
  function Schedule(s: Sys): Sys
    requires SchedOk(s)
  {
    HeadRunnable(s);
    if s.runq == [] && s.cur == IDLE then s
    else if s.runq == [] then Switch(s, IDLE, [])
    else Switch(s, s.runq[0], s.runq[1..])
  }

  function Switch(s: Sys, next: nat, rest: seq<nat>): Sys
    requires s.cur < |s.st| && next < |s.st|
  {
    var st := if s.st[s.cur] == Running then s.st[s.cur := Runnable] else s.st;
    s.(st := st[next := Running], cur := next,
       runq := if st[s.cur] == Runnable && s.cur != IDLE then rest + [s.cur] else rest)
  }

  /** The head of the queue, or idle, is a runnable thread other than the current one. */
  lemma HeadRunnable(s: Sys)
    requires SchedOk(s)
    ensures s.runq != [] ==> Is(s, s.runq[0], Runnable) && s.runq[0] != s.cur && s.runq[0] != IDLE
    ensures s.cur != IDLE ==> Is(s, IDLE, Runnable)
  {
    assert s.runq != [] ==> s.runq[0] in s.runq;
  }

  /** What the code of the scheduler relies on. */
  lemma SchedFacts(s: Sys)
    requires Inv(s)
    ensures SchedOk(s) && s.cur < |s.st| && IDLE < |s.st| && NoDup(s.runq) && s.cur !in s.runq
    ensures s.runq != [] ==> Is(s, s.runq[0], Runnable) && s.runq[0] != s.cur
    ensures s.runq != [] ==> NoDup(s.runq[1..]) && s.cur !in s.runq[1..]
  {
    HeadRunnable(s);
    if s.runq != [] { NoDupTail(s.runq); }
  }

  lemma SwitchOk(s: Sys, next: nat, rest: seq<nat>)
    requires SchedOk(s) && Is(s, next, Runnable) && next != s.cur && NoDup(rest)
    requires forall t :: t in rest <==> t in s.runq && t != next
    ensures SchedOk(Switch(s, next, rest))
    ensures forall t, x :: Is(Switch(s, next, rest), t, x) && x != Running && x != Runnable <==> Is(s, t, x) && x != Running && x != Runnable
  {
    var s' := Switch(s, next, rest);
    assert s.cur !in rest;
    NoDupAppend(rest, s.cur);
    forall t ensures Is(s', t, Running) <==> t == next { assert Is(s, t, Running) ==> t == s.cur; }
    forall t ensures t in s'.runq <==> t != IDLE && Is(s', t, Runnable) {
      assert t in rest <==> t != IDLE && Is(s, t, Runnable) && t != next;
    }
  }

  lemma ScheduleOk(s: Sys)
    requires Inv(s)
    ensures Inv(Schedule(s))
  {
    HeadRunnable(s);
    if s.runq != [] {
      NoDupTail(s.runq);
      SwitchOk(s, s.runq[0], s.runq[1..]);
    } else if s.cur != IDLE {
      SwitchOk(s, IDLE, []);
    }
    KeepsLife(s, Schedule(s));
  }

  /** Scheduling moves threads only between running and runnable. */
  lemma KeepsLife(s: Sys, s': Sys)
    requires LifeOk(s) && WaitOk(s) && s.reaping != s'.cur && |s'.st| == |s.st|
    requires s' == s.(st := s'.st, cur := s'.cur, runq := s'.runq)
    requires forall t, x :: Is(s', t, x) && x != Running && x != Runnable <==> Is(s, t, x) && x != Running && x != Runnable
    ensures LifeOk(s') && WaitOk(s')
  {
    forall t ensures (Published(s', t) <==> Published(s, t)) && (MayWait(s', t) <==> MayWait(s, t)) {
      assert 0 <= t < |s.st| ==> Is(s, t, s.st[t]) && Is(s', t, s'.st[t]);
    }
  }

  // ----- creation -----

  /** A private thread; its stack and TCB come from the heap. */
  function Create(s: Sys): Sys {
    s.(st := s.st + [New], regs := s.regs + [[]])
  }

  /** Publish a new thread once; anything else is left alone. */
  function Publish(s: Sys, t: nat): Sys {
    if Is(s, t, New) then s.(st := s.st[t := Runnable], all := [t] + s.all, runq := s.runq + [t]) else s
  }

  lemma CreateOk(s: Sys)
    requires Inv(s)
    ensures Inv(Create(s))
  {
    var s' := Create(s);
    forall t, x ensures Is(s', t, x) <==> Is(s, t, x) || (t == |s.st| && x == New) {}
    forall t ensures Published(s', t) <==> Published(s, t) {}
    forall t ensures MayWait(s', t) <==> MayWait(s, t) {}
    forall e ensures Registered(s', e) <==> Registered(s, e) {}
    CreateRegs(s.regs);
  }

  lemma CreateRegs(regs: seq<seq<nat>>)
    requires Distinct(regs)
    ensures Distinct(regs + [[]])
  {
  }

  /** Only thread `t` changes state, from `x` to `y`. */
  ghost predicate Moves(s: Sys, s': Sys, t: nat, y: ThreadState) {
    t < |s.st| && s'.st == s.st[t := y]
  }

  lemma MovesIs(s: Sys, s': Sys, t: nat, y: ThreadState)
    requires Moves(s, s', t, y)
    ensures forall u, x :: Is(s', u, x) <==> (if u == t then x == y else Is(s, u, x))
    ensures forall u :: u != t ==> (Published(s', u) <==> Published(s, u)) && (MayWait(s', u) <==> MayWait(s, u))
  {
  }

  lemma PublishOk(s: Sys, t: nat)
    requires Inv(s)
    ensures Inv(Publish(s, t))
  {
    if Is(s, t, New) {
      var s' := Publish(s, t);
      MovesIs(s, s', t, Runnable);
      hide Is, Published, MayWait, Registered;
      assert t != IDLE && t != s.cur && t !in s.runq && t !in s.all by { NewIsOut(s, t); }
      NoDupAppend(s.runq, t);
      assert NoDup(s'.all);
      assert forall e :: Registered(s', e) <==> Registered(s, e);
    }
  }

  lemma NewIsOut(s: Sys, t: nat)
    requires Inv(s) && Is(s, t, New)
    ensures t != IDLE && t != s.cur && t !in s.runq && t !in s.all && t != s.reaping && !MayWait(s, t)
  {
  }

  // ----- wait registrations -----

  /** A zero-initialized wait entry. */
  function NewEntry(s: Sys): Sys {
    s.(task := s.task + [-1], queue := s.queue + [-1])
  }

  lemma NewEntryOk(s: Sys)
    requires Inv(s)
    ensures Inv(NewEntry(s))
  {
    var s' := NewEntry(s);
    assert forall e :: Registered(s', e) <==> Registered(s, e);
    assert forall t, x :: Is(s', t, x) <==> Is(s, t, x);
    assert forall t :: MayWait(s', t) <==> MayWait(s, t);
    assert forall t :: Published(s', t) <==> Published(s, t);
  }

  /** The tests of `wait_queue_prepare_locked`; `allowed` is "interrupts off and no bottom half running". */
  predicate CanPrepare(s: Sys, q: nat, e: nat, allowed: bool) {
    && allowed && q < |s.queues| && e < |s.task| == |s.queue| && s.cur < |s.regs| == |s.st|
    && s.cur != IDLE && (Is(s, s.cur, Running) || Is(s, s.cur, Waiting))
    && s.task[e] == -1 && s.queue[e] == -1
  }

  /** Register entry `e` of the current thread at the tail of queue `q`. */
  function Prepare(s: Sys, q: nat, e: nat, allowed: bool): Sys {
    if !CanPrepare(s, q, e, allowed) then s else
      s.(st := s.st[s.cur := Waiting], task := s.task[e := s.cur], queue := s.queue[e := q],
         queues := s.queues[q := s.queues[q] + [e]], regs := s.regs[s.cur := [e] + s.regs[s.cur]])
  }

  lemma PrepareOk(s: Sys, q: nat, e: nat, allowed: bool)
    requires Inv(s)
    ensures Inv(Prepare(s, q, e, allowed))
  {
    if CanPrepare(s, q, e, allowed) {
      var s' := Prepare(s, q, e, allowed);
      MovesIs(s, s', s.cur, Waiting);
      assert forall f :: Registered(s', f) <==> Registered(s, f) || f == e;
      PrepareLists(s, q, e);
      assert forall t :: Is(s', t, Runnable) <==> Is(s, t, Runnable);
      assert forall t :: Published(s', t) <==> Published(s, t);
    }
  }

  /** Adding an entry that is on no list keeps the lists of each kind disjoint. */
  lemma DistinctAdd(lists: seq<seq<nat>>, k: nat, t: seq<nat>, e: nat)
    requires Distinct(lists) && k < |lists| && (forall j :: 0 <= j < |lists| ==> e !in lists[j])
    requires NoDup(t) && forall x :: x in t <==> x in lists[k] || x == e
    ensures Distinct(lists[k := t])
  {
    forall j | 0 <= j < |lists| && j != k ensures Disjoint(lists[j], t) && Disjoint(t, lists[j]) {
      assert Disjoint(lists[j], lists[k]);
    }
  }

  lemma PrepareLists(s: Sys, q: nat, e: nat)
    requires LinksMatch(s) && CanPrepare(s, q, e, true)
    ensures Distinct(s.queues[q := s.queues[q] + [e]]) && Distinct(s.regs[s.cur := [e] + s.regs[s.cur]])
  {
    assert !Registered(s, e);
    NoDupAppend(s.queues[q], e);
    DistinctAdd(s.queues, q, s.queues[q] + [e], e);
    assert NoDup([e] + s.regs[s.cur]);
    DistinctAdd(s.regs, s.cur, [e] + s.regs[s.cur], e);
  }

  /** Take a linked entry off both of its lists. */
  function Unlink(s: Sys, e: nat): Sys
    requires LinksMatch(s) && Registered(s, e)
  {
    var t, q := s.task[e], s.queue[e];
    s.(task := s.task[e := -1], queue := s.queue[e := -1],
       queues := s.queues[q := Minus(s.queues[q], e)], regs := s.regs[t := Minus(s.regs[t], e)])
  }

  lemma DistinctMinus(lists: seq<seq<nat>>, k: nat, e: nat)
    requires Distinct(lists) && k < |lists|
    ensures Distinct(lists[k := Minus(lists[k], e)])
    ensures forall x :: x in Minus(lists[k], e) <==> x in lists[k] && x != e
  {
    MinusFacts(lists[k], e);
    forall j | 0 <= j < |lists| && j != k
      ensures Disjoint(lists[j], Minus(lists[k], e)) && Disjoint(Minus(lists[k], e), lists[j])
    {
      assert Disjoint(lists[j], lists[k]);
    }
  }

  lemma UnlinkOk(s: Sys, e: nat)
    requires LinksMatch(s) && Registered(s, e)
    ensures LinksMatch(Unlink(s, e)) && !Registered(Unlink(s, e), e)
    ensures forall f :: f != e ==> (Registered(Unlink(s, e), f) <==> Registered(s, f))
  {
    hide Minus, Distinct;
    var t, q, s' := s.task[e], s.queue[e], Unlink(s, e);
    DistinctMinus(s.queues, q, e);
    DistinctMinus(s.regs, t, e);
    assert forall f :: Registered(s', f) <==> Registered(s, f) && f != e;
    assert forall f :: Registered(s', f) ==> s'.task[f] == s.task[f] && s'.queue[f] == s.queue[f];
    assert forall u :: MayWait(s', u) <==> MayWait(s, u);
    hide Registered, MayWait;
    forall k, f | 0 <= k < |s'.queues| ensures f in s'.queues[k] <==> Registered(s', f) && s'.queue[f] == k {
      assert f in s.queues[k] <==> Registered(s, f) && s.queue[f] == k;
    }
    forall u, f | 0 <= u < |s'.regs| ensures f in s'.regs[u] <==> Registered(s', f) && s'.task[f] == u {
      assert f in s.regs[u] <==> Registered(s, f) && s.task[f] == u;
    }
  }

  /** `wait_queue_finish_locked`: unlink, and a current thread with nothing left to wait for runs on. */
  function Finish(s: Sys, e: nat): Sys
    requires LinksMatch(s)
  {
    if !Registered(s, e) then s else
      var t, u := s.task[e], Unlink(s, e);
      if t == s.cur && Is(s, t, Waiting) && u.regs[t] == [] then u.(st := u.st[t := Running]) else u
  }

  lemma FinishLinks(s: Sys, e: nat)
    requires LinksMatch(s)
    ensures LinksMatch(Finish(s, e)) && !Registered(Finish(s, e), e)
  {
    if Registered(s, e) {
      UnlinkOk(s, e);
      var t, u, s' := s.task[e], Unlink(s, e), Finish(s, e);
      hide Unlink, Distinct;
      forall f ensures Registered(s', f) <==> Registered(u, f) {}
      forall w ensures MayWait(s', w) <==> MayWait(u, w) {}
    }
  }

  /** A thread finishes its own entries; a second finish does nothing. */
  lemma FinishOk(s: Sys, e: nat)
    requires Inv(s) && (Registered(s, e) ==> s.task[e] == s.cur)
    ensures Inv(Finish(s, e)) && Finish(Finish(s, e), e) == Finish(s, e)
  {
    FinishLinks(s, e);
    if Registered(s, e) {
      var s' := Finish(s, e);
      hide Minus, LinksMatch;
      assert forall t, x :: x != Waiting && x != Running ==> (Is(s', t, x) <==> Is(s, t, x));
      forall t ensures Is(s', t, Running) ==> t == s.cur { assert Is(s, t, Running) ==> t == s.cur; }
      assert forall t :: Published(s', t) <==> Published(s, t);
      assert forall t :: t != s.cur ==> (Is(s', t, Waiting) <==> Is(s, t, Waiting));
    }
  }

  /** `wait_queue_cancel_locked`: detach every registration of thread `t`. */
  function Cancel(s: Sys, t: nat): Sys
    requires LinksMatch(s) && t < |s.regs|
    decreases |s.regs[t]|
  {
    if s.regs[t] == [] then s else
      var e := s.regs[t][0];
      assert e in s.regs[t];
      CancelStep(s, t);
      Cancel(Finish(s, e), t)
  }

  lemma CancelStep(s: Sys, t: nat)
    requires LinksMatch(s) && t < |s.regs| && s.regs[t] != []
    ensures var e := s.regs[t][0]; Registered(s, e) && LinksMatch(Finish(s, e)) && |Finish(s, e).regs| == |s.regs|
    ensures Finish(s, s.regs[t][0]).regs[t] == s.regs[t][1..]
    ensures var s' := Finish(s, s.regs[t][0]); s' == s.(st := s'.st, task := s'.task, queue := s'.queue, queues := s'.queues, regs := s'.regs)
    ensures var s' := Finish(s, s.regs[t][0]); s'.st == s.st || (t == s.cur && Is(s, t, Waiting) && s'.st == s.st[t := Running])
    ensures forall u :: 0 <= u < |s.regs| && u != t ==> Finish(s, s.regs[t][0]).regs[u] == s.regs[u]
  {
    var e := s.regs[t][0];
    assert e in s.regs[t];
    FinishLinks(s, e);
  }

  /** Afterwards `t` has no registration; nothing but `t`'s registrations, and its state if current, changed. */
  lemma {:induction false} CancelOk(s: Sys, t: nat)
    requires LinksMatch(s) && t < |s.regs|
    ensures var s' := Cancel(s, t);
            && LinksMatch(s') && |s'.regs| == |s.regs| && s'.regs[t] == []
            && s' == s.(st := s'.st, task := s'.task, queue := s'.queue, queues := s'.queues, regs := s'.regs)
            && (s'.st == s.st || (t == s.cur && Is(s, t, Waiting) && s'.st == s.st[t := Running]))
            && (forall u :: 0 <= u < |s.regs| && u != t ==> s'.regs[u] == s.regs[u])
    decreases |s.regs[t]|
  {
    if s.regs[t] != [] {
      CancelStep(s, t);
      CancelOk(Finish(s, s.regs[t][0]), t);
      hide LinksMatch, Finish;
    }
  }

  // ----- waking -----

  /** `wake_waiter_locked`: only a waiting task changes; another task than the current one is queued. */
  function WakeTask(s: Sys, t: nat): Sys
    requires t < |s.st|
  {
    if s.st[t] != Waiting then s
    else if t == s.cur then s.(st := s.st[t := Running])
    else s.(st := s.st[t := Runnable], runq := s.runq + [t])
  }

  lemma WakeTaskOk(s: Sys, t: nat)
    requires Inv(s) && t < |s.st|
    ensures Inv(WakeTask(s, t))
  {
    if s.st[t] == Waiting {
      var s' := WakeTask(s, t);
      MovesIs(s, s', t, s'.st[t]);
      assert s.regs[t] != [] && s.regs[t][0] in s.regs[t];
      assert t !in s.runq && t != IDLE;
      NoDupAppend(s.runq, t);
      WakeLinks(s, t);
      hide LinksMatch, NoDup, MayWait, Registered;
      assert forall u :: Published(s', u) <==> Published(s, u);
    }
  }

  /** A queued entry has a live owner. */
  lemma QueueEntry(s: Sys, q: nat, i: nat)
    requires LinksMatch(s) && q < |s.queues| && i < |s.queues[q]|
    ensures var e := s.queues[q][i]; Registered(s, e) && 0 <= s.task[e] < |s.st|
  {
    assert s.queues[q][i] in s.queues[q];
  }

  /** The first entry from position `i` of the queue whose task is waiting, or the queue's length. */
  function FirstWaiter(s: Sys, q: nat, i: nat): (k: nat)
    requires LinksMatch(s) && q < |s.queues| && i <= |s.queues[q]|
    ensures i <= k <= |s.queues[q]|
    decreases |s.queues[q]| - i
  {
    if i == |s.queues[q]| then i else
      QueueEntry(s, q, i);
      if Is(s, s.task[s.queues[q][i]], Waiting) then i else FirstWaiter(s, q, i + 1)
  }

  /** `wake_one` picks the sleeper that registered first: nobody ahead of it sleeps. */
  lemma {:induction false} FirstWaiterIsFirst(s: Sys, q: nat, i: nat)
    requires LinksMatch(s) && q < |s.queues| && i <= |s.queues[q]|
    ensures var k := FirstWaiter(s, q, i);
            && (k < |s.queues[q]| ==> Sleeps(s, s.queues[q][k]))
            && (forall j :: i <= j < k ==> !Sleeps(s, s.queues[q][j]))
    decreases |s.queues[q]| - i
  {
    hide LinksMatch;
    if i < |s.queues[q]| {
      QueueEntry(s, q, i);
      if !Is(s, s.task[s.queues[q][i]], Waiting) { FirstWaiterIsFirst(s, q, i + 1); }
    }
  }

  /** The owner of the entry sleeps. */
  predicate Sleeps(s: Sys, e: int) {
    Registered(s, e) && Is(s, s.task[e], Waiting)
  }

  function WakeOne(s: Sys, q: nat): Sys
    requires LinksMatch(s) && q < |s.queues|
  {
    var k := FirstWaiter(s, q, 0);
    if k == |s.queues[q]| then s else
      QueueEntry(s, q, k);
      WakeTask(s, s.task[s.queues[q][k]])
  }

  /** Wake the owners of the queue's entries from position `i` on, one after the other. */
  function WakeFrom(s: Sys, q: nat, i: nat): Sys
    requires LinksMatch(s) && q < |s.queues| && i <= |s.queues[q]|
    decreases |s.queues[q]| - i
  {
    if i == |s.queues[q]| then s else
      QueueEntry(s, q, i);
      WakeLinks(s, s.task[s.queues[q][i]]);
      WakeFrom(WakeTask(s, s.task[s.queues[q][i]]), q, i + 1)
  }

  lemma WakeLinks(s: Sys, t: nat)
    requires LinksMatch(s) && t < |s.st|
    ensures LinksMatch(WakeTask(s, t)) && WakeTask(s, t).queues == s.queues
  {
    var s' := WakeTask(s, t);
    assert forall e :: Registered(s', e) <==> Registered(s, e);
    forall u ensures MayWait(s', u) <==> MayWait(s, u) {}
  }

  function WakeAll(s: Sys, q: nat): Sys
    requires LinksMatch(s) && q < |s.queues|
  {
    WakeFrom(s, q, 0)
  }

  lemma WakeOneOk(s: Sys, q: nat)
    requires Inv(s) && q < |s.queues|
    ensures Inv(WakeOne(s, q))
  {
    var k := FirstWaiter(s, q, 0);
    if k < |s.queues[q]| {
      QueueEntry(s, q, k);
      WakeTaskOk(s, s.task[s.queues[q][k]]);
    }
  }

  lemma {:induction false} WakeFromOk(s: Sys, q: nat, i: nat)
    requires Inv(s) && q < |s.queues| && i <= |s.queues[q]|
    ensures Inv(WakeFrom(s, q, i))
    decreases |s.queues[q]| - i
  {
    if i < |s.queues[q]| {
      QueueEntry(s, q, i);
      var t := s.task[s.queues[q][i]];
      WakeTaskOk(s, t);
      WakeLinks(s, t);
      WakeFromOk(WakeTask(s, t), q, i + 1);
    }
  }

  // ----- end of life -----

  /** Detach thread `t` from run queue and wait queues and put it on the zombie list. */
  function Bury(s: Sys, t: nat): Sys
    requires LinksMatch(s) && t < |s.regs|
  {
    RunqKeepsLinks(s, Minus(s.runq, t));
    var c := Cancel(s.(runq := Minus(s.runq, t)), t);
    CancelOk(s.(runq := Minus(s.runq, t)), t);
    c.(st := c.st[t := Zombie], zombies := [t] + c.zombies)
  }

  /** `thread_stop_tid` after the lookup, and `thread_mark_current_zombie` when `t` is current. */
  function Stop(s: Sys, t: nat): Sys
    requires LinksMatch(s)
  {
    if t == IDLE || !Published(s, t) || Is(s, t, Zombie) then s else Bury(s, t)
  }

  lemma RunqKeepsLinks(s: Sys, runq: seq<nat>)
    requires LinksMatch(s)
    ensures LinksMatch(s.(runq := runq))
  {
    var s' := s.(runq := runq);
    assert forall e :: Registered(s', e) <==> Registered(s, e);
    assert forall u :: MayWait(s', u) <==> MayWait(s, u);
  }

  lemma BuryLinks(s: Sys, t: nat)
    requires LinksMatch(s) && t < |s.regs| && s.regs[t] == [] && Published(s, t)
    ensures LinksMatch(s.(st := s.st[t := Zombie], zombies := [t] + s.zombies))
  {
    var s' := s.(st := s.st[t := Zombie], zombies := [t] + s.zombies);
    MovesIs(s, s', t, Zombie);
    assert forall e :: Registered(s', e) <==> Registered(s, e);
    assert forall e :: Registered(s, e) ==> s.task[e] != t;
  }

  lemma StopOk(s: Sys, t: nat)
    requires Inv(s)
    ensures Inv(Stop(s, t))
  {
    if t != IDLE && Published(s, t) && !Is(s, t, Zombie) {
      var r := s.(runq := Minus(s.runq, t));
      RunqKeepsLinks(s, Minus(s.runq, t));
      CancelOk(r, t);
      var c := Cancel(r, t);
      MinusFacts(s.runq, t);
      BuryLinks(c, t);
      hide Cancel, LinksMatch, NoDup, Minus;
      StopRest(s, c, t);
    }
  }

  /** The scheduler and lifetime parts of a burial. */
  lemma StopRest(s: Sys, c: Sys, t: nat)
    requires Inv(s) && t != IDLE && Published(s, t) && !Is(s, t, Zombie)
    requires c == s.(st := c.st, runq := c.runq, task := c.task, queue := c.queue, queues := c.queues, regs := c.regs)
    requires c.st == s.st || (t == s.cur && c.st == s.st[t := Running])
    requires NoDup(c.runq) && forall u :: u in c.runq <==> u in s.runq && u != t
    requires |c.regs| == |s.regs| && forall u :: 0 <= u < |s.regs| && u != t ==> c.regs[u] == s.regs[u]
    ensures var s' := c.(st := c.st[t := Zombie], zombies := [t] + c.zombies);
            SchedOk(s') && LifeOk(s') && forall u :: Is(s', u, Waiting) ==> s'.regs[u] != []
  {
    var s' := c.(st := c.st[t := Zombie], zombies := [t] + c.zombies);
    MovesIs(s, s', t, Zombie);
    assert t !in s.zombies;
    assert NoDup(s'.zombies);
    hide NoDup;
    forall u ensures Is(s', u, Running) ==> u == s.cur { assert Is(s, u, Running) ==> u == s.cur; }
  }

  /** Stopping changes no other thread's state and no list of threads but the run queue and the zombies. */
  lemma StopEffect(s: Sys, t: nat)
    requires Inv(s)
    ensures var s' := Stop(s, t);
            && s'.all == s.all && s'.cur == s.cur && s'.reaping == s.reaping && |s'.st| == |s.st|
            && (forall u :: 0 <= u < |s.st| ==> s'.st[u] == if u == t != IDLE && Published(s, u) then Zombie else s.st[u])
  {
    if t != IDLE && Published(s, t) && !Is(s, t, Zombie) {
      RunqKeepsLinks(s, Minus(s.runq, t));
      CancelOk(s.(runq := Minus(s.runq, t)), t);
    }
  }

  /** `thread_stop_process`: stop the threads of the group from position `i` of the thread list on. */
  ghost function StopGroup(s: Sys, group: set<nat>, i: nat): Sys
    requires Inv(s) && i <= |s.all|
    decreases |s.all| - i
  {
    if i == |s.all| then s
    else if s.all[i] in group then
      StopOk(s, s.all[i]);
      StopEffect(s, s.all[i]);
      StopGroup(Stop(s, s.all[i]), group, i + 1)
    else StopGroup(s, group, i + 1)
  }

  /** Every listed thread of the group is a zombie afterwards, and no other thread changed state. */
  lemma {:induction false} StopGroupEffect(s: Sys, group: set<nat>, i: nat)
    requires Inv(s) && i <= |s.all|
    ensures var s' := StopGroup(s, group, i);
            && Inv(s') && s'.all == s.all && s'.cur == s.cur && |s'.st| == |s.st|
            && (forall u :: 0 <= u < |s.st| ==> s'.st[u] == if u in s.all[i..] && u in group && u != IDLE then Zombie else s.st[u])
    decreases |s.all| - i
  {
    if i < |s.all| {
      var t := s.all[i];
      assert t in s.all && Published(s, t);
      assert s.all[i..] == [t] + s.all[i + 1..];
      StopOk(s, t);
      StopEffect(s, t);
      hide Inv, Stop;
      StopGroupEffect(if t in group then Stop(s, t) else s, group, i + 1);
    }
  }

  /** The reaper takes the first zombie off the list unless it is still current. */
  function ReapPop(s: Sys): Sys {
    if s.reaping != -1 || s.zombies == [] || s.zombies[0] == s.cur then s
    else s.(zombies := s.zombies[1..], reaping := s.zombies[0])
  }

  function ReapUnlink(s: Sys): Sys {
    if s.reaping < 0 then s else s.(all := Minus(s.all, s.reaping))
  }

  predicate CanFree(s: Sys) {
    0 <= s.reaping < |s.st| && s.reaping !in s.all
  }

  function ReapFree(s: Sys): Sys {
    if CanFree(s) then s.(st := s.st[s.reaping := Freed], reaping := -1) else s
  }

  lemma ReapPopOk(s: Sys)
    requires Inv(s)
    ensures Inv(ReapPop(s))
  {
    var s' := ReapPop(s);
    if s' != s {
      NoDupTail(s.zombies);
      assert s.zombies[0] in s.zombies;
      SameThreads(s, s');
    }
  }

  lemma SameThreads(s: Sys, s': Sys)
    requires s' == s.(zombies := s'.zombies, reaping := s'.reaping, all := s'.all)
    ensures forall t, x :: Is(s', t, x) <==> Is(s, t, x)
    ensures forall t :: (Published(s', t) <==> Published(s, t)) && (MayWait(s', t) <==> MayWait(s, t))
    ensures forall e :: Registered(s', e) <==> Registered(s, e)
  {
  }

  lemma ReapUnlinkOk(s: Sys)
    requires Inv(s)
    ensures Inv(ReapUnlink(s)) && (s.reaping >= 0 ==> CanFree(ReapUnlink(s)))
  {
    var s' := ReapUnlink(s);
    if s.reaping >= 0 {
      MinusFacts(s.all, s.reaping);
      SameThreads(s, s');
    }
  }

  lemma RegistrantsAlive(s: Sys, t: nat)
    requires LinksMatch(s) && t < |s.regs|
    ensures s.regs[t] != [] ==> MayWait(s, t)
  {
    HasFirst(s.regs[t]);
    assert s.regs[t] != [] ==> Registered(s, s.regs[t][0]);
  }

  /** When the reaper frees a thread, nothing refers to it any more. */
  lemma ReapSafety(s: Sys)
    requires Inv(s) && CanFree(s)
    ensures var z := s.reaping;
            && z != s.cur && z != IDLE && Is(s, z, Zombie)
            && z !in s.runq && z !in s.zombies && z !in s.all && s.regs[z] == []
            && (forall e :: Registered(s, e) ==> s.task[e] != z)
            && (forall q, e :: 0 <= q < |s.queues| && e in s.queues[q] ==> Registered(s, e) && s.task[e] != z)
  {
    RegistrantsAlive(s, s.reaping);
  }

  lemma ReapFreeOk(s: Sys)
    requires Inv(s)
    ensures Inv(ReapFree(s))
  {
    if CanFree(s) {
      ReapSafety(s);
      var s' := ReapFree(s);
      MovesIs(s, s', s.reaping, Freed);
      assert forall e :: Registered(s', e) <==> Registered(s, e);
    }
  }

  // ----- runs -----

  /** One interrupt-off section, by whoever executes it. */
  datatype Step =
    | DoCreate | DoPublish(t: nat) | DoSchedule | DoNewEntry
    | DoPrepare(q: nat, e: nat, allowed: bool) | DoFinish(e: nat) | DoWakeOne(q: nat) | DoWakeAll(q: nat)
    | DoStop(t: nat) | DoReapPop | DoReapUnlink | DoReapFree

  /** A thread finishes only its own entries; queues exist. */
  predicate Enabled(s: Sys, a: Step) {
    match a
    case DoFinish(e) => Registered(s, e) ==> s.task[e] == s.cur
    case DoWakeOne(q) => q < |s.queues|
    case DoWakeAll(q) => q < |s.queues|
    case _ => true
  }

  function Next(s: Sys, a: Step): Sys
    requires Inv(s) && Enabled(s, a)
  {
    match a
    case DoCreate => Create(s)
    case DoPublish(t) => Publish(s, t)
    case DoSchedule => Schedule(s)
    case DoNewEntry => NewEntry(s)
    case DoPrepare(q, e, allowed) => Prepare(s, q, e, allowed)
    case DoFinish(e) => Finish(s, e)
    case DoWakeOne(q) => WakeOne(s, q)
    case DoWakeAll(q) => WakeAll(s, q)
    case DoStop(t) => Stop(s, t)
    case DoReapPop => ReapPop(s)
    case DoReapUnlink => ReapUnlink(s)
    case DoReapFree => ReapFree(s)
  }

  lemma NextOk(s: Sys, a: Step)
    requires Inv(s) && Enabled(s, a)
    ensures Inv(Next(s, a))
  {
    hide Inv, LinksMatch, SchedOk;
    match a
    case DoCreate => CreateOk(s);
    case DoPublish(t) => PublishOk(s, t);
    case DoSchedule => ScheduleOk(s);
    case DoNewEntry => NewEntryOk(s);
    case DoPrepare(q, e, allowed) => PrepareOk(s, q, e, allowed);
    case DoFinish(e) => FinishOk(s, e);
    case DoWakeOne(q) => WakeOneOk(s, q);
    case DoWakeAll(q) => WakeFromOk(s, q, 0);
    case DoStop(t) => StopOk(s, t);
    case DoReapPop => ReapPopOk(s);
    case DoReapUnlink => ReapUnlinkOk(s);
    case DoReapFree => ReapFreeOk(s);
  }

  /** States and steps of one run. */
  ghost predicate Run(states: seq<Sys>, steps: seq<Step>) {
    && |states| == |steps| + 1 && Inv(states[0])
    && (forall i :: 0 <= i < |steps| && Inv(states[i]) ==>
      Enabled(states[i], steps[i]) && states[i + 1] == Next(states[i], steps[i]))
  }

  lemma {:induction false} RunInv(states: seq<Sys>, steps: seq<Step>, i: nat)
    requires Run(states, steps) && i < |states|
    ensures Inv(states[i])
  {
    hide Inv, Next;
    if i > 0 {
      RunInv(states, steps, i - 1);
      NextOk(states[i - 1], steps[i - 1]);
    }
  }

  /** A dead thread stays dead, and a freed one stays freed, so none is freed twice. */
  lemma DeathIsFinal(s: Sys, a: Step, t: nat)
    requires Inv(s) && Enabled(s, a)
    ensures Is(s, t, Freed) ==> Is(Next(s, a), t, Freed)
    ensures Is(s, t, Zombie) ==> Is(Next(s, a), t, Zombie) || (a == DoReapFree && CanFree(s) && s.reaping == t && Is(Next(s, a), t, Freed))
  {
    hide LinksMatch, NoDup, Minus, Cancel, FirstWaiter;
    match a
    case DoSchedule => HeadRunnable(s);
    case DoStop(u) => StopEffect(s, u);
    case DoWakeAll(q) => WakeKeeps(s, q, 0, t);
    case DoWakeOne(q) =>
      if FirstWaiter(s, q, 0) < |s.queues[q]| { QueueEntry(s, q, FirstWaiter(s, q, 0)); }
    case _ =>
  }

  lemma {:induction false} WakeKeeps(s: Sys, q: nat, i: nat, t: nat)
    requires LinksMatch(s) && q < |s.queues| && i <= |s.queues[q]|
    ensures Is(s, t, Freed) ==> Is(WakeFrom(s, q, i), t, Freed)
    ensures Is(s, t, Zombie) ==> Is(WakeFrom(s, q, i), t, Zombie)
    decreases |s.queues[q]| - i
  {
    if i < |s.queues[q]| {
      QueueEntry(s, q, i);
      WakeLinks(s, s.task[s.queues[q][i]]);
      WakeKeeps(WakeTask(s, s.task[s.queues[q][i]]), q, i + 1, t);
    }
  }

  lemma {:induction false} FreedForever(states: seq<Sys>, steps: seq<Step>, t: nat, i: nat, j: nat)
    requires Run(states, steps) && i <= j < |states| && Is(states[i], t, Freed)
    ensures Is(states[j], t, Freed)
  {
    hide Inv, Next;
    if i < j {
      FreedForever(states, steps, t, i, j - 1);
      RunInv(states, steps, j - 1);
      DeathIsFinal(states[j - 1], steps[j - 1], t);
    }
  }

  // ----- round robin is fair -----

  predicate QueuedAt(s: Sys, t: nat, k: nat) {
    k < |s.runq| && s.runq[k] == t
  }

  /** A step other than stopping `t` moves `t` towards the head; a schedule moves it by one, or runs it. */
  lemma Advance(s: Sys, a: Step, t: nat, k: nat) returns (k': nat)
    requires Inv(s) && Enabled(s, a) && QueuedAt(s, t, k) && a != DoStop(t)
    ensures a.DoSchedule? && k == 0 ==> Next(s, a).cur == t
    ensures a.DoSchedule? && k > 0 ==> k' == k - 1 && QueuedAt(Next(s, a), t, k')
    ensures !a.DoSchedule? ==> k' <= k && QueuedAt(Next(s, a), t, k')
  {
    k' := k;
    match a
    case DoSchedule => k' := if k == 0 then 0 else k - 1;
    case DoStop(u) =>
      if u != IDLE && Published(s, u) && !Is(s, u, Zombie) {
        RunqKeepsLinks(s, Minus(s.runq, u));
        CancelOk(s.(runq := Minus(s.runq, u)), u);
        k' := MinusPosition(s.runq, u, k);
      }
    case DoWakeAll(q) => WakeAppends(s, q, 0);
    case DoWakeOne(q) =>
      if FirstWaiter(s, q, 0) < |s.queues[q]| { QueueEntry(s, q, FirstWaiter(s, q, 0)); }
    case _ =>
  }

  lemma MinusPosition(s: seq<nat>, x: nat, k: nat) returns (k': nat)
    requires NoDup(s) && k < |s| && s[k] != x
    ensures k' <= k && k' < |Minus(s, x)| && Minus(s, x)[k'] == s[k]
  {
    if x in s {
      var i :| 0 <= i < |s| && s[i] == x;
      MinusAt(s, i);
      k' := if k < i then k else k - 1;
    } else {
      MinusAbsent(s, x);
      k' := k;
    }
  }

  lemma {:induction false} WakeAppends(s: Sys, q: nat, i: nat)
    requires LinksMatch(s) && q < |s.queues| && i <= |s.queues[q]|
    ensures s.runq <= WakeFrom(s, q, i).runq
    decreases |s.queues[q]| - i
  {
    if i < |s.queues[q]| {
      QueueEntry(s, q, i);
      WakeLinks(s, s.task[s.queues[q][i]]);
      WakeAppends(WakeTask(s, s.task[s.queues[q][i]]), q, i + 1);
    }
  }

  /** How many of the steps from `i` up to `j` call the scheduler. */
  function Schedules(steps: seq<Step>, i: nat, j: nat): nat
    requires i <= j <= |steps|
    decreases j - i
  {
    if i == j then 0 else (if steps[i].DoSchedule? then 1 else 0) + Schedules(steps, i + 1, j)
  }

  /** A thread at position `k` that nobody stops is current after at most `k + 1` calls of the scheduler. */
  lemma {:induction false} RunsWithin(states: seq<Sys>, steps: seq<Step>, t: nat, k: nat, i: nat, j: nat) returns (m: nat)
    requires Run(states, steps) && i <= j <= |steps| && QueuedAt(states[i], t, k)
    requires Schedules(steps, i, j) >= k + 1 && forall a :: i <= a < j ==> steps[a] != DoStop(t)
    ensures i < m <= j && states[m].cur == t && Schedules(steps, i, m) <= k + 1
    decreases j - i
  {
    hide Inv, Next;
    RunInv(states, steps, i);
    var k' := Advance(states[i], steps[i], t, k);
    if steps[i].DoSchedule? && k == 0 {
      m := i + 1;
    } else {
      m := RunsWithin(states, steps, t, k', i + 1, j);
    }
  }
}
