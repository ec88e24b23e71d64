/**
 The operations of kernel/src/sched.c, wait.c and thread.c on the linked structures, each proved
 to perform the corresponding step of the state machine in module Threads.
 */
module Kernel {
  import opened Links
  import opened Threads
  import opened ThreadEffects
  import opened KernelLists

  const INT32_MAX: nat := 0x7fff_ffff

  /** Thread identifiers are handed out in increasing order and never again. */
  ghost predicate TidsOk(tid: seq<int>, nextTid: nat) {
    && nextTid <= INT32_MAX + 1
    && (forall t :: 0 <= t < |tid| ==> 0 <= tid[t] < nextTid)
    && (forall t, u :: 0 <= t < u < |tid| ==> tid[t] != tid[u])
  }

  class Kernel {
    // struct thread, without its links
    var st: seq<ThreadState>
    var tid: seq<int>
    var tgid: seq<int>
    var isUser: seq<bool>
    // struct wait_entry, without its links
    var task: seq<int>
    var queue: seq<int>
    const runq: RunQueue
    const zombies: ThreadList
    const all: ThreadList
    const queues: WaitQueues
    const regs: Registrations
    var cur: nat
    var needResched: bool
    var nextTid: nat
    ghost var reaping: int

    ghost function Abs(): Sys
      reads this, runq, zombies, all, queues, regs
    {
      Sys(st, cur, runq.items, zombies.items, all.items, reaping, queues.lists, regs.lists, task, queue)
    }

    /** Every column has one row per thread or entry, and the lists are well linked. */
    ghost predicate Shape()
      reads this, runq, zombies, all, queues, regs
    {
      && zombies != all
      && runq.Valid() && zombies.Valid() && all.Valid() && queues.Valid() && regs.Valid()
      && |runq.next| == |st| && |zombies.next| == |st| && |all.next| == |st|
      && |tid| == |st| && |tgid| == |st| && |isUser| == |st|
      && |queues.links| == |task| && |regs.links| == |task|
      && TidsOk(tid, nextTid)
    }

    ghost predicate Valid()
      reads this, runq, zombies, all, queues, regs
    {
      Shape() && Inv(Abs())
    }

    /** After bootstrap only the boot thread exists, and it is running. */
    constructor (queueCount: nat)
      ensures Valid() && fresh(runq) && fresh(zombies) && fresh(all) && fresh(queues) && fresh(regs)
      ensures Abs() == Boot(queueCount)
    {
      hide Inv, LinksOk, Chain, NoDup, Last, RunQueue.Valid, ThreadList.Valid, WaitQueues.Valid, Registrations.Valid;
      st, tid, tgid, isUser := [Running], [0], [0], [false];
      task, queue := [], [];
      cur, needResched, nextTid, reaping := IDLE, false, 1, -1;
      runq := new RunQueue(1);
      zombies := new ThreadList(1);
      all := new ThreadList(1);
      queues := new WaitQueues(queueCount);
      regs := new Registrations(1);
      new;
      BootOk(queueCount);
      all.Push(IDLE);
      assert regs.lists == [[]];
      assert all.items == [IDLE];
      assert Abs() == Boot(queueCount);
      assert Shape();
    }

    // ----- scheduler -----

    /** Give the processor to `n`; a runnable worker that loses it goes to the tail of the queue. */
    method SwitchTo(n: nat)
      requires Shape() && cur < |st| && n < |st| && n != cur && cur !in runq.items
      modifies `st, `cur, runq
      ensures Shape() && Abs() == Switch(old(Abs()), n, old(runq.items))
    {
      hide LinksOk, Chain, NoDup, TidsOk, Last;
      var prev := cur;
      var parked := if st[prev] == Running then st[prev := Runnable] else st;
      st, cur := parked[n := Running], n;
      if parked[prev] == Runnable && prev != IDLE {
        runq.Enqueue(prev);
      }
    }

    /** `schedule`: the switch itself only changes the current thread. */
    method Schedule()
      requires Valid()
      modifies `st, `cur, `needResched, runq
      ensures Valid() && Abs() == Threads.Schedule(old(Abs())) && !needResched
      // The first queued thread runs, or idle; a worker that was running is queued last, nobody else is.
      ensures |st| == |old(st)| && cur == (if old(runq.items) == [] then IDLE else old(runq.items)[0]) < |st| && st[cur] == Running
      ensures old(cur != IDLE && cur < |st| && st[cur] == Running) ==>
        st[old(cur)] == Runnable && runq.items == (if old(runq.items) == [] then [] else old(runq.items)[1..]) + [old(cur)]
      ensures !old(cur != IDLE && cur < |st| && st[cur] == Running) ==>
        runq.items == (if old(runq.items) == [] then [] else old(runq.items)[1..])
      ensures forall t :: 0 <= t < |st| && t != cur && (t != old(cur) || old(st)[t] != Running) ==> st[t] == old(st)[t]
    {
      hide Inv, SchedOk, LinksOk, Chain, NoDup, Switch, TidsOk, Last, Threads.Schedule;
      SchedFacts(Abs());
      ScheduleOk(Abs());
      ScheduleEffect(Abs());
      ScheduleIs(Abs());
      needResched := false;
      ghost var s := Abs();
      var n := runq.Pop();
      // The popped thread is runnable and not the current one: the code's skip loop and same-thread exit are dead.
      assert n >= 0 ==> st[n] == Runnable && n != cur;
      if n < 0 {
        if cur == IDLE { return; }
        n := IDLE;
      }
      SwitchDropsHead(s, Abs(), n);
      SwitchTo(n);
    }

    // ----- wait registrations -----

    /** A zero-initialized wait entry, as declared on a waiter's stack. */
    method NewEntry() returns (e: nat)
      requires Valid()
      modifies `task, `queue, queues, regs
      ensures Valid() && Abs() == Threads.NewEntry(old(Abs())) && e == old(|task|)
      ensures task == old(task) + [-1] && queue == old(queue) + [-1] && queues.lists == old(queues.lists) && regs.lists == old(regs.lists)
    {
      hide Inv, TidsOk, RunQueue.Valid, ThreadList.Valid, WaitQueues.Valid, Registrations.Valid;
      NewEntryOk(Abs());
      e := |task|;
      task, queue := task + [-1], queue + [-1];
      queues.Extend();
      regs.Extend();
    }

    /** Register entry `e` of the current thread with queue `q` and mark the thread as waiting. */
    method Register(q: nat, e: nat)
      requires Shape() && q < |queues.lists| && cur < |regs.lists| == |st| && e < |task| == |queue|
      requires !OnList(queues.lists, e) && !OnList(regs.lists, e)
      modifies `st, `task, `queue, queues, regs
      ensures Shape() && st == old(st)[cur := Waiting] && task == old(task)[e := cur] && queue == old(queue)[e := q]
      ensures queues.lists == old(queues.lists)[q := old(queues.lists[q]) + [e]]
      ensures regs.lists == old(regs.lists)[cur := [e] + old(regs.lists[cur])]
    {
      hide OnList, TidsOk, RunQueue.Valid, ThreadList.Valid, WaitQueues.Valid, Registrations.Valid;
      queues.Append(q, e);
      regs.Push(cur, e);
      task, queue, st := task[e := cur], queue[e := q], st[cur := Waiting];
    }

    /** `wait_queue_prepare_locked`. */
    method Prepare(q: nat, e: nat, allowed: bool) returns (ok: bool)
      requires Valid() && q < |queues.lists| && e < |task|
      modifies `st, `task, `queue, queues, regs
      ensures Valid() && Abs() == Threads.Prepare(old(Abs()), q, e, allowed)
      ensures ok <==> CanPrepare(old(Abs()), q, e, allowed)
      ensures !ok ==> Abs() == old(Abs())
      ensures ok ==> cur < |old(st)| == |old(regs.lists)| && e < |old(task)| == |old(queue)|
      ensures ok ==> st == old(st)[cur := Waiting] && task == old(task)[e := cur] && queue == old(queue)[e := q]
      ensures ok ==> queues.lists == old(queues.lists)[q := old(queues.lists[q]) + [e]]
      ensures ok ==> regs.lists == old(regs.lists)[cur := [e] + old(regs.lists[cur])]
    {
      hide Inv, Shape, OnList;
      PrepareFacts(Abs(), q, e, allowed);
      PrepareOk(Abs(), q, e, allowed);
      ok := allowed && cur != IDLE && (st[cur] == Running || st[cur] == Waiting) && task[e] == -1 && queue[e] == -1;
      if ok {
        Register(q, e);
      }
    }

    /**
     `wait_queue_wait_locked`: give up the processor unless a wake-up already arrived. A thread with
     no registration, or one that may not sleep, is refused.
     */
    method WaitLocked(allowed: bool) returns (ok: bool)
      requires Valid()
      modifies `st, `cur, `needResched, runq
      ensures Valid() && (ok <==> allowed && MayWait(old(Abs()), old(cur)) && old(regs.lists)[old(cur)] != [])
      ensures Abs() == if ok && old(st)[old(cur)] == Waiting then Threads.Schedule(old(Abs())) else old(Abs())
    {
      hide Inv, SchedOk, TidsOk;
      SchedFacts(Abs());
      WaitFacts(Abs());
      LinkedBounds(regs.links, regs.heads, regs.lists, cur);
      ok := allowed && cur != IDLE && regs.heads[cur] >= 0 && (st[cur] == Waiting || st[cur] == Running);
      if ok && st[cur] == Waiting {
        Schedule();
      }
    }

    /** Detach a linked entry from both of its lists. */
    method Detach(e: nat)
      requires Shape() && LinksMatch(Abs()) && Registered(Abs(), e)
      modifies `task, `queue, queues, regs
      ensures Shape() && Abs() == Unlink(old(Abs()), e)
      ensures task == old(task)[e := -1] && queue == old(queue)[e := -1]
      ensures 0 <= old(queue[e]) < |old(queues.lists)| && 0 <= old(task[e]) < |old(regs.lists)|
      ensures queues.lists == old(queues.lists)[old(queue[e]) := Minus(old(queues.lists[queue[e]]), e)]
      ensures regs.lists == old(regs.lists)[old(task[e]) := Minus(old(regs.lists[task[e]]), e)]
    {
      hide Minus, LinksMatch, TidsOk, RunQueue.Valid, ThreadList.Valid, WaitQueues.Valid, Registrations.Valid;
      EntryFacts(Abs(), e);
      queues.Unlink(queue[e], e);
      regs.Unlink(task[e], e);
      task, queue := task[e := -1], queue[e := -1];
    }

    /** `wait_queue_finish_locked`. */
    method Finish(e: nat)
      requires Shape() && LinksMatch(Abs()) && e < |task|
      modifies `st, `task, `queue, queues, regs
      ensures Shape() && LinksMatch(Abs()) && Abs() == Threads.Finish(old(Abs()), e)
      ensures old(queue[e]) == -1 ==> Abs() == old(Abs())
      ensures old(queue[e]) != -1 ==> task == old(task)[e := -1] && queue == old(queue)[e := -1]
      ensures old(queue[e]) != -1 ==> 0 <= old(queue[e]) < |old(queues.lists)| && 0 <= old(task[e]) < |old(regs.lists)| == |old(st)|
      ensures old(queue[e]) != -1 ==> queues.lists == old(queues.lists)[old(queue[e]) := Minus(old(queues.lists[queue[e]]), e)]
      ensures old(queue[e]) != -1 ==> regs.lists == old(regs.lists)[old(task[e]) := Minus(old(regs.lists[task[e]]), e)]
      // Only a current thread that waits for nothing any more changes state.
      ensures old(queue[e]) != -1 ==>
        st == if old(task[e]) == cur && old(st[task[e]]) == Waiting && regs.lists[cur] == [] then old(st)[cur := Running] else old(st)
    {
      hide LinksMatch, TidsOk, Unlink, RunQueue.Valid, ThreadList.Valid, WaitQueues.Valid;
      FinishLinks(Abs(), e);
      QueueColumn(Abs(), e);
      if queue[e] == -1 { return; }
      var t := task[e];
      UnlinkKeepsThreads(Abs(), e);
      Detach(e);
      QueueHead(regs.links, regs.heads, regs.lists, t);
      if t == cur && st[t] == Waiting && regs.heads[t] == -1 {
        st := st[t := Running];
      }
    }

    /** `wait_queue_cancel_locked`. */
    method Cancel(t: nat)
      requires Shape() && LinksMatch(Abs()) && t < |regs.lists|
      modifies `st, `task, `queue, queues, regs
      ensures Shape() && LinksMatch(Abs()) && Abs() == Threads.Cancel(old(Abs()), t)
      ensures |queues.lists| == |old(queues.lists)| && forall q :: 0 <= q < |queues.lists| ==> queues.lists[q] == Others(old(Abs()), old(queues.lists)[q], t)
    {
      CancelLists(Abs(), t);
      hide LinksMatch, TidsOk, RunQueue.Valid, ThreadList.Valid, WaitQueues.Valid, Threads.Finish;
      QueueHead(regs.links, regs.heads, regs.lists, t);
      while regs.heads[t] >= 0
        invariant Shape() && LinksMatch(Abs()) && |regs.lists| == old(|regs.lists|) == |regs.heads|
        invariant regs.heads[t] == Nth(regs.lists[t], 0)
        invariant Threads.Cancel(Abs(), t) == Threads.Cancel(old(Abs()), t)
        decreases |regs.lists[t]|
      {
        CancelStep(Abs(), t);
        Finish(regs.heads[t]);
        QueueHead(regs.links, regs.heads, regs.lists, t);
      }
    }

    /** `wake_waiter_locked`: the first of several wake-ups queues the sleeper, the others do nothing. */
    method WakeWaiter(e: nat) returns (woken: bool)
      requires Valid() && Registered(Abs(), e)
      modifies `st, `needResched, runq
      ensures Valid() && 0 <= task[e] < old(|st|) && Abs() == WakeTask(old(Abs()), task[e])
      ensures woken <==> old(st)[task[e]] == Waiting
      ensures !woken ==> st == old(st) && runq.items == old(runq.items)
      ensures woken && task[e] == cur ==> st == old(st)[cur := Running] && runq.items == old(runq.items)
      ensures woken && task[e] != cur ==> st == old(st)[task[e] := Runnable] && runq.items == old(runq.items) + [task[e]]
      ensures needResched <==> old(needResched) || (woken && task[e] != cur)
    {
      hide Inv, TidsOk, Registered, ThreadList.Valid, WaitQueues.Valid, Registrations.Valid, RunQueue.Valid;
      EntryOwner(Abs(), e);
      WakeTaskOk(Abs(), task[e]);
      WaitingNotQueued(Abs(), task[e]);
      var t := task[e];
      woken := st[t] == Waiting;
      if woken {
        if t == cur {
          st := st[t := Running];
        } else {
          st := st[t := Runnable];
          runq.Enqueue(t);
          needResched := true;
        }
      }
    }

    method WakeOne(q: nat)
      requires Valid() && q < |queues.lists|
      modifies `st, `needResched, runq
      ensures Valid() && Abs() == Threads.WakeOne(old(Abs()), q)
      ensures WokeUp(old(Abs()), Abs(), Upto(Asleep(old(Abs()), old(queues.lists[q])), 1))
    {
      hide WokeUp, Asleep, Inv, TidsOk, Registered, ThreadList.Valid, Registrations.Valid, RunQueue.Valid, LinksMatch, Last, WakeTask;
      LinksFacts(Abs());
      WakeOneEffect(Abs(), q);
      QueueHead(queues.links, queues.heads, queues.lists, q);
      var e := queues.heads[q];
      ghost var i := 0;
      while e >= 0
        invariant Valid() && Abs() == old(Abs())
        invariant 0 <= i <= |queues.lists[q]| && e == Nth(queues.lists[q], i)
        invariant FirstWaiter(Abs(), q, i) == FirstWaiter(Abs(), q, 0)
        decreases |queues.lists[q]| - i
      {
        QueueEntry(Abs(), q, i);
        QueueNext(queues.links, queues.heads, queues.lists, q, i);
        ghost var s := Abs();
        var woken := WakeWaiter(e);
        if woken { return; }
        assert Abs() == s by { WakeAwake(s, task[e]); }
        e := queues.links[e].next;
        i := i + 1;
      }
    }

    method WakeAll(q: nat)
      requires Valid() && q < |queues.lists|
      modifies `st, `needResched, runq
      ensures Valid() && Abs() == Threads.WakeAll(old(Abs()), q)
      ensures WokeUp(old(Abs()), Abs(), Asleep(old(Abs()), old(queues.lists[q])))
    {
      hide WokeUp, Asleep, Inv, TidsOk, Registered, ThreadList.Valid, Registrations.Valid, RunQueue.Valid, LinksMatch, Last, WakeTask;
      LinksFacts(Abs());
      WakeAllEffect(Abs(), q);
      QueueHead(queues.links, queues.heads, queues.lists, q);
      var e := queues.heads[q];
      ghost var i := 0;
      while e >= 0
        invariant Valid() && LinksMatch(Abs())
        invariant 0 <= i <= |queues.lists[q]| && e == Nth(queues.lists[q], i)
        invariant WakeFrom(Abs(), q, i) == WakeFrom(old(Abs()), q, 0)
        decreases |queues.lists[q]| - i
      {
        QueueEntry(Abs(), q, i);
        QueueNext(queues.links, queues.heads, queues.lists, q, i);
        ghost var s := Abs();
        var woken := WakeWaiter(e);
        LinksFacts(Abs());
        e := queues.links[e].next;
        i := i + 1;
      }
    }

    // ----- creation -----

    /**
     `thread_alloc`: an identifier is used up even when memory (`memory`) runs out. The new thread is
     private: it is on no list.
     */
    method Alloc(memory: bool) returns (t: int)
      requires Valid()
      modifies `st, `tid, `tgid, `isUser, `nextTid, runq, zombies, all, regs
      ensures Valid() && (t >= 0 <==> memory && old(nextTid) <= INT32_MAX)
      ensures t >= 0 ==> Abs() == Create(old(Abs())) && t == old(|st|) && tid == old(tid) + [old(nextTid)]
      ensures t >= 0 ==> st == old(st) + [New] && runq.items == old(runq.items) && all.items == old(all.items) && zombies.items == old(zombies.items)
      ensures t >= 0 ==> tgid == old(tgid) + [old(nextTid)] && isUser == old(isUser) + [false]
      ensures t < 0 ==> Abs() == old(Abs()) && tid == old(tid)
      ensures nextTid == if old(nextTid) <= INT32_MAX then old(nextTid) + 1 else old(nextTid)
    {
      hide Inv, TidsOk, ThreadList.Valid, WaitQueues.Valid, Registrations.Valid, RunQueue.Valid;
      CreateOk(Abs());
      TidsNext(tid, nextTid);
      if nextTid > INT32_MAX { return -1; }
      var id := nextTid;
      nextTid := nextTid + 1;
      if !memory { return -1; }
      t := |st|;
      st, tid, tgid, isUser := st + [New], tid + [id], tgid + [id], isUser + [false];
      runq.Extend();
      zombies.Extend();
      all.Extend();
      regs.ExtendThreads();
    }

    /** `thread_publish`: a new thread goes on the thread list and the run queue; no other thread does. */
    method Publish(t: nat)
      requires Valid() && t < |st|
      modifies `st, runq, all
      ensures Valid() && Abs() == Threads.Publish(old(Abs()), t)
      ensures old(st)[t] == New ==> st == old(st)[t := Runnable] && runq.items == old(runq.items) + [t] && all.items == [t] + old(all.items)
      ensures old(st)[t] != New ==> st == old(st) && runq.items == old(runq.items) && all.items == old(all.items)
    {
      hide Inv, TidsOk, ThreadList.Valid, WaitQueues.Valid, Registrations.Valid, RunQueue.Valid;
      PublishOk(Abs(), t);
      if st[t] == New {
        NewIsOut(Abs(), t);
        st := st[t := Runnable];
        all.Push(t);
        runq.Enqueue(t);
      }
    }

    /**
     `thread_create_user`: a thread in the process of the current one. `entryOk` is the check of the
     entry and return addresses; the two memory flags say whether the heap can serve the user stack
     and the thread. A refused call publishes nothing.
     */
    method CreateUser(entryOk: bool, stackMemory: bool, memory: bool) returns (id: int)
      requires Valid()
      modifies `st, `tid, `tgid, `isUser, `nextTid, runq, zombies, all, regs
      ensures Valid()
      ensures id >= 0 <==> old(isUser[cur]) && old(st[cur]) != Zombie && entryOk && stackMemory && memory && old(nextTid) <= INT32_MAX
      ensures id < 0 ==> id == -1 && Abs() == old(Abs()) && tid == old(tid)
      ensures id >= 0 ==> var t := old(|st|);
        && Abs() == Threads.Publish(Create(old(Abs())), t) && tid == old(tid) + [id] && id !in old(tid)
        && st == old(st) + [Runnable] && runq.items == old(runq.items) + [t] && all.items == [t] + old(all.items)
        && isUser == old(isUser) + [true] && tgid == old(tgid) + [old(tgid[cur])]
    {
      hide Inv, ThreadList.Valid, WaitQueues.Valid, Registrations.Valid, RunQueue.Valid, Threads.Publish;
      SchedFacts(Abs());
      if !isUser[cur] || st[cur] == Zombie || !entryOk || !stackMemory { return -1; }
      var t := Alloc(memory);
      if t < 0 { return -1; }
      isUser, tgid := isUser[t := true], tgid[t := tgid[cur]];
      Publish(t);
      return tid[t];
    }

    /** A published thread with identifier `id`, or -1. */
    method FindByTid(id: int) returns (t: int)
      requires Valid()
      ensures t >= 0 ==> t in all.items && t < |st| && tid[t] == id
      ensures t < 0 ==> t == -1 && forall u :: u in all.items && u < |st| ==> tid[u] != id
    {
      hide Inv, TidsOk, WaitQueues.Valid, Registrations.Valid, RunQueue.Valid;
      t := all.head;
      ghost var i := 0;
      while t >= 0
        invariant 0 <= i <= |all.items| && t == Nth(all.items, i)
        invariant forall j :: 0 <= j < i ==> tid[all.items[j]] != id
        decreases |all.items| - i
      {
        if tid[t] == id { return; }
        assert all.next[all.items[i]] == Nth(all.items, i + 1);
        t := all.next[t];
        i := i + 1;
      }
    }

    // ----- end of life -----

    /** Take thread `t` off the run queue and all wait queues and make it a zombie. */
    method Bury(t: nat)
      requires Shape() && LinksMatch(Abs()) && t < |regs.lists| == |st| && t !in zombies.items && (t == cur ==> t !in runq.items)
      modifies `st, `task, `queue, runq, zombies, queues, regs
      ensures Shape() && Abs() == Threads.Bury(old(Abs()), t)
      ensures zombies.items == [t] + old(zombies.items) && runq.items == Minus(old(runq.items), t) && |st| == |old(st)|
      ensures |regs.lists| == |st| && regs.lists[t] == []
      ensures forall u :: 0 <= u < |st| ==> st[u] == if u == t then Zombie else old(st)[u]
    {
      hide LinksMatch, TidsOk, ThreadList.Valid, WaitQueues.Valid, Registrations.Valid, RunQueue.Valid, Threads.Cancel, Minus;
      RunqKeepsLinks(Abs(), Minus(runq.items, t));
      if t != cur {
        runq.Remove(t);
      } else {
        MinusAbsent(runq.items, t);
      }
      CancelOk(Abs(), t);
      Cancel(t);
      st := st[t := Zombie];
      zombies.Push(t);
    }

    /** `thread_mark_current_zombie`. */
    method MarkCurrentZombie()
      requires Valid()
      modifies `st, `task, `queue, runq, zombies, queues, regs
      ensures Valid() && Abs() == Stop(old(Abs()), cur)
      ensures old(cur == IDLE || Is(Abs(), cur, Zombie)) ==> Abs() == old(Abs())
      ensures !old(cur == IDLE || Is(Abs(), cur, Zombie)) ==> Buried(old(Abs()), Abs(), cur)
    {
      hide Inv, Shape, Threads.Bury, Buried;
      BuriedIf(Abs(), cur);
      StopOk(Abs(), cur);
      SchedFacts(Abs());
      StopFacts(Abs(), cur);
      if cur == IDLE || st[cur] == Zombie { return; }
      Bury(cur);
    }

    /** `thread_stop_tid`: stop the thread with this identifier; unknown and idle threads are refused. */
    method StopTid(id: int) returns (ok: bool)
      requires Valid()
      modifies `st, `task, `queue, runq, zombies, queues, regs
      ensures Valid() && (ok <==> exists t :: t in all.items && 0 <= t < |tid| && tid[t] == id && t != IDLE)
      ensures forall t :: t in all.items && 0 <= t < |tid| && tid[t] == id ==> Abs() == Stop(old(Abs()), t)
      ensures !ok ==> Abs() == old(Abs())
      ensures forall t :: t in all.items && 0 <= t < |tid| && tid[t] == id && t != IDLE ==>
        if Is(old(Abs()), t, Zombie) then Abs() == old(Abs()) else Buried(old(Abs()), Abs(), t)
    {
      hide Buried, Inv, Threads.Bury, LinksMatch, WaitQueues.Valid, Registrations.Valid, RunQueue.Valid, ThreadList.Valid;
      LinksFacts(Abs());
      var t := FindByTid(id);
      assert t >= 0 ==> forall u :: 0 <= u < |tid| && tid[u] == id ==> u == t;
      if t < 0 || t == IDLE { return false; }
      ok := true;
      BuriedIf(Abs(), t);
      StopOk(Abs(), t);
      StopFacts(Abs(), t);
      if t == cur {
        MarkCurrentZombie();
      } else if st[t] != Zombie {
        Bury(t);
      }
    }

    /** The reaper's first section: take the first zombie that is not running. */
    method ReapPop() returns (z: int)
      requires Valid() && reaping == -1
      modifies `reaping, zombies
      ensures Valid() && Abs() == Threads.ReapPop(old(Abs())) && z == reaping
      ensures z == if old(zombies.items) == [] || old(zombies.items)[0] == cur then -1 else old(zombies.items)[0]
      ensures zombies.items == if z == -1 then old(zombies.items) else old(zombies.items)[1..]
    {
      hide Inv, TidsOk, WaitQueues.Valid, Registrations.Valid, RunQueue.Valid;
      ReapPopOk(Abs());
      z := zombies.head;
      if z == -1 || z == cur { return -1; }
      zombies.DropFirst();
      reaping := z;
    }

    method ReapUnlink(z: nat)
      requires Valid() && z == reaping
      modifies all
      ensures Valid() && Abs() == Threads.ReapUnlink(old(Abs())) && CanFree(Abs()) && all.items == Minus(old(all.items), z)
    {
      hide Inv, TidsOk, ThreadList.Valid, WaitQueues.Valid, Registrations.Valid, RunQueue.Valid;
      ReapUnlinkOk(Abs());
      all.Remove(z);
    }

    /** The thread's stacks and control block go back to the heap. */
    method ReapFree(z: nat)
      requires Valid() && z == reaping && CanFree(Abs())
      modifies `st, `reaping
      ensures Valid() && Abs() == Threads.ReapFree(old(Abs()))
      ensures z < |old(st)| && st == old(st)[z := Freed] && reaping == -1
    {
      hide Inv, TidsOk, ThreadList.Valid, WaitQueues.Valid, Registrations.Valid, RunQueue.Valid;
      ReapFreeOk(Abs());
      st, reaping := st[z := Freed], -1;
    }

    /** The threads of process `group`. */
    ghost function Group(group: int): set<nat>
      reads this
    {
      set t: nat | t < |isUser| == |tgid| && isUser[t] && tgid[t] == group
    }

    /** `thread_stop_process`: by group, because the first thread of the process may have exited. */
    method StopProcess(group: int) returns (found: bool)
      requires Valid()
      modifies `st, `task, `queue, runq, zombies, queues, regs
      ensures Valid() && Abs() == StopGroup(old(Abs()), Group(group), 0)
      ensures found <==> exists t :: t in all.items && t in Group(group)
      ensures |st| == |old(st)| == |isUser| == |tgid| && all.items == old(all.items)
      ensures forall u :: 0 <= u < |st| ==>
        st[u] == if u in all.items && isUser[u] && tgid[u] == group && u != IDLE then Zombie else old(st)[u]
    {
      hide Inv, StopGroup, TidsOk, WaitQueues.Valid, Registrations.Valid, RunQueue.Valid, ThreadList.Valid;
      found := StopMembers(group);
      StopGroupEffect(old(Abs()), Group(group), 0);
      assert old(all.items)[0..] == old(all.items);
    }

    method StopMembers(group: int) returns (found: bool)
      requires Valid()
      modifies `st, `task, `queue, runq, zombies, queues, regs
      ensures Valid() && Abs() == StopGroup(old(Abs()), Group(group), 0)
      ensures found <==> exists t :: t in all.items && t in Group(group)
    {
      hide Inv, TidsOk, WaitQueues.Valid, Registrations.Valid, RunQueue.Valid, Stop, Buried;
      var c := all.head;
      ghost var i := 0;
      found := false;
      while c >= 0
        invariant Valid() && all.items == old(all.items) && unchanged(all)
        invariant 0 <= i <= |all.items| && c == Nth(all.items, i)
        invariant StopGroup(Abs(), Group(group), i) == StopGroup(old(Abs()), Group(group), 0)
        invariant found <==> exists j :: 0 <= j < i && all.items[j] in Group(group)
        decreases |all.items| - i
      {
        if isUser[c] && tgid[c] == group {
          StopOk(Abs(), c);
          StopEffect(Abs(), c);
          var ok := StopTid(tid[c]);
          found := true;
        }
        assert all.next[all.items[i]] == Nth(all.items, i + 1);
        c := all.next[c];
        i := i + 1;
      }
    }

    /**
     `thread_reap_zombies`, run to its end: every zombie ahead of the caller on the list is freed, and if
     the caller is not a zombie itself none is left.
     */
    method ReapZombies()
      requires Valid() && reaping == -1
      modifies `st, `reaping, zombies, all
      ensures Valid() && reaping == -1 && |st| == old(|st|)
      ensures zombies.items == [] || zombies.items[0] == cur
      ensures old(st[cur]) != Zombie ==> forall t :: 0 <= t < |st| ==> st[t] == if old(st)[t] == Zombie then Freed else old(st)[t]
      ensures forall t :: 0 <= t < |st| ==> st[t] == old(st)[t] || (old(st)[t] == Zombie && st[t] == Freed)
    {
      hide Inv, TidsOk, WaitQueues.Valid, Registrations.Valid, RunQueue.Valid, ThreadList.Valid;
      while true
        invariant Valid() && reaping == -1 && |st| == old(|st|)
        invariant forall t :: 0 <= t < |st| ==> st[t] == old(st)[t] || (old(st)[t] == Zombie && st[t] == Freed)
        decreases |zombies.items|
      {
        ghost var s := Abs();
        var z := ReapPop();
        ReapFacts(s);
        if z == -1 { break; }
        ReapUnlink(z);
        ReapFree(z);
      }
    }

    method HasLiveWorkers() returns (found: bool)
      requires Valid()
      ensures found <==> exists t :: t in all.items && t < |st| && t != IDLE && st[t] != Zombie
    {
      hide Inv, TidsOk, WaitQueues.Valid, Registrations.Valid, RunQueue.Valid;
      var c := all.head;
      ghost var i := 0;
      while c >= 0
        invariant 0 <= i <= |all.items| && c == Nth(all.items, i)
        invariant forall j :: 0 <= j < i ==> all.items[j] == IDLE || st[all.items[j]] == Zombie
        decreases |all.items| - i
      {
        if c != IDLE && st[c] != Zombie { return true; }
        assert all.next[all.items[i]] == Nth(all.items, i + 1);
        c := all.next[c];
        i := i + 1;
      }
      return false;
    }
  }

  lemma ScheduleIs(s: Sys)
    requires SchedOk(s)
    ensures s.runq == [] && s.cur == IDLE ==> Threads.Schedule(s) == s
    ensures s.runq == [] && s.cur != IDLE ==> s.cur < |s.st| && IDLE < |s.st| && Threads.Schedule(s) == Switch(s, IDLE, [])
    ensures s.runq != [] ==> s.cur < |s.st| && s.runq[0] < |s.st| && Threads.Schedule(s) == Switch(s, s.runq[0], s.runq[1..])
  {
    HeadRunnable(s);
  }

  /** `Switch` overwrites the queue, so it does not matter that the head is already gone. */
  lemma SwitchDropsHead(s: Sys, r: Sys, n: nat)
    requires s.cur < |s.st| && n < |s.st| && r == s.(runq := r.runq)
    ensures Switch(r, n, r.runq) == Switch(s, n, r.runq)
  {
  }

  lemma PrepareFacts(s: Sys, q: nat, e: nat, allowed: bool)
    requires Inv(s) && q < |s.queues| && e < |s.task|
    ensures s.cur < |s.st| == |s.regs| && |s.queue| == |s.task|
    ensures CanPrepare(s, q, e, allowed) ==> !OnList(s.queues, e) && !OnList(s.regs, e)
  {
    assert s.task[e] == -1 ==> !Registered(s, e);
  }

  lemma WaitFacts(s: Sys)
    requires Inv(s)
    ensures s.cur < |s.st| == |s.regs| && s.st[s.cur] in {Running, Waiting, Zombie}
  {
  }

  lemma EntryFacts(s: Sys, e: nat)
    requires LinksMatch(s) && Registered(s, e)
    ensures 0 <= s.queue[e] < |s.queues| && e in s.queues[s.queue[e]]
    ensures 0 <= s.task[e] < |s.regs| && e in s.regs[s.task[e]]
  {
  }

  lemma QueueColumn(s: Sys, e: nat)
    requires LinksMatch(s) && e < |s.task|
    ensures |s.queue| == |s.task| && (s.queue[e] == -1 <==> !Registered(s, e))
    ensures Registered(s, e) ==> 0 <= s.task[e] < |s.st| == |s.regs|
  {
  }

  /** The next identifier is new. */
  lemma TidsNext(tid: seq<int>, nextTid: nat)
    requires TidsOk(tid, nextTid)
    ensures nextTid <= INT32_MAX ==> TidsOk(tid, nextTid + 1) && TidsOk(tid + [nextTid], nextTid + 1) && nextTid !in tid
  {
  }

  lemma UnlinkKeepsThreads(s: Sys, e: nat)
    requires LinksMatch(s) && Registered(s, e)
    ensures |Unlink(s, e).regs| == |s.regs|
  {
  }

  lemma EntryOwner(s: Sys, e: nat)
    requires Inv(s) && Registered(s, e)
    ensures e < |s.task| && 0 <= s.task[e] < |s.st|
  {
  }

  lemma WaitingNotQueued(s: Sys, t: nat)
    requires Inv(s)
    ensures Is(s, t, Waiting) ==> t !in s.runq
  {
  }

  lemma WakeAwake(s: Sys, t: nat)
    requires t < |s.st| && s.st[t] != Waiting
    ensures WakeTask(s, t) == s
  {
  }

  lemma QueueHead(ls: seq<Link>, heads: seq<int>, lists: seq<seq<nat>>, q: nat)
    requires LinksOk(ls, heads, lists) && q < |lists|
    ensures |heads| == |lists| && heads[q] == Nth(lists[q], 0)
  {
  }

  lemma QueueNext(ls: seq<Link>, heads: seq<int>, lists: seq<seq<nat>>, q: nat, i: nat)
    requires LinksOk(ls, heads, lists) && q < |lists| && i < |lists[q]|
    ensures lists[q][i] < |ls| && ls[lists[q][i]].next == Nth(lists[q], i + 1)
  {
    assert Linked(ls, lists[q]);
  }

  lemma ReapFacts(s: Sys)
    requires Inv(s) && s.reaping == -1
    ensures var s' := Threads.ReapPop(s);
            && (s'.reaping == -1 ==> s' == s && (s.zombies == [] || s.zombies[0] == s.cur))
            && (s'.reaping != -1 ==> 0 <= s'.reaping < |s.st| && s.st[s'.reaping] == Zombie && |s'.zombies| < |s.zombies|)
    ensures s.cur < |s.st| && (s.zombies != [] ==> s.zombies[0] < |s.st| && s.st[s.zombies[0]] == Zombie)
    ensures s.zombies == [] ==> forall t :: 0 <= t < |s.st| ==> s.st[t] != Zombie
  {
    assert s.zombies != [] ==> s.zombies[0] in s.zombies;
    assert forall t: nat :: t < |s.st| && s.st[t] == Zombie ==> Is(s, t, Zombie);
  }

  lemma StopFacts(s: Sys, t: nat)
    requires Inv(s)
    ensures LinksMatch(s) && |s.regs| == |s.st| && (t == s.cur ==> t !in s.runq)
    ensures t in s.all ==> Published(s, t)
    ensures t < |s.st| && s.st[t] != Zombie ==> t !in s.zombies
    ensures Published(s, s.cur)
  {
  }
}
