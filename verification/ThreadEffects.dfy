/**
 What the steps of module Threads do, thread by thread: who runs after a schedule, who is woken and in which order,
 and what a stop leaves behind.
 */
module ThreadEffects {
  import opened Links
  import opened Threads

  // ----- scheduling -----

  /** The threads queued behind the one that runs next. */
  function Behind(s: Sys): seq<nat> {
    if s.runq == [] then [] else s.runq[1..]
  }

  /**
   The first queued thread runs, or idle if there is none. A worker that was running is queued last; idle, a waiting
   thread and a dead one are not queued, and the latter two keep their state.
   */
  lemma ScheduleEffect(s: Sys)
    requires Inv(s)
    ensures var s', next := Schedule(s), if s.runq == [] then IDLE else s.runq[0];
            && s' == s.(st := s'.st, cur := s'.cur, runq := s'.runq) && |s'.st| == |s.st|
            && s'.cur == next && Is(s', next, Running)
            && (Is(s, s.cur, Running) && s.cur != IDLE ==> Is(s', s.cur, Runnable) && s'.runq == Behind(s) + [s.cur])
            && (!(Is(s, s.cur, Running) && s.cur != IDLE) ==> s'.runq == Behind(s))
            && (s.cur == IDLE != next ==> Is(s', IDLE, Runnable))
            && (!Is(s, s.cur, Running) ==> s'.st[s.cur] == s.st[s.cur])
            && (forall t :: 0 <= t < |s.st| && t != s.cur && t != next ==> s'.st[t] == s.st[t])
  {
    hide WaitOk, LifeOk, NoDup;
    HeadRunnable(s);
    SchedFacts(s);
  }

  /** In a run, a schedule with nobody queued makes idle current, and idle can then reap whatever is dead. */
  lemma IdleRuns(states: seq<Sys>, steps: seq<Step>, i: nat)
    requires Run(states, steps) && i < |steps| && steps[i] == DoSchedule && states[i].runq == []
    ensures var s := states[i + 1];
            && s.cur == IDLE && Is(s, IDLE, Running)
            && (s.reaping == -1 && s.zombies != [] ==> ReapPop(s).reaping == s.zombies[0])
  {
    hide Inv, Next, Schedule;
    RunInv(states, steps, i);
    RunInv(states, steps, i + 1);
    ScheduleEffect(states[i]);
    ScheduleStep(states[i]);
    IdleReaps(states[i + 1]);
  }

  lemma ScheduleStep(s: Sys)
    requires Inv(s)
    ensures Next(s, DoSchedule) == Schedule(s)
  {
  }

  lemma IdleReaps(s: Sys)
    requires Inv(s) && s.cur == IDLE
    ensures s.reaping == -1 && s.zombies != [] ==> ReapPop(s).reaping == s.zombies[0]
  {
    assert s.zombies != [] ==> s.zombies[0] in s.zombies;
  }

  // ----- waking -----

  /** The sleeping owners of the entries, each once, in the order of their first entry. */
  function Asleep(s: Sys, es: seq<nat>): seq<nat> {
    if es == [] then [] else
      var w, e := Asleep(s, es[..|es| - 1]), es[|es| - 1];
      if Sleeps(s, e) && s.task[e] !in w then w + [s.task[e]] else w
  }

  lemma {:induction false} AsleepFacts(s: Sys, es: seq<nat>)
    ensures NoDup(Asleep(s, es))
    ensures forall t :: t in Asleep(s, es) <==> exists i :: 0 <= i < |es| && Sleeps(s, es[i]) && s.task[es[i]] == t
  {
    if es != [] {
      var front, e := es[..|es| - 1], es[|es| - 1];
      var w := Asleep(s, front);
      AsleepFacts(s, front);
      forall t ensures t in Asleep(s, es) <==> exists i :: 0 <= i < |es| && Sleeps(s, es[i]) && s.task[es[i]] == t {
        if t in w {
          var i :| 0 <= i < |front| && Sleeps(s, front[i]) && s.task[front[i]] == t;
          assert es[i] == front[i];
        }
        if i :| 0 <= i < |es| && Sleeps(s, es[i]) && s.task[es[i]] == t {
          assert i < |front| ==> front[i] == es[i];
        }
      }
    }
  }

  /** The sleepers are ordered as they registered: the earlier one has an entry ahead of all entries of the later. */
  lemma {:induction false} AsleepOrder(s: Sys, es: seq<nat>, a: nat, b: nat) returns (i: nat)
    requires a < b < |Asleep(s, es)|
    ensures i < |es| && Sleeps(s, es[i]) && s.task[es[i]] == Asleep(s, es)[a]
    ensures forall j :: 0 <= j <= i && Sleeps(s, es[j]) ==> s.task[es[j]] != Asleep(s, es)[b]
  {
    var n := |es| - 1;
    var front, w := es[..n], Asleep(s, es[..n]);
    if b < |w| {
      i := AsleepOrder(s, front, a, b);
      assert forall j :: 0 <= j <= i ==> front[j] == es[j];
    } else {
      AsleepFacts(s, front);
      assert w[a] in w;
      i :| 0 <= i < |front| && Sleeps(s, front[i]) && s.task[front[i]] == w[a];
      forall j | 0 <= j <= i && Sleeps(s, es[j]) ensures s.task[es[j]] != Asleep(s, es)[b] {
        assert front[j] == es[j] && s.task[front[j]] in w;
      }
    }
  }

  lemma {:induction false} AsleepPrefix(s: Sys, es: seq<nat>, k: nat)
    requires k <= |es|
    ensures Asleep(s, es[..k]) <= Asleep(s, es)
  {
    if k == |es| {
      assert es[..k] == es;
    } else {
      AsleepPrefix(s, es[..|es| - 1], k);
      assert es[..|es| - 1][..k] == es[..k];
    }
  }

  /**
   Exactly the threads `w` were woken: the current one, if among them, runs on, and the others are runnable and queued
   behind those already queued, in this order. Nothing else changed.
   */
  ghost predicate WokeUp(s: Sys, s': Sys, w: seq<nat>) {
    && s' == s.(st := s'.st, runq := s.runq + Minus(w, s.cur)) && |s'.st| == |s.st|
    && (forall t :: 0 <= t < |s.st| ==> s'.st[t] == if t !in w then s.st[t] else if t == s.cur then Running else Runnable)
  }

  lemma {:induction false} MinusAppend(w: seq<nat>, t: nat, x: nat)
    requires t !in w
    ensures Minus(w + [t], x) == if t == x then w else Minus(w, x) + [t]
  {
    if w != [] {
      assert (w + [t])[1..] == w[1..] + [t];
      MinusAppend(w[1..], t, x);
    }
  }

  lemma {:induction false} MinusNone(w: seq<nat>, x: nat)
    requires x !in w
    ensures Minus(w, x) == w
  {
    if w != [] { MinusNone(w[1..], x); }
  }

  lemma WakeStep(s: Sys, s1: Sys, w: seq<nat>, t: nat)
    requires WokeUp(s, s1, w) && t < |s.st|
    ensures Is(s, t, Waiting) && t !in w ==> WokeUp(s, WakeTask(s1, t), w + [t])
    ensures !(Is(s, t, Waiting) && t !in w) ==> WakeTask(s1, t) == s1
  {
    hide Minus;
    if t !in w {
      MinusAppend(w, t, s.cur);
      if t == s.cur { MinusNone(w, t); }
    }
  }

  lemma NobodyWoken(s: Sys)
    ensures WokeUp(s, s, [])
  {
  }

  /** `wake_all`: every sleeper of the queue, and nobody else, in the order of registration. */
  lemma WakeAllEffect(s: Sys, q: nat)
    requires LinksMatch(s) && q < |s.queues|
    ensures WokeUp(s, WakeAll(s, q), Asleep(s, s.queues[q]))
  {
    hide LinksMatch, WokeUp, WakeFrom;
    NobodyWoken(s);
    assert s.queues[q][..0] == [];
    WakeFromEffect(s, s, q, 0);
  }

  lemma {:induction false} WakeFromEffect(s: Sys, s1: Sys, q: nat, i: nat)
    requires LinksMatch(s) && LinksMatch(s1) && q < |s.queues| && i <= |s.queues[q]|
    requires WokeUp(s, s1, Asleep(s, s.queues[q][..i]))
    ensures s1.queues == s.queues && WokeUp(s, WakeFrom(s1, q, i), Asleep(s, s.queues[q]))
    decreases |s.queues[q]| - i
  {
    hide LinksMatch;
    var es := s.queues[q];
    if i == |es| {
      assert es[..i] == es;
    } else {
      QueueEntry(s, q, i);
      QueueEntry(s1, q, i);
      var t := s.task[es[i]];
      assert es[..i + 1][..i] == es[..i];
      WakeStep(s, s1, Asleep(s, es[..i]), t);
      WakeLinks(s1, t);
      hide WokeUp, WakeTask;
      WakeFromEffect(s, WakeTask(s1, t), q, i + 1);
    }
  }

  /** The first `n` of a list, or all of it. */
  function Upto(w: seq<nat>, n: nat): seq<nat> {
    w[..if n <= |w| then n else |w|]
  }

  /** The sleepers that are left when the first of them were woken. */
  lemma {:induction false} AsleepRest(s: Sys, s1: Sys, es: seq<nat>, w: seq<nat>)
    requires WokeUp(s, s1, w) && (w <= Asleep(s, es) || Asleep(s, es) <= w) && NoDup(w)
    requires forall t :: t in w ==> Is(s, t, Waiting)
    ensures Asleep(s1, es) == if |Asleep(s, es)| <= |w| then [] else Asleep(s, es)[|w|..]
  {
    if es != [] {
      var n := |es| - 1;
      var front, e, a := es[..n], es[n], Asleep(s, es[..n]);
      AsleepPrefix(s, es, n);
      assert w <= a || a <= w;
      AsleepRest(s, s1, front, w);
      assert Sleeps(s1, e) <==> Sleeps(s, e) && s.task[e] !in w;
      if Sleeps(s, e) {
        var t := s.task[e];
        LeftOver(a, w, t);
      }
    }
  }

  lemma LeftOver(a: seq<nat>, w: seq<nat>, t: nat)
    requires w <= a || a <= w
    ensures |a| >= |w| ==> (t in a <==> t in w || t in a[|w|..])
    ensures t in a ==> t in w || |a| > |w|
    ensures t !in a && (w <= a + [t] || a + [t] <= w) ==> (t in w <==> |a| < |w|)
  {
    if |a| >= |w| {
      assert a == w + a[|w|..];
    }
    if |a| < |w| && a + [t] <= w {
      assert w[|a|] == t;
    }
  }

  /** `wake_one`: the first sleeper of the queue, if there is one. */
  lemma WakeOneEffect(s: Sys, q: nat)
    requires LinksMatch(s) && q < |s.queues|
    ensures WokeUp(s, WakeOne(s, q), Upto(Asleep(s, s.queues[q]), 1))
  {
    hide WokeUp, WakeTask, LinksMatch, FirstWaiter, Asleep;
    var es, k := s.queues[q], FirstWaiter(s, q, 0);
    FirstWaiterIsFirst(s, q, 0);
    NoneAsleep(s, es, k);
    NobodyWoken(s);
    if k < |es| {
      QueueEntry(s, q, k);
      OneAsleep(s, es, k);
      AsleepPrefix(s, es, k + 1);
      assert Upto(Asleep(s, es), 1) == [s.task[es[k]]];
      WakeStep(s, s, [], s.task[es[k]]);
      assert [] + [s.task[es[k]]] == [s.task[es[k]]];
    } else {
      assert es[..k] == es;
    }
  }

  lemma {:induction false} NoneAsleep(s: Sys, es: seq<nat>, k: nat)
    requires k <= |es| && forall j :: 0 <= j < k ==> !Sleeps(s, es[j])
    ensures Asleep(s, es[..k]) == []
  {
    if k > 0 {
      NoneAsleep(s, es, k - 1);
      assert es[..k][..k - 1] == es[..k - 1];
    }
  }

  lemma OneAsleep(s: Sys, es: seq<nat>, k: nat)
    requires k < |es| && Asleep(s, es[..k]) == [] && Sleeps(s, es[k])
    ensures Asleep(s, es[..k + 1]) == [s.task[es[k]]]
  {
    assert es[..k + 1][..k] == es[..k];
  }

  /** One `wake_one` after others: the next sleeper in the order of registration. */
  lemma WakeNext(s: Sys, s1: Sys, q: nat, n: nat)
    requires LinksMatch(s) && LinksMatch(s1) && q < |s.queues|
    requires WokeUp(s, s1, Upto(Asleep(s, s.queues[q]), n))
    ensures s1.queues == s.queues && WokeUp(s, WakeOne(s1, q), Upto(Asleep(s, s.queues[q]), n + 1))
  {
    hide LinksMatch;
    var es := s.queues[q];
    var all := Asleep(s, es);
    var w := Upto(all, n);
    AsleepFacts(s, es);
    forall t | t in w ensures Is(s, t, Waiting) { assert t in all; }
    assert NoDup(w);
    AsleepRest(s, s1, es, w);
    WakeOneEffect(s1, q);
    hide Asleep;
    if |all| <= n {
      MinusNone([], s1.cur);
      assert WakeOne(s1, q).st == s1.st;
    } else {
      var t := all[n];
      assert t in all && t !in w;
      assert all[|w|..][..1] == [t];
      assert w + [t] == Upto(all, n + 1);
      JoinWakes(s, s1, WakeOne(s1, q), w, t);
    }
  }

  lemma JoinWakes(s: Sys, s1: Sys, s2: Sys, w: seq<nat>, t: nat)
    requires WokeUp(s, s1, w) && WokeUp(s1, s2, [t]) && t !in w
    ensures WokeUp(s, s2, w + [t])
  {
    MinusAppend(w, t, s.cur);
    MinusAppend([], t, s.cur);
    assert [] + [t] == [t];
    if t == s.cur { MinusNone(w, t); }
  }

  // ----- stopping -----

  /** The entries that are not of thread `t`, in their order. */
  function Others(s: Sys, es: seq<nat>, t: int): seq<nat> {
    if es == [] then [] else
      (if es[0] < |s.task| && s.task[es[0]] == t then [] else [es[0]]) + Others(s, es[1..], t)
  }

  /**
   Thread `t` is dead: first of the zombies, off the run queue and without registrations. The others keep their
   states, their places in the run queue and in the wait queues, and their registrations.
   */
  ghost predicate Buried(s: Sys, s': Sys, t: nat) {
    && s' == s.(st := s'.st, runq := Minus(s.runq, t), zombies := [t] + s.zombies, task := s'.task, queue := s'.queue,
                queues := s'.queues, regs := s'.regs)
    && |s'.st| == |s.st| && |s'.regs| == |s.regs| && |s'.queues| == |s.queues|
    && (forall u :: 0 <= u < |s.st| ==> s'.st[u] == if u == t then Zombie else s.st[u])
    && (forall u :: 0 <= u < |s.regs| ==> s'.regs[u] == if u == t then [] else s.regs[u])
    && (forall q :: 0 <= q < |s.queues| ==> s'.queues[q] == Others(s, s.queues[q], t))
  }

  /** A stop buries the thread, unless it is idle, unpublished or dead already. */
  lemma BuriedIf(s: Sys, t: nat)
    requires Inv(s)
    ensures LinksMatch(s)
    ensures t != IDLE && Published(s, t) && !Is(s, t, Zombie) ==> Buried(s, Stop(s, t), t)
    ensures t == IDLE || !Published(s, t) || Is(s, t, Zombie) ==> Stop(s, t) == s
  {
    hide NoDup, Minus, Others, Cancel;
    LinksFacts(s);
    if t != IDLE && Published(s, t) && !Is(s, t, Zombie) {
      var r := s.(runq := Minus(s.runq, t));
      RunqKeepsLinks(s, Minus(s.runq, t));
      CancelOk(r, t);
      CancelLists(r, t);
      SameOthers(s, r, t);
      hide LinksMatch, Inv;
    }
  }

  lemma SameOthers(s: Sys, r: Sys, t: nat)
    requires r == s.(runq := r.runq)
    ensures forall es :: Others(r, es, t) == Others(s, es, t)
  {
    forall es ensures Others(r, es, t) == Others(s, es, t) { SameTask(s, r, es, t); }
  }

  lemma {:induction false} SameTask(s: Sys, r: Sys, es: seq<nat>, t: nat)
    requires |r.task| == |s.task| && forall e :: e in es && e < |s.task| ==> (r.task[e] == t <==> s.task[e] == t)
    ensures Others(r, es, t) == Others(s, es, t)
  {
    if es != [] {
      assert es[0] in es;
      assert forall e :: e in es[1..] ==> e in es;
      SameTask(s, r, es[1..], t);
    }
  }

  lemma {:induction false} NoneOf(s: Sys, es: seq<nat>, t: nat)
    requires forall e :: e in es && e < |s.task| ==> s.task[e] != t
    ensures Others(s, es, t) == es
  {
    if es != [] {
      assert es[0] in es;
      assert forall e :: e in es[1..] ==> e in es;
      NoneOf(s, es[1..], t);
    }
  }

  lemma {:induction false} OthersMinus(s: Sys, es: seq<nat>, t: nat, e: nat)
    requires e < |s.task| && s.task[e] == t
    ensures Others(s, Minus(es, e), t) == Others(s, es, t)
  {
    if es != [] {
      if es[0] != e {
        var m := [es[0]] + Minus(es[1..], e);
        assert m[1..] == Minus(es[1..], e);
        OthersMinus(s, es[1..], t, e);
      }
    }
  }

  /** Cancelling leaves every queue with the entries of the others, in their order. */
  lemma {:induction false} CancelLists(s: Sys, t: nat)
    requires LinksMatch(s) && t < |s.regs|
    ensures |Cancel(s, t).queues| == |s.queues|
    ensures forall q :: 0 <= q < |s.queues| ==> Cancel(s, t).queues[q] == Others(s, s.queues[q], t)
    decreases |s.regs[t]|
  {
    if s.regs[t] == [] {
      forall q | 0 <= q < |s.queues| ensures s.queues[q] == Others(s, s.queues[q], t) {
        forall e | e in s.queues[q] && e < |s.task| ensures s.task[e] != t {
          assert e !in s.regs[t];
        }
        NoneOf(s, s.queues[q], t);
      }
    } else {
      var e := s.regs[t][0];
      CancelStep(s, t);
      UnlinkOk(s, e);
      var f := Finish(s, e);
      CancelLists(f, t);
      forall q | 0 <= q < |s.queues| ensures Others(f, f.queues[q], t) == Others(s, s.queues[q], t) {
        FinishQueue(s, t, e, q);
      }
    }
  }

  lemma FinishQueue(s: Sys, t: nat, e: nat, q: nat)
    requires LinksMatch(s) && t < |s.regs| && Registered(s, e) && s.task[e] == t && q < |s.queues|
    requires LinksMatch(Finish(s, e))
    ensures |Finish(s, e).queues| == |s.queues| && Others(Finish(s, e), Finish(s, e).queues[q], t) == Others(s, s.queues[q], t)
  {
    var f := Finish(s, e);
    assert f.task == s.task[e := -1];
    forall x | x in f.queues[q] && x < |s.task| ensures f.task[x] == t <==> s.task[x] == t {
      assert Registered(f, x);
    }
    SameTask(s, f, f.queues[q], t);
    if q == s.queue[e] {
      OthersMinus(s, s.queues[q], t, e);
    }
  }
}
