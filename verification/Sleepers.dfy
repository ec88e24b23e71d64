/**
 Clients of one counted resource (buffered bytes, free slots) that sleep on its wait queue when none is
 left: take one or sleep, and after every wake-up try again. The invariant bounds the units a sleeper
 could be missing by the woken clients that have not tried again yet.
 */
module Sleepers {
  import opened Links
  import opened Threads

  /**
   `entry`: threads inside the sleep call and their wait entries. `retry`: threads that returned from it
   and have not tried again. `lost`: woken clients that were stopped before they tried again.
   */
  datatype Channel = Channel(entry: map<int, int>, retry: set<int>, lost: nat)

  function Clients(c: Channel): set<int> {
    c.entry.Keys + c.retry
  }

  function Woken(s: Sys, c: Channel): set<int> {
    set t | t in Clients(c) && !Is(s, t, Waiting)
  }

  ghost predicate SomeoneWaits(s: Sys, c: Channel) {
    exists t :: t in c.entry && Is(s, t, Waiting)
  }

  /** The entries on queue `q` are exactly those of the sleepers; threads about to retry are not asleep. */
  ghost predicate EntriesOk(s: Sys, q: nat, c: Channel) {
    && c.entry.Keys !! c.retry
    && (forall t :: t in c.entry ==> Registered(s, c.entry[t]) && s.task[c.entry[t]] == t && s.queue[c.entry[t]] == q)
    && (forall e :: Registered(s, e) && s.queue[e] == q ==> s.task[e] in c.entry && c.entry[s.task[e]] == e)
    && (forall t :: t in c.retry ==> MayWait(s, t) && !Is(s, t, Waiting))
  }

  /** No lost wake-up, up to the wake-ups that died with their threads. */
  ghost predicate Bounded(s: Sys, c: Channel, units: int) {
    SomeoneWaits(s, c) ==> units <= |Woken(s, c)| + c.lost
  }

  ghost predicate ChannelOk(s: Sys, q: nat, c: Channel, units: int) {
    EntriesOk(s, q, c) && Bounded(s, c, units)
  }

  // ----- steps of others -----

  /** Registrations are the same, no client fell asleep, and those about to retry are alive. */
  ghost predicate Calm(s: Sys, s': Sys, q: nat, c: Channel) {
    && (forall t :: t in Clients(c) && Is(s', t, Waiting) ==> Is(s, t, Waiting))
    && (forall t :: t in c.retry ==> MayWait(s', t))
    && (forall e :: Registered(s', e) && s'.queue[e] == q <==> Registered(s, e) && s.queue[e] == q)
    && (forall e :: Registered(s, e) && s.queue[e] == q ==> s'.task[e] == s.task[e])
  }

  lemma SubsetSize(a: set<int>, b: set<int>)
    requires a <= b
    ensures |a| <= |b|
  {
    assert a + (b - a) == b;
  }

  lemma CalmEntries(s: Sys, s': Sys, q: nat, c: Channel)
    requires EntriesOk(s, q, c) && Calm(s, s', q, c)
    ensures EntriesOk(s', q, c)
  {
  }

  lemma CalmOk(s: Sys, s': Sys, q: nat, c: Channel, units: int)
    requires ChannelOk(s, q, c, units) && Calm(s, s', q, c)
    ensures ChannelOk(s', q, c, units)
  {
    assert Woken(s, c) <= Woken(s', c);
    SubsetSize(Woken(s, c), Woken(s', c));
  }

  // ----- steps of the protocol -----

  /** A unit is added and the first sleeper, if any, is woken. */
  lemma ProduceOk(s: Sys, q: nat, c: Channel, units: int)
    requires Inv(s) && q < |s.queues| && ChannelOk(s, q, c, units)
    ensures ChannelOk(WakeOne(s, q), q, c, units + 1)
  {
    hide Inv, WakeOne, EntriesOk;
    LinksFacts(s);
    var s' := WakeOne(s, q);
    WakeOneCalm(s, q, q, c);
    CalmEntries(s, s', q, c);
    if SomeoneWaits(s, c) {
      var t :| t in c.entry && Is(s, t, Waiting);
      var u := WokenBy(s, q, c, t);
      assert Woken(s', c) == Woken(s, c) + {u};
    } else {
      assert !SomeoneWaits(s', c);
    }
  }

  /** If a client sleeps, `wake_one` wakes a client. */
  lemma WokenBy(s: Sys, q: nat, c: Channel, t: nat) returns (u: nat)
    requires Inv(s) && q < |s.queues| && EntriesOk(s, q, c) && t in c.entry && Is(s, t, Waiting)
    ensures u in c.entry && Is(s, u, Waiting) && !Is(WakeOne(s, q), u, Waiting)
    ensures forall v :: v != u ==> (Is(WakeOne(s, q), v, Waiting) <==> Is(s, v, Waiting))
  {
    var e := c.entry[t];
    assert e in s.queues[q];
    var i :| 0 <= i < |s.queues[q]| && s.queues[q][i] == e;
    FirstWaiterFinds(s, q, 0, i);
    var k := FirstWaiter(s, q, 0);
    QueueEntry(s, q, k);
    u := s.task[s.queues[q][k]];
    assert s.queues[q][k] in s.queues[q];
  }

  lemma {:induction false} FirstWaiterFinds(s: Sys, q: nat, i: nat, j: nat)
    requires LinksMatch(s) && q < |s.queues| && i <= j < |s.queues[q]|
    requires var e := s.queues[q][j]; Registered(s, e) && Is(s, s.task[e], Waiting)
    ensures var k := FirstWaiter(s, q, i); k <= j && Registered(s, s.queues[q][k]) && Is(s, s.task[s.queues[q][k]], Waiting)
    decreases j - i
  {
    QueueEntry(s, q, i);
    if i < j && !Is(s, s.task[s.queues[q][i]], Waiting) {
      FirstWaiterFinds(s, q, i + 1, j);
    }
  }

  /** A client, or anybody else, takes a unit. */
  lemma TakeOk(s: Sys, q: nat, c: Channel, units: int, t: nat)
    requires ChannelOk(s, q, c, units) && t !in c.entry
    ensures ChannelOk(s, q, c.(retry := c.retry - {t}), units - 1)
  {
    var c' := c.(retry := c.retry - {t});
    assert Woken(s, c) <= Woken(s, c') + {t};
    SubsetSize(Woken(s, c), Woken(s, c') + {t});
  }

  /** The current client finds no unit and goes to sleep with a new entry. */
  function FallAsleep(s: Sys, q: nat): Sys {
    Prepare(NewEntry(s), q, |s.task|, true)
  }

  ghost predicate MaySleep(s: Sys, q: nat) {
    Inv(s) && q < |s.queues| && s.cur != IDLE && Is(s, s.cur, Running)
  }

  lemma FallAsleepOk(s: Sys, q: nat)
    requires MaySleep(s, q)
    ensures Inv(FallAsleep(s, q)) && CanPrepare(NewEntry(s), q, |s.task|, true)
  {
    NewEntryOk(s);
    PrepareOk(NewEntry(s), q, |s.task|, true);
  }

  lemma SleepOk(s: Sys, q: nat, c: Channel, units: int)
    requires MaySleep(s, q) && ChannelOk(s, q, c, units) && units <= 0 && s.cur !in c.entry
    ensures Inv(FallAsleep(s, q))
    ensures ChannelOk(Schedule(FallAsleep(s, q)), q, Channel(c.entry[s.cur := |s.task|], c.retry - {s.cur}, c.lost), 0)
  {
    FallAsleepOk(s, q);
    var a, c' := FallAsleep(s, q), Channel(c.entry[s.cur := |s.task|], c.retry - {s.cur}, c.lost);
    AsleepEntries(s, q, c);
    hide Inv, FallAsleep, EntriesOk;
    ScheduleCalm(a, q, c');
    CalmOk(a, Schedule(a), q, c', 0);
  }

  lemma AsleepEntries(s: Sys, q: nat, c: Channel)
    requires MaySleep(s, q) && EntriesOk(s, q, c) && s.cur !in c.entry
    ensures EntriesOk(FallAsleep(s, q), q, Channel(c.entry[s.cur := |s.task|], c.retry - {s.cur}, c.lost))
  {
    var a := FallAsleep(s, q);
    assert forall e :: Registered(a, e) <==> Registered(s, e) || e == |s.task|;
    assert forall t :: t != s.cur ==> (MayWait(a, t) <==> MayWait(s, t)) && (Is(a, t, Waiting) <==> Is(s, t, Waiting));
  }

  /** A woken client that runs again drops its entry and is about to retry. */
  lemma ResumeOk(s: Sys, q: nat, c: Channel, units: int)
    requires Inv(s) && ChannelOk(s, q, c, units) && s.cur in c.entry && Is(s, s.cur, Running)
    ensures ChannelOk(Finish(s, c.entry[s.cur]), q, c.(entry := c.entry - {s.cur}, retry := c.retry + {s.cur}), units)
  {
    var e, c' := c.entry[s.cur], c.(entry := c.entry - {s.cur}, retry := c.retry + {s.cur});
    UnlinkOk(s, e);
    var s' := Finish(s, e);
    assert s'.st == s.st;
    hide Minus, LinksMatch;
    assert forall f :: Registered(s', f) <==> Registered(s, f) && f != e;
    assert Woken(s', c') == Woken(s, c);
  }

  /** Stopping a thread; a wake-up it had received is lost with it. */
  function StopChannel(s: Sys, c: Channel, t: nat): Channel {
    Channel(c.entry - {t}, c.retry - {t}, if t in Woken(s, c) then c.lost + 1 else c.lost)
  }

  lemma StopChannelOk(s: Sys, q: nat, c: Channel, units: int, t: nat)
    requires Inv(s) && ChannelOk(s, q, c, units) && t != IDLE && Published(s, t) && !Is(s, t, Zombie)
    ensures ChannelOk(Stop(s, t), q, StopChannel(s, c, t), units)
  {
    hide Stop, Inv;
    LinksFacts(s);
    var s', c' := Stop(s, t), StopChannel(s, c, t);
    StopEffect(s, t);
    StopEntries(s, t);
    assert forall u :: u != t ==> (Is(s', u, Waiting) <==> Is(s, u, Waiting)) && (MayWait(s', u) <==> MayWait(s, u));
    assert EntriesOk(s', q, c');
    assert Woken(s', c') == Woken(s, c) - {t};
  }

  /** Exactly the registrations of the stopped thread are gone. */
  lemma StopEntries(s: Sys, t: nat)
    requires Inv(s) && t != IDLE && Published(s, t) && !Is(s, t, Zombie)
    ensures forall e :: Registered(Stop(s, t), e) <==> Registered(s, e) && s.task[e] != t
    ensures forall e :: Registered(Stop(s, t), e) ==> Stop(s, t).task[e] == s.task[e] && Stop(s, t).queue[e] == s.queue[e]
  {
    var r := s.(runq := Minus(s.runq, t));
    RunqKeepsLinks(s, Minus(s.runq, t));
    CancelEntries(r, t);
  }

  lemma {:induction false} CancelEntries(s: Sys, t: nat)
    requires LinksMatch(s) && t < |s.regs|
    ensures var s' := Cancel(s, t);
            && |s'.task| == |s.task| && |s'.queue| == |s.queue|
            && (forall e :: Registered(s', e) <==> Registered(s, e) && s.task[e] != t)
            && (forall e :: Registered(s', e) ==> s'.task[e] == s.task[e] && s'.queue[e] == s.queue[e])
    decreases |s.regs[t]|
  {
    if s.regs[t] == [] {
      assert forall e :: Registered(s, e) && s.task[e] == t ==> e in s.regs[t];
    } else {
      var e := s.regs[t][0];
      assert e in s.regs[t];
      CancelStep(s, t);
      UnlinkOk(s, e);
      var f := Finish(s, e);
      assert forall g :: Registered(f, g) <==> Registered(s, g) && g != e;
      hide LinksMatch, Minus;
      CancelEntries(f, t);
    }
  }

  // ----- which steps are calm -----

  lemma ScheduleCalm(s: Sys, q: nat, c: Channel)
    requires Inv(s) && EntriesOk(s, q, c)
    ensures Calm(s, Schedule(s), q, c)
  {
    HeadRunnable(s);
    var s' := Schedule(s);
    assert forall e :: Registered(s', e) <==> Registered(s, e);
  }

  lemma WakeTaskCalm(s: Sys, t: nat, q: nat, c: Channel)
    requires t < |s.st| && EntriesOk(s, q, c)
    ensures Calm(s, WakeTask(s, t), q, c)
  {
    var s' := WakeTask(s, t);
    assert forall e :: Registered(s', e) <==> Registered(s, e);
  }

  lemma WakeOneCalm(s: Sys, w: nat, q: nat, c: Channel)
    requires Inv(s) && w < |s.queues| && EntriesOk(s, q, c)
    ensures Calm(s, WakeOne(s, w), q, c)
  {
    var k := FirstWaiter(s, w, 0);
    if k < |s.queues[w]| {
      QueueEntry(s, w, k);
      WakeTaskCalm(s, s.task[s.queues[w][k]], q, c);
    }
  }

  lemma {:induction false} WakeFromCalm(s: Sys, w: nat, i: nat, q: nat, c: Channel)
    requires Inv(s) && w < |s.queues| && i <= |s.queues[w]| && EntriesOk(s, q, c)
    ensures Calm(s, WakeFrom(s, w, i), q, c)
    decreases |s.queues[w]| - i
  {
    if i < |s.queues[w]| {
      QueueEntry(s, w, i);
      var t := s.task[s.queues[w][i]];
      WakeTaskOk(s, t);
      WakeLinks(s, t);
      WakeTaskCalm(s, t, q, c);
      var s' := WakeTask(s, t);
      CalmEntries(s, s', q, c);
      WakeFromCalm(s', w, i + 1, q, c);
    }
  }
}
