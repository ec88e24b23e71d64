/**
 The code of kernel/src/timer.c over the linked event list; each section performs a step of the state
 machine in module Timers, whose trace is kept as ghost state. The clock and what callbacks and
 interrupts do between sections are inputs.
 */
module TimerQueue {
  import opened Links
  import opened Timers

  /** What a callback or an interrupt may do with the timer. */
  datatype Act = AddEvent(duration: nat, valid: bool, memory: bool) | StopAll | Tick

  class Timer {
    // events: deadline and link; -1 is the null pointer
    var expire: seq<nat>
    var next: seq<int>
    var head: int
    var enabled: bool
    var interval: nat
    var tick: nat
    var nextDeadline: nat
    var raised: bool
    var clock: nat
    var delays: seq<nat>
    var script: seq<seq<Act>>

    // per stop in progress, the events it has not cleaned up yet
    ghost var stops: seq<seq<nat>>
    ghost var now: State
    ghost var states: seq<State>
    ghost var steps: seq<Step>

    ghost predicate Traced()
      reads this
    {
      Run(states, steps) && states[|steps|] == now
    }

    ghost predicate Valid()
      reads this
    {
      && Traced() && Ok(now) && clock > 0
      && expire == now.expire && |next| == |expire| && Chain(next, head, now.queue)
      && enabled == now.enabled && interval == now.interval && tick == now.tick
      && nextDeadline == now.programmed && raised == now.raised
      && Detached(next, stops, now.dropped)
    }

    constructor (start: nat, delays: seq<nat>, script: seq<seq<Act>>)
      requires start > 0
      ensures Valid() && now == Initial() && steps == []
    {
      hide Ok, Next, Enabled;
      expire, next, head := [], [], -1;
      enabled, interval, tick, nextDeadline, raised := false, 0, 0, 0, false;
      clock, this.delays, this.script := start, delays, script;
      now, states, steps, stops := Initial(), [Initial()], [], [];
      new;
      InitialOk();
    }

    ghost method Did(a: Step)
      requires Traced() && Ok(now) && Enabled(now, a)
      modifies `now, `states, `steps
      ensures Traced() && Ok(now) && now == Next(old(now), a)
      ensures states == old(states) + [now] && steps == old(steps) + [a]
    {
      hide Ok, Next, Enabled;
      NextOk(now, a);
      RunExtend(states, steps, a);
      now := Next(now, a);
      states, steps := states + [now], steps + [a];
    }

    /** The counter never runs backwards. */
    method ReadTime() returns (t: nat)
      requires Valid()
      modifies `clock, `delays
      ensures Valid() && t == clock >= old(clock)
    {
      hide Ok, Run, Chain;
      if delays != [] {
        clock := clock + delays[0];
        delays := delays[1..];
      }
      t := clock;
    }

    /** The value `timer_reprogram_locked` programs. */
    method Deadline() returns (d: nat)
      requires |next| == |expire| && Chain(next, head, now.queue) && expire == now.expire
      requires interval == now.interval && tick == now.tick
      ensures d == Timers.Deadline(now)
      ensures Ok(now) ==> Earliest(now, d)
    {
      if Ok(now) { DeadlineEarliest(now); }
      hide Ok, Earliest;
      d := 0;
      if interval != 0 && tick != 0 {
        d := tick;
      }
      if head >= 0 && (d == 0 || expire[head] < d) {
        d := expire[head];
      }
    }

    /** The neighbours of a new event with deadline `x`, behind every event due no later; `prev`/`cur` walk the links. */
    method Place(x: nat) returns (prev: int, cur: int)
      requires Valid()
      ensures var i := Timers.Place(expire, now.queue, x); cur == Nth(now.queue, i) && prev == Nth(now.queue, i - 1)
    {
      hide Ok, Run;
      prev, cur := -1, head;
      ghost var i := 0;
      while cur >= 0 && expire[cur] <= x
        invariant 0 <= i <= |now.queue| && cur == Nth(now.queue, i) && prev == Nth(now.queue, i - 1)
        invariant i + Timers.Place(expire, now.queue[i..], x) == Timers.Place(expire, now.queue, x)
        decreases |now.queue| - i
      {
        assert next[now.queue[i]] == Nth(now.queue, i + 1);
        assert now.queue[i..][1..] == now.queue[i + 1..];
        prev, cur := cur, next[cur];
        i := i + 1;
      }
    }

    /** `add_timer_with_cleanup`; `valid`: a callback is given and the timebase known, `memory`: the heap can serve the event. */
    method AddTimer(duration: nat, valid: bool, memory: bool) returns (ok: bool, ghost place: nat)
      requires Valid()
      modifies `expire, `next, `head, `nextDeadline, `clock, `delays, `now, `states, `steps
      ensures Valid() && old(states) <= states && old(steps) <= steps && clock >= old(clock)
      ensures ok <==> valid && memory && duration <= UINT64_MAX - clock && old(enabled)
      ensures ok ==> now == Next(old(now), Add(clock + duration)) && steps == old(steps) + [Add(clock + duration)]
      ensures !ok ==> now == old(now) && steps == old(steps) && expire == old(expire) && nextDeadline == old(nextDeadline)
      // The new event is due `duration` after the time read; nothing else moves, and the hardware is armed for the earliest.
      ensures ok ==> expire == old(expire) + [clock + duration] && Earliest(now, nextDeadline)
      ensures ok ==> Placed(old(expire), old(now.queue), now.queue, clock + duration, place)
    {
      hide Ok, Run, Next, Chain, Earliest, Placed;
      if !valid || !memory { return false, 0; }
      var t := ReadTime();
      if duration > UINT64_MAX - t || !enabled { return false, 0; }
      place := Link(t + duration);
      return true, place;
    }

    /** Insert and reprogram in one section. */
    method Link(x: nat) returns (ghost place: nat)
      requires Valid() && enabled && Enabled(now, Add(x))
      modifies `expire, `next, `head, `nextDeadline, `now, `states, `steps
      ensures Valid() && now == Next(old(now), Add(x)) && steps == old(steps) + [Add(x)] && states == old(states) + [now]
      ensures expire == old(expire) + [x] && Placed(old(expire), old(now.queue), now.queue, x, place) && Earliest(now, nextDeadline)
    {
      hide Ok, Run, Chain, NoDup, Timers.Place, Nth, Earliest, Placed, Detached;
      place := AddPlaced(now, x);
      var prev, cur := Place(x);
      NewEvent(now, x, next, head);
      var e := |expire|;
      expire, next := expire + [x], next + [cur];
      if prev >= 0 {
        next := next[prev := e];
      } else {
        head := e;
      }
      DetachedKept(old(next), next, stops, now.dropped);
      Did(Add(x));
      nextDeadline := Deadline();
    }

    /** `timer_init`: with a known timebase. */
    method Start(tickInterval: nat)
      requires Valid() && tickInterval > 0
      modifies `enabled, `interval, `tick, `nextDeadline, `clock, `delays, `now, `states, `steps
      ensures Valid() && now == Next(old(now), Init(tickInterval, clock)) && old(steps) <= steps && old(states) <= states
      ensures enabled && interval == tickInterval && tick == clock + tickInterval && now.queue == old(now.queue) && Earliest(now, nextDeadline)
    {
      hide Ok, Run, Chain, NoDup, Earliest;
      var t := ReadTime();
      enabled := true;
      interval := tickInterval;
      tick := t + tickInterval;
      Did(Init(tickInterval, t));
      nextDeadline := Deadline();
    }

    /** `timer_irq_top`. */
    method IrqTop()
      requires Valid()
      modifies `raised, `now, `states, `steps
      ensures Valid() && now == Next(old(now), Irq) && old(steps) <= steps && old(states) <= states
      ensures raised && now == old(now).(raised := true)
    {
      hide Ok, Run, Chain;
      raised := true;
      Did(Irq);
    }

    /** One section of the bottom half: catch up with the scheduler tick and detach the first event if it is due. */
    method TakeDue(t: nat) returns (e: int)
      requires Valid() && enabled && now.running == -1
      modifies `tick, `head, `next, `now, `states, `steps
      ensures Valid() && now == Next(old(now), Take(t)) && now.dropped == old(now.dropped) && steps == old(steps) + [Take(t)] && old(states) <= states
      ensures e == now.running && (e < 0 ==> !Due(now, t) && now.queue == old(now.queue)) && (e >= 0 ==> now.queue == old(now.queue)[1..])
      ensures e >= 0 ==> old(now.queue) != [] && e == old(now.queue)[0] < |expire| && expire[e] <= t
      ensures e >= 0 ==> now.fired == old(now.fired) + [e] && now.firedAt == old(now.firedAt) + [t]
      ensures e < 0 ==> now == old(now).(tick := tick)
      ensures expire == old(expire) && (interval == 0 ==> tick == old(tick)) && (interval != 0 ==> FirstTick(old(tick), interval, t, tick))
    {
      hide Ok, Run, Chain, Detached, CatchUp, FirstTick;
      ChainHead(next, head, now.queue);
      CatchTick(t);
      e := head;
      if e >= 0 && expire[e] <= t {
        DetachFirst(now, next, head);
        DetachedKept(next, next[e := -1], stops, now.dropped);
        head := next[e];
        next := next[e := -1];
      } else {
        e := -1;
      }
      Did(Take(t));
    }

    method CatchTick(t: nat)
      modifies `tick
      ensures tick == CatchUp(old(tick), interval, t)
      ensures (interval == 0 ==> tick == old(tick)) && (interval != 0 ==> FirstTick(old(tick), interval, t, tick))
    {
      if interval != 0 { FirstTickIs(tick, interval, t); }
      while interval != 0 && tick <= t
        invariant CatchUp(tick, interval, t) == CatchUp(old(tick), interval, t)
        decreases if tick > t then 0 else t - tick + 1
      {
        tick := tick + interval;
      }
    }

    /** The callback returned: clean up. Detaching the event made it the bottom half's own. */
    method CleanupRunning()
      requires Valid() && now.running >= 0
      modifies `now, `states, `steps
      ensures Valid() && now == Next(old(now), Cleanup) && old(steps) <= steps && old(states) <= states
    {
      hide Ok, Run, Chain;
      Did(Cleanup);
    }

    /**
     `timer_stop`: detach everything, then clean up each event. An event whose callback runs is not touched, nor
     are those of a stop that this one interrupts.
     */
    method StopTimer()
      requires Valid()
      modifies `enabled, `raised, `head, `nextDeadline, `interval, `tick, `stops, `now, `states, `steps
      ensures Valid() && !enabled && !raised && head == -1 && now.dropped == old(now.dropped) && now.running == old(now.running)
      ensures now.cleaned == old(now.cleaned) + old(now.queue) && now.fired == old(now.fired) && now.queue == []
      ensures old(steps) <= steps && old(states) <= states && stops == old(stops)
    {
      hide Ok, Run, Chain, Valid;
      var first := DetachAll();
      ghost var events := old(now.queue);
      ghost var i := 0;
      assert events[0..] == events;
      while first >= 0
        invariant Valid() && !enabled && !raised && head == -1 && now.running == old(now.running) && now.fired == old(now.fired) && now.queue == []
        invariant i <= |events| && now.dropped == events[i..] + old(now.dropped) && stops == [events[i..]] + old(stops) && first == Nth(events, i)
        invariant now.cleaned == old(now.cleaned) + events[..i] && old(steps) <= steps && old(states) <= states
        decreases |events| - i
      {
        assert events[i..][0] == events[i] && events[i..][1..] == events[i + 1..];
        assert events[..i + 1] == events[..i] + [events[i]];
        first := DropFirst(first);
        i := i + 1;
        assert first == Nth(events, i) && now.dropped == events[i..] + old(now.dropped);
      }
      assert events[..i] == events;
      PopStop();
    }

    method DetachAll() returns (first: int)
      requires Valid()
      modifies `enabled, `raised, `head, `nextDeadline, `interval, `tick, `stops, `now, `states, `steps
      ensures now == Next(old(now), Stop) && Valid() && first == Nth(old(now.queue), 0) && stops == [old(now.queue)] + old(stops)
      ensures head == -1 && !enabled && !raised
      ensures old(steps) <= steps && old(states) <= states
    {
      hide Ok, Run, Next, Chain, Detached, Nth;
      StopFields(now);
      PushStop(next, head, now.queue, stops, now.dropped);
      stops := [now.queue] + stops;
      Did(Stop);
      enabled, raised := false, false;
      first := head;
      head := -1;
      nextDeadline, interval, tick := 0, 0, 0;
    }

    method DropFirst(e: nat) returns (rest: int)
      requires Valid() && stops != [] && stops[0] != [] && e == stops[0][0]
      modifies `stops, `now, `states, `steps
      ensures old(now.dropped) != [] && Valid() && now == Next(old(now), Drop)
      ensures stops == [old(stops)[0][1..]] + old(stops)[1..] && rest == Nth(stops[0], 0)
      ensures old(steps) <= steps && old(states) <= states
    {
      hide Ok, Run, Chain;
      ChainRest(next, stops[0]);
      rest := next[e];
      assert now.dropped[1..][|stops[0]| - 1..] == now.dropped[|stops[0]|..];
      stops := [stops[0][1..]] + stops[1..];
      Did(Drop);
    }

    /** A stop is done when it has nothing left. */
    ghost method PopStop()
      requires Valid() && stops != [] && stops[0] == []
      modifies `stops
      ensures Valid() && stops == old(stops)[1..]
    {
      hide Ok, Run, Chain;
      assert now.dropped[0..] == now.dropped;
      stops := stops[1..];
    }

    /** What a callback, and interrupts while it runs, do with the timer. Events that are due keep their place. */
    method Callback(ghost ahead: seq<nat>, ghost t: nat)
      requires Valid() && clock >= t && Ahead(now, ahead, t)
      modifies this
      ensures Valid() && now.dropped == old(now.dropped) && now.running == old(now.running) && now.fired == old(now.fired)
      ensures old(steps) <= steps && old(states) <= states && clock >= old(clock) && (enabled ==> Ahead(now, ahead, t))
      ensures script == (if old(script) == [] then [] else old(script)[1..])
    {
      hide Ok, Run, Chain, Valid, CatchUp, Timers.Deadline, Timers.Place, Insert, Ahead;
      if script == [] { return; }
      var segment := script[0];
      DropSegment();
      var i := 0;
      while i < |segment|
        invariant Valid() && now.dropped == old(now.dropped) && now.running == old(now.running) && now.fired == old(now.fired)
        invariant old(steps) <= steps && old(states) <= states && clock >= old(clock) && (enabled ==> Ahead(now, ahead, t))
        invariant script == old(script)[1..]
      {
        Perform(segment[i], ahead, t);
        i := i + 1;
      }
    }

    method Perform(a: Act, ghost ahead: seq<nat>, ghost t: nat)
      requires Valid() && clock >= t && (enabled ==> Ahead(now, ahead, t))
      modifies this
      ensures Valid() && now.dropped == old(now.dropped) && now.running == old(now.running) && now.fired == old(now.fired)
      ensures old(steps) <= steps && old(states) <= states && clock >= old(clock) && (enabled ==> Ahead(now, ahead, t))
      ensures script == old(script)
    {
      hide Ok, Run, Chain, Valid, CatchUp, Timers.Deadline, Timers.Place, Insert;
      match a {
        case AddEvent(duration, valid, memory) =>
          ghost var before := now;
          InView();
          var ok, _ := AddTimer(duration, valid, memory);
          InView();
          if ok && before.enabled { AddKeeps(before, clock + duration, ahead, t); }
        case StopAll => StopTimer();
        case Tick => IrqTop();
      }
    }

    lemma InView()
      requires Valid()
      ensures Ok(now) && enabled == now.enabled && raised == now.raised && clock > 0
    {
    }

    method DropSegment()
      requires Valid() && script != []
      modifies `script
      ensures Valid() && script == old(script)[1..]
    {
      hide Ok, Run, Chain;
      script := script[1..];
    }

    /** The end of the bottom half: a due event that is left is announced again, and the hardware is rearmed. */
    method Finish()
      requires Valid() && now.running == -1
      modifies `raised, `nextDeadline, `clock, `delays, `now, `states, `steps
      ensures Valid() && now == Next(old(now), EndRun(clock)) && old(steps) <= steps && old(states) <= states
      ensures steps == old(steps) + [EndRun(clock)]
      ensures now == old(now).(raised := raised, programmed := nextDeadline)
      ensures !enabled ==> raised == old(raised) && nextDeadline == old(nextDeadline)
      ensures enabled ==> (raised <==> old(raised) || Due(now, clock)) && Earliest(now, nextDeadline)
    {
      hide Ok, Run, NoDup, Earliest;
      var t := ReadTime();
      if enabled {
        if head >= 0 && expire[head] <= t {
          raised := true;
        }
        nextDeadline := Deadline();
      }
      ghost var before := now;
      Did(EndRun(t));
      EarliestKept(before, now, nextDeadline);
    }

    /**
     `timer_run_bottom_half`: at most 16 events, each due, detached before its callback and cleaned up after
     it, even if the callback stopped the timer. Unless a callback stops the timer, the events due on entry fire
     first and in queue order, up to 16, and the call goes on until 16 fired or none was due at the last time read.
     What is still due then has the notification raised.
     */
    method RunBottomHalf()
      requires Valid() && now.running == -1
      modifies this
      ensures Valid() && now.running == -1 && now.dropped == old(now.dropped) && old(steps) <= steps && old(states) <= states
      ensures !old(enabled) ==> now == old(now) && steps == old(steps)
      ensures |now.fired| <= old(|now.fired|) + BUDGET
      ensures old(enabled) ==> |steps| >= 2 && steps[|steps| - 1] == EndRun(clock)
      ensures old(enabled) && enabled ==> old(now.fired) + Served(old(now), old(clock)) <= now.fired && (Due(now, clock) ==> raised)
      ensures old(enabled) && enabled && |now.fired| < old(|now.fired|) + BUDGET ==>
        steps[|steps| - 2].Take? && !Due(now, steps[|steps| - 2].now)
    {
      hide Ok, Run, Chain, Valid, CatchUp, Timers.Deadline, Served, Timers.Place, Progress, Ahead;
      if !enabled { return; }
      InView();
      ghost var first := Served(now, clock);
      Beginning(now, clock);
      var done, more := 0, true;
      while done < BUDGET && more && enabled
        invariant Valid() && now.running == -1 && now.dropped == old(now.dropped) && old(steps) <= steps && old(states) <= states && clock >= old(clock)
        invariant done <= BUDGET && |now.fired| <= old(|now.fired|) + done && (done > 0 || !more ==> |steps| >= 1) && (done == 0 && more ==> enabled)
        invariant more && enabled ==> |now.fired| == old(|now.fired|) + done && Progress(old(now.fired), now, first, done, old(clock))
        invariant !more ==> old(now.fired) + first <= now.fired && steps[|steps| - 1].Take? && !Due(now, steps[|steps| - 1].now)
        decreases BUDGET - done, more
      {
        more := FireOne(old(now.fired), first, done, old(clock));
        if more {
          done := done + 1;
        }
      }
      Completed(old(now.fired), now, first, done, old(clock));
      Finish();
      InView();
    }

    /** One turn of the loop: take a due event, run its callback, clean up. */
    method FireOne(ghost fired: seq<nat>, ghost first: seq<nat>, ghost done: nat, ghost t0: nat) returns (more: bool)
      requires Valid() && enabled && now.running == -1 && clock >= t0 && Progress(fired, now, first, done, t0)
      modifies this
      ensures Valid() && now.running == -1 && now.dropped == old(now.dropped) && old(steps) < steps && old(states) <= states && clock >= old(clock)
      ensures more ==> |now.fired| == |old(now.fired)| + 1 && (enabled ==> Progress(fired, now, first, done + 1, t0))
      ensures !more ==> now.fired == old(now.fired) && fired + first <= now.fired && steps == old(steps) + [Take(clock)] && !Due(now, clock)
    {
      hide Ok, Run, Chain, Valid, CatchUp, Timers.Deadline, Timers.Place, Ahead;
      var t := ReadTime();
      InView();
      ghost var before := now;
      var e := TakeDue(t);
      TakeProgress(before, fired, first, done, t0, t);
      if e < 0 { return false; }
      ghost var ahead := Rest(first, done + 1);
      Callback(ahead, t0);
      ghost var called := now;
      CleanupRunning();
      InView();
      SameAhead(called, now, ahead, t0);
      return true;
    }
  }

  /** A new event, the next number, stands at `i`: behind all that are due no later than `x` and ahead of all others. */
  ghost predicate Placed(expire: seq<nat>, queue: seq<nat>, queue': seq<nat>, x: nat, i: nat) {
    && i <= |queue| && queue' == queue[..i] + [|expire|] + queue[i..]
    && (forall j :: 0 <= j < i ==> queue[j] < |expire| && expire[queue[j]] <= x)
    && (forall j :: i <= j < |queue| ==> queue[j] < |expire| && expire[queue[j]] > x)
  }

  /** `tick'` is the first of `tick`, `tick + interval`, ... behind `t`. */
  ghost predicate FirstTick(tick: nat, interval: nat, t: nat, tick': nat) {
    exists k: nat :: tick' == TickAt(tick, interval, k) && tick' > t && (k > 0 ==> TickAt(tick, interval, k - 1) <= t)
  }

  function TickAt(tick: nat, interval: nat, k: nat): nat {
    tick + k * interval
  }

  lemma AddPlaced(s: State, x: nat) returns (i: nat)
    requires Ok(s) && s.enabled && Enabled(s, Add(x))
    ensures Placed(s.expire, s.queue, Next(s, Add(x)).queue, x, i)
  {
    hide Ok, Place, Earliest;
    i := Place(s.expire, s.queue, x);
    AddEffect(s, x);
  }

  lemma EarliestKept(s: State, s': State, d: nat)
    requires s' == s.(raised := s'.raised, programmed := s'.programmed)
    ensures Earliest(s, d) <==> Earliest(s', d)
  {
  }

  lemma FirstTickIs(tick: nat, interval: nat, t: nat)
    requires interval > 0
    ensures FirstTick(tick, interval, t, CatchUp(tick, interval, t))
  {
    var k := CatchUpLeast(tick, interval, t);
    var next := CatchUp(tick, interval, t);
    hide CatchUp;
    assert next == TickAt(tick, interval, k) && next > t;
    assert k > 0 ==> TickAt(tick, interval, k - 1) <= t;
  }

  /** `ahead` are the first events of the queue, all due at `t`. */
  ghost predicate Ahead(s: State, ahead: seq<nat>, t: nat) {
    ahead <= s.queue && forall e :: e in ahead ==> e < |s.expire| && s.expire[e] <= t
  }

  /** The events due at `t`, in queue order, as many as one bottom half may run. */
  function Served(s: State, t: nat): seq<nat> {
    var n := Place(s.expire, s.queue, t);
    s.queue[..if n < BUDGET then n else BUDGET]
  }

  /** They are the head of the queue, all due, and nothing due is left behind them unless the budget is used up. */
  lemma ServedExact(s: State, t: nat)
    requires Ok(s)
    ensures Ahead(s, Served(s, t), t) && |Served(s, t)| <= BUDGET
    ensures |Served(s, t)| == BUDGET || forall e :: e in s.queue && e !in Served(s, t) ==> e < |s.expire| && s.expire[e] > t
  {
    PlaceOk(s.expire, s.queue, t);
    var first := Served(s, t);
    forall e | e in first ensures e < |s.expire| && s.expire[e] <= t {
      var i :| 0 <= i < |first| && first[i] == e;
      assert s.queue[i] == e;
    }
    forall i | 0 <= i < |first| ensures s.queue[i] in first {
      assert s.queue[i] == first[i];
    }
  }

  function Rest(first: seq<nat>, done: nat): seq<nat> {
    if done <= |first| then first[done..] else []
  }

  /** After `done` events: the first of `first` fired in order and the others are next in the queue. */
  ghost predicate Progress(fired: seq<nat>, s: State, first: seq<nat>, done: nat, t: nat) {
    && Ahead(s, Rest(first, done), t)
    && (done <= |first| ==> s.fired == fired + first[..done])
    && (done >= |first| ==> fired + first <= s.fired)
  }

  lemma Beginning(s: State, t: nat)
    requires Ok(s)
    ensures |Served(s, t)| <= BUDGET && Progress(s.fired, s, Served(s, t), 0, t)
  {
    ServedExact(s, t);
    var first := Served(s, t);
    assert first[0..] == first;
    assert s.fired + first[..0] == s.fired;
  }

  lemma Completed(fired: seq<nat>, s: State, first: seq<nat>, done: nat, t: nat)
    requires |first| <= BUDGET
    ensures done >= BUDGET && Progress(fired, s, first, done, t) ==> fired + first <= s.fired
  {
  }

  /** A section of the bottom half takes the next of the due events, or there was none. */
  lemma TakeProgress(s: State, fired: seq<nat>, first: seq<nat>, done: nat, t0: nat, t: nat)
    requires Enabled(s, Take(t)) && t0 <= t && Progress(fired, s, first, done, t0)
    ensures var s' := Next(s, Take(t));
            && (Due(s, t) ==> Progress(fired, s', first, done + 1, t0))
            && (!Due(s, t) ==> fired + first <= s'.fired)
  {
    hide CatchUp, Place;
    var rest := Rest(first, done);
    if rest != [] {
      assert rest[0] in rest && s.queue[0] == rest[0];
      assert Rest(first, done + 1) == rest[1..];
      assert forall e :: e in rest[1..] ==> e in rest;
      assert first[..done + 1] == first[..done] + [first[done]];
    }
  }

  lemma SameAhead(s: State, s': State, ahead: seq<nat>, t: nat)
    requires s'.queue == s.queue && s'.expire == s.expire
    ensures Ahead(s, ahead, t) ==> Ahead(s', ahead, t)
  {
  }

  /** A new event is due no earlier than the present, so it goes behind every event that is due. */
  lemma AddKeeps(s: State, x: nat, ahead: seq<nat>, t: nat)
    requires Ok(s) && s.enabled && Enabled(s, Add(x)) && t <= x && Ahead(s, ahead, t)
    ensures Ahead(Next(s, Add(x)), ahead, t)
  {
    forall j | 0 <= j < |ahead| ensures s.expire[s.queue[j]] <= x {
      assert ahead[j] == s.queue[j] && ahead[j] in ahead;
    }
    PlaceBehind(s.expire, s.queue, x, |ahead|);
  }

  lemma {:induction false} PlaceBehind(expire: seq<nat>, queue: seq<nat>, x: nat, k: nat)
    requires k <= |queue| && forall j :: 0 <= j < k ==> queue[j] < |expire| && expire[queue[j]] <= x
    ensures Place(expire, queue, x) >= k
  {
    if k > 0 { PlaceBehind(expire, queue[1..], x, k - 1); }
  }

  function Initial(): State {
    State([], [], -1, [], [], [], [], false, 0, 0, 0, false)
  }

  lemma InitialOk()
    ensures Ok(Initial())
  {
  }

  lemma RunExtend(states: seq<State>, steps: seq<Step>, a: Step)
    requires Run(states, steps) && Enabled(states[|steps|], a)
    ensures Run(states + [Next(states[|steps|], a)], steps + [a])
  {
  }

  /** `dropped` is made of the lists of the stops in progress, each linked. */
  ghost predicate Detached(next: seq<int>, stops: seq<seq<nat>>, dropped: seq<nat>) {
    if stops == [] then dropped == [] else
      && stops[0] <= dropped && Chain(next, Nth(stops[0], 0), stops[0])
      && Detached(next, stops[1..], dropped[|stops[0]|..])
  }

  lemma {:induction false} DetachedKept(next: seq<int>, next': seq<int>, stops: seq<seq<nat>>, dropped: seq<nat>)
    requires Detached(next, stops, dropped) && |next| <= |next'|
    requires forall e :: e in dropped && e < |next| ==> next'[e] == next[e]
    ensures Detached(next', stops, dropped)
  {
    if stops != [] {
      var l, rest := stops[0], dropped[|stops[0]|..];
      assert forall i :: 0 <= i < |l| ==> l[i] == dropped[i] && dropped[i] in dropped;
      assert forall e :: e in rest ==> e in dropped;
      DetachedKept(next, next', stops[1..], rest);
    }
  }

  lemma ChainHead(next: seq<int>, head: int, queue: seq<nat>)
    requires Chain(next, head, queue)
    ensures head == Nth(queue, 0) < |next|
  {
  }

  lemma StopFields(s: State)
    ensures var s' := Next(s, Stop);
            && !s'.enabled && !s'.raised && s'.queue == [] && s'.dropped == s.queue + s.dropped && s'.expire == s.expire
            && s'.programmed == s'.interval == s'.tick == 0
  {
  }

  lemma PushStop(next: seq<int>, head: int, queue: seq<nat>, stops: seq<seq<nat>>, dropped: seq<nat>)
    requires Chain(next, head, queue) && Detached(next, stops, dropped)
    ensures head == Nth(queue, 0) && Chain(next, -1, []) && Detached(next, [queue] + stops, queue + dropped)
  {
    assert (queue + dropped)[|queue|..] == dropped && ([queue] + stops)[1..] == stops;
  }

  /** The links after linking in a new event; the events a stop has detached keep theirs. */
  lemma NewEvent(s: State, x: nat, next: seq<int>, head: int)
    requires Ok(s) && |next| == |s.expire| && Chain(next, head, s.queue)
    ensures var i, e := Place(s.expire, s.queue, x), |next|;
            var linked, p := next + [Nth(s.queue, i)], Nth(s.queue, i - 1);
            && (p < 0 ==> Chain(linked, e, Insert(s.queue, i, e)))
            && (p >= 0 ==> p < e && Chain(linked[p := e], head, Insert(s.queue, i, e)) && p !in s.dropped)
  {
    var i, e := Place(s.expire, s.queue, x), |next|;
    QueueFacts(s);
    hide Ok;
    var longer := next + [-1];
    assert Chain(longer, head, s.queue);
    ChainInsert(longer, head, s.queue, i, e);
    assert longer[e := Nth(s.queue, i)] == next + [Nth(s.queue, i)];
    assert i == 0 ==> Insert(s.queue, i, e) == [e] + s.queue;
    assert i > 0 ==> s.queue[i - 1] in s.queue;
  }

  /** The queue repeats no event and shares none with the detached ones. */
  lemma QueueFacts(s: State)
    requires Ok(s)
    ensures NoDup(s.queue) && |s.expire| !in s.queue && forall e :: e in s.dropped ==> e !in s.queue
  {
    assert forall i, j :: 0 <= i < j < |s.queue| ==> Before(s.expire, s.queue[i], s.queue[j]);
    forall e | e in s.dropped ensures e !in s.queue {
      assert Held(s, e) == if e < |s.expire| then 1 else 0;
    }
  }

  lemma DetachFirst(s: State, next: seq<int>, head: int)
    requires Ok(s) && Chain(next, head, s.queue) && s.queue != []
    ensures 0 <= head < |next| && head !in s.dropped && Chain(next[head := -1], next[head], s.queue[1..])
  {
    QueueFacts(s);
    hide Ok;
    ChainTail(next, head, s.queue, -1);
    assert head in s.queue;
  }
}
