/**
 Software timers (kernel/src/timer.c) as a state machine. One step is one interrupt-off section or one
 callback; events are numbered in the order they were accepted.
 */
module Timers {

  const UINT64_MAX: nat := 0xffff_ffff_ffff_ffff
  const BUDGET: nat := 16

  /**
   `queue`: pending events. `running`: the event whose callback runs (-1: none). `dropped`: events
   detached by a stop and not cleaned up yet. `fired` and `cleaned` are histories; `firedAt[i]` is the time
   at which `fired[i]` was taken from the queue. `programmed` is the hardware deadline (0: none), `raised` the
   timer's bottom-half notification. `tick` is the scheduler's next deadline.
   */
  datatype State = State(expire: seq<nat>, queue: seq<nat>, running: int, dropped: seq<nat>,
                         fired: seq<nat>, firedAt: seq<nat>, cleaned: seq<nat>,
                         enabled: bool, interval: nat, tick: nat, programmed: nat, raised: bool)

  datatype Step =
    | Add(expire: nat) | Irq | Select | Take(now: nat) | Cleanup | EndRun(now: nat) | Stop | Drop | Init(interval: nat, now: nat)

  /** Time is positive, and the bottom half, which never nests, runs one callback at a time. */
  predicate Enabled(s: State, a: Step) {
    match a
    case Add(x) => 0 < x <= UINT64_MAX
    case Take(_) => s.enabled && s.running == -1
    case Cleanup => s.running >= 0
    case EndRun(_) => s.running == -1
    case Drop => s.dropped != []
    case Init(interval, now) => interval > 0 && now > 0
    case _ => true
  }

  /** Earlier deadline first, ties in the order of acceptance. */
  predicate Before(expire: seq<nat>, a: nat, b: nat) {
    a < |expire| && b < |expire| && (expire[a] < expire[b] || (expire[a] == expire[b] && a < b))
  }

  /** The position behind every event that is due no later than `x`. */
  function Place(expire: seq<nat>, queue: seq<nat>, x: nat): (i: nat)
    ensures i <= |queue|
  {
    if queue == [] || queue[0] >= |expire| || expire[queue[0]] > x then 0 else 1 + Place(expire, queue[1..], x)
  }

  function Insert(queue: seq<nat>, i: nat, e: nat): seq<nat>
    requires i <= |queue|
  {
    queue[..i] + [e] + queue[i..]
  }

  /** The earlier of the scheduler tick and the first event; 0 is no deadline. */
  function Deadline(s: State): nat {
    var d := if s.interval != 0 then s.tick else 0;
    if s.queue != [] && s.queue[0] < |s.expire| && (d == 0 || s.expire[s.queue[0]] < d) then s.expire[s.queue[0]] else d
  }

  /** The scheduler tick moved past the present. */
  function CatchUp(tick: nat, interval: nat, now: nat): (t: nat)
    decreases if interval == 0 || tick > now then 0 else now - tick + 1
  {
    if interval == 0 || tick > now then tick else CatchUp(tick + interval, interval, now)
  }

  predicate Due(s: State, now: nat) {
    s.queue != [] && s.queue[0] < |s.expire| && s.expire[s.queue[0]] <= now
  }

  function Reprogram(s: State): State {
    s.(programmed := Deadline(s))
  }

  function Next(s: State, a: Step): State
    requires Enabled(s, a)
  {
    match a
    case Add(x) =>
      if !s.enabled then s
      else Reprogram(s.(expire := s.expire + [x], queue := Insert(s.queue, Place(s.expire, s.queue, x), |s.expire|)))
    case Irq => s.(raised := true)
    case Select => s.(raised := false)
    case Take(now) =>
      var t := s.(tick := CatchUp(s.tick, s.interval, now));
      if Due(s, now) then
        t.(queue := s.queue[1..], running := s.queue[0], fired := s.fired + [s.queue[0]], firedAt := s.firedAt + [now])
      else t
    case Cleanup => s.(running := -1, cleaned := s.cleaned + [s.running])
    case EndRun(now) => if !s.enabled then s else Reprogram(s.(raised := s.raised || Due(s, now)))
    case Stop => s.(enabled := false, raised := false, dropped := s.queue + s.dropped, queue := [], programmed := 0, interval := 0, tick := 0)
    case Drop => s.(dropped := s.dropped[1..], cleaned := s.cleaned + [s.dropped[0]])
    case Init(interval, now) => Reprogram(s.(enabled := true, interval := interval, tick := now + interval))
  }

  // ----- invariant -----

  ghost predicate Sorted(expire: seq<nat>, queue: seq<nat>) {
    && (forall i :: 0 <= i < |queue| ==> queue[i] < |expire|)
    && (forall i, j :: 0 <= i < j < |queue| ==> Before(expire, queue[i], queue[j]))
  }

  /** How often event `e` is pending, running, waiting for its cleanup, or cleaned up. */
  function Held(s: State, e: nat): nat {
    Count(s.queue, e) + (if s.running == e then 1 else 0) + Count(s.dropped, e) + Count(s.cleaned, e)
  }

  /** Each accepted event is in exactly one place. */
  ghost predicate OwnedOnce(s: State) {
    forall e: nat :: Held(s, e) == if e < |s.expire| then 1 else 0
  }

  /** The hardware wakes us no later than the first event is due. */
  ghost predicate Armed(s: State) {
    && (!s.enabled ==> s.queue == [])
    && (s.interval != 0 ==> s.tick > 0)
    && (s.enabled && Pending(s) ==> 0 < s.programmed <= s.expire[s.queue[0]])
  }

  predicate Pending(s: State) {
    s.queue != [] && s.queue[0] < |s.expire|
  }

  ghost predicate FiredOk(s: State) {
    && |s.firedAt| == |s.fired|
    && (forall i :: 0 <= i < |s.fired| ==> s.fired[i] < |s.expire| && s.expire[s.fired[i]] <= s.firedAt[i])
  }

  ghost predicate Positive(expire: seq<nat>) {
    forall i :: 0 <= i < |expire| ==> expire[i] > 0
  }

  ghost predicate Ok(s: State) {
    Sorted(s.expire, s.queue) && s.running >= -1 && OwnedOnce(s) && Positive(s.expire) && Armed(s) && FiredOk(s)
  }

  lemma {:induction false} PlaceOk(expire: seq<nat>, queue: seq<nat>, x: nat)
    requires Sorted(expire, queue)
    ensures var i := Place(expire, queue, x);
            && (forall j :: 0 <= j < i ==> expire[queue[j]] <= x)
            && (forall j :: i <= j < |queue| ==> expire[queue[j]] > x)
  {
    if queue != [] {
      var q := queue[1..];
      assert forall j :: 0 <= j < |q| ==> q[j] == queue[j + 1];
      if expire[queue[0]] > x {
        forall j | 0 <= j < |queue| ensures expire[queue[j]] > x {
          assert j > 0 ==> Before(expire, queue[0], queue[j]);
        }
      } else {
        PlaceOk(expire, q, x);
      }
    }
  }

  lemma InsertSorted(expire: seq<nat>, queue: seq<nat>, x: nat)
    requires Sorted(expire, queue)
    ensures Sorted(expire + [x], Insert(queue, Place(expire, queue, x), |expire|))
  {
    PlaceOk(expire, queue, x);
    var i, e := Place(expire, queue, x), expire + [x];
    var q := Insert(queue, i, |expire|);
    assert forall j :: 0 <= j < |q| ==> q[j] == if j < i then queue[j] else if j == i then |expire| else queue[j - 1];
    forall j, k | 0 <= j < k < |q| ensures Before(e, q[j], q[k]) {
      assert j < i && k < i ==> Before(expire, queue[j], queue[k]);
      assert j < i < k ==> Before(expire, queue[j], queue[k - 1]);
      assert i < j ==> Before(expire, queue[j - 1], queue[k - 1]);
    }
  }

  // ----- every step keeps the invariant -----

  lemma InsertCount(queue: seq<nat>, i: nat, x: nat, e: nat)
    requires i <= |queue|
    ensures Count(Insert(queue, i, x), e) == Count(queue, e) + if e == x then 1 else 0
  {
    assert queue == queue[..i] + queue[i..];
  }

  /** How often `e` occurs. */
  function Count(q: seq<nat>, e: nat): nat {
    multiset(q)[e]
  }

  lemma CountHead(q: seq<nat>, e: nat)
    ensures q != [] ==> Count(q, e) == Count(q[1..], e) + if q[0] == e then 1 else 0
  {
    assert q != [] ==> q == [q[0]] + q[1..];
  }

  lemma CountJoin(p: seq<nat>, q: seq<nat>, e: nat)
    ensures Count(p + q, e) == Count(p, e) + Count(q, e)
  {
  }

  lemma CountOne(x: nat, e: nat)
    ensures Count([x], e) == (if x == e then 1 else 0) && Count([], e) == 0
  {
  }

  lemma HeldStep(s: State, a: Step, e: nat)
    requires Enabled(s, a) && s.running >= -1 && (!s.enabled ==> s.queue == [])
    ensures var s' := Next(s, a); Held(s', e) == Held(s, e) + (if a.Add? && s.enabled && e == |s.expire| then 1 else 0)
  {
    hide CatchUp, Deadline, Place, Insert, Count;
    match a
    case Add(x) => InsertCount(s.queue, Place(s.expire, s.queue, x), |s.expire|, e);
    case Take(now) => CountHead(s.queue, e);
    case Cleanup => CountJoin(s.cleaned, [s.running], e); CountOne(s.running, e);
    case Stop => CountJoin(s.queue, s.dropped, e); CountOne(0, e);
    case Drop => CountHead(s.dropped, e); CountJoin(s.cleaned, [s.dropped[0]], e); CountOne(s.dropped[0], e);
    case _ =>
  }

  lemma OwnedStep(s: State, a: Step)
    requires Enabled(s, a) && OwnedOnce(s) && s.running >= -1 && (!s.enabled ==> s.queue == [])
    ensures OwnedOnce(Next(s, a))
  {
    hide Held, CatchUp, Deadline, Place, Insert;
    forall e: nat ensures Held(Next(s, a), e) == if e < |Next(s, a).expire| then 1 else 0 {
      HeldStep(s, a, e);
    }
  }

  lemma SortedStep(s: State, a: Step)
    requires Enabled(s, a) && Sorted(s.expire, s.queue)
    ensures Sorted(Next(s, a).expire, Next(s, a).queue)
  {
    hide CatchUp, Deadline, Place, Insert;
    match a
    case Add(x) => InsertSorted(s.expire, s.queue, x);
    case Take(now) => assert forall q :: Due(s, now) && q == s.queue[1..] ==> forall i :: 0 <= i < |q| ==> q[i] == s.queue[i + 1];
    case _ =>
  }

  lemma {:induction false} CatchUpLater(tick: nat, interval: nat, now: nat)
    ensures CatchUp(tick, interval, now) >= tick && (interval != 0 ==> CatchUp(tick, interval, now) > now)
    decreases if interval == 0 || tick > now then 0 else now - tick + 1
  {
    if interval != 0 && tick <= now { CatchUpLater(tick + interval, interval, now); }
  }

  /** Catching up goes to the first tick behind the present, by whole intervals. */
  lemma {:induction false} CatchUpLeast(tick: nat, interval: nat, now: nat) returns (k: nat)
    requires interval > 0
    ensures CatchUp(tick, interval, now) == tick + k * interval > now && (k > 0 ==> tick + (k - 1) * interval <= now)
    decreases if tick > now then 0 else now - tick + 1
  {
    k := 0;
    if tick <= now {
      k := CatchUpLeast(tick + interval, interval, now);
      assert tick + interval + k * interval == tick + (k + 1) * interval;
      if k > 0 { assert tick + interval + (k - 1) * interval == tick + k * interval; }
      k := k + 1;
    }
  }

  /** `d` is the least of the scheduler tick, if there is one, and all pending deadlines; 0 if there is neither. */
  ghost predicate Earliest(s: State, d: nat) {
    && (s.interval != 0 ==> d <= s.tick)
    && (forall i :: 0 <= i < |s.queue| && s.queue[i] < |s.expire| ==> d <= s.expire[s.queue[i]])
    && (d == 0 <==> s.interval == 0 && s.queue == [])
    && (d != 0 ==> (s.interval != 0 && d == s.tick) || (Pending(s) && d == s.expire[s.queue[0]]))
  }

  lemma DeadlineEarliest(s: State)
    requires (s.interval != 0 ==> s.tick > 0) && Positive(s.expire) && Sorted(s.expire, s.queue)
    ensures Earliest(s, Deadline(s))
  {
    forall i | 0 <= i < |s.queue| && s.queue[i] < |s.expire| ensures Deadline(s) <= s.expire[s.queue[i]] {
      assert i > 0 ==> Before(s.expire, s.queue[0], s.queue[i]);
    }
  }

  /** The programmed deadline is never later than the first event's. */
  lemma DeadlineOk(s: State)
    requires (s.interval != 0 ==> s.tick > 0) && Positive(s.expire)
    ensures Pending(s) ==> 0 < Deadline(s) <= s.expire[s.queue[0]]
  {
  }

  lemma ArmedStep(s: State, a: Step)
    requires Enabled(s, a) && Sorted(s.expire, s.queue) && Positive(s.expire) && Armed(s)
    ensures Armed(Next(s, a)) && Positive(Next(s, a).expire)
  {
    hide CatchUp, Place, Insert;
    var s' := Next(s, a);
    if a.Take? {
      CatchUpLater(s.tick, s.interval, a.now);
      assert |s.queue| > 1 ==> Before(s.expire, s.queue[0], s.queue[1]);
    } else {
      DeadlineOk(s');
    }
  }

  lemma FiredStep(s: State, a: Step)
    requires Enabled(s, a) && FiredOk(s)
    ensures FiredOk(Next(s, a))
  {
    hide CatchUp, Deadline, Place, Insert;
  }

  lemma NextOk(s: State, a: Step)
    requires Ok(s) && Enabled(s, a)
    ensures Ok(Next(s, a))
  {
    OwnedStep(s, a);
    SortedStep(s, a);
    ArmedStep(s, a);
    FiredStep(s, a);
    hide Sorted, OwnedOnce, Armed, FiredOk, Positive, CatchUp, Deadline, Place, Insert;
  }

  // ----- runs -----

  ghost predicate Run(states: seq<State>, steps: seq<Step>) {
    && |states| == |steps| + 1 && Ok(states[0])
    && (forall i :: 0 <= i < |steps| ==> Enabled(states[i], steps[i]) && states[i + 1] == Next(states[i], steps[i]))
  }

  lemma {:induction false} RunOk(states: seq<State>, steps: seq<Step>, i: nat)
    requires Run(states, steps) && i < |states|
    ensures Ok(states[i])
  {
    hide Ok, Next, Enabled;
    if i > 0 {
      RunOk(states, steps, i - 1);
      NextOk(states[i - 1], steps[i - 1]);
    }
  }

  /** The step takes event `e` from the queue and runs its callback. */
  predicate Fires(s: State, a: Step, e: nat) {
    a.Take? && Due(s, a.now) && s.queue[0] == e
  }

  /** No callback runs before its deadline. */
  lemma NeverEarly(states: seq<State>, steps: seq<Step>, i: nat, e: nat)
    requires Run(states, steps) && i < |steps| && Fires(states[i], steps[i], e)
    ensures e < |states[i].expire| && states[i].expire[e] <= steps[i].now
    ensures forall k :: 0 <= k < |states[i].queue| ==> states[i].queue[k] == e || Before(states[i].expire, e, states[i].queue[k])
  {
    RunOk(states, steps, i);
  }

  /** Deadlines are never rewritten. */
  lemma {:induction false} ExpireKept(states: seq<State>, steps: seq<Step>, i: nat, j: nat)
    requires Run(states, steps) && i <= j < |states|
    ensures states[i].expire <= states[j].expire
    decreases j - i
  {
    if i < j {
      ExpireKept(states, steps, i, j - 1);
      ExpireStep(states[j - 1], steps[j - 1]);
    }
  }

  lemma ExpireStep(s: State, a: Step)
    requires Enabled(s, a)
    ensures s.expire <= Next(s, a).expire
  {
    hide CatchUp, Deadline, Place, Insert;
  }

  /** The step is accepted as event `e` with deadline `x`. */
  predicate Adds(s: State, a: Step, e: nat, x: nat) {
    a == Add(x) && s.enabled && e == |s.expire|
  }

  /** An accepted event gets the deadline asked for and waits behind all that are due no later and ahead of all others. */
  lemma AddEffect(s: State, x: nat)
    requires Ok(s) && s.enabled && Enabled(s, Add(x))
    ensures var s', e, i := Next(s, Add(x)), |s.expire|, Place(s.expire, s.queue, x);
            && s' == s.(expire := s.expire + [x], queue := s'.queue, programmed := s'.programmed)
            && s'.queue == s.queue[..i] + [e] + s.queue[i..]
            && (forall j :: 0 <= j < i ==> s.queue[j] < |s.expire| && s.expire[s.queue[j]] <= x)
            && (forall j :: i <= j < |s.queue| ==> s.queue[j] < |s.expire| && s.expire[s.queue[j]] > x)
            && Earliest(s', s'.programmed)
  {
    PlaceOk(s.expire, s.queue, x);
    NextOk(s, Add(x));
    DeadlineEarliest(Next(s, Add(x)));
    hide Place, OwnedOnce, FiredOk, Earliest;
  }

  /** No callback runs before the time its request asked for. */
  lemma NotBeforeRequest(states: seq<State>, steps: seq<Step>, i: nat, j: nat, e: nat, x: nat)
    requires Run(states, steps) && i < j < |steps| && Adds(states[i], steps[i], e, x) && Fires(states[j], steps[j], e)
    ensures steps[j].now >= x
  {
    hide Ok;
    RunOk(states, steps, i);
    AddEffect(states[i], x);
    ExpireKept(states, steps, i + 1, j);
    NeverEarly(states, steps, j, e);
    assert states[i + 1].expire[e] == x;
  }

  /** Of two requests pending together, the one for the earlier time, or the one made first, is served first. */
  lemma ServedInOrder(states: seq<State>, steps: seq<Step>, i: nat, k: nat, m: nat, j: nat, a: nat, x: nat, b: nat, y: nat) returns (n: nat)
    requires Run(states, steps) && i < m && k < m && m <= j < |steps|
    requires Adds(states[i], steps[i], a, x) && Adds(states[k], steps[k], b, y) && (x < y || (x == y && i < k))
    requires a in states[m].queue && b in states[m].queue && Fires(states[j], steps[j], b)
    ensures m <= n < j && Fires(states[n], steps[n], a)
  {
    hide Ok;
    RunOk(states, steps, i);
    RunOk(states, steps, k);
    AddEffect(states[i], x);
    AddEffect(states[k], y);
    ExpireKept(states, steps, i + 1, m);
    ExpireKept(states, steps, k + 1, m);
    if i < k { ExpireKept(states, steps, i + 1, k); }
    assert states[i + 1].expire[a] == x && states[k + 1].expire[b] == y;
    n := FiresInOrder(states, steps, m, j, a, b);
  }

  /** Of two events pending together the one before the other fires first. */
  lemma {:induction false} FiresInOrder(states: seq<State>, steps: seq<Step>, i: nat, j: nat, a: nat, b: nat) returns (m: nat)
    requires Run(states, steps) && i <= j < |steps|
    requires a in states[i].queue && b in states[i].queue && Before(states[i].expire, a, b) && Fires(states[j], steps[j], b)
    ensures i <= m < j && Fires(states[m], steps[m], a)
    decreases j - i
  {
    RunOk(states, steps, i);
    NotAhead(states[i], a, b);
    if Fires(states[i], steps[i], a) {
      m := i;
    } else {
      QueueStep(states[i], steps[i], a, b);
      if b !in states[i + 1].queue {
        Gone(states, steps, i + 1, j, b);
      }
      m := FiresInOrder(states, steps, i + 1, j, a, b);
    }
  }

  lemma NotAhead(s: State, a: nat, b: nat)
    requires Sorted(s.expire, s.queue) && a in s.queue && Before(s.expire, a, b)
    ensures s.queue[0] != b
  {
    var i :| 0 <= i < |s.queue| && s.queue[i] == a;
    assert i > 0 ==> Before(s.expire, s.queue[0], a);
  }

  /** A step that does not fire `a` keeps both events pending, or drops both. */
  lemma QueueStep(s: State, step: Step, a: nat, b: nat)
    requires Ok(s) && Enabled(s, step) && a in s.queue && b in s.queue && s.queue[0] != b && !Fires(s, step, a)
    ensures var s' := Next(s, step);
            && |s.expire| <= |s'.expire| && s'.expire[..|s.expire|] == s.expire
            && (b in s'.queue ==> a in s'.queue) && b < |s'.expire|
  {
    if step.Take? && Due(s, step.now) {
      assert s.queue == [s.queue[0]] + s.queue[1..];
    } else if step.Add? {
      var i := Place(s.expire, s.queue, step.expire);
      assert s.queue == s.queue[..i] + s.queue[i..];
    }
  }

  /** An accepted event that left the queue never comes back. */
  lemma {:induction false} Gone(states: seq<State>, steps: seq<Step>, i: nat, j: nat, e: nat)
    requires Run(states, steps) && i <= j < |states| && e < |states[i].expire| && e !in states[i].queue
    ensures e !in states[j].queue && e < |states[j].expire|
    decreases j - i
  {
    if i < j {
      Gone(states, steps, i, j - 1, e);
      GoneStep(states[j - 1], steps[j - 1], e);
    }
  }

  lemma GoneStep(s: State, a: Step, e: nat)
    requires Enabled(s, a) && e < |s.expire| && e !in s.queue
    ensures e !in Next(s, a).queue && e < |Next(s, a).expire|
  {
  }

  // ----- cleanup -----

  /** An accepted event is cleaned up at most once, and not while it is pending or its callback runs. */
  lemma CleanedAtMostOnce(s: State, e: nat)
    requires Ok(s)
    ensures Count(s.cleaned, e) <= 1
    ensures e in s.cleaned ==> e < |s.expire| && e !in s.queue && e != s.running && e !in s.dropped
  {
    assert Held(s, e) == if e < |s.expire| then 1 else 0;
  }

  /** Once nothing is pending or running, every accepted event has been cleaned up exactly once. */
  lemma AllCleaned(s: State, e: nat)
    requires Ok(s) && s.queue == [] && s.running == -1 && s.dropped == [] && e < |s.expire|
    ensures Count(s.cleaned, e) == 1
  {
    assert Held(s, e) == if e < |s.expire| then 1 else 0;
  }

  /** After a bottom half, an event left over although due has the notification raised again. */
  lemma LeftoverRaised(s: State, now: nat)
    requires Ok(s) && s.enabled && Enabled(s, EndRun(now))
    ensures var s' := Next(s, EndRun(now)); (Due(s', now) ==> s'.raised) && (s'.queue != [] ==> 0 < s'.programmed <= s'.expire[s'.queue[0]])
    ensures Earliest(Next(s, EndRun(now)), Next(s, EndRun(now)).programmed)
  {
    NextOk(s, EndRun(now));
    DeadlineEarliest(Next(s, EndRun(now)));
  }
}
