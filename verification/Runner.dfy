/**
 The code of kernel/src/bottom_half.c and custom_work.c: every call performs steps of the state machine
 in module DeferredWork, whose trace is kept as ghost state. What interrupts and handlers do at the
 points where interrupts are on is an input: `script` holds one list of steps per such point.
 */
module Runner {
  import opened Links
  import opened DeferredWork

  class BottomHalves {
    var pending: set<Kind>
    var running: bool
    var irq: bool
    // the callback pool: allocation flags, callbacks with their arguments, and links; -1 is the null pointer
    var used: seq<bool>
    var payload: seq<int>
    var next: seq<int>
    var head: int
    var tail: int
    var script: seq<seq<Step>>
    // handlers and callbacks run so far
    var handled: seq<Kind>
    var calls: seq<int>

    ghost var now: State
    ghost var states: seq<State>
    ghost var steps: seq<Step>

    /** The trace is a run that ends in the current state. */
    ghost predicate Traced()
      reads this
    {
      Run(states, steps) && states[|steps|] == now
    }

    ghost predicate Valid()
      reads this
    {
      && Traced() && Ok(now)
      && pending == now.pending && (running <==> now.phase != Idle) && irq == now.irq && used == now.used
      && |next| == SLOTS && Chain(next, head, now.queue) && tail == Last(now.queue)
      && Chain(next, Nth(now.batch, 0), now.batch)
      && handled == now.started && Carries(payload, calls, now)
    }

    lemma View()
      requires Valid()
      ensures pending == now.pending && (running <==> now.phase != Idle) && irq == now.irq
      ensures Run(states, steps) && states[|steps|] == now && handled == now.started
    {
    }

    /** What others did and what they are still going to do. */
    ghost function Agenda(): seq<Step>
      reads this
    {
      EnvOf(steps) + Flat(script)
    }

    constructor (script: seq<seq<Step>>)
      ensures Valid() && now.phase == Idle && now.submitted == [] && calls == [] && handled == [] && steps == [] && this.script == script
    {
      pending, running, irq := {}, false, true;
      used, payload, next := seq(SLOTS, _ => false), seq(SLOTS, _ => 0), seq(SLOTS, _ => -1);
      handled, calls := [], [];
      head, tail := -1, -1;
      this.script := script;
      now := Initial();
      states, steps := [Initial()], [];
      new;
      InitialOk();
    }

    /** Record a step. */
    ghost method Did(a: Step)
      requires Traced() && Ok(now) && Enabled(now, a)
      modifies `now, `states, `steps
      ensures Traced() && Ok(now) && now == Next(old(now), a)
      ensures states == old(states) + [now] && steps == old(steps) + [a] && EnvOf(steps) == old(EnvOf(steps)) + OneEnv(a)
    {
      hide Ok, Next, Enabled;
      NextOk(now, a);
      EnvAppend(steps, a);
      RunExtend(states, steps, a);
      now := Next(now, a);
      states, steps := states + [now], steps + [a];
    }

    method Raise(k: Kind)
      requires Valid() && Open(now)
      modifies `pending, `now, `states, `steps
      ensures Valid() && now == Next(old(now), DeferredWork.Raise(k))
      ensures pending == old(pending) + {k} && now == old(now).(pending := pending)
      ensures states == old(states) + [now] && steps == old(steps) + [DeferredWork.Raise(k)]
      ensures EnvOf(steps) == old(EnvOf(steps)) + [DeferredWork.Raise(k)]
    {
      hide Ok, Chain, Run, Carries, EnvOf;
      SameLine(now, Next(now, DeferredWork.Raise(k)), payload, calls);
      pending := pending + {k};
      Did(DeferredWork.Raise(k));
    }

    method Clear(k: Kind)
      requires Valid() && Open(now)
      modifies `pending, `now, `states, `steps
      ensures Valid() && now == Next(old(now), DeferredWork.Clear(k))
      ensures pending == old(pending) - {k} && now == old(now).(pending := pending)
      ensures states == old(states) + [now] && steps == old(steps) + [DeferredWork.Clear(k)]
      ensures EnvOf(steps) == old(EnvOf(steps)) + [DeferredWork.Clear(k)]
    {
      hide Ok, Chain, Run, Carries, EnvOf;
      SameLine(now, Next(now, DeferredWork.Clear(k)), payload, calls);
      pending := pending - {k};
      Did(DeferredWork.Clear(k));
    }

    method FindFree() returns (i: nat)
      requires |used| == SLOTS
      ensures i == FreeSlot(used, 0) && (i < SLOTS <==> exists j :: 0 <= j < |used| && !used[j])
    {
      hide FreeSlot;
      i := 0;
      while i < SLOTS && used[i]
        invariant i <= SLOTS && forall j :: 0 <= j < i ==> used[j]
      {
        i := i + 1;
      }
      FirstFree(used, i);
    }

    /** `defer_callback`: take the first free slot, or refuse a null callback (`!given`) and a full pool. */
    method Defer(given: bool, work: int) returns (ok: bool, ghost slot: nat)
      requires Valid() && Open(now)
      modifies `pending, `used, `payload, `next, `head, `tail, `now, `states, `steps
      ensures Valid() && (given ==> now == Next(old(now), DeferredWork.Defer(work)))
      ensures given ==> states == old(states) + [now] && steps == old(steps) + [DeferredWork.Defer(work)]
      ensures given ==> EnvOf(steps) == old(EnvOf(steps)) + [DeferredWork.Defer(work)]
      ensures !given ==> now == old(now) && states == old(states) && steps == old(steps)
      ensures ok <==> given && exists i :: 0 <= i < |old(used)| && !old(used)[i]
      ensures !ok ==> now == old(now) && used == old(used) && payload == old(payload) && pending == old(pending)
      // An accepted callback is stored in the first free slot and queued behind all others.
      ensures ok ==> slot < |old(used)| == |old(payload)| && !old(used)[slot] && forall i :: 0 <= i < slot ==> old(used)[i]
      ensures ok ==> used == old(used)[slot := true] && payload == old(payload)[slot := work] && pending == old(pending) + {Custom}
      ensures ok ==> now.queue == old(now.queue) + [slot] && now.submitted == old(now.submitted) + [work]
      ensures ok ==> now == old(now).(used := used, id := now.id, queue := now.queue, submitted := now.submitted, pending := pending)
    {
      hide Ok, Run, FreeSlot, Chain, NoDup, Last, Carries, EnvOf, Next;
      PoolLengths(now);
      CarriesLength(now, payload, calls);
      if !given { return false, 0; }
      var i := FindFree();
      DeferEffect(now, work);
      ok, slot := i < SLOTS, i;
      if ok {
        Accept(i, work);
      } else {
        CarriesDefer(now, payload, calls, work, i);
        Did(DeferredWork.Defer(work));
      }
    }

    /** Fill slot `i`, link it, and raise the custom bottom half. */
    method Accept(i: nat, work: int)
      requires Valid() && Open(now) && |now.used| == SLOTS && i == FreeSlot(now.used, 0) < SLOTS
      modifies `pending, `used, `payload, `next, `head, `tail, `now, `states, `steps
      ensures now == Next(old(now), DeferredWork.Defer(work)) && Valid()
      ensures states == old(states) + [now] && steps == old(steps) + [DeferredWork.Defer(work)]
      ensures EnvOf(steps) == old(EnvOf(steps)) + [DeferredWork.Defer(work)]
      ensures |old(payload)| == SLOTS && payload == old(payload)[i := work]
    {
      hide Ok, Run, FreeSlot, Chain, NoDup, Last, Carries, EnvOf;
      PoolLengths(now);
      CarriesDefer(now, payload, calls, work, i);
      FreeNotQueued(now, i);
      used := used[i := true];
      payload := payload[i := work];
      LinkLast(i, now.queue, now.batch);
      pending := pending + {Custom};
      Did(DeferredWork.Defer(work));
    }

    /** Link slot `i` behind the queue; the links of the detached batch stay as they are. */
    method LinkLast(i: nat, ghost queue: seq<nat>, ghost batch: seq<nat>)
      requires |next| == SLOTS && Chain(next, head, queue) && tail == Last(queue) && NoDup(queue) && i < SLOTS && i !in queue
      requires i !in batch && (forall k :: k in batch ==> k !in queue) && Chain(next, Nth(batch, 0), batch)
      modifies `next, `head, `tail
      ensures |next| == SLOTS && Chain(next, head, queue + [i]) && tail == i && Chain(next, Nth(batch, 0), batch)
    {
      ChainAppend(next, head, queue, i);
      assert queue != [] ==> tail in queue;
      assert forall k :: 0 <= k < |batch| ==> batch[k] in batch;
      next := next[i := -1];
      if tail >= 0 {
        next := next[tail := i];
      } else {
        head := i;
      }
      tail := i;
    }

    /** What interrupts and the running handler do until the next point. A nested trap calls the runner again. */
    method Interrupts()
      requires Valid() && Open(now) && now.phase != Idle
      modifies this
      ensures Valid() && SameRunner(old(now), now) && old(steps) <= steps && old(states) <= states
      ensures script == (if old(script) == [] then [] else old(script)[1..]) && Agenda() == old(Agenda())
      ensures old(script) == [] ==> now == old(now)
      decreases |script|, 0
    {
      hide Ok, Run, Chain, NoDup, Last, Ordered, FreeSlot, EnvOf, Carries, Valid;
      if script == [] { return; }
      var segment := script[0];
      DropSegment();
      NoEnv();
      assert segment[..0] == [];
      var i := 0;
      while i < |segment|
        invariant Valid() && SameRunner(old(now), now) && old(steps) <= steps && old(states) <= states
        invariant script == old(script)[1..] && i <= |segment| && EnvOf(steps) == old(EnvOf(steps)) + EnvOf(segment[..i])
      {
        assert segment[..i + 1] == segment[..i] + [segment[i]];
        EnvAppend(segment[..i], segment[i]);
        Interrupt(segment[i]);
        i := i + 1;
      }
      assert segment[..i] == segment;
    }

    /** One such act. */
    method Interrupt(a: Step)
      requires Valid() && Open(now) && now.phase != Idle
      modifies this
      ensures Valid() && SameRunner(old(now), now) && old(steps) <= steps && old(states) <= states
      ensures script == old(script) && EnvOf(steps) == old(EnvOf(steps)) + OneEnv(a)
      decreases |script|, 7
    {
      hide Ok, Run, Valid, Ordered, FreeSlot, EnvOf;
      View();
      match a {
        case Raise(k) => Raise(k);
        case Clear(k) => Clear(k);
        case Defer(work) => var ok, _ := Defer(true, work);
        case NestedRun => RunBottomHalves();
        case _ =>
      }
    }

    method DropSegment()
      requires Valid() && script != []
      modifies `script
      ensures Valid() && script == old(script)[1..]
    {
      hide Ok, Run, Chain, Carries, EnvOf;
      script := script[1..];
    }

    /** Detach the queue, interrupts off; later submissions go to a fresh list. */
    method DetachBatch() returns (work: int)
      requires Valid() && Taking(now)
      modifies `head, `tail, `now, `states, `steps
      ensures Valid() && now == Next(old(now), Detach) && work == Nth(now.batch, 0) && now.current == -1
      ensures steps == old(steps) + [Detach] && old(states) <= states && EnvOf(steps) == old(EnvOf(steps))
    {
      hide Ok, Run, NoDup, Ordered, FreeSlot, Chain, Last, Carries, EnvOf;
      BatchFacts(now);
      ChainDetach(next, head, now.queue);
      DetachLine(now, payload, calls);
      work := head;
      head, tail := -1, -1;
      Did(Detach);
    }

    /** Call the callback in slot `work`, the first of the batch. */
    method Invoke(work: nat) returns (after: int)
      requires Valid() && Enabled(now, Call) && work == now.batch[0]
      modifies `calls, `now, `states, `steps
      ensures Valid() && now == Next(old(now), Call) && after == Nth(now.batch, 0)
      ensures steps == old(steps) + [Call] && old(states) <= states && EnvOf(steps) == old(EnvOf(steps))
      ensures |old(payload)| == SLOTS && work < SLOTS && calls == old(calls) + [old(payload)[work]]
    {
      hide Ok, Run, NoDup, Ordered, FreeSlot, Chain, Last, Carries, EnvOf;
      ChainRest(next, now.batch);
      CarriesCall(now, payload, calls);
      after := next[work];
      calls := calls + [payload[work]];
      Did(Call);
    }

    /** The callback returned: its slot is free again. */
    method Release(work: nat)
      requires Valid() && now.current == work
      modifies `used, `now, `states, `steps
      ensures Valid() && now == Next(old(now), DeferredWork.Return)
      ensures steps == old(steps) + [DeferredWork.Return] && old(states) <= states && EnvOf(steps) == old(EnvOf(steps))
    {
      hide Ok, Run, NoDup, Ordered, FreeSlot, Chain, Last, Carries, EnvOf;
      PoolLengths(now);
      CarriesReturn(now, payload, calls);
      used := used[work := false];
      Did(DeferredWork.Return);
    }

    /** Call the first callback of the batch and free its slot after it returned. */
    method CallFirst(work: nat) returns (after: int)
      requires Valid() && now.irq && now.phase != Idle && Enabled(now, Call) && work == now.batch[0]
      modifies this
      ensures Valid() && now.phase == old(now.phase) && now.saved == old(now.saved) && now.irq && now.started == old(now.started)
      ensures now.detached && now.current == -1 && now.batch == old(now.batch)[1..] && after == Nth(now.batch, 0)
      ensures |now.called| == |old(now.called)| + 1
      ensures old(steps) <= steps && old(states) <= states && Agenda() == old(Agenda())
      ensures |script| <= old(|script|) && (old(script) == [] ==> script == [] && now.pending == old(now.pending))
      decreases |script|, 1
    {
      hide Ok, Run, Valid, EnvOf, Flat;
      after := Invoke(work);
      Interrupts();
      Release(work);
    }

    /** `run_custom_callbacks`: call what was queued when it started; later submissions form the next batch. */
    method RunCustomCallbacks()
      requires Valid() && Taking(now) && now.irq
      modifies this
      ensures Valid() && now.phase == old(now.phase) && now.saved == old(now.saved) && now.irq && now.started == old(now.started)
      ensures now.detached && now.batch == [] && now.current == -1 && |now.called| == |old(now.called)| + |old(now.queue)|
      ensures old(steps) <= steps && old(states) <= states && Agenda() == old(Agenda())
      ensures |script| <= old(|script|) && (old(script) == [] ==> script == [] && now.pending == old(now.pending))
      decreases |script|, 2
    {
      hide Ok, Run, Chain, Last, Valid, EnvOf, Flat;
      var work := DetachBatch();
      while work >= 0
        invariant Valid() && now.phase == old(now.phase) && now.saved == old(now.saved) && now.irq && now.started == old(now.started)
        invariant now.detached && now.current == -1 && work == Nth(now.batch, 0)
        invariant |now.called| + |now.batch| == |old(now.called)| + |old(now.queue)|
        invariant old(steps) <= steps && old(states) <= states && Agenda() == old(Agenda())
        invariant |script| <= old(|script|) && (old(script) == [] ==> script == [] && now.pending == old(now.pending))
        decreases |now.batch|
      {
        work := CallFirst(work);
      }
    }

    /** Enter the handler of `k`. */
    method Begin(k: Kind, ghost rest: seq<Kind>)
      requires Valid() && now.phase == Looping([k] + rest)
      modifies `handled, `now, `states, `steps
      ensures Valid() && now == Next(old(now), Start) && now.phase == Handling(k, rest) && now.started == old(now.started) + [k]
      ensures steps == old(steps) + [Start] && old(states) <= states && EnvOf(steps) == old(EnvOf(steps))
      ensures k == Custom ==> !now.detached
    {
      hide Ok, Run, Chain, Last, Carries, EnvOf;
      NotDetached(now);
      SameLine(now, Next(now, Start), payload, calls);
      handled := handled + [k];
      Did(Start);
    }

    method End()
      requires Valid() && Enabled(now, Finish)
      modifies `now, `states, `steps
      ensures Valid() && now == Next(old(now), Finish)
      ensures steps == old(steps) + [Finish] && old(states) <= states && EnvOf(steps) == old(EnvOf(steps))
    {
      hide Ok, Run, Chain, Last, Carries, EnvOf;
      SameLine(now, Next(now, Finish), payload, calls);
      Did(Finish);
    }

    /** One handler of the round; it acts through `Interrupts` or through the callback batch. */
    method Handle(k: Kind, ghost rest: seq<Kind>)
      requires Valid() && now.phase == Looping([k] + rest) && now.irq
      modifies this
      ensures Valid() && now.phase == Looping(rest) && now.saved == old(now.saved) && now.irq
      ensures now.started == old(now.started) + [k]
      ensures old(steps) <= steps && old(states) <= states && |script| <= old(|script|) && Agenda() == old(Agenda())
      ensures |script| < old(|script|) || (old(script) == [] && now.pending == old(now.pending))
      decreases |script|, 3
    {
      hide Ok, Run, Valid, EnvOf, Flat;
      Begin(k, rest);
      Interrupts();
      if k == Custom {
        RunCustomCallbacks();
      }
      End();
    }

    /** Select the pending types for a round and clear them before interrupts come on. */
    method Select() returns (round: set<Kind>)
      requires Valid() && AtTest(now) && pending != {}
      modifies `pending, `irq, `now, `states, `steps
      ensures now == Next(old(now), StartRound) && Valid() && round == old(pending) && now.phase == Looping(Ordered(round))
      ensures steps == old(steps) + [StartRound] && old(states) <= states && EnvOf(steps) == old(EnvOf(steps))
    {
      hide Ok, Run, Chain, Last, Ordered, Carries, EnvOf;
      SameLine(now, Next(now, StartRound), payload, calls);
      round := pending;
      pending := {};
      irq := true;
      Did(StartRound);
    }

    /** Run the handler of `k` if the round has it; `left` are the types of the round not run yet. */
    method Dispatch(k: Kind, round: set<Kind>, ghost left: set<Kind>)
      requires Valid() && now.phase == Looping(Ordered(left)) && now.irq
      requires (k in round <==> k in left) && forall j :: j in left ==> Rank(k) <= Rank(j)
      modifies this
      ensures Valid() && now.phase == Looping(Ordered(left - {k})) && now.saved == old(now.saved) && now.irq
      ensures now.started + Ordered(left - {k}) == old(now.started) + Ordered(left)
      ensures old(steps) <= steps && old(states) <= states && |script| <= old(|script|) && Agenda() == old(Agenda())
      ensures |script| < old(|script|) || now.pending == old(now.pending)
      decreases |script|, 4
    {
      hide Valid, Ordered, Rank, EnvOf, Flat;
      if k in round {
        OrderedFirst(left, k);
        Handle(k, Ordered(left - {k}));
      } else {
        assert left - {k} == left;
      }
    }

    /** The round is over: interrupts off for the loop test. */
    method CloseRound()
      requires Valid() && now.phase == Looping([]) && now.irq
      modifies `irq, `now, `states, `steps
      ensures Valid() && AtTest(now) && now.saved == old(now.saved) && pending == now.pending == old(now.pending) && now.started == old(now.started)
      ensures steps == old(steps) + [Close] && old(states) <= states && EnvOf(steps) == old(EnvOf(steps))
    {
      hide Ok, Run, Chain, Last, Carries, EnvOf;
      SameLine(now, Next(now, Close), payload, calls);
      irq := false;
      Did(Close);
    }

    /** One round: exactly the types pending when it started are started, in dispatch order. */
    method RunRound()
      requires Valid() && AtTest(now) && pending != {}
      modifies this
      ensures Valid() && AtTest(now) && now.saved == old(now.saved) && old(steps) <= steps && old(states) <= states
      ensures now.started == old(now.started) + Ordered(old(pending)) && Agenda() == old(Agenda())
      ensures |script| < old(|script|) || (|script| == old(|script|) && pending == {})
      decreases |script|, 5
    {
      hide Valid, Ordered, EnvOf, Flat;
      var round := Select();
      Dispatch(Timer, round, round);
      ghost var left := round - {Timer};
      Dispatch(UartRx, round, left);
      left := left - {UartRx};
      Dispatch(UartTx, round, left);
      left := left - {UartTx};
      Dispatch(Custom, round, left);
      OrderedNone(round, left - {Custom});
      CloseRound();
    }

    method EnterRunner()
      requires Valid() && !running
      modifies `irq, `running, `now, `states, `steps
      ensures now == Next(old(now), Enter) && Valid() && AtTest(now) && now.saved == old(irq) && pending == old(pending) && now.started == old(now.started)
      ensures steps == old(steps) + [Enter] && old(states) <= states && EnvOf(steps) == old(EnvOf(steps))
    {
      hide Ok, Run, Chain, Last, Carries, EnvOf;
      SameLine(now, Next(now, Enter), payload, calls);
      irq := false;
      running := true;
      Did(Enter);
    }

    method LeaveRunner(status: bool)
      requires Valid() && AtTest(now) && pending == {} && now.saved == status
      modifies `irq, `running, `now, `states, `steps
      ensures now == Next(old(now), Exit) && Valid() && !running && irq == status && pending == {} && now.started == old(now.started)
      ensures |now.called| <= |now.submitted| && calls == now.submitted[..|now.called|]
      ensures steps == old(steps) + [Exit] && states == old(states) + [now] && EnvOf(steps) == old(EnvOf(steps)) && used == now.used
    {
      hide Ok, Run, Chain, Last, EnvOf;
      SameLine(now, Next(now, Exit), payload, calls);
      running := false;
      irq := status;
      Did(Exit);
    }

    /** A nested trap leaves its notifications for the paused outer runner. */
    method Nested()
      requires Valid() && Open(now) && running
      modifies `now, `states, `steps
      ensures Valid() && now == old(now) && steps == old(steps) + [NestedRun] && old(states) <= states
      ensures EnvOf(steps) == old(EnvOf(steps)) + [NestedRun]
    {
      hide Ok, Run, Chain, Last, Carries, EnvOf;
      Did(NestedRun);
    }

    /**
     `run_bottom_halves`. A nested call does nothing. The outer one starts every type that was pending, returns when
     nothing is pending, with the interrupt-enable bit it found, and adds no step of others to those of the script.
     If nothing was forgotten before, and nobody clears the custom bottom half, every callback ever accepted has
     been called, in order of acceptance, and every slot is free.
     */
    method RunBottomHalves()
      requires Valid() && Open(now)
      modifies this
      ensures Valid() && irq == old(irq) && old(states) <= states && old(steps) <= steps
      ensures old(running) ==> running && now == old(now) && steps == old(steps) + [NestedRun] && script == old(script)
      ensures old(running) ==> EnvOf(steps) == old(EnvOf(steps)) + [NestedRun]
      ensures !old(running) ==> !running && pending == {} && |steps| > 0 && steps[|steps| - 1] == Exit && Agenda() == old(Agenda())
      ensures !old(running) ==> old(now.started) + Ordered(old(pending)) <= now.started && old(handled) + Ordered(old(pending)) <= handled
      // What was submitted meanwhile: exactly the submissions made while a slot was free.
      ensures !old(running) ==> |old(steps)| <= |steps| < |states| && now.submitted == old(now.submitted) + Accepted(states, steps, |old(steps)|, |steps|)
      ensures !old(running) && NotForgotten(old(now)) && DeferredWork.Clear(Custom) !in Flat(old(script)) ==>
        now.called == Upto(|now.submitted|) && calls == now.submitted && forall i :: 0 <= i < |used| ==> !used[i]
      decreases |script|, 6
    {
      hide Ok, Run, Valid, Ordered, EnvOf, Flat, Next, NotForgotten, Accepted;
      var status := irq;
      View();
      if running {
        Nested();
        return;
      }
      EnterRunner();
      while pending != {}
        invariant Valid() && AtTest(now) && now.saved == status && old(steps) <= steps && old(states) <= states && Agenda() == old(Agenda())
        invariant (pending == old(pending) && now.started == old(now.started)) || old(now.started) + Ordered(old(pending)) <= now.started
        decreases |script|, |pending|
      {
        ghost var some := pending;
        RunRound();
        assert |some| > 0;
      }
      NoneOrdered();
      LeaveRunner(status);
      View();
      Emptied(old(steps), old(states), old(now), states, steps, now, old(script), script);
    }
  }

  lemma RunExtend(states: seq<State>, steps: seq<Step>, a: Step)
    requires Run(states, steps) && Enabled(states[|steps|], a)
    ensures Run(states + [Next(states[|steps|], a)], steps + [a])
  {
  }

  lemma FirstFree(used: seq<bool>, i: nat)
    requires i <= |used| && (forall j :: 0 <= j < i ==> used[j]) && (i < |used| ==> !used[i])
    ensures FreeSlot(used, 0) == i
  {
  }

  /** A free slot is on no list, and the lists share no slot. */
  lemma FreeNotQueued(s: State, i: nat)
    requires Ok(s) && i < |s.used| && !s.used[i]
    ensures i !in s.queue && i !in s.batch && NoDup(s.queue) && Last(s.queue + [i]) == i
    ensures forall k :: k in s.batch ==> k !in s.queue
  {
    var l, c := Line(s), if s.current >= 0 then [s.current] else [];
    assert i !in l;
    assert forall j, k :: 0 <= j < k < |l| ==> l[j] != l[k];
    hide Ok;
    PartsApart(c, s.batch, s.queue);
  }

  /** Parts of a line without repetition. */
  lemma PartsApart(a: seq<nat>, b: seq<nat>, c: seq<nat>)
    requires var l := a + b + c; forall j, k :: 0 <= j < k < |l| ==> l[j] != l[k]
    ensures NoDup(c) && (forall k :: k in b ==> k !in c) && forall k :: k in b || k in c ==> k in a + b + c
  {
    var l := a + b + c;
    assert forall k :: 0 <= k < |b| ==> l[|a| + k] == b[k];
    assert forall k :: 0 <= k < |c| ==> l[|a| + |b| + k] == c[k];
    forall j, k | 0 <= j < k < |c| ensures c[j] != c[k] {
      assert l[|a| + |b| + j] != l[|a| + |b| + k];
    }
    forall j, k | 0 <= j < |b| && 0 <= k < |c| ensures b[j] != c[k] {
      assert l[|a| + j] != l[|a| + |b| + k];
    }
  }

  /** Nothing about the runner itself changed. */
  ghost predicate SameRunner(s: State, s': State) {
    && s'.phase == s.phase && s'.irq == s.irq && s'.saved == s.saved
    && s'.batch == s.batch && s'.current == s.current && s'.detached == s.detached
    && s'.called == s.called && s'.started == s.started
  }

  lemma BatchFacts(s: State)
    requires Ok(s) && !s.detached
    ensures s.batch == [] && s.current == -1
  {
  }

  /** The first type of a set in dispatch order. */
  lemma OrderedFirst(p: set<Kind>, k: Kind)
    requires k in p && forall j :: j in p ==> Rank(k) <= Rank(j)
    ensures Ordered(p) == [k] + Ordered(p - {k})
  {
    match k case Timer => case UartRx => case UartTx => case Custom =>
  }

  lemma OrderedNone(round: set<Kind>, p: set<Kind>)
    requires p == round - {Timer} - {UartRx} - {UartTx} - {Custom}
    ensures p == {} && Ordered(p) == []
  {
    forall k | k in round ensures k !in p { match k case Timer => case UartRx => case UartTx => case Custom => }
  }

  lemma NotDetached(s: State)
    requires Ok(s) && s.phase.Looping?
    ensures !s.detached
  {
  }

  lemma ChainDetach(next: seq<int>, head: int, queue: seq<nat>)
    requires Chain(next, head, queue)
    ensures head == Nth(queue, 0) && Chain(next, -1, []) && Last([]) == -1
  {
  }

  // ----- callbacks and their arguments -----

  /** The slots of `line` hold what was submitted, from number `first` on. */
  ghost predicate Aligned(payload: seq<int>, line: seq<nat>, submitted: seq<int>, first: int) {
    && 0 <= first && first + |line| == |submitted|
    && forall i :: 0 <= i < |line| ==> line[i] < |payload| && payload[line[i]] == submitted[first + i]
  }

  /** The slots in line hold what was submitted, and what was called is what was submitted, in order. */
  ghost predicate Carries(payload: seq<int>, calls: seq<int>, s: State) {
    && |payload| == SLOTS && |s.called| <= |s.submitted| && calls == s.submitted[..|s.called|]
    && Aligned(payload, Line(s), s.submitted, Finished(s))
  }

  lemma CarriesLength(s: State, payload: seq<int>, calls: seq<int>)
    requires Carries(payload, calls, s)
    ensures |payload| == SLOTS
  {
  }

  lemma SameLine(s: State, s': State, payload: seq<int>, calls: seq<int>)
    requires Carries(payload, calls, s) && s'.current == s.current && s'.batch == s.batch && s'.queue == s.queue
    requires s'.submitted == s.submitted && s'.called == s.called
    ensures Carries(payload, calls, s')
  {
    assert Line(s') == Line(s);
  }

  lemma DetachLine(s: State, payload: seq<int>, calls: seq<int>)
    requires Carries(payload, calls, s) && Enabled(s, Detach) && s.batch == []
    ensures Carries(payload, calls, Next(s, Detach))
  {
    assert Line(Next(s, Detach)) == Line(s);
  }

  lemma AlignedPush(payload: seq<int>, line: seq<nat>, submitted: seq<int>, first: int, work: int, i: nat)
    requires Aligned(payload, line, submitted, first) && i < |payload| && i !in line
    ensures Aligned(payload[i := work], line + [i], submitted + [work], first)
  {
    assert forall k :: 0 <= k < |line| ==> line[k] in line;
  }

  lemma FreeNotInLine(s: State, i: nat)
    requires Ok(s) && i < |s.used| && !s.used[i]
    ensures i !in Line(s)
  {
  }

  lemma {:induction false} CarriesDefer(s: State, payload: seq<int>, calls: seq<int>, work: int, i: nat)
    requires Ok(s) && Carries(payload, calls, s) && i == FreeSlot(s.used, 0)
    ensures |payload| == SLOTS
    ensures i < SLOTS ==> Carries(payload[i := work], calls, DeferCallback(s, work))
    ensures i >= SLOTS ==> DeferCallback(s, work) == s
  {
    hide Ok, Aligned, FreeSlot;
    PoolLengths(s);
    if i < SLOTS {
      var s' := DeferCallback(s, work);
      FreeNotInLine(s, i);
      AlignedPush(payload, Line(s), s.submitted, Finished(s), work, i);
      assert Line(s') == Line(s) + [i];
      assert s'.submitted[..|s.called|] == s.submitted[..|s.called|];
    }
  }

  lemma CarriesCall(s: State, payload: seq<int>, calls: seq<int>)
    requires Carries(payload, calls, s) && Enabled(s, Call)
    ensures s.batch[0] < |payload| && Carries(payload, calls + [payload[s.batch[0]]], Next(s, Call))
  {
    var s' := Next(s, Call);
    assert Line(s) == s.batch + s.queue && Line(s)[0] == s.batch[0];
    assert Line(s') == Line(s);
    assert s.submitted[..|s.called| + 1] == s.submitted[..|s.called|] + [s.submitted[|s.called|]];
  }

  lemma CarriesReturn(s: State, payload: seq<int>, calls: seq<int>)
    requires Carries(payload, calls, s) && s.current >= 0
    ensures s.current < |payload| && Carries(payload, calls, Next(s, Return))
  {
    assert Line(s)[0] == s.current;
    assert Line(Next(s, Return)) == Line(s)[1..];
  }

  // ----- the whole call -----

  lemma NoEnv()
    ensures EnvOf([]) == []
  {
  }

  lemma NoneOrdered()
    ensures Ordered({}) == []
  {
  }

  /** The steps of one outer call as a run of the machine: if nobody cleared the custom type, all callbacks were called. */
  lemma Emptied(steps0: seq<Step>, states0: seq<State>, now0: State, states: seq<State>, steps: seq<Step>, now: State,
                script0: seq<seq<Step>>, script: seq<seq<Step>>)
    requires Run(states, steps) && states[|steps|] == now && steps0 < steps && states0 <= states && |states0| == |steps0| + 1
    requires states0[|steps0|] == now0 && steps[|steps| - 1] == Exit && EnvOf(steps) + Flat(script) == EnvOf(steps0) + Flat(script0)
    ensures now.submitted == now0.submitted + Accepted(states, steps, |steps0|, |steps|)
    ensures NotForgotten(now0) && DeferredWork.Clear(Custom) !in Flat(script0) ==>
      now.called == Upto(|now.submitted|) && forall k :: 0 <= k < |now.used| ==> !now.used[k]
  {
    hide Ok, Next, Enabled, NotForgotten, EnvOf, Flat, Arguments, Accepted;
    SubmittedAre(states, steps, |steps0|, |steps|);
    if NotForgotten(now0) && DeferredWork.Clear(Custom) !in Flat(script0) {
      var i, j := |steps0|, |steps| - 1;
      forall m | i <= m < j ensures steps[m] != DeferredWork.Clear(Custom) {
        if steps[m] == DeferredWork.Clear(Custom) { OnlyScripted(steps0, steps, script0, script, m); }
      }
      AllCalled(states, steps, i, j);
    }
  }
}
