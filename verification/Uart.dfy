/**
 The UART as client of rings, wait queues and the scheduler (kernel/src/uart.c). One step is one
 interrupt-off section: of a reader, a writer, the receive or transmit drain, or of any other thread.
 */
module Uart {
  import opened Links
  import opened Threads
  import opened Sleepers
  import opened RingBuffer

  /** The wait queues of readers and of writers. */
  const RXQ: nat := 0
  const TXQ: nat := 1

  /**
   Rings as sequences, and what went into and came out of each direction so far. Readers sleep for
   buffered characters, writers for free slots.
   */
  datatype State = State(sys: Sys, rx: seq<char>, tx: seq<char>, readers: Channel, writers: Channel,
                         rxIn: seq<char>, rxOut: seq<char>, txIn: seq<char>, txOut: seq<char>)

  ghost predicate Ok(u: State) {
    && Inv(u.sys) && |u.sys.queues| > TXQ
    && |u.rx| <= CAPACITY && |u.tx| <= CAPACITY
    && ChannelOk(u.sys, RXQ, u.readers, |u.rx|)
    && ChannelOk(u.sys, TXQ, u.writers, CAPACITY - |u.tx|)
    && u.rxIn == u.rxOut + u.rx && u.txIn == u.txOut + u.tx
  }

  // ----- receive -----

  /** One byte taken from the device: buffered with a wake-up, or dropped when the ring is full. */
  function Receive(u: State, c: char): State
    requires LinksMatch(u.sys) && RXQ < |u.sys.queues|
  {
    if |u.rx| == CAPACITY then u
    else u.(rx := u.rx + [c], rxIn := u.rxIn + [c], sys := WakeOne(u.sys, RXQ))
  }

  /** The current thread takes the oldest character. */
  function Pop(u: State): State
    requires u.rx != []
  {
    u.(rx := u.rx[1..], rxOut := u.rxOut + [u.rx[0]])
  }

  /** One round of `uart_recv` by a thread that may sleep: take a character or go to sleep. */
  function Read(u: State): State
    requires MaySleep(u.sys, RXQ)
  {
    FallAsleepOk(u.sys, RXQ);
    var t := u.sys.cur;
    if u.rx != [] then Pop(u).(readers := u.readers.(retry := u.readers.retry - {t}))
    else u.(sys := Schedule(FallAsleep(u.sys, RXQ)),
            readers := Channel(u.readers.entry[t := |u.sys.task|], u.readers.retry - {t}, u.readers.lost))
  }

  /** `uart_recv` without sleeping: the ring first, then the byte in the device, if any (`hw`). */
  function ReadPolled(u: State, hw: seq<char>): State {
    if u.rx != [] then Pop(u)
    else if hw != [] then u.(rxIn := u.rxIn + [hw[0]], rxOut := u.rxOut + [hw[0]])
    else u
  }

  // ----- transmit -----

  /** `uart_tx_try_drain_one`: feed the device if it is ready and wake a writer. */
  function Drain(u: State, ready: bool): State
    requires LinksMatch(u.sys) && TXQ < |u.sys.queues|
  {
    if !ready || u.tx == [] then u
    else u.(tx := u.tx[1..], txOut := u.txOut + [u.tx[0]], sys := WakeOne(u.sys, TXQ))
  }

  function Push(u: State, c: char): State {
    u.(tx := u.tx + [c], txIn := u.txIn + [c])
  }

  /** One round of `uart_send` by a thread that may sleep. */
  function Write(u: State, c: char): State
    requires MaySleep(u.sys, TXQ)
  {
    FallAsleepOk(u.sys, TXQ);
    var t := u.sys.cur;
    if |u.tx| < CAPACITY then Push(u, c).(writers := u.writers.(retry := u.writers.retry - {t}))
    else u.(sys := Schedule(FallAsleep(u.sys, TXQ)),
            writers := Channel(u.writers.entry[t := |u.sys.task|], u.writers.retry - {t}, u.writers.lost))
  }

  /** One round of `uart_send` by a caller that must not sleep. */
  function WriteBusy(u: State, c: char, ready: bool): State
    requires LinksMatch(u.sys) && TXQ < |u.sys.queues|
  {
    if |u.tx| < CAPACITY then Push(u, c) else Drain(u, ready)
  }

  /** One round of `uart_send` with interrupts off: older characters first, then straight to the device. */
  function WriteDirect(u: State, c: char, ready: bool): State
    requires LinksMatch(u.sys) && TXQ < |u.sys.queues|
  {
    if u.tx != [] then Drain(u, ready)
    else if ready then u.(txIn := u.txIn + [c], txOut := u.txOut + [c])
    else u
  }

  /** `uart_write_async`: the whole buffer or nothing. */
  function WriteAsync(u: State, cs: seq<char>): State {
    if |cs| > CAPACITY - |u.tx| then u else u.(tx := u.tx + cs, txIn := u.txIn + cs)
  }

  // ----- sleepers that run again, and the rest of the system -----

  function ResumeReader(u: State): State
    requires LinksMatch(u.sys) && u.sys.cur in u.readers.entry && u.readers.entry[u.sys.cur] >= 0
  {
    var c, t := u.readers, u.sys.cur;
    u.(sys := Finish(u.sys, c.entry[t]), readers := c.(entry := c.entry - {t}, retry := c.retry + {t}))
  }

  function ResumeWriter(u: State): State
    requires LinksMatch(u.sys) && u.sys.cur in u.writers.entry && u.writers.entry[u.sys.cur] >= 0
  {
    var c, t := u.writers, u.sys.cur;
    u.(sys := Finish(u.sys, c.entry[t]), writers := c.(entry := c.entry - {t}, retry := c.retry + {t}))
  }

  function StopThread(u: State, t: nat): State
    requires LinksMatch(u.sys)
  {
    u.(sys := Stop(u.sys, t), readers := StopChannel(u.sys, u.readers, t), writers := StopChannel(u.sys, u.writers, t))
  }

  datatype Op =
    | DoReceive(c: char) | DoRead | DoReadPolled(hw: seq<char>)
    | DoDrain(ready: bool) | DoWrite(c: char) | DoWriteBusy(c: char, ready: bool) | DoWriteDirect(c: char, ready: bool)
    | DoWriteAsync(cs: seq<char>) | DoResumeReader | DoResumeWriter | DoStopThread(t: nat) | DoOther(a: Step)

  /** Only the UART registers with its queues, and a thread inside `uart_recv` or `uart_send` does nothing else. */
  ghost predicate CanDo(u: State, op: Op) {
    match op
    case DoRead => MaySleep(u.sys, RXQ) && u.sys.cur !in u.readers.entry && u.sys.cur !in Clients(u.writers)
    case DoWrite(_) => MaySleep(u.sys, TXQ) && u.sys.cur !in u.writers.entry && u.sys.cur !in Clients(u.readers)
    case DoResumeReader => u.sys.cur in u.readers.entry && Is(u.sys, u.sys.cur, Running)
    case DoResumeWriter => u.sys.cur in u.writers.entry && Is(u.sys, u.sys.cur, Running)
    case DoOther(a) => Enabled(u.sys, a) && Foreign(u, a)
    case _ => true
  }

  predicate Foreign(u: State, a: Step) {
    match a
    case DoStop(_) => false
    case DoPrepare(q, _, _) => q != RXQ && q != TXQ && u.sys.cur !in Clients(u.readers) && u.sys.cur !in Clients(u.writers)
    case DoFinish(e) => Registered(u.sys, e) ==> u.sys.queue[e] != RXQ && u.sys.queue[e] != TXQ
    case _ => true
  }

  ghost function Do(u: State, op: Op): State
    requires Ok(u) && CanDo(u, op)
  {
    LinksFacts(u.sys);
    match op
    case DoReceive(c) => Receive(u, c)
    case DoRead => Read(u)
    case DoReadPolled(hw) => ReadPolled(u, hw)
    case DoDrain(ready) => Drain(u, ready)
    case DoWrite(c) => Write(u, c)
    case DoWriteBusy(c, ready) => WriteBusy(u, c, ready)
    case DoWriteDirect(c, ready) => WriteDirect(u, c, ready)
    case DoWriteAsync(cs) => WriteAsync(u, cs)
    case DoResumeReader => ResumeReader(u)
    case DoResumeWriter => ResumeWriter(u)
    case DoStopThread(t) => StopThread(u, t)
    case DoOther(a) => u.(sys := Next(u.sys, a))
  }

  // ----- every step keeps the invariant -----

  lemma WakeKeepsQueues(s: Sys, q: nat)
    requires Inv(s) && q < |s.queues|
    ensures WakeOne(s, q).queues == s.queues
  {
  }

  lemma ReceiveOk(u: State, c: char)
    requires Ok(u)
    ensures Ok(Receive(u, c))
  {
    hide Inv, ChannelOk, EntriesOk, WakeOne;
    LinksFacts(u.sys);
    if |u.rx| < CAPACITY {
      WakeOneOk(u.sys, RXQ);
      WakeKeepsQueues(u.sys, RXQ);
      ProduceOk(u.sys, RXQ, u.readers, |u.rx|);
      OtherCalm(u.sys, RXQ, TXQ, u.writers, CAPACITY - |u.tx|);
    }
  }

  /** Waking on one queue does not hurt the clients of another. */
  lemma OtherCalm(s: Sys, w: nat, q: nat, c: Channel, units: int)
    requires Inv(s) && w < |s.queues| && ChannelOk(s, q, c, units)
    ensures ChannelOk(WakeOne(s, w), q, c, units)
  {
    WakeOneCalm(s, w, q, c);
    CalmOk(s, WakeOne(s, w), q, c, units);
  }

  lemma FewerUnits(s: Sys, q: nat, c: Channel, units: int, fewer: int)
    requires ChannelOk(s, q, c, units) && fewer <= units
    ensures ChannelOk(s, q, c, fewer)
  {
  }

  lemma PopOk(u: State)
    requires Ok(u) && u.rx != []
    ensures Ok(Pop(u))
  {
    FewerUnits(u.sys, RXQ, u.readers, |u.rx|, |u.rx| - 1);
    assert u.rx == [u.rx[0]] + u.rx[1..];
  }

  lemma ReadOk(u: State)
    requires Ok(u) && CanDo(u, DoRead)
    ensures Ok(Read(u))
  {
    hide Inv, ChannelOk, EntriesOk, FallAsleep;
    var t := u.sys.cur;
    if u.rx != [] {
      TakeOk(u.sys, RXQ, u.readers, |u.rx|, t);
      assert u.rx == [u.rx[0]] + u.rx[1..];
    } else {
      SleepOk(u.sys, RXQ, u.readers, |u.rx|);
      AsleepOthers(u.sys, RXQ, TXQ, u.writers, CAPACITY - |u.tx|);
    }
  }

  lemma WriteOk(u: State, c: char)
    requires Ok(u) && CanDo(u, DoWrite(c))
    ensures Ok(Write(u, c))
  {
    hide Inv, ChannelOk, EntriesOk, FallAsleep;
    var t := u.sys.cur;
    if |u.tx| < CAPACITY {
      TakeOk(u.sys, TXQ, u.writers, CAPACITY - |u.tx|, t);
    } else {
      SleepOk(u.sys, TXQ, u.writers, CAPACITY - |u.tx|);
      AsleepOthers(u.sys, TXQ, RXQ, u.readers, |u.rx|);
    }
  }

  /** Falling asleep on queue `w` leaves the clients of queue `q` alone. */
  lemma AsleepOthers(s: Sys, w: nat, q: nat, c: Channel, units: int)
    requires MaySleep(s, w) && w != q && ChannelOk(s, q, c, units) && s.cur !in Clients(c)
    ensures Inv(FallAsleep(s, w)) && Inv(Schedule(FallAsleep(s, w))) && Schedule(FallAsleep(s, w)).queues == FallAsleep(s, w).queues
    ensures |FallAsleep(s, w).queues| == |s.queues|
    ensures ChannelOk(Schedule(FallAsleep(s, w)), q, c, units)
  {
    var a := FallAsleep(s, w);
    FallAsleepOk(s, w);
    assert Calm(s, a, q, c) by { AsleepCalm(s, w, q, c); }
    CalmOk(s, a, q, c, units);
    ScheduleOk(a);
    ScheduleCalm(a, q, c);
    CalmOk(a, Schedule(a), q, c, units);
  }

  lemma AsleepCalm(s: Sys, w: nat, q: nat, c: Channel)
    requires MaySleep(s, w) && w != q && EntriesOk(s, q, c) && s.cur !in Clients(c)
    ensures Calm(s, FallAsleep(s, w), q, c)
  {
    var a := FallAsleep(s, w);
    assert forall e :: Registered(a, e) <==> Registered(s, e) || e == |s.task|;
    assert forall t :: t != s.cur ==> (MayWait(a, t) <==> MayWait(s, t)) && (Is(a, t, Waiting) <==> Is(s, t, Waiting));
  }

  lemma DrainOk(u: State, ready: bool)
    requires Ok(u)
    ensures Ok(Drain(u, ready))
  {
    hide Inv, ChannelOk, EntriesOk, WakeOne;
    LinksFacts(u.sys);
    if ready && u.tx != [] {
      WakeOneOk(u.sys, TXQ);
      WakeKeepsQueues(u.sys, TXQ);
      ProduceOk(u.sys, TXQ, u.writers, CAPACITY - |u.tx|);
      OtherCalm(u.sys, TXQ, RXQ, u.readers, |u.rx|);
      assert u.tx == [u.tx[0]] + u.tx[1..];
    }
  }

  lemma PushOk(u: State, cs: seq<char>)
    requires Ok(u) && |cs| <= CAPACITY - |u.tx|
    ensures Ok(u.(tx := u.tx + cs, txIn := u.txIn + cs))
  {
    FewerUnits(u.sys, TXQ, u.writers, CAPACITY - |u.tx|, CAPACITY - |u.tx + cs|);
  }

  lemma ResumeReaderOk(u: State)
    requires Ok(u) && CanDo(u, DoResumeReader)
    ensures u.readers.entry[u.sys.cur] >= 0 && Ok(ResumeReader(u))
  {
    FinishedOk(u.sys, RXQ, u.readers, |u.rx|, TXQ, u.writers, CAPACITY - |u.tx|);
  }

  lemma ResumeWriterOk(u: State)
    requires Ok(u) && CanDo(u, DoResumeWriter)
    ensures u.writers.entry[u.sys.cur] >= 0 && Ok(ResumeWriter(u))
  {
    FinishedOk(u.sys, TXQ, u.writers, CAPACITY - |u.tx|, RXQ, u.readers, |u.rx|);
  }

  /** A woken client of queue `q` that resumes; `w` is the other queue. */
  lemma FinishedOk(s: Sys, q: nat, c: Channel, units: int, w: nat, d: Channel, others: int)
    requires Inv(s) && ChannelOk(s, q, c, units) && ChannelOk(s, w, d, others) && q != w
    requires s.cur in c.entry && Is(s, s.cur, Running)
    ensures c.entry[s.cur] >= 0 && LinksMatch(s)
    ensures var s' := Finish(s, c.entry[s.cur]);
            && Inv(s') && |s'.queues| == |s.queues| && ChannelOk(s', w, d, others)
            && ChannelOk(s', q, c.(entry := c.entry - {s.cur}, retry := c.retry + {s.cur}), units)
  {
    var e := c.entry[s.cur];
    assert Registered(s, e);
    FinishOk(s, e);
    FinishCalm(s, e, w, d);
    ResumeOk(s, q, c, units);
    hide Inv, LinksMatch;
    CalmOk(s, Finish(s, e), w, d, others);
  }

  lemma FinishCalm(s: Sys, e: nat, q: nat, c: Channel)
    requires Inv(s) && EntriesOk(s, q, c) && (Registered(s, e) ==> s.queue[e] != q && s.task[e] == s.cur)
    ensures Calm(s, Finish(s, e), q, c)
  {
    if Registered(s, e) {
      UnlinkOk(s, e);
      var s' := Finish(s, e);
      hide Minus, LinksMatch;
      assert forall f :: Registered(s', f) <==> Registered(s, f) && f != e;
    }
  }

  lemma StopThreadOk(u: State, t: nat)
    requires Ok(u)
    ensures Ok(StopThread(u, t))
  {
    LinksFacts(u.sys);
    StopOk(u.sys, t);
    StopQueues(u.sys, t);
    ClientsLive(u.sys, RXQ, u.readers, t);
    ClientsLive(u.sys, TXQ, u.writers, t);
    hide Inv, LinksMatch, ChannelOk, Stop, StopChannel;
    if t != IDLE && Published(u.sys, t) && !Is(u.sys, t, Zombie) {
      StopChannelOk(u.sys, RXQ, u.readers, |u.rx|, t);
      StopChannelOk(u.sys, TXQ, u.writers, CAPACITY - |u.tx|, t);
    }
  }

  lemma StopQueues(s: Sys, t: nat)
    requires Inv(s)
    ensures |Stop(s, t).queues| == |s.queues|
    ensures t == IDLE || !Published(s, t) || Is(s, t, Zombie) ==> Stop(s, t) == s
  {
    if t != IDLE && Published(s, t) && !Is(s, t, Zombie) {
      RunqKeepsLinks(s, Minus(s.runq, t));
      CancelQueues(s.(runq := Minus(s.runq, t)), t);
    }
  }

  lemma {:induction false} CancelQueues(s: Sys, t: nat)
    requires LinksMatch(s) && t < |s.regs|
    ensures |Cancel(s, t).queues| == |s.queues|
    decreases |s.regs[t]|
  {
    if s.regs[t] != [] {
      CancelStep(s, t);
      hide LinksMatch;
      CancelQueues(Finish(s, s.regs[t][0]), t);
    }
  }

  /** A thread that cannot be stopped is no client. */
  lemma ClientsLive(s: Sys, q: nat, c: Channel, t: nat)
    requires Inv(s) && EntriesOk(s, q, c)
    ensures t == IDLE || !Published(s, t) || Is(s, t, Zombie) ==> StopChannel(s, c, t) == c
  {
    assert t in Clients(c) ==> MayWait(s, t);
  }

  lemma OtherOk(u: State, a: Step)
    requires Ok(u) && CanDo(u, DoOther(a))
    ensures Ok(u.(sys := Next(u.sys, a)))
  {
    NextOk(u.sys, a);
    NextCalm(u, a, RXQ, u.readers);
    NextCalm(u, a, TXQ, u.writers);
    NextQueues(u.sys, a);
    hide Next, Inv;
    CalmOk(u.sys, Next(u.sys, a), RXQ, u.readers, |u.rx|);
    CalmOk(u.sys, Next(u.sys, a), TXQ, u.writers, CAPACITY - |u.tx|);
  }

  lemma NextQueues(s: Sys, a: Step)
    requires Inv(s) && Enabled(s, a)
    ensures |Next(s, a).queues| == |s.queues|
  {
    match a
    case DoStop(t) => StopQueues(s, t);
    case DoWakeAll(q) => WakeFromQueues(s, q, 0);
    case DoSchedule => HeadRunnable(s);
    case _ =>
  }

  lemma {:induction false} WakeFromQueues(s: Sys, q: nat, i: nat)
    requires LinksMatch(s) && q < |s.queues| && i <= |s.queues[q]|
    ensures WakeFrom(s, q, i).queues == s.queues
    decreases |s.queues[q]| - i
  {
    if i < |s.queues[q]| {
      QueueEntry(s, q, i);
      WakeLinks(s, s.task[s.queues[q][i]]);
      WakeFromQueues(WakeTask(s, s.task[s.queues[q][i]]), q, i + 1);
    }
  }

  lemma NextCalm(u: State, a: Step, q: nat, c: Channel)
    requires Ok(u) && CanDo(u, DoOther(a)) && EntriesOk(u.sys, q, c)
    requires (q == RXQ && c == u.readers) || (q == TXQ && c == u.writers)
    ensures Calm(u.sys, Next(u.sys, a), q, c)
  {
    var s := u.sys;
    match a
    case DoSchedule => ScheduleCalm(s, q, c);
    case DoWakeOne(w) => WakeOneCalm(s, w, q, c);
    case DoWakeAll(w) => WakeFromCalm(s, w, 0, q, c);
    case DoFinish(e) => FinishCalm(s, e, q, c);
    case DoPublish(t) => PublishCalm(s, t, q, c);
    case DoPrepare(w, e, allowed) => PrepareCalm(s, w, e, allowed, q, c);
    case _ => LifeCalm(s, a, q, c);
  }

  lemma PublishCalm(s: Sys, t: nat, q: nat, c: Channel)
    requires Inv(s) && EntriesOk(s, q, c)
    ensures Calm(s, Publish(s, t), q, c)
  {
    var s' := Publish(s, t);
    assert forall e :: Registered(s', e) <==> Registered(s, e);
  }

  lemma PrepareCalm(s: Sys, w: nat, e: nat, allowed: bool, q: nat, c: Channel)
    requires Inv(s) && w != q && EntriesOk(s, q, c) && s.cur !in Clients(c)
    ensures Calm(s, Prepare(s, w, e, allowed), q, c)
  {
    var s' := Prepare(s, w, e, allowed);
    assert forall f :: Registered(s', f) <==> Registered(s, f) || (f == e && s' != s);
    assert forall t :: t != s.cur ==> (MayWait(s', t) <==> MayWait(s, t)) && (Is(s', t, Waiting) <==> Is(s, t, Waiting));
  }

  lemma LifeCalm(s: Sys, a: Step, q: nat, c: Channel)
    requires Inv(s) && EntriesOk(s, q, c) && (a.DoCreate? || a.DoNewEntry? || a.DoReapPop? || a.DoReapUnlink? || a.DoReapFree?)
    ensures Calm(s, Next(s, a), q, c)
  {
    var s' := Next(s, a);
    assert forall e :: Registered(s', e) <==> Registered(s, e);
    assert forall t :: MayWait(s, t) ==> MayWait(s', t) && (Is(s', t, Waiting) <==> Is(s, t, Waiting));
    assert forall t :: t in c.entry ==> MayWait(s, t);
  }

  lemma DoOk(u: State, op: Op)
    requires Ok(u) && CanDo(u, op)
    ensures Ok(Do(u, op))
  {
    hide Inv, ChannelOk, Next, StopThread, Read, Write;
    LinksFacts(u.sys);
    match op
    case DoReceive(c) => ReceiveOk(u, c);
    case DoRead => ReadOk(u);
    case DoReadPolled(hw) => if u.rx != [] { PopOk(u); }
    case DoDrain(ready) => DrainOk(u, ready);
    case DoWrite(c) => WriteOk(u, c);
    case DoWriteBusy(c, ready) => if |u.tx| < CAPACITY { PushOk(u, [c]); } else { DrainOk(u, ready); }
    case DoWriteDirect(c, ready) => if u.tx != [] { DrainOk(u, ready); }
    case DoWriteAsync(cs) => if |cs| <= CAPACITY - |u.tx| { PushOk(u, cs); }
    case DoResumeReader => ResumeReaderOk(u);
    case DoResumeWriter => ResumeWriterOk(u);
    case DoStopThread(t) => StopThreadOk(u, t);
    case DoOther(a) => OtherOk(u, a);
  }

  // ----- whole runs -----

  /** States and steps of one run of the whole system. */
  ghost predicate Run(us: seq<State>, ops: seq<Op>) {
    && |us| == |ops| + 1 && Ok(us[0])
    && (forall i :: 0 <= i < |ops| && Ok(us[i]) ==> CanDo(us[i], ops[i]) && us[i + 1] == Do(us[i], ops[i]))
  }

  lemma {:induction false} RunOk(us: seq<State>, ops: seq<Op>, i: nat)
    requires Run(us, ops) && i < |us|
    ensures Ok(us[i])
  {
    hide Ok, CanDo, Do;
    if i > 0 {
      RunOk(us, ops, i - 1);
      DoOk(us[i - 1], ops[i - 1]);
    }
  }

  ghost predicate NoLostWakeup(u: State) {
    && (SomeoneWaits(u.sys, u.readers) ==> |u.rx| <= |Woken(u.sys, u.readers)|)
    && (SomeoneWaits(u.sys, u.writers) ==> CAPACITY - |u.tx| <= |Woken(u.sys, u.writers)|)
  }

  /** Thread `t` was woken and has not tried again, another client sleeps, and no woken client is to spare. */
  ghost predicate Needed(s: Sys, c: Channel, units: int, t: nat) {
    t in Woken(s, c) && SomeoneWaits(s, c) && units == |Woken(s, c)|
  }

  /** The step stops a reader or writer whose wake-up is needed. */
  ghost predicate StopsNeeded(u: State, op: Op) {
    op.DoStopThread? && (Needed(u.sys, u.readers, |u.rx|, op.t) || Needed(u.sys, u.writers, CAPACITY - |u.tx|, op.t))
  }

  /** The same state with a clean record of stopped clients. */
  function Clean(u: State): State {
    u.(readers := u.readers.(lost := 0), writers := u.writers.(lost := 0))
  }

  lemma CleanOk(u: State)
    requires Ok(u)
    ensures NoLostWakeup(u) <==> Ok(Clean(u))
    ensures NoLostWakeup(Clean(u)) <==> NoLostWakeup(u)
  {
    hide Inv;
    SameEntries(u.sys, RXQ, u.readers);
    SameEntries(u.sys, TXQ, u.writers);
    hide EntriesOk;
  }

  lemma SameEntries(s: Sys, q: nat, c: Channel)
    ensures EntriesOk(s, q, c.(lost := 0)) <==> EntriesOk(s, q, c)
    ensures Woken(s, c.(lost := 0)) == Woken(s, c) && (SomeoneWaits(s, c.(lost := 0)) <==> SomeoneWaits(s, c))
  {
  }

  /** The record has no influence on what happens. */
  lemma CleanDo(u: State, op: Op)
    requires Ok(u) && Ok(Clean(u)) && CanDo(u, op) && !op.DoStopThread?
    ensures CanDo(Clean(u), op) && Do(Clean(u), op) == Clean(Do(u, op))
  {
    hide Ok, Inv, LinksMatch, FallAsleep;
  }

  lemma StepNotLost(u: State, op: Op)
    requires Ok(u) && CanDo(u, op) && NoLostWakeup(u) && !op.DoStopThread?
    ensures NoLostWakeup(Do(u, op))
  {
    hide Ok, CanDo, Do, NoLostWakeup, Clean;
    CleanOk(u);
    CleanDo(u, op);
    DoOk(u, op);
    DoOk(Clean(u), op);
    CleanOk(Do(u, op));
  }

  /** Exactly when a stop loses a wake-up: it stops a reader or a writer whose wake-up is needed. */
  lemma StopExact(u: State, t: nat)
    requires Ok(u) && NoLostWakeup(u)
    ensures NoLostWakeup(StopThread(u, t)) <==> !StopsNeeded(u, DoStopThread(t))
  {
    hide Inv, LinksMatch, Stop, Woken, SomeoneWaits;
    LinksFacts(u.sys);
    StopsOne(u.sys, RXQ, u.readers, |u.rx|, t);
    StopsOne(u.sys, TXQ, u.writers, CAPACITY - |u.tx|, t);
  }

  /** One channel of a stop. */
  lemma StopsOne(s: Sys, q: nat, c: Channel, units: int, t: nat)
    requires Inv(s) && LinksMatch(s) && EntriesOk(s, q, c) && (SomeoneWaits(s, c) ==> units <= |Woken(s, c)|)
    ensures var s', c' := Stop(s, t), StopChannel(s, c, t);
            (SomeoneWaits(s', c') ==> units <= |Woken(s', c')|) <==> !Needed(s, c, units, t)
  {
    ClientsWait(s, q, c);
    StopWoken(s, c, t);
    hide Stop, Inv, LinksMatch, EntriesOk, StopChannel;
    var w, w' := Woken(s, c), Woken(Stop(s, t), StopChannel(s, c, t));
    if t in w { assert |w'| == |w| - 1; } else { assert w' == w; }
  }

  lemma ClientsWait(s: Sys, q: nat, c: Channel)
    requires Inv(s) && EntriesOk(s, q, c)
    ensures forall u :: u in Clients(c) ==> MayWait(s, u)
  {
  }

  /** The woken clients of a channel after a stop are the others; somebody sleeps only if somebody did. */
  lemma StopWoken(s: Sys, c: Channel, t: nat)
    requires Inv(s) && LinksMatch(s) && (forall u :: u in Clients(c) ==> MayWait(s, u))
    ensures Woken(Stop(s, t), StopChannel(s, c, t)) == Woken(s, c) - {t}
    ensures SomeoneWaits(Stop(s, t), StopChannel(s, c, t)) ==> SomeoneWaits(s, c)
    ensures t in Woken(s, c) ==> (SomeoneWaits(Stop(s, t), StopChannel(s, c, t)) <==> SomeoneWaits(s, c))
  {
    StopEffect(s, t);
    hide Stop, Inv, LinksMatch;
    var s', c' := Stop(s, t), StopChannel(s, c, t);
    assert forall u :: u != t ==> (Is(s', u, Waiting) <==> Is(s, u, Waiting));
    assert Clients(c') == Clients(c) - {t};
    if t in Woken(s, c) && SomeoneWaits(s, c) {
      var x :| x in c.entry && Is(s, x, Waiting);
      assert x in c'.entry;
    }
  }

  /** Every step but such a stop keeps it, and such a stop breaks it. */
  lemma StepExact(u: State, op: Op)
    requires Ok(u) && CanDo(u, op) && NoLostWakeup(u)
    ensures NoLostWakeup(Do(u, op)) <==> !StopsNeeded(u, op)
  {
    hide Ok, CanDo, NoLostWakeup, Needed, StopThread;
    if op.DoStopThread? {
      StopExact(u, op.t);
    } else {
      StepNotLost(u, op);
    }
  }

  /** In every run: no wake-up is lost at any point if and only if no step stops a client whose wake-up is needed. */
  lemma NeverLost(us: seq<State>, ops: seq<Op>)
    requires Run(us, ops) && NoLostWakeup(us[0])
    ensures (forall i :: 0 <= i < |us| ==> NoLostWakeup(us[i])) <==> (forall i :: 0 <= i < |ops| ==> !StopsNeeded(us[i], ops[i]))
  {
    hide Ok, CanDo, Do, NoLostWakeup, StopsNeeded;
    if forall i :: 0 <= i < |ops| ==> !StopsNeeded(us[i], ops[i]) {
      forall i | 0 <= i < |us| ensures NoLostWakeup(us[i]) {
        NotLostAt(us, ops, i);
      }
    }
    if forall i :: 0 <= i < |us| ==> NoLostWakeup(us[i]) {
      forall i | 0 <= i < |ops| ensures !StopsNeeded(us[i], ops[i]) {
        RunOk(us, ops, i);
        assert NoLostWakeup(us[i]) && NoLostWakeup(us[i + 1]);
        StepExact(us[i], ops[i]);
      }
    }
  }

  lemma {:induction false} NotLostAt(us: seq<State>, ops: seq<Op>, i: nat)
    requires Run(us, ops) && NoLostWakeup(us[0]) && i < |us|
    requires forall j :: 0 <= j < |ops| ==> !StopsNeeded(us[j], ops[j])
    ensures NoLostWakeup(us[i])
  {
    hide Ok, CanDo, Do, NoLostWakeup, StopsNeeded;
    if i > 0 {
      NotLostAt(us, ops, i - 1);
      RunOk(us, ops, i - 1);
      StepExact(us[i - 1], ops[i - 1]);
    }
  }

  /** Bytes leave each ring in the order they entered, none lost or made up, at every point of every run. */
  lemma InOrder(us: seq<State>, ops: seq<Op>, i: nat)
    requires Run(us, ops) && i < |us|
    ensures us[i].rxOut <= us[i].rxIn && us[i].rxIn[|us[i].rxOut|..] == us[i].rx
    ensures us[i].txOut <= us[i].txIn && us[i].txIn[|us[i].txOut|..] == us[i].tx
  {
    RunOk(us, ops, i);
  }

  /** A reader sleeps while characters are buffered only if another reader is about to take one. */
  lemma SomeReaderReady(u: State) returns (t: nat)
    requires Ok(u) && NoLostWakeup(u) && SomeoneWaits(u.sys, u.readers) && u.rx != []
    ensures t in Clients(u.readers) && (Is(u.sys, t, Runnable) || Is(u.sys, t, Running))
  {
    var w := Woken(u.sys, u.readers);
    assert |w| > 0;
    assert w != {};
    var x: int :| x in w;
    assert MayWait(u.sys, x);
    t := x;
  }

  // ----- a run that loses a wake-up -----

  /** Idle and two readers; `task` are the owners of the wait entries. */
  function ThreeThreads(st: seq<ThreadState>, cur: nat, runq: seq<nat>, queue: seq<nat>, regs: seq<seq<nat>>, task: seq<int>): Sys {
    Sys(st, cur, runq, [], [2, 1, 0], -1, [queue, []], regs, task, seq(|task|, _ => RXQ))
  }

  function Quiet(s: Sys, entry: map<int, int>): State {
    State(s, [], [], Channel(entry, {}, 0), Channel(map[], {}, 0), [], [], [], [])
  }

  function AtBoot(): State {
    Quiet(Boot(2), map[])
  }

  function BothReady(): State {
    Quiet(ThreeThreads([Running, Runnable, Runnable], 0, [1, 2], [], [[], [], []], []), map[])
  }

  function FirstRuns(): State {
    Quiet(ThreeThreads([Runnable, Running, Runnable], 1, [2], [], [[], [], []], []), map[])
  }

  function FirstSleeps(): State {
    Quiet(ThreeThreads([Runnable, Waiting, Running], 2, [], [0], [[], [0], []], [1]), map[1 := 0])
  }

  function BothSleep(): State {
    Quiet(ThreeThreads([Running, Waiting, Waiting], 0, [], [0, 1], [[], [0], [1]], [1, 2]), map[1 := 0, 2 := 1])
  }

  /** A character came and woke thread 1. */
  function OneWoken(): State {
    BothSleep().(sys := ThreeThreads([Running, Runnable, Waiting], 0, [1], [0, 1], [[], [0], [1]], [1, 2]), rx := ['x'], rxIn := ['x'])
  }

  lemma AtBootOk()
    ensures Ok(AtBoot()) && NoLostWakeup(AtBoot())
  {
    hide Inv;
    BootOk(2);
    var c := Channel(map[], {}, 0);
    assert EntriesOk(Boot(2), RXQ, c) && EntriesOk(Boot(2), TXQ, c) && !SomeoneWaits(Boot(2), c);
  }

  lemma Extend(us: seq<State>, ops: seq<Op>, op: Op)
    requires Run(us, ops) && Ok(us[|ops|]) && CanDo(us[|ops|], op)
    ensures Run(us + [Do(us[|ops|], op)], ops + [op]) && Ok(Do(us[|ops|], op))
  {
    hide Ok, CanDo, Do;
    DoOk(us[|ops|], op);
  }

  /** Creating and publishing thread `|st|`. */
  function AddThread(s: Sys): Sys {
    Publish(Create(s), |s.st|)
  }

  lemma BothCreated()
    ensures AtBoot().(sys := AddThread(AddThread(AtBoot().sys))) == BothReady()
  {
    var s := AddThread(Boot(2));
    assert s.st == [Running, Runnable] && s.all == [1, 0] && s.runq == [1] && s.regs == [[], []] && s.queues == [[], []];
    var t := AddThread(s);
    assert t.st == [Running, Runnable, Runnable] && t.all == [2, 1, 0] && t.runq == [1, 2] && t.regs == [[], [], []];
  }

  lemma CreateThread(us: seq<State>, ops: seq<Op>) returns (vs: seq<State>, qs: seq<Op>)
    requires Run(us, ops) && Ok(us[|ops|])
    ensures Run(vs, qs) && Ok(vs[|qs|]) && vs[0] == us[0] && vs[|qs|] == us[|ops|].(sys := AddThread(us[|ops|].sys))
  {
    hide Ok;
    vs, qs := Then(us, ops, DoOther(DoCreate));
    vs, qs := Then(vs, qs, DoOther(DoPublish(|us[|ops|].sys.st|)));
  }

  lemma ScheduleStep(u: State)
    requires u == BothReady() && Ok(u)
    ensures CanDo(u, DoOther(DoSchedule)) && Do(u, DoOther(DoSchedule)) == FirstRuns()
  {
    hide ChannelOk, Inv;
    var s := u.sys;
    assert s.st[0 := Runnable][1 := Running] == FirstRuns().sys.st && s.runq[1..] == [2];
  }

  lemma FirstAsleep(s: Sys)
    requires s == FirstRuns().sys
    ensures FallAsleep(s, RXQ) == ThreeThreads([Runnable, Waiting, Runnable], 1, [2], [0], [[], [0], []], [1])
  {
    var a := FallAsleep(s, RXQ);
    assert a.queues == [[0], []] by { assert [] + [0] == [0]; }
    assert a.regs == [[], [0], []] by { assert [0] + [] == [0]; }
  }

  lemma SecondAsleep(s: Sys)
    requires s == FirstSleeps().sys
    ensures FallAsleep(s, RXQ) == ThreeThreads([Runnable, Waiting, Waiting], 2, [], [0, 1], [[], [0], [1]], [1, 2])
  {
    var a := FallAsleep(s, RXQ);
    assert a.queues == [[0, 1], []] by { assert [0] + [1] == [0, 1]; }
    assert a.regs == [[], [0], [1]] by { assert [1] + [] == [1]; }
  }

  lemma FirstReads(u: State)
    requires u == FirstRuns() && Ok(u)
    ensures CanDo(u, DoRead) && Do(u, DoRead) == FirstSleeps()
  {
    hide ChannelOk, FallAsleep, Inv;
    FallAsleepOk(u.sys, RXQ);
    FirstAsleep(u.sys);
    var a := FallAsleep(u.sys, RXQ);
    assert a.st[2 := Running] == FirstSleeps().sys.st && a.runq[1..] == [];
  }

  lemma SecondReads(u: State)
    requires u == FirstSleeps() && Ok(u)
    ensures CanDo(u, DoRead) && Do(u, DoRead) == BothSleep()
  {
    hide ChannelOk, FallAsleep, Inv;
    FallAsleepOk(u.sys, RXQ);
    SecondAsleep(u.sys);
    var a := FallAsleep(u.sys, RXQ);
    assert a.st[0 := Running] == BothSleep().sys.st;
  }

  lemma Arrives(u: State)
    requires u == BothSleep() && Ok(u)
    ensures CanDo(u, DoReceive('x')) && Do(u, DoReceive('x')) == OneWoken()
  {
    hide ChannelOk, Inv, LinksMatch;
    var s := u.sys;
    LinksFacts(s);
    assert FirstWaiter(s, RXQ, 0) == 0;
    assert s.st[1 := Runnable] == OneWoken().sys.st;
  }

  lemma OneNeeded(u: State)
    requires u == OneWoken()
    ensures NoLostWakeup(u) && StopsNeeded(u, DoStopThread(1))
  {
    assert Woken(u.sys, u.readers) == {1};
    assert 2 in u.readers.entry && Is(u.sys, 2, Waiting);
  }

  /** From boot: the stop leaves a reader asleep beside a buffered character, with nobody on the way to take it. */
  lemma StopCanLose() returns (us: seq<State>, ops: seq<Op>)
    ensures Run(us, ops) && us[0] == AtBoot() && NoLostWakeup(us[0]) && !NoLostWakeup(us[|ops|])
  {
    hide Ok, Do, AtBoot, OneWoken, NoLostWakeup, StopsNeeded;
    AtBootOk();
    us, ops := ToOneWoken();
    OneNeeded(us[|ops|]);
    StepExact(us[|ops|], DoStopThread(1));
    us, ops := Then(us, ops, DoStopThread(1));
  }

  lemma ToOneWoken() returns (us: seq<State>, ops: seq<Op>)
    ensures Run(us, ops) && us[0] == AtBoot() && us[|ops|] == OneWoken() && Ok(us[|ops|])
  {
    hide Ok, CanDo, Do, AtBoot, BothReady, FirstRuns, FirstSleeps, BothSleep, OneWoken, NoLostWakeup, AddThread;
    AtBootOk();
    us, ops := [AtBoot()], [];
    us, ops := CreateThread(us, ops);
    us, ops := CreateThread(us, ops);
    BothCreated();
    assert us[|ops|] == BothReady();
    ScheduleStep(us[|ops|]);
    us, ops := Then(us, ops, DoOther(DoSchedule));
    FirstReads(us[|ops|]);
    us, ops := Then(us, ops, DoRead);
    SecondReads(us[|ops|]);
    us, ops := Then(us, ops, DoRead);
    Arrives(us[|ops|]);
    us, ops := Then(us, ops, DoReceive('x'));
  }

  lemma Then(us: seq<State>, ops: seq<Op>, op: Op) returns (vs: seq<State>, qs: seq<Op>)
    requires Run(us, ops) && Ok(us[|ops|]) && CanDo(us[|ops|], op)
    ensures Run(vs, qs) && Ok(vs[|qs|]) && vs[0] == us[0] && vs[|qs|] == Do(us[|ops|], op)
  {
    hide Ok, CanDo, Do;
    Extend(us, ops, op);
    vs, qs := us + [Do(us[|ops|], op)], ops + [op];
  }
}
