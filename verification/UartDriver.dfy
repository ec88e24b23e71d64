/**
 The UART driver's own code over the ring buffers and the kernel's lists: each interrupt-off section
 performs the step of module Uart it is named after.
 */
module UartDriver {
  import opened Links
  import opened Threads
  import opened ThreadEffects
  import opened Kernel
  import opened Sleepers
  import opened RingBuffer
  import opened Uart

  class Driver {
    const kernel: Kernel
    const rxBuf: RingBuf
    const txBuf: RingBuf
    ghost var readers: Channel
    ghost var writers: Channel
    ghost var rxIn: seq<char>
    ghost var rxOut: seq<char>
    ghost var txIn: seq<char>
    ghost var txOut: seq<char>

    ghost predicate Separate() {
      rxBuf != txBuf && rxBuf.data != txBuf.data
    }

    ghost function Abs(): State
      requires rxBuf.Valid() && txBuf.Valid()
      reads this, kernel, kernel.runq, kernel.zombies, kernel.all, kernel.queues, kernel.regs, rxBuf, rxBuf.data, txBuf, txBuf.data
    {
      State(kernel.Abs(), rxBuf.Contents(), txBuf.Contents(), readers, writers, rxIn, rxOut, txIn, txOut)
    }

    ghost predicate Valid()
      reads this, kernel, kernel.runq, kernel.zombies, kernel.all, kernel.queues, kernel.regs, rxBuf, rxBuf.data, txBuf, txBuf.data
    {
      Separate() && rxBuf.Valid() && txBuf.Valid() && kernel.Valid() && Ok(Abs())
    }

    /** `uart_reset_runtime_state`, while nobody waits for the UART. */
    constructor (k: Kernel)
      requires k.Valid() && |k.queues.lists| > TXQ && k.queues.lists[RXQ] == [] && k.queues.lists[TXQ] == []
      ensures Valid() && kernel == k && Abs().rx == [] && Abs().tx == [] && fresh(rxBuf) && fresh(txBuf) && fresh(rxBuf.data) && fresh(txBuf.data)
    {
      hide Inv, LinksMatch, Kernel.Shape;
      kernel := k;
      rxBuf := new RingBuf();
      txBuf := new RingBuf();
      readers, writers := Channel(map[], {}, 0), Channel(map[], {}, 0);
      rxIn, rxOut, txIn, txOut := [], [], [], [];
      new;
      EmptyQueue(k.Abs(), RXQ);
      EmptyQueue(k.Abs(), TXQ);
      assert Ok(Abs());
    }

    /** One byte from the device, in one section with the wake-up. */
    method ReceiveOne(c: char)
      requires Valid()
      modifies this, kernel`st, kernel`needResched, kernel.runq, rxBuf, rxBuf.data
      ensures Valid() && LinksMatch(old(kernel.Abs())) && RXQ < |old(kernel.Abs()).queues|
      ensures Abs() == Receive(old(Abs()), c)
      ensures |old(Abs()).rx| == CAPACITY ==> Abs() == old(Abs())
      ensures |old(Abs()).rx| < CAPACITY ==>
        && Abs() == old(Abs()).(sys := kernel.Abs(), rx := old(Abs()).rx + [c], rxIn := old(rxIn) + [c])
        && WokeUp(old(kernel.Abs()), kernel.Abs(), Upto(Asleep(old(kernel.Abs()), old(kernel.Abs()).queues[RXQ]), 1))
    {
      hide Inv, ChannelOk, LinksMatch, Threads.WakeOne, Kernel.Shape, RingBuf.Valid, RingBuf.Contents, WokeUp, Asleep;
      LinksFacts(kernel.Abs());
      ReceiveOk(Abs(), c);
      var ok := rxBuf.Push(c);
      if ok {
        kernel.WakeOne(RXQ);
        rxIn := rxIn + [c];
      }
    }

    /**
     `uart_rx_drain`: at most `budget` of the bytes the device holds (`hw`). As many as fit are buffered in order, and
     each of them wakes the next sleeping reader, in the order of registration; the rest are dropped.
     */
    method RxDrain(hw: seq<char>, budget: nat) returns (n: nat)
      requires Valid()
      modifies this, kernel`st, kernel`needResched, kernel.runq, rxBuf, rxBuf.data
      ensures Valid() && n == (if budget < |hw| then budget else |hw|)
      ensures Abs() == Receives(old(Abs()), hw[..n])
      ensures var k := if n <= CAPACITY - |old(Abs()).rx| then n else CAPACITY - |old(Abs()).rx|;
        && 0 <= k <= |hw| && Abs() == old(Abs()).(sys := kernel.Abs(), rx := old(Abs()).rx + hw[..k], rxIn := old(rxIn) + hw[..k])
        && RXQ < |old(kernel.Abs()).queues|
        && WokeUp(old(kernel.Abs()), kernel.Abs(), Upto(Asleep(old(kernel.Abs()), old(kernel.Abs()).queues[RXQ]), k))
    {
      hide Ok, Kernel.Shape, RingBuf.Valid, RingBuf.Contents, WokeUp, Asleep, Receives, Upto;
      n := DrainBytes(hw, budget);
      ReceivesEffect(old(Abs()), hw[..n]);
      ghost var room := CAPACITY - |old(Abs()).rx|;
      assert 0 <= room <= n ==> hw[..n][..room] == hw[..room];
      assert hw[..n][..n] == hw[..n];
    }

    /** The loop: one section per byte. */
    method DrainBytes(hw: seq<char>, budget: nat) returns (n: nat)
      requires Valid()
      modifies this, kernel`st, kernel`needResched, kernel.runq, rxBuf, rxBuf.data
      ensures Valid() && n == (if budget < |hw| then budget else |hw|)
      ensures Abs() == Receives(old(Abs()), hw[..n])
    {
      hide Ok, Kernel.Shape, RingBuf.Valid, RingBuf.Contents, Receive, WokeUp, Asleep, Receives, Upto;
      Nothing(Abs());
      assert hw[..0] == [];
      n := 0;
      while n < budget && n < |hw|
        invariant Valid() && n <= budget && n <= |hw| && Abs() == Receives(old(Abs()), hw[..n])
      {
        assert hw[..n + 1] == hw[..n] + [hw[n]];
        OneMore(old(Abs()), hw[..n], hw[n]);
        ReceiveOne(hw[n]);
        n := n + 1;
      }
    }

    /** `uart_tx_try_drain_one`; `ready` is the device's transmitter-idle bit. */
    method TxTryDrainOne(ready: bool) returns (sent: bool, c: char)
      requires Valid()
      modifies this, kernel`st, kernel`needResched, kernel.runq, txBuf
      ensures Valid() && LinksMatch(old(kernel.Abs())) && TXQ < |old(kernel.Abs()).queues|
      ensures Abs() == Drain(old(Abs()), ready)
      ensures sent <==> ready && old(Abs()).tx != []
      ensures sent ==> c == old(Abs()).tx[0]
      ensures !sent ==> Abs() == old(Abs())
      ensures sent ==>
        && Abs() == old(Abs()).(sys := kernel.Abs(), tx := old(Abs()).tx[1..], txOut := old(txOut) + [c])
        && WokeUp(old(kernel.Abs()), kernel.Abs(), Upto(Asleep(old(kernel.Abs()), old(kernel.Abs()).queues[TXQ]), 1))
    {
      hide Inv, ChannelOk, LinksMatch, Threads.WakeOne, Kernel.Shape, RingBuf.Valid, RingBuf.Contents, WokeUp, Asleep;
      LinksFacts(kernel.Abs());
      DrainOk(Abs(), ready);
      if !ready { return false, '\0'; }
      sent, c := txBuf.Pop();
      if sent {
        kernel.WakeOne(TXQ);
        txOut := txOut + [c];
      }
    }

    /**
     `wait_queue_sleep_locked` up to the switch to another thread; `allowed` is "interrupts off and no bottom half
     running". A caller that may not sleep is refused, and its entry stays unlinked.
     */
    method Sleep(q: nat, allowed: bool) returns (slept: bool)
      requires Separate() && rxBuf.Valid() && txBuf.Valid() && kernel.Valid() && q < |kernel.Abs().queues|
      modifies kernel`st, kernel`task, kernel`queue, kernel`cur, kernel`needResched, kernel.queues, kernel.regs, kernel.runq
      ensures kernel.Valid() && (slept <==> allowed && old(kernel.cur) != IDLE && !Is(old(kernel.Abs()), old(kernel.cur), Zombie))
      ensures slept ==> Inv(FallAsleep(old(kernel.Abs()), q)) && kernel.Abs() == Schedule(FallAsleep(old(kernel.Abs()), q))
      ensures slept ==> FellAsleep(old(kernel.Abs()), kernel.Abs(), q)
      ensures !slept ==> kernel.Abs() == NewEntry(old(kernel.Abs()))
    {
      hide Inv, Kernel.Shape, LinksMatch, RingBuf.Valid, CanPrepare, Threads.Prepare;
      ghost var s := kernel.Abs();
      PreparesIf(s, q, allowed);
      var e := kernel.NewEntry();
      slept := kernel.Prepare(q, e, allowed);
      if slept {
        SleeperFacts(s, q);
        var ok := kernel.WaitLocked(true);
      }
    }

    /**
     One round of `uart_recv` with interrupts in use; only a `sleepable` caller goes to sleep. One that was stopped
     after it was found sleepable is still served, and refused sleep.
     */
    method RecvRound(sleepable: bool) returns (got: bool, c: char)
      requires Valid() && MayRecv(Abs(), sleepable)
      modifies this, rxBuf
      modifies kernel`st, kernel`task, kernel`queue, kernel`cur, kernel`needResched, kernel.queues, kernel.regs, kernel.runq
      ensures Valid() && Abs() == old(Received(Abs(), sleepable))
      ensures got <==> old(Abs()).rx != []
      ensures got ==> c == old(Abs()).rx[0] && Abs() == old(Abs()).(rx := old(Abs()).rx[1..], rxOut := old(rxOut) + [c], readers := readers)
      ensures !got && !sleepable ==> Abs() == old(Abs())
      ensures !got && sleepable ==> Abs() == old(Abs()).(sys := kernel.Abs(), readers := readers)
      // A sleeper waits with a new entry, the last of the queue; a stopped caller is not registered.
      ensures !got && sleepable && !old(Stopped(Abs())) ==> FellAsleep(old(kernel.Abs()), kernel.Abs(), RXQ)
      ensures !got && sleepable && old(Stopped(Abs())) ==> kernel.Abs() == NewEntry(old(kernel.Abs())) && readers == old(readers)
    {
      hide Inv, ChannelOk, LinksMatch, Kernel.Shape, RingBuf.Valid, RingBuf.Contents, FallAsleep, Clients, Is, FellAsleep;
      RoundOk(Abs(), sleepable);
      var t := kernel.cur;
      got, c := rxBuf.Pop();
      ghost var e, awake := |kernel.task|, !Stopped(Abs());
      if got {
        rxOut := rxOut + [c];
        if sleepable && awake { readers := readers.(retry := readers.retry - {t}); }
      } else if sleepable {
        var slept := Sleep(RXQ, true);
        if awake { readers := Channel(readers.entry[t := e], readers.retry - {t}, readers.lost); }
      }
    }

    /** One round of `uart_send` with interrupts in use; a caller that may not sleep feeds the device itself. */
    method SendRound(c: char, sleepable: bool, ready: bool) returns (done: bool)
      requires Valid() && MaySend(Abs(), c, sleepable)
      modifies this, txBuf, txBuf.data
      modifies kernel`st, kernel`task, kernel`queue, kernel`cur, kernel`needResched, kernel.queues, kernel.regs, kernel.runq
      ensures Valid() && Abs() == old(Sent(Abs(), c, sleepable, ready))
      ensures done <==> |old(Abs()).tx| < CAPACITY
      ensures done ==> Abs() == old(Abs()).(tx := old(Abs()).tx + [c], txIn := old(txIn) + [c], writers := writers)
      ensures !done && sleepable ==> Abs() == old(Abs()).(sys := kernel.Abs(), writers := writers)
      ensures !done && sleepable && !old(Stopped(Abs())) ==> FellAsleep(old(kernel.Abs()), kernel.Abs(), TXQ)
      ensures !done && sleepable && old(Stopped(Abs())) ==> kernel.Abs() == NewEntry(old(kernel.Abs())) && writers == old(writers)
      ensures !done && !sleepable && !ready ==> Abs() == old(Abs())
      ensures !done && !sleepable && ready ==>
        && Abs() == old(Abs()).(sys := kernel.Abs(), tx := old(Abs()).tx[1..], txOut := old(txOut) + [old(Abs()).tx[0]])
        && LinksMatch(old(kernel.Abs())) && TXQ < |old(kernel.Abs()).queues|
        && WokeUp(old(kernel.Abs()), kernel.Abs(), Upto(Asleep(old(kernel.Abs()), old(kernel.Abs()).queues[TXQ]), 1))
    {
      hide Inv, ChannelOk, LinksMatch, Kernel.Shape, RingBuf.Valid, RingBuf.Contents, FallAsleep, Clients, Drain, Is, FellAsleep, WokeUp, Asleep;
      SendOk(Abs(), c, sleepable, ready);
      var t := kernel.cur;
      done := txBuf.Push(c);
      ghost var e, awake := |kernel.task|, !Stopped(Abs());
      if done {
        txIn := txIn + [c];
        if sleepable && awake { writers := writers.(retry := writers.retry - {t}); }
      } else if sleepable {
        var slept := Sleep(TXQ, true);
        if awake { writers := Channel(writers.entry[t := e], writers.retry - {t}, writers.lost); }
      } else {
        var sent, _ := TxTryDrainOne(ready);
      }
    }

    /** A woken reader is back in `wait_queue_sleep_locked` and drops its entry. */
    method WakeUpReader(e: nat)
      requires Valid() && CanDo(Abs(), DoResumeReader) && readers.entry[kernel.cur] == e
      modifies this, kernel`st, kernel`task, kernel`queue, kernel.queues, kernel.regs
      ensures Valid() && LinksMatch(old(kernel.Abs())) && Abs() == ResumeReader(old(Abs()))
      ensures Abs() == old(Abs()).(sys := kernel.Abs(), readers := readers) && LeftQueue(old(kernel.Abs()), kernel.Abs(), e, RXQ)
    {
      hide Inv, ChannelOk, LinksMatch, Kernel.Shape, RingBuf.Valid, RingBuf.Contents, Threads.Finish, LeftQueue;
      LinksFacts(kernel.Abs());
      ResumeReaderOk(Abs());
      ReaderEntry(Abs(), e);
      Leaving(kernel.Abs(), e, RXQ);
      kernel.Finish(e);
      readers := readers.(entry := readers.entry - {kernel.cur}, retry := readers.retry + {kernel.cur});
    }

    /** The same for a woken writer. */
    method WakeUpWriter(e: nat)
      requires Valid() && CanDo(Abs(), DoResumeWriter) && writers.entry[kernel.cur] == e
      modifies this, kernel`st, kernel`task, kernel`queue, kernel.queues, kernel.regs
      ensures Valid() && LinksMatch(old(kernel.Abs())) && Abs() == ResumeWriter(old(Abs()))
      ensures Abs() == old(Abs()).(sys := kernel.Abs(), writers := writers) && LeftQueue(old(kernel.Abs()), kernel.Abs(), e, TXQ)
    {
      hide Inv, ChannelOk, LinksMatch, Kernel.Shape, RingBuf.Valid, RingBuf.Contents, Threads.Finish, LeftQueue;
      LinksFacts(kernel.Abs());
      ResumeWriterOk(Abs());
      WriterEntry(Abs(), e);
      Leaving(kernel.Abs(), e, TXQ);
      kernel.Finish(e);
      writers := writers.(entry := writers.entry - {kernel.cur}, retry := writers.retry + {kernel.cur});
    }

    // ----- without sleeping -----

    /** One round of `uart_recv` without interrupts: the ring first, then the byte in the device, if any (`hw`). */
    method RecvPolled(hw: seq<char>) returns (got: bool, c: char)
      requires Valid()
      modifies this, rxBuf
      ensures Valid() && Abs() == ReadPolled(old(Abs()), hw)
      ensures got <==> old(Abs()).rx != [] || hw != []
      ensures old(Abs()).rx != [] ==> c == old(Abs()).rx[0] && Abs() == old(Abs()).(rx := old(Abs()).rx[1..], rxOut := old(rxOut) + [c])
      ensures old(Abs()).rx == [] && hw != [] ==> c == hw[0] && Abs() == old(Abs()).(rxIn := old(rxIn) + [c], rxOut := old(rxOut) + [c])
      ensures !got ==> Abs() == old(Abs())
    {
      hide Inv, ChannelOk, LinksMatch, Kernel.Shape, RingBuf.Valid, RingBuf.Contents;
      DoOk(Abs(), DoReadPolled(hw));
      got, c := rxBuf.Pop();
      if got {
        rxOut := rxOut + [c];
      } else if hw != [] {
        got, c := true, hw[0];
        rxIn, rxOut := rxIn + [c], rxOut + [c];
      }
    }

    /** One round of `uart_send` without interrupts: older characters first, then straight to the device if it is ready. */
    method SendPolled(c: char, ready: bool) returns (done: bool)
      requires Valid()
      modifies this, kernel`st, kernel`needResched, kernel.runq, txBuf
      ensures Valid() && LinksMatch(old(kernel.Abs())) && TXQ < |old(kernel.Abs()).queues| && Abs() == WriteDirect(old(Abs()), c, ready)
      ensures done <==> old(Abs()).tx == [] && ready
      ensures done ==> Abs() == old(Abs()).(txIn := old(txIn) + [c], txOut := old(txOut) + [c])
      ensures !done && !ready ==> Abs() == old(Abs())
      ensures !done && ready ==> Abs() == old(Abs()).(sys := kernel.Abs(), tx := old(Abs()).tx[1..], txOut := old(txOut) + [old(Abs()).tx[0]])
      ensures !done && ready ==> WokeUp(old(kernel.Abs()), kernel.Abs(), Upto(Asleep(old(kernel.Abs()), old(kernel.Abs()).queues[TXQ]), 1))
    {
      hide Inv, ChannelOk, LinksMatch, Kernel.Shape, RingBuf.Contents, WokeUp, Asleep;
      LinksFacts(kernel.Abs());
      DoOk(Abs(), DoWriteDirect(c, ready));
      done := false;
      if txBuf.count != 0 {
        var sent, _ := TxTryDrainOne(ready);
      } else if ready {
        txIn, txOut, done := txIn + [c], txOut + [c], true;
      }
    }

    /** `uart_write_async`: the whole buffer or nothing. */
    method WriteAsync(cs: seq<char>) returns (ok: bool)
      requires Valid()
      modifies this, txBuf, txBuf.data
      ensures Valid() && Abs() == Uart.WriteAsync(old(Abs()), cs)
      ensures ok <==> |cs| <= CAPACITY - |old(Abs()).tx|
      ensures Abs() == if ok then old(Abs()).(tx := old(Abs()).tx + cs, txIn := old(txIn) + cs) else old(Abs())
    {
      hide Inv, ChannelOk, LinksMatch, Kernel.Shape, RingBuf.Contents;
      DoOk(Abs(), DoWriteAsync(cs));
      ok := |cs| <= CAPACITY - txBuf.count;
      if ok {
        PushAll(cs);
        txIn := txIn + cs;
      }
    }

    method PushAll(cs: seq<char>)
      requires Separate() && txBuf.Valid() && rxBuf.Valid() && kernel.Valid() && |cs| <= CAPACITY - |txBuf.Contents()|
      modifies txBuf, txBuf.data
      ensures txBuf.Valid() && txBuf.Contents() == old(txBuf.Contents()) + cs
    {
      hide Kernel.Valid, Kernel.Shape, RingBuf.Contents;
      var i := 0;
      while i < |cs|
        invariant i <= |cs| && txBuf.Valid() && txBuf.Contents() == old(txBuf.Contents()) + cs[..i]
      {
        assert cs[..i + 1] == cs[..i] + [cs[i]];
        var pushed := txBuf.Push(cs[i]);
        i := i + 1;
      }
      assert cs[..i] == cs;
    }
  }

  /** Entry `e` is on neither of its lists any more, and nothing else changed: the thread was running already. */
  ghost predicate LeftQueue(s: Sys, s': Sys, e: nat, q: nat) {
    && s' == s.(task := s'.task, queue := s'.queue, queues := s'.queues, regs := s'.regs)
    && e < |s.task| == |s.queue| && s'.task == s.task[e := -1] && s'.queue == s.queue[e := -1]
    && q < |s.queues| == |s'.queues| && s.cur < |s.regs| == |s'.regs|
    && (forall r :: 0 <= r < |s.queues| ==> s'.queues[r] == if r == q then Minus(s.queues[r], e) else s.queues[r])
    && (forall u :: 0 <= u < |s.regs| ==> s'.regs[u] == if u == s.cur then Minus(s.regs[u], e) else s.regs[u])
  }

  lemma Leaving(s: Sys, e: nat, q: nat)
    requires LinksMatch(s) && Registered(s, e) && s.task[e] == s.cur && s.queue[e] == q && Is(s, s.cur, Running)
    ensures LeftQueue(s, Threads.Finish(s, e), e, q)
  {
    hide Minus;
  }

  lemma WriterEntry(u: State, e: nat)
    requires Ok(u) && u.sys.cur in u.writers.entry && u.writers.entry[u.sys.cur] == e
    ensures e < |u.sys.task| && Registered(u.sys, e) && u.sys.task[e] == u.sys.cur && u.sys.queue[e] == TXQ
  {
  }

  lemma ReaderEntry(u: State, e: nat)
    requires Ok(u) && u.sys.cur in u.readers.entry && u.readers.entry[u.sys.cur] == e
    ensures e < |u.sys.task| && Registered(u.sys, e) && u.sys.task[e] == u.sys.cur && u.sys.queue[e] == RXQ
  {
  }

  /** The current thread waits with one new entry, last in queue `q`, and the first queued thread, or idle, runs instead. */
  ghost predicate FellAsleep(s: Sys, s': Sys, q: nat) {
    var t, e := s.cur, |s.task|;
    && s' == s.(st := s'.st, cur := s'.cur, runq := s'.runq, task := s.task + [t], queue := s.queue + [q], queues := s'.queues, regs := s'.regs)
    && |s'.queues| == |s.queues| && |s'.regs| == |s.regs| && |s'.st| == |s.st|
    && (forall r :: 0 <= r < |s.queues| ==> s'.queues[r] == if r == q then s.queues[r] + [e] else s.queues[r])
    && (forall u :: 0 <= u < |s.regs| ==> s'.regs[u] == if u == t then [e] + s.regs[u] else s.regs[u])
    && s'.cur == (if s.runq == [] then IDLE else s.runq[0]) && s'.runq == (if s.runq == [] then [] else s.runq[1..])
    && (forall u :: 0 <= u < |s.st| ==> s'.st[u] == if u == t then Waiting else if u == s'.cur then Running else s.st[u])
  }

  /** As many bytes as fit are buffered in order, and each wakes the next sleeper. */
  lemma {:induction false} ReceivesEffect(u: State, cs: seq<char>)
    requires Ok(u)
    ensures var v, k := Receives(u, cs), if |cs| <= CAPACITY - |u.rx| then |cs| else CAPACITY - |u.rx|;
            && 0 <= k <= |cs| && RXQ < |u.sys.queues|
            && v == u.(sys := v.sys, rx := u.rx + cs[..k], rxIn := u.rxIn + cs[..k])
            && WokeUp(u.sys, v.sys, Upto(Asleep(u.sys, u.sys.queues[RXQ]), k))
    decreases |cs|
  {
    hide Inv, LinksMatch, ChannelOk, WokeUp, Asleep, Threads.WakeOne;
    LinksFacts(u.sys);
    if cs == [] {
      NobodyWoken(u.sys);
      assert u.rx + [] == u.rx && u.rxIn + [] == u.rxIn && Upto(Asleep(u.sys, u.sys.queues[RXQ]), 0) == [];
    } else {
      var n := |cs| - 1;
      var front, w := cs[..n], Receives(u, cs[..n]);
      ReceivesEffect(u, front);
      LinksFacts(w.sys);
      if n < CAPACITY - |u.rx| {
        assert front[..n] == front && cs[..n + 1] == cs && cs == front + [cs[n]];
        WakeNext(u.sys, w.sys, RXQ, n);
      } else {
        assert front[..CAPACITY - |u.rx|] == cs[..CAPACITY - |u.rx|];
      }
    }
  }

  lemma Nothing(u: State)
    requires Ok(u)
    ensures Receives(u, []) == u
  {
  }

  lemma OneMore(u: State, cs: seq<char>, c: char)
    requires Ok(u)
    ensures var w := Receives(u, cs); LinksMatch(w.sys) && RXQ < |w.sys.queues| && Receives(u, cs + [c]) == Receive(w, c)
  {
    hide Inv, LinksMatch, ChannelOk, Receive;
    assert (cs + [c])[..|cs|] == cs;
    LinksFacts(Receives(u, cs).sys);
  }

  /** Several bytes received one after the other. */
  ghost function Receives(u: State, cs: seq<char>): (v: State)
    requires Ok(u)
    ensures Ok(v)
  {
    if cs == [] then u else
      var w := Receives(u, cs[..|cs| - 1]);
      LinksFacts(w.sys);
      ReceiveOk(w, cs[|cs| - 1]);
      Receive(w, cs[|cs| - 1])
  }

  ghost predicate Stopped(u: State) {
    Is(u.sys, u.sys.cur, Zombie)
  }

  ghost predicate MayRecv(u: State, sleepable: bool) {
    sleepable ==> CanDo(u, DoRead) || Stopped(u)
  }

  ghost predicate MaySend(u: State, c: char, sleepable: bool) {
    sleepable ==> CanDo(u, DoWrite(c)) || Stopped(u)
  }

  /** What a round of `uart_recv` does. */
  ghost function Received(u: State, sleepable: bool): State
    requires MayRecv(u, sleepable)
  {
    if sleepable && !Stopped(u) then Read(u)
    else if sleepable && u.rx == [] then u.(sys := NewEntry(u.sys))
    else ReadPolled(u, [])
  }

  /** What a round of `uart_send` does. */
  ghost function Sent(u: State, c: char, sleepable: bool, ready: bool): State
    requires Ok(u) && MaySend(u, c, sleepable)
  {
    LinksFacts(u.sys);
    if sleepable && !Stopped(u) then Write(u, c)
    else if sleepable && |u.tx| == CAPACITY then u.(sys := NewEntry(u.sys))
    else WriteBusy(u, c, ready)
  }

  lemma RoundOk(u: State, sleepable: bool)
    requires Ok(u) && MayRecv(u, sleepable)
    ensures Ok(Received(u, sleepable)) && RXQ < |u.sys.queues|
    ensures sleepable && !Stopped(u) ==> MaySleep(u.sys, RXQ) && u.sys.cur != IDLE
  {
    hide Inv, Read, ChannelOk, Is;
    if sleepable && !Stopped(u) { ReadOk(u); }
    if u.rx != [] { PopOk(u); }
    OtherOk(u, DoNewEntry);
  }

  lemma SendOk(u: State, c: char, sleepable: bool, ready: bool)
    requires Ok(u) && MaySend(u, c, sleepable)
    ensures Ok(Sent(u, c, sleepable, ready)) && LinksMatch(u.sys) && TXQ < |u.sys.queues| && |u.tx| <= CAPACITY
    ensures sleepable && !Stopped(u) ==> MaySleep(u.sys, TXQ) && u.sys.cur != IDLE
  {
    hide Inv, Write, ChannelOk, Drain, Is;
    LinksFacts(u.sys);
    if sleepable && !Stopped(u) { WriteOk(u, c); }
    if |u.tx| < CAPACITY { PushOk(u, [c]); }
    DrainOk(u, ready);
    OtherOk(u, DoNewEntry);
  }

  /** When registering a new entry is refused. */
  lemma PreparesIf(s: Sys, q: nat, allowed: bool)
    requires Inv(s) && q < |s.queues|
    ensures CanPrepare(NewEntry(s), q, |s.task|, allowed) <==> allowed && s.cur != IDLE && !Is(s, s.cur, Zombie)
    ensures |NewEntry(s).queues| == |s.queues| && (!CanPrepare(NewEntry(s), q, |s.task|, allowed) ==> Prepare(NewEntry(s), q, |s.task|, allowed) == NewEntry(s))
    ensures CanPrepare(NewEntry(s), q, |s.task|, allowed) ==> Prepare(NewEntry(s), q, |s.task|, allowed) == FallAsleep(s, q)
  {
  }

  lemma SleeperFacts(s: Sys, q: nat)
    requires Inv(s) && q < |s.queues| && CanPrepare(NewEntry(s), q, |s.task|, true)
    ensures var a := FallAsleep(s, q);
            && Inv(a) && a.cur == s.cur < |a.regs| && MayWait(a, a.cur) && a.regs[a.cur] != [] && Is(a, a.cur, Waiting)
            && FellAsleep(s, Schedule(a), q)
  {
    hide Inv;
    NewEntryOk(s);
    PrepareOk(NewEntry(s), q, |s.task|, true);
    var a := FallAsleep(s, q);
    Registering(s, a, q);
    ScheduleEffect(a);
    hide FallAsleep, Schedule, CanPrepare;
  }

  /** Registering is the step; the thread still has the processor. */
  lemma Registering(s: Sys, a: Sys, q: nat)
    requires q < |s.queues| && CanPrepare(NewEntry(s), q, |s.task|, true) && a == FallAsleep(s, q)
    ensures var t, e := s.cur, |s.task|;
            && t < |s.st| == |s.regs| && t != IDLE && MayWait(a, t)
            && a == s.(st := s.st[t := Waiting], task := s.task + [t], queue := s.queue + [q], queues := s.queues[q := s.queues[q] + [e]],
                       regs := s.regs[t := [e] + s.regs[t]])
  {
    assert (s.task + [-1])[|s.task| := s.cur] == s.task + [s.cur];
    assert (s.queue + [-1])[|s.queue| := q] == s.queue + [q];
  }

  lemma EmptyQueue(s: Sys, q: nat)
    requires Inv(s) && q < |s.queues| && s.queues[q] == []
    ensures forall units :: ChannelOk(s, q, Channel(map[], {}, 0), units)
  {
    assert forall e :: Registered(s, e) && s.queue[e] == q ==> e in s.queues[q];
  }
}
