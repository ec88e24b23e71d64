/**
 Bottom halves and deferred callbacks (kernel/src/bottom_half.c, custom_work.c) as a state machine.
 One step is one interrupt-off section, or one dispatch decision of the runner; interrupt handlers,
 bottom-half handlers and deferred callbacks may raise, clear and defer between any two of them.
 */
module DeferredWork {

  /** The bottom halves in dispatch order. */
  datatype Kind = Timer | UartRx | UartTx | Custom

  const SLOTS: nat := 32

  /**
   What the runner is doing. `Looping(round)` has types of the current round left; with none left and
   interrupts off it is at the loop test. `Handling(k, rest)` runs the handler of `k`.
   */
  datatype Phase = Idle | Looping(round: seq<Kind>) | Handling(kind: Kind, rest: seq<Kind>)

  /**
   Slots of the callback pool: `queue` waits for a batch, `batch` is detached and not called yet, `current`
   (-1: none) is being called. `id[s]` is the acceptance number of the callback in slot `s`.
   Histories: `submitted` are the accepted callbacks with their arguments, `called` the acceptance numbers in the
   order the callbacks were called, `started` the types in the order their handlers were started.
   */
  datatype State = State(pending: set<Kind>, phase: Phase, irq: bool, saved: bool,
                         used: seq<bool>, id: seq<nat>, queue: seq<nat>, batch: seq<nat>, current: int, detached: bool,
                         submitted: seq<int>, called: seq<nat>, started: seq<Kind>)

  datatype Step =
    | Raise(k: Kind) | Clear(k: Kind) | Defer(work: int) | NestedRun
    | Enter | StartRound | Start | Detach | Call | Return | Finish | Close | Exit

  /** Steps of interrupts, handlers and callbacks; all others are the runner's own. */
  predicate IsEnv(a: Step) {
    a.Raise? || a.Clear? || a.Defer? || a.NestedRun?
  }

  /** Types selected for the current round whose handler has not started. */
  function Selected(s: State): seq<Kind> {
    match s.phase
    case Idle => []
    case Looping(round) => round
    case Handling(_, rest) => rest
  }

  predicate Enabled(s: State, a: Step) {
    match a
    case Raise(_) => Open(s)
    case Clear(_) => Open(s)
    case Defer(_) => Open(s)
    case NestedRun => Open(s) && s.phase != Idle
    case Enter => s.phase == Idle
    case StartRound => AtTest(s) && s.pending != {}
    case Start => s.phase.Looping? && s.phase.round != []
    case Detach => s.phase.Handling? && s.phase.kind == Custom && !s.detached
    case Call => s.detached && s.current == -1 && s.batch != []
    case Return => s.current != -1
    case Finish => s.phase.Handling? && (s.phase.kind == Custom ==> s.detached && s.current == -1 && s.batch == [])
    case Close => s.phase == Looping([]) && s.irq
    case Exit => AtTest(s) && s.pending == {}
  }

  /** Others may act: outside the runner, or while it has interrupts on. */
  predicate Open(s: State) {
    s.phase == Idle || s.irq
  }

  predicate AtTest(s: State) {
    s.phase == Looping([]) && !s.irq
  }

  /** The types of a set in dispatch order. */
  function Ordered(p: set<Kind>): (r: seq<Kind>)
    ensures forall i, j :: 0 <= i < j < |r| ==> Rank(r[i]) < Rank(r[j])
  {
    (if Timer in p then [Timer] else []) + (if UartRx in p then [UartRx] else [])
    + (if UartTx in p then [UartTx] else []) + (if Custom in p then [Custom] else [])
  }

  lemma OrderedHas(p: set<Kind>, k: Kind)
    ensures k in Ordered(p) <==> k in p
  {
    match k case Timer => case UartRx => case UartTx => case Custom =>
  }

  function Rank(k: Kind): nat {
    match k case Timer => 0 case UartRx => 1 case UartTx => 2 case Custom => 3
  }

  /** The first free slot from `i` on, or the pool size. */
  function FreeSlot(used: seq<bool>, i: nat): (k: nat)
    requires i <= |used|
    ensures i <= k <= |used| && (k < |used| ==> !used[k])
    ensures forall j :: i <= j < k ==> used[j]
    decreases |used| - i
  {
    if i == |used| || !used[i] then i else FreeSlot(used, i + 1)
  }

  /** A callback is accepted unless the pool is full. */
  function DeferCallback(s: State, work: int): State {
    var k := FreeSlot(s.used, 0);
    if k == |s.used| || k >= |s.id| then s else
      s.(used := s.used[k := true], id := s.id[k := |s.submitted|], queue := s.queue + [k], submitted := s.submitted + [work],
         pending := s.pending + {Custom})
  }

  function Next(s: State, a: Step): State
    requires Enabled(s, a)
  {
    match a
    case Raise(k) => s.(pending := s.pending + {k})
    case Clear(k) => s.(pending := s.pending - {k})
    case Defer(work) => DeferCallback(s, work)
    case NestedRun => s
    case Enter => s.(phase := Looping([]), saved := s.irq, irq := false)
    case StartRound => s.(phase := Looping(Ordered(s.pending)), pending := {}, irq := true)
    case Start => s.(phase := Handling(s.phase.round[0], s.phase.round[1..]), started := s.started + [s.phase.round[0]])
    case Detach => s.(batch := s.queue, queue := [], detached := true)
    case Call =>
      s.(current := s.batch[0], batch := s.batch[1..],
         called := s.called + [if s.batch[0] < |s.id| then s.id[s.batch[0]] else 0])
    case Return => s.(current := -1, used := if 0 <= s.current < |s.used| then s.used[s.current := false] else s.used)
    case Finish => s.(phase := Looping(s.phase.rest), detached := false)
    case Close => s.(irq := false)
    case Exit => s.(phase := Idle, irq := s.saved)
  }

  // ----- invariant -----

  /** Slots accepted and not finished, in acceptance order. */
  function Line(s: State): seq<nat> {
    (if s.current >= 0 then [s.current] else []) + s.batch + s.queue
  }

  /**
   Exactly the slots in line are in use, each once; the callbacks called so far are the first ones
   accepted, in order, and those in line continue the numbering.
   */
  ghost predicate PoolOk(s: State) {
    && |s.used| == SLOTS && |s.id| == SLOTS && s.current >= -1
    && s.called == Upto(|s.called|) && Finished(s) >= 0
    && |s.submitted| == Finished(s) + |Line(s)|
    && LineOk(Line(s), s.used, s.id, Finished(s))
  }

  /** The slots of `l` are exactly those in use, and hold callbacks number `first`, `first + 1`, ... */
  ghost predicate LineOk(l: seq<nat>, used: seq<bool>, id: seq<nat>, first: int)
    requires |used| == |id| == SLOTS
  {
    && (forall i :: 0 <= i < |l| ==> l[i] < SLOTS && id[l[i]] == first + i)
    && (forall i, j :: 0 <= i < j < |l| ==> l[i] != l[j])
    && (forall k :: 0 <= k < SLOTS ==> (used[k] <==> k in l))
  }

  lemma LineAppend(l: seq<nat>, used: seq<bool>, id: seq<nat>, first: int, k: nat)
    requires |used| == |id| == SLOTS && k < SLOTS && !used[k] && LineOk(l, used, id, first) && first + |l| >= 0
    ensures LineOk(l + [k], used[k := true], id[k := first + |l|], first)
  {
    assert forall i :: 0 <= i < |l| ==> l[i] in l;
  }

  lemma LineDrop(l: seq<nat>, used: seq<bool>, id: seq<nat>, first: int)
    requires |used| == |id| == SLOTS && l != [] && LineOk(l, used, id, first)
    ensures l[0] < SLOTS && LineOk(l[1..], used[l[0] := false], id, first + 1)
  {
    assert l == [l[0]] + l[1..];
  }

  /** Callbacks that returned. */
  function Finished(s: State): int {
    |s.called| - if s.current >= 0 then 1 else 0
  }

  function Upto(n: nat): (r: seq<nat>)
    ensures |r| == n && forall i :: 0 <= i < n ==> r[i] == i
  {
    seq(n, i => i)
  }

  /** A batch exists only inside the custom handler, and interrupts are on while types are left to run. */
  ghost predicate RunnerOk(s: State) {
    && (s.detached ==> s.phase.Handling? && s.phase.kind == Custom)
    && (!s.detached ==> s.batch == [] && s.current == -1)
    && (s.phase.Handling? || Selected(s) != [] ==> s.irq)
    && (forall i, j :: 0 <= i < j < |Selected(s)| ==> Selected(s)[i] != Selected(s)[j])
  }

  ghost predicate Ok(s: State) {
    PoolOk(s) && RunnerOk(s)
  }

  lemma DeferOk(s: State, work: int)
    requires PoolOk(s)
    ensures PoolOk(DeferCallback(s, work))
  {
    var k := FreeSlot(s.used, 0);
    if k < SLOTS {
      var s' := DeferCallback(s, work);
      assert Line(s') == Line(s) + [k];
      LineAppend(Line(s), s.used, s.id, Finished(s), k);
    }
  }

  lemma CallOk(s: State)
    requires PoolOk(s) && Enabled(s, Call)
    ensures PoolOk(Next(s, Call))
  {
    var s' := Next(s, Call);
    assert Line(s) == s.batch + s.queue;
    assert s.batch[0] == Line(s)[0];
    assert Line(s') == Line(s);
  }

  lemma ReturnOk(s: State)
    requires PoolOk(s) && Enabled(s, Return)
    ensures PoolOk(Next(s, Return))
  {
    var s' := Next(s, Return);
    assert Line(s)[0] == s.current;
    assert Line(s') == Line(s)[1..];
    LineDrop(Line(s), s.used, s.id, Finished(s));
  }

  lemma SamePool(s: State, s': State)
    requires PoolOk(s) && Line(s') == Line(s) && s'.current == s.current
    requires s'.used == s.used && s'.id == s.id && s'.called == s.called && s'.submitted == s.submitted
    ensures PoolOk(s')
  {
  }

  lemma NextOk(s: State, a: Step)
    requires Ok(s) && Enabled(s, a)
    ensures Ok(Next(s, a))
  {
    hide PoolOk;
    RunnerStep(s, a);
    var s' := Next(s, a);
    match a
    case Defer(work) => DeferOk(s, work);
    case Call => CallOk(s);
    case Return => ReturnOk(s);
    case Detach => assert Line(s') == Line(s); SamePool(s, s');
    case _ => SamePool(s, s');
  }

  lemma RunnerStep(s: State, a: Step)
    requires RunnerOk(s) && Enabled(s, a)
    ensures RunnerOk(Next(s, a))
  {
    var now := Selected(Next(s, a));
    match a
    case StartRound =>
      var r := Ordered(s.pending);
      assert forall i, j :: 0 <= i < j < |r| ==> Rank(r[i]) < Rank(r[j]);
    case Start => assert now == Selected(s)[1..];
    case _ => assert now != [] ==> now == Selected(s);
  }

  // ----- runs -----

  ghost predicate Run(states: seq<State>, steps: seq<Step>) {
    && |states| == |steps| + 1 && Ok(states[0])
    && (forall i :: 0 <= i < |steps| ==> Enabled(states[i], steps[i]) && states[i + 1] == Next(states[i], steps[i]))
  }

  lemma {:induction false} RunOk(states: seq<State>, steps: seq<Step>, i: nat)
    requires Run(states, steps) && i < |states|
    ensures Ok(states[i])
  {
    hide Ok, Next, Enabled;
    if i > 0 {
      RunOk(states, steps, i - 1);
      NextOk(states[i - 1], steps[i - 1]);
    }
  }

  /** Type `k` is raised by this step: directly, or by an accepted callback. */
  predicate Raises(s: State, a: Step, k: Kind) {
    a == Raise(k) || (a.Defer? && k == Custom && FreeSlot(s.used, 0) < |s.used|)
  }

  /** The handler of `k` starts. */
  predicate Starts(s: State, a: Step, k: Kind) {
    a == Start && Enabled(s, a) && s.phase.round[0] == k
  }

  predicate Owed(s: State, k: Kind) {
    k in s.pending || k in Selected(s)
  }

  lemma OwedStep(s: State, a: Step, k: Kind)
    requires Enabled(s, a) && Owed(s, k) && !Starts(s, a, k) && a != Clear(k)
    ensures Owed(Next(s, a), k)
  {
    hide Ordered, FreeSlot, Rank;
    OrderedHas(s.pending, k);
    if a == Start {
      assert s.phase.round == [s.phase.round[0]] + s.phase.round[1..];
    }
  }

  /**
   No notification is missed: between a raise and the return of the runner the handler starts, or
   somebody clears the notification.
   */
  lemma {:induction false} RaiseIsServed(states: seq<State>, steps: seq<Step>, i: nat, j: nat, k: Kind) returns (m: nat)
    requires Run(states, steps) && i < j < |steps| && Raises(states[i], steps[i], k) && steps[j] == Exit
    ensures i < m < j && (Starts(states[m], steps[m], k) || steps[m] == Clear(k))
  {
    RunOk(states, steps, i);
    assert Owed(states[i + 1], k);
    m := OwedUntil(states, steps, i + 1, j, k);
  }

  lemma {:induction false} OwedUntil(states: seq<State>, steps: seq<Step>, i: nat, j: nat, k: Kind) returns (m: nat)
    requires Run(states, steps) && i <= j < |steps| && Owed(states[i], k) && steps[j] == Exit
    ensures i <= m < j && (Starts(states[m], steps[m], k) || steps[m] == Clear(k))
    decreases j - i
  {
    hide Owed, Starts, Ok, Next;
    ExitOwesNothing(states[i], steps[i], k);
    if Starts(states[i], steps[i], k) || steps[i] == Clear(k) {
      m := i;
      assert i < j by { ExitStartsNothing(states[j], steps[j], k); }
    } else {
      OwedStep(states[i], steps[i], k);
      m := OwedUntil(states, steps, i + 1, j, k);
    }
  }

  lemma ExitOwesNothing(s: State, a: Step, k: Kind)
    requires Enabled(s, a)
    ensures a == Exit ==> !Owed(s, k)
  {
  }

  lemma ExitStartsNothing(s: State, a: Step, k: Kind)
    requires a == Exit
    ensures !Starts(s, a, k) && a != Clear(k)
  {
  }

  /** The interrupt-enable bit after the runner equals the bit before it. */
  lemma {:induction false} IrqRestored(states: seq<State>, steps: seq<Step>, i: nat, j: nat)
    requires Run(states, steps) && i < j < |steps| && steps[i] == Enter && steps[j] == Exit
    requires forall m :: i < m < j ==> steps[m] != Enter
    ensures states[j + 1].irq == states[i].irq
  {
    SavedKept(states, steps, i + 1, j);
  }

  lemma {:induction false} SavedKept(states: seq<State>, steps: seq<Step>, i: nat, j: nat)
    requires Run(states, steps) && i <= j < |states| && forall m :: i <= m < j ==> steps[m] != Enter
    ensures states[j].saved == states[i].saved
    decreases j - i
  {
    if i < j {
      SavedKept(states, steps, i, j - 1);
    }
  }

  /** Two dispatch loops are never active together: the runner is entered only when it is idle. */
  lemma {:induction false} OneRunner(states: seq<State>, steps: seq<Step>, i: nat, j: nat) returns (m: nat)
    requires Run(states, steps) && i < j < |steps| && steps[i] == Enter && steps[j] == Enter
    ensures i < m < j && steps[m] == Exit
  {
    m := i + 1;
    while steps[m] != Exit
      invariant i < m <= j && states[m].phase != Idle
      decreases j - m
    {
      assert Enabled(states[m], steps[m]);
      m := m + 1;
    }
    assert Enabled(states[j], Enter);
  }

  /**
   A type raised during a round never overtakes a type selected for that round: if `late` is not
   selected while `early` is, then `early` starts before `late` does.
   */
  lemma {:induction false} NoOvertaking(states: seq<State>, steps: seq<Step>, i: nat, j: nat, early: Kind, late: Kind) returns (m: nat)
    requires Run(states, steps) && i <= j < |steps| && Starts(states[j], steps[j], late)
    requires early in Selected(states[i]) && late !in Selected(states[i])
    ensures i <= m < j && Starts(states[m], steps[m], early)
    decreases j - i
  {
    RunOk(states, steps, i);
    var s, a := states[i], steps[i];
    if Starts(s, a, early) {
      m := i;
    } else {
      SelectedStep(s, a, early, late);
      m := NoOvertaking(states, steps, i + 1, j, early, late);
    }
  }

  lemma SelectedStep(s: State, a: Step, early: Kind, late: Kind)
    requires Ok(s) && Enabled(s, a) && early in Selected(s) && late !in Selected(s) && !Starts(s, a, early)
    ensures early in Selected(Next(s, a)) && late !in Selected(Next(s, a)) && !Starts(s, a, late)
  {
    if a == Start {
      assert s.phase.round == [s.phase.round[0]] + s.phase.round[1..];
    }
  }

  // ----- deferred callbacks over whole runs -----

  /** Queued callbacks have the custom bottom half pending, selected, or about to take them. */
  ghost predicate NotForgotten(s: State) {
    s.queue != [] ==> Owed(s, Custom) || Taking(s)
  }

  predicate Taking(s: State) {
    s.phase.Handling? && s.phase.kind == Custom && !s.detached
  }

  lemma NotForgottenStep(s: State, a: Step)
    requires Ok(s) && Enabled(s, a) && NotForgotten(s) && a != Clear(Custom)
    ensures NotForgotten(Next(s, a))
  {
    hide PoolOk, Ordered, FreeSlot, Rank;
    if Owed(s, Custom) && !Starts(s, a, Custom) {
      OwedStep(s, a, Custom);
    }
  }

  /** Step `i` clears the custom bottom half while callbacks are queued and the runner has not selected it. */
  ghost predicate Strands(states: seq<State>, steps: seq<Step>, i: nat)
    requires i < |states| && i < |steps|
  {
    steps[i] == Clear(Custom) && states[i].queue != [] && Custom !in Selected(states[i]) && !Taking(states[i])
  }

  ghost predicate RaisedBetween(states: seq<State>, steps: seq<Step>, i: nat, j: nat)
    requires j <= |states| && j <= |steps|
  {
    exists m :: i < m < j && Raises(states[m], steps[m], Custom)
  }

  /**
   Exactly when callbacks are left behind: at the return of the runner the queue is not empty if and
   only if an earlier clear stranded it and nobody raised the custom bottom half after that clear.
   */
  lemma LeftBehind(states: seq<State>, steps: seq<Step>, j: nat)
    requires Run(states, steps) && j < |steps| && steps[j] == Exit && NotForgotten(states[0])
    ensures states[j].queue != [] <==> exists i :: 0 <= i < j && Strands(states, steps, i) && !RaisedBetween(states, steps, i, j)
  {
    hide Ok, Next, Strands, RaisedBetween;
    ExitForgets(states[j], steps[j]);
    if states[j].queue != [] {
      var i := LastStranding(states, steps, j);
    }
    if i :| 0 <= i < j && Strands(states, steps, i) && !RaisedBetween(states, steps, i, j) {
      StaysStranded(states, steps, i, j);
    }
  }

  lemma ExitForgets(s: State, a: Step)
    requires Enabled(s, a)
    ensures a == Exit ==> (NotForgotten(s) <==> s.queue == [])
  {
  }

  /** The step after which queued callbacks stay forgotten. */
  lemma {:induction false} LastStranding(states: seq<State>, steps: seq<Step>, j: nat) returns (i: nat)
    requires Run(states, steps) && j < |states| && NotForgotten(states[0]) && !NotForgotten(states[j])
    ensures i < j && Strands(states, steps, i) && (j <= |steps| ==> !RaisedBetween(states, steps, i, j))
  {
    hide Ok, Next, NotForgotten, Raises;
    var s, a := states[j - 1], steps[j - 1];
    RunOk(states, steps, j - 1);
    if NotForgotten(s) {
      i := j - 1;
      if a != Clear(Custom) { NotForgottenStep(s, a); }
      ClearForgets(s);
    } else {
      i := LastStranding(states, steps, j - 1);
      RaiseRemembers(s, a);
    }
  }

  function Initial(): State {
    State({}, Idle, true, true, seq(SLOTS, _ => false), seq(SLOTS, _ => 0), [], [], -1, false, [], [], [])
  }

  lemma InitialOk()
    ensures Ok(Initial())
  {
  }

  /** A run that leaves an accepted callback behind: it is cleared before the runner is entered. */
  lemma SomeLeftBehind(work: int) returns (states: seq<State>, steps: seq<Step>)
    ensures Run(states, steps) && states[0] == Initial() && NotForgotten(states[0])
    ensures steps == [Defer(work), Clear(Custom), Enter, Exit]
    ensures states[4].phase == Idle && states[4].submitted == [work] && states[4].called == [] && states[4].queue != []
  {
    InitialOk();
    var s0 := Initial();
    var s1 := Next(s0, Defer(work));
    assert FreeSlot(s0.used, 0) == 0;
    assert s1 == s0.(used := s0.used[0 := true], id := s0.id[0 := 0], queue := [0], submitted := [work], pending := {Custom});
    var s2 := Next(s1, Clear(Custom));
    var s3 := Next(s2, Enter);
    assert s3.pending == {};
    var s4 := Next(s3, Exit);
    states, steps := [s0, s1, s2, s3, s4], [Defer(work), Clear(Custom), Enter, Exit];
  }

  lemma ClearForgets(s: State)
    requires Enabled(s, Clear(Custom))
    ensures NotForgotten(Next(s, Clear(Custom))) <==> s.queue == [] || Custom in Selected(s) || Taking(s)
  {
  }

  lemma RaiseRemembers(s: State, a: Step)
    requires Ok(s) && Enabled(s, a)
    ensures Raises(s, a, Custom) ==> NotForgotten(Next(s, a))
  {
  }

  /** Nobody takes stranded callbacks until the custom bottom half is raised again. */
  lemma {:induction false} StaysStranded(states: seq<State>, steps: seq<Step>, i: nat, j: nat)
    requires Run(states, steps) && i < j < |states| && j <= |steps| && Strands(states, steps, i) && !RaisedBetween(states, steps, i, j)
    ensures states[j].queue != [] && !Owed(states[j], Custom) && !Taking(states[j])
    decreases j
  {
    hide Ok, Next, Owed, Raises;
    RunOk(states, steps, j - 1);
    if i == j - 1 {
      ClearDrops(states[i]);
    } else {
      assert forall m :: i < m < j - 1 ==> !Raises(states[m], steps[m], Custom);
      StaysStranded(states, steps, i, j - 1);
      assert !Raises(states[j - 1], steps[j - 1], Custom);
      StrandedStep(states[j - 1], steps[j - 1]);
    }
  }

  lemma ClearDrops(s: State)
    requires Enabled(s, Clear(Custom)) && s.queue != [] && Custom !in Selected(s) && !Taking(s)
    ensures var s' := Next(s, Clear(Custom)); s'.queue != [] && !Owed(s', Custom) && !Taking(s')
  {
  }

  lemma StrandedStep(s: State, a: Step)
    requires Ok(s) && Enabled(s, a) && s.queue != [] && !Owed(s, Custom) && !Taking(s) && !Raises(s, a, Custom)
    ensures var s' := Next(s, a); s'.queue != [] && !Owed(s', Custom) && !Taking(s')
  {
    hide PoolOk, FreeSlot, Ordered, Rank;
    OrderedHas(s.pending, Custom);
    PoolLengths(s);
    if a == Start {
      assert s.phase.round == [s.phase.round[0]] + s.phase.round[1..];
    }
  }

  lemma PoolLengths(s: State)
    requires Ok(s)
    ensures |s.used| == |s.id| == SLOTS
  {
  }

  lemma {:induction false} NeverForgotten(states: seq<State>, steps: seq<Step>, i: nat, j: nat)
    requires Run(states, steps) && i <= j < |states| && NotForgotten(states[i])
    requires forall m :: i <= m < j ==> steps[m] != Clear(Custom)
    ensures NotForgotten(states[j])
    decreases j
  {
    hide NotForgotten, Next, Ok;
    if i < j {
      NeverForgotten(states, steps, i, j - 1);
      RunOk(states, steps, j - 1);
      NotForgottenStep(states[j - 1], steps[j - 1]);
    }
  }

  predicate HasFree(used: seq<bool>) {
    exists k :: 0 <= k < |used| && !used[k]
  }

  /** The arguments of the callbacks submitted from step `i` up to step `j` while a slot was free, in order. */
  function Accepted(states: seq<State>, steps: seq<Step>, i: nat, j: nat): seq<int>
    requires i <= j <= |steps| < |states|
    decreases j - i
  {
    if i == j then [] else
      Accepted(states, steps, i, j - 1) + if steps[j - 1].Defer? && HasFree(states[j - 1].used) then [steps[j - 1].work] else []
  }

  /** A submission is recorded, queued last and announced exactly if a slot is free; nothing else is recorded. */
  lemma DeferEffect(s: State, work: int)
    requires Ok(s) && Open(s)
    ensures var s', k := Next(s, Defer(work)), FreeSlot(s.used, 0);
            && (!HasFree(s.used) ==> s' == s)
            && (HasFree(s.used) ==>
                  && k < |s.used| && !s.used[k] && k < |s.id|
                  && s' == s.(used := s.used[k := true], id := s'.id, queue := s.queue + [k], submitted := s.submitted + [work],
                              pending := s.pending + {Custom}))
  {
    PoolLengths(s);
    hide Ok;
  }

  lemma OnlyDeferSubmits(s: State, a: Step)
    requires Ok(s) && Enabled(s, a)
    ensures Next(s, a).submitted == s.submitted + if a.Defer? && HasFree(s.used) then [a.work] else []
  {
    hide Ok, Ordered;
    if a.Defer? { DeferEffect(s, a.work); }
  }

  lemma {:induction false} SubmittedAre(states: seq<State>, steps: seq<Step>, i: nat, j: nat)
    requires Run(states, steps) && i <= j <= |steps|
    ensures states[j].submitted == states[i].submitted + Accepted(states, steps, i, j)
    decreases j - i
  {
    hide Ok, Enabled, Next;
    if i < j {
      SubmittedAre(states, steps, i, j - 1);
      RunOk(states, steps, j - 1);
      OnlyDeferSubmits(states[j - 1], steps[j - 1]);
    }
  }

  /** The arguments with which callbacks were called, in the order of the calls. */
  ghost function Arguments(s: State): seq<int> {
    seq(|s.called|, k requires 0 <= k < |s.called| => if s.called[k] < |s.submitted| then s.submitted[s.called[k]] else 0)
  }

  /**
   When the runner returns, and nobody cleared the custom bottom half since a time at which nothing was
   forgotten, every callback ever accepted has been called exactly once, in acceptance order, and the
   whole pool is free. The calls are those accepted before that time, followed by exactly the submissions made since
   then while a slot was free.
   */
  lemma AllCalled(states: seq<State>, steps: seq<Step>, i: nat, j: nat)
    requires Run(states, steps) && i <= j < |steps| && steps[j] == Exit && NotForgotten(states[i])
    requires forall m :: i <= m < j ==> steps[m] != Clear(Custom)
    ensures var s := states[j + 1]; s.called == Upto(|s.submitted|) && forall k :: 0 <= k < |s.used| ==> !s.used[k]
    ensures Arguments(states[j + 1]) == states[i].submitted + Accepted(states, steps, i, j)
  {
    NeverForgotten(states, steps, i, j);
    RunOk(states, steps, j);
    assert Line(states[j]) == [];
    SubmittedAre(states, steps, i, j);
    assert Arguments(states[j + 1]) == states[j].submitted;
  }

  /** A slot stays allocated, and keeps its callback, from acceptance until the callback returns. */
  lemma SlotKept(s: State, a: Step, slot: nat)
    requires Ok(s) && Enabled(s, a) && slot in Line(s) && !(a == Return && s.current == slot)
    ensures slot < |s.id| && slot in Line(Next(s, a))
    ensures slot < |Next(s, a).used| && slot < |Next(s, a).id| && Next(s, a).used[slot] && Next(s, a).id[slot] == s.id[slot]
  {
    NextOk(s, a);
    InUse(s, slot);
    LineNext(s, a, slot);
    hide Ok, Next, Line;
    InUse(Next(s, a), slot);
  }

  lemma InUse(s: State, slot: nat)
    requires Ok(s) && slot in Line(s)
    ensures slot < SLOTS == |s.used| == |s.id| && s.used[slot]
  {
  }

  lemma LineNext(s: State, a: Step, slot: nat)
    requires Ok(s) && Enabled(s, a) && slot in Line(s) && !(a == Return && s.current == slot) && slot < |s.used| == |s.id| && s.used[slot]
    ensures var s' := Next(s, a); slot in Line(s') && |s'.id| == |s.id| && s'.id[slot] == s.id[slot]
  {
    hide PoolOk, Ordered, FreeSlot;
    if a.Defer? {
      DeferKeeps(s, a.work, slot);
    } else {
      RunnerKeeps(s, a, slot);
    }
  }

  lemma DeferKeeps(s: State, work: int, slot: nat)
    requires slot in Line(s) && slot < |s.used| == |s.id| && s.used[slot]
    ensures var s' := DeferCallback(s, work); slot in Line(s') && |s'.id| == |s.id| && s'.id[slot] == s.id[slot]
  {
    var s' := DeferCallback(s, work);
    assert s' != s ==> Line(s') == Line(s) + [FreeSlot(s.used, 0)];
  }

  lemma RunnerKeeps(s: State, a: Step, slot: nat)
    requires RunnerOk(s) && Enabled(s, a) && !a.Defer? && slot in Line(s) && !(a == Return && s.current == slot)
    ensures slot in Line(Next(s, a)) && Next(s, a).id == s.id
  {
    hide Ordered, DeferCallback, Rank, Line;
    var s' := Next(s, a);
    InLine(s, slot);
    InLine(s', slot);
    assert a == Call ==> s.batch == [s.batch[0]] + s.batch[1..];
  }

  lemma InLine(s: State, slot: nat)
    ensures slot in Line(s) <==> s.current == slot || slot in s.batch || slot in s.queue
  {
  }

  // ----- what others did -----

  /** The steps of others, in order. */
  function EnvOf(steps: seq<Step>): seq<Step> {
    if steps == [] then [] else EnvOf(steps[..|steps| - 1]) + OneEnv(steps[|steps| - 1])
  }

  function OneEnv(a: Step): seq<Step> {
    if IsEnv(a) then [a] else []
  }

  /** What a script makes others do, all points together. */
  function Flat(script: seq<seq<Step>>): seq<Step> {
    if script == [] then [] else EnvOf(script[0]) + Flat(script[1..])
  }

  lemma {:induction false} EnvAppend(steps: seq<Step>, a: Step)
    ensures EnvOf(steps + [a]) == EnvOf(steps) + OneEnv(a)
  {
    assert (steps + [a])[..|steps|] == steps;
  }

  lemma {:induction false} EnvJoin(a: seq<Step>, b: seq<Step>)
    ensures EnvOf(a + b) == EnvOf(a) + EnvOf(b)
    decreases |b|
  {
    if b == [] {
      assert a + b == a;
    } else {
      var n := |b| - 1;
      assert (a + b)[..|a + b| - 1] == a + b[..n];
      EnvJoin(a, b[..n]);
    }
  }

  lemma {:induction false} EnvHas(steps: seq<Step>, i: nat)
    requires i < |steps| && IsEnv(steps[i])
    ensures steps[i] in EnvOf(steps)
    decreases |steps|
  {
    if i < |steps| - 1 { EnvHas(steps[..|steps| - 1], i); }
  }

  /** If steps done and steps to come make up what the script held, every new step of others stood in the script. */
  lemma {:induction false} OnlyScripted(before: seq<Step>, after: seq<Step>, from: seq<seq<Step>>, left: seq<seq<Step>>, i: nat)
    requires before <= after && EnvOf(after) + Flat(left) == EnvOf(before) + Flat(from)
    requires |before| <= i < |after| && IsEnv(after[i])
    ensures after[i] in Flat(from)
  {
    hide EnvOf, Flat, IsEnv;
    var added := after[|before|..];
    assert after == before + added && added[i - |before|] == after[i];
    EnvJoin(before, added);
    EnvHas(added, i - |before|);
    SamePrefix(EnvOf(before), EnvOf(added), Flat(left), Flat(from));
  }

  lemma SamePrefix(a: seq<Step>, b: seq<Step>, c: seq<Step>, d: seq<Step>)
    requires a + b + c == a + d
    ensures b + c == d
  {
    assert (a + b + c)[|a|..] == b + c;
    assert (a + d)[|a|..] == d;
  }
}
