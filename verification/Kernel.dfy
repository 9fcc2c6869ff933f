/** The interrupt, queue and executor protocol.

    The kernel has one processor.  Interrupt handlers push events and fire
    wakers; the executor pops task ids and polls them; an interrupt may run
    between any two task-side atomic accesses, and never while interrupts are
    disabled.  Each `Pc` value names one atomic access that the processor is
    about to perform. */
module Kernel {
  import opened Prelude

  type TaskId = nat

  // Ids are handed out in spawn order, and `main` spawns the shell first.
  const SHELL: TaskId := 0
  const REDRAW: TaskId := 1

  /** Capacity of the scancode queue. */
  const CAPACITY := 100

  /** A scancode carries its position in the arrival stream.  The stamp is
      history: no transition reads it. */
  datatype InputEvent =
    | Scancode(code: byte, stamp: nat)
    | OpenTerminal
    | CloseTerminal(index: nat)

  datatype Pc =
    | Boot                              // before `Executor::run`
    | PopTask                           // `while let Some(id) = task_queue.pop()`
    | ShellStart                        // first poll: the queue is created here
    | ShellBaseline                     // the baseline drop count is read here
    | ShellPop                          // first pop of `poll_next`
    | ShellRegister                     // `WAKER.register`
    | ShellRepop                        // second pop of `poll_next`
    | ShellTake(event: InputEvent)      // `WAKER.take`
    | ShellRead(event: InputEvent)      // the drop counter is re-read
    | ShellDrain(current: nat)          // queue drained, decoder replaced
    | ShellHandle(event: InputEvent)    // event fed to decoder and shell
    | RedrawRegister                    // `REDRAW_WAKER.register`
    | RedrawSwap                        // `REDRAW_PENDING.swap(false)`
    | RedrawPaint                       // `vga_buffer::refresh`
    | Sleeping                          // the pop found nothing; interrupts still on
    | Disabled                          // interrupts off in `sleep_if_idle`
    | Halted                            // `enable_and_hlt`

  /** What has happened so far; no transition depends on it. */
  datatype Past = Past(
    arrivals: seq<byte>,                // every scancode offered to the queue
    clean: bool,                        // the first counter read missed no gap
    fed: seq<InputEvent>,               // scancodes given to the current decoder
    retired: seq<seq<InputEvent>>       // and to the decoders before it
  )

  datatype State = State(
    pc: Pc,
    tasks: set<TaskId>,
    queue: seq<TaskId>,                 // `task_queue`
    shellStarted: bool,
    redrawStarted: bool,
    ready: bool,                        // `SCANCODE_QUEUE` has been initialised
    events: seq<InputEvent>,            // `SCANCODE_QUEUE`
    shellWaker: Option<TaskId>,         // `WAKER`
    redrawWaker: Option<TaskId>,        // `REDRAW_WAKER`
    redrawPending: bool,                // `REDRAW_PENDING`
    dropped: nat,                       // `DROPPED_SCANCODES`
    seen: nat,                          // `run_shell`'s local `dropped`
    past: Past
  )

  const INITIAL := State(Boot, {}, [], false, false, false, [], None, None, false, 0, 0, Past([], true, [], []))

  datatype Step =
    | Spawn(id: TaskId)
    | Advance                           // the processor's next atomic access
    | KeyIrq(code: byte)
    | MouseIrq(action: Option<InputEvent>)   // a completed mouse packet
    | OtherIrq                          // timer, or an incomplete mouse packet

  predicate InterruptsEnabled(s: State) {
    s.pc != Disabled
  }

  /** `AtomicWaker::wake`: take the registered id, if any, and queue it. */
  function Fired(queue: seq<TaskId>, waker: Option<TaskId>): seq<TaskId> {
    if waker.Some? then queue + [waker.value] else queue
  }

  /** An interrupt ends a `hlt`. */
  function Resume(pc: Pc): Pc {
    if pc.Halted? then PopTask else pc
  }

  function SpawnTask(s: State, id: TaskId): State {
    if s.pc.Boot? && id !in s.tasks then
      s.(tasks := s.tasks + {id}, queue := s.queue + [id])
    else
      s
  }

  /** `add_scancode`: a full queue drops the byte and counts it. */
  function AddScancode(s: State, code: byte): State {
    if !s.ready then
      s.(pc := Resume(s.pc))
    else
      var event := Scancode(code, |s.past.arrivals|);
      var full := |s.events| >= CAPACITY;
      s.(pc := Resume(s.pc),
         events := if full then s.events else s.events + [event],
         dropped := if full then s.dropped + 1 else s.dropped,
         past := s.past.(arrivals := s.past.arrivals + [code]),
         queue := Fired(s.queue, s.shellWaker),
         shellWaker := None)
  }

  /** `desktop_action`: a full queue loses the event without counting it. */
  function DesktopAction(s: State, event: InputEvent): State {
    if !s.ready then
      s
    else
      s.(events := if |s.events| >= CAPACITY then s.events else s.events + [event],
         queue := Fired(s.queue, s.shellWaker),
         shellWaker := None)
  }

  /** The end of a mouse packet: an optional desktop event, then a repaint request. */
  function MousePacket(s: State, action: Option<InputEvent>): State {
    var t := if action.Some? && !action.value.Scancode? then DesktopAction(s, action.value) else s;
    t.(pc := Resume(t.pc),
       redrawPending := true,
       queue := Fired(t.queue, t.redrawWaker),
       redrawWaker := None)
  }

  /** Begin polling the popped task, or skip an id that names no task. */
  function Dispatch(s: State, id: TaskId): Pc {
    if id !in s.tasks then PopTask
    else if id == SHELL then (if s.shellStarted then ShellPop else ShellStart)
    else if id == REDRAW then RedrawRegister
    else PopTask
  }

  /** Stamps of the scancodes among some events, in order. */
  function Stamps(events: seq<InputEvent>): seq<nat> {
    if events == [] then []
    else (if events[0].Scancode? then [events[0].stamp] else []) + Stamps(events[1..])
  }

  /** Nothing was dropped, or no scancode precedes the gap. */
  predicate CleanStart(s: State) {
    s.dropped == 0 || Stamps(s.events) == []
  }

  /** One atomic access of `run_ready_tasks` or `sleep_if_idle`. */
  function ExecutorAccess(s: State): State {
    match s.pc
    case Boot => s.(pc := PopTask)
    case PopTask =>
      if s.queue == [] then s.(pc := Sleeping)
      else
        var id := s.queue[0];
        s.(queue := s.queue[1..], pc := Dispatch(s, id),
           redrawStarted := s.redrawStarted || (id in s.tasks && id == REDRAW))
    case Sleeping => s.(pc := Disabled)
    case Disabled => s.(pc := if s.queue == [] then Halted else PopTask)
    case _ => s
  }

  /** One atomic access of `ScancodeStream::poll_next`. */
  function StreamAccess(s: State): State {
    match s.pc
    case ShellPop =>
      if s.events == [] then s.(pc := ShellRegister)
      else s.(events := s.events[1..], pc := ShellRead(s.events[0]))
    case ShellRegister => s.(shellWaker := Some(SHELL), pc := ShellRepop)
    case ShellRepop =>
      if s.events == [] then s.(pc := PopTask)
      else s.(events := s.events[1..], pc := ShellTake(s.events[0]))
    case ShellTake(event) => s.(shellWaker := None, pc := ShellRead(event))
    case _ => s
  }

  /** One atomic access of `run_shell` itself. */
  function ShellAccess(s: State): State {
    match s.pc
    case ShellStart => s.(pc := ShellBaseline, ready := true, shellStarted := true)
    case ShellBaseline => s.(pc := ShellPop, seen := s.dropped, past := s.past.(clean := CleanStart(s)))
    case ShellRead(event) =>
      s.(pc := if s.dropped != s.seen then ShellDrain(s.dropped) else ShellHandle(event))
    case ShellDrain(current) =>
      s.(events := [], seen := current, pc := ShellPop,
         past := s.past.(fed := [], retired := s.past.retired + [s.past.fed]))
    case ShellHandle(event) =>
      s.(pc := ShellPop,
         past := if event.Scancode? then s.past.(fed := s.past.fed + [event]) else s.past)
    case _ => s
  }

  /** One atomic access of `run_redraw_worker`. */
  function RedrawAccess(s: State): State {
    match s.pc
    case RedrawRegister => s.(redrawWaker := Some(REDRAW), pc := RedrawSwap)
    case RedrawSwap =>
      if s.redrawPending then s.(redrawPending := false, pc := RedrawPaint)
      else s.(pc := PopTask)
    case RedrawPaint => s.(pc := RedrawRegister)
    case _ => s
  }

  predicate InStream(pc: Pc) {
    pc.ShellPop? || pc.ShellRegister? || pc.ShellRepop? || pc.ShellTake?
  }

  predicate InShell(pc: Pc) {
    pc.ShellStart? || pc.ShellBaseline? || pc.ShellRead? || pc.ShellDrain? || pc.ShellHandle?
  }

  predicate PollingShell(pc: Pc) {
    InStream(pc) || InShell(pc)
  }

  predicate PollingRedraw(pc: Pc) {
    pc.RedrawRegister? || pc.RedrawSwap? || pc.RedrawPaint?
  }

  predicate InExecutor(pc: Pc) {
    !PollingShell(pc) && !PollingRedraw(pc)
  }

  /** The processor's next atomic access. */
  function Next(s: State): State {
    if InStream(s.pc) then StreamAccess(s)
    else if InShell(s.pc) then ShellAccess(s)
    else if PollingRedraw(s.pc) then RedrawAccess(s)
    else ExecutorAccess(s)
  }

  /** A step that is not enabled changes nothing: interrupts wait while disabled. */
  function Apply(s: State, step: Step): State {
    match step
    case Spawn(id) => SpawnTask(s, id)
    case Advance => Next(s)
    case KeyIrq(code) => if InterruptsEnabled(s) then AddScancode(s, code) else s
    case MouseIrq(action) => if InterruptsEnabled(s) then MousePacket(s, action) else s
    case OtherIrq => if InterruptsEnabled(s) then s.(pc := Resume(s.pc)) else s
  }

  function Run(s: State, steps: seq<Step>): State
    decreases |steps|
  {
    if steps == [] then s else Run(Apply(s, steps[0]), steps[1..])
  }

  // ---------------------------------------------------------------------
  // No lost wakeup

  /** The shell task is woken, or will be by the next event. */
  predicate ShellReachable(s: State) {
    SHELL in s.queue || s.shellWaker == Some(SHELL)
  }

  predicate RedrawReachable(s: State) {
    REDRAW in s.queue || s.redrawWaker == Some(REDRAW)
  }

  predicate ShellInv(s: State) {
    && (s.shellWaker.Some? ==> s.shellWaker.value == SHELL)
    && (s.ready <==> s.shellStarted)
    && (!s.ready ==> s.events == [] && s.shellWaker == None)
    && (PollingShell(s.pc) ==> SHELL in s.tasks && (s.shellStarted <==> !s.pc.ShellStart?))
    && (SHELL in s.tasks ==>
          if !s.shellStarted then s.pc.ShellStart? || SHELL in s.queue
          else if s.pc.ShellRepop? then ShellReachable(s)
          else PollingShell(s.pc) || SHELL in s.queue ||
               (s.shellWaker == Some(SHELL) && s.events == []))
  }

  predicate RedrawInv(s: State) {
    && (s.redrawWaker.Some? ==> s.redrawWaker.value == REDRAW)
    && (PollingRedraw(s.pc) ==> REDRAW in s.tasks && s.redrawStarted)
    && (REDRAW in s.tasks ==>
          if !s.redrawStarted then REDRAW in s.queue
          else if s.pc.RedrawSwap? then RedrawReachable(s)
          else PollingRedraw(s.pc) || REDRAW in s.queue ||
               (s.redrawWaker == Some(REDRAW) && !s.redrawPending))
  }

  predicate WakeupInv(s: State) {
    && ShellInv(s)
    && RedrawInv(s)
    && (s.pc.Halted? ==> s.queue == [])
  }

  lemma ExecutorKeepsShellInv(s: State)
    requires ShellInv(s) && InExecutor(s.pc)
    ensures ShellInv(ExecutorAccess(s))
  {
    if s.pc.PopTask? && s.queue != [] {
      assert s.queue == [s.queue[0]] + s.queue[1..];
    }
  }

  lemma ExecutorKeepsRedrawInv(s: State)
    requires RedrawInv(s) && InExecutor(s.pc)
    ensures RedrawInv(ExecutorAccess(s))
  {
    if s.pc.PopTask? && s.queue != [] {
      assert s.queue == [s.queue[0]] + s.queue[1..];
    }
  }

  /** The shell's accesses are invisible to the redraw protocol, and conversely. */
  lemma RedrawInvFrame(s: State, t: State)
    requires RedrawInv(s) && !PollingRedraw(s.pc) && !PollingRedraw(t.pc)
    requires t.tasks == s.tasks && t.queue == s.queue && t.redrawStarted == s.redrawStarted
    requires t.redrawWaker == s.redrawWaker && t.redrawPending == s.redrawPending
    ensures RedrawInv(t)
  {
  }

  lemma ShellInvFrame(s: State, t: State)
    requires ShellInv(s) && !PollingShell(s.pc) && !PollingShell(t.pc)
    requires t.tasks == s.tasks && t.queue == s.queue && t.shellStarted == s.shellStarted
    requires t.shellWaker == s.shellWaker && t.events == s.events && t.ready == s.ready
    ensures ShellInv(t)
  {
  }

  lemma StreamKeepsWakeupInv(s: State)
    requires WakeupInv(s) && InStream(s.pc)
    ensures WakeupInv(StreamAccess(s))
  {
    RedrawInvFrame(s, StreamAccess(s));
  }

  lemma ShellKeepsWakeupInv(s: State)
    requires WakeupInv(s) && InShell(s.pc)
    ensures WakeupInv(ShellAccess(s))
  {
    RedrawInvFrame(s, ShellAccess(s));
  }

  lemma RedrawKeepsWakeupInv(s: State)
    requires WakeupInv(s) && PollingRedraw(s.pc)
    ensures WakeupInv(RedrawAccess(s))
  {
    ShellInvFrame(s, RedrawAccess(s));
  }

  lemma ExecutorKeepsWakeupInv(s: State)
    requires WakeupInv(s) && InExecutor(s.pc)
    ensures WakeupInv(ExecutorAccess(s))
  {
    ExecutorKeepsShellInv(s);
    ExecutorKeepsRedrawInv(s);
  }

  lemma NextKeepsWakeupInv(s: State)
    requires WakeupInv(s)
    ensures WakeupInv(Next(s))
  {
    if InStream(s.pc) {
      StreamKeepsWakeupInv(s);
    } else if InShell(s.pc) {
      ShellKeepsWakeupInv(s);
    } else if PollingRedraw(s.pc) {
      RedrawKeepsWakeupInv(s);
    } else {
      ExecutorKeepsWakeupInv(s);
    }
  }

  lemma AddScancodeKeepsWakeupInv(s: State, code: byte)
    requires WakeupInv(s)
    ensures WakeupInv(AddScancode(s, code))
  {
  }

  lemma DesktopActionKeepsWakeupInv(s: State, event: InputEvent)
    requires ShellInv(s) && RedrawInv(s)
    ensures ShellInv(DesktopAction(s, event)) && RedrawInv(DesktopAction(s, event))
  {
  }

  lemma MousePacketKeepsWakeupInv(s: State, action: Option<InputEvent>)
    requires WakeupInv(s)
    ensures WakeupInv(MousePacket(s, action))
  {
    if action.Some? && !action.value.Scancode? {
      DesktopActionKeepsWakeupInv(s, action.value);
    }
  }

  lemma ApplyKeepsWakeupInv(s: State, step: Step)
    requires WakeupInv(s)
    ensures WakeupInv(Apply(s, step))
  {
    match step
    case Spawn(_) =>
    case Advance => NextKeepsWakeupInv(s);
    case KeyIrq(code) => AddScancodeKeepsWakeupInv(s, code);
    case MouseIrq(action) => MousePacketKeepsWakeupInv(s, action);
    case OtherIrq =>
  }

  lemma {:induction false} RunKeepsWakeupInv(s: State, steps: seq<Step>)
    requires WakeupInv(s)
    ensures WakeupInv(Run(s, steps))
    decreases |steps|
  {
    if steps != [] {
      ApplyKeepsWakeupInv(s, steps[0]);
      RunKeepsWakeupInv(Apply(s, steps[0]), steps[1..]);
    }
  }

  /** Whenever the processor halts nothing is left to do: both tasks have been
      polled, no task id is queued, no event is waiting and no repaint is due. */
  lemma NoLostWakeup(steps: seq<Step>)
    ensures var s := Run(INITIAL, steps);
            s.pc.Halted? && SHELL in s.tasks && REDRAW in s.tasks ==>
              && s.queue == []
              && s.events == []
              && !s.redrawPending
              && s.shellStarted && s.redrawStarted
  {
    RunKeepsWakeupInv(INITIAL, steps);
  }

  /** A task that is not being polled and has work waiting is always queued. */
  lemma IdleTaskWithWorkIsQueued(steps: seq<Step>)
    ensures var s := Run(INITIAL, steps);
            && (SHELL in s.tasks && !PollingShell(s.pc) && s.events != [] ==> SHELL in s.queue)
            && (REDRAW in s.tasks && !PollingRedraw(s.pc) && s.redrawPending ==> REDRAW in s.queue)
  {
    RunKeepsWakeupInv(INITIAL, steps);
  }

  // ---------------------------------------------------------------------
  // Progress: left alone, the processor finishes all waiting work and halts

  function PcRank(s: State): nat {
    match s.pc
    case Boot => 20
    case PopTask => 4
    case ShellStart => 12
    case ShellBaseline => 11
    case ShellPop => 10
    case ShellRegister => 9
    case ShellRepop => 8
    case ShellTake(_) => 14
    case ShellRead(_) => 13
    case ShellDrain(_) => 12
    case ShellHandle(_) => 12
    case RedrawRegister => 10
    case RedrawSwap => 9
    case RedrawPaint => 12
    case Sleeping => if s.queue == [] then 3 else 7
    case Disabled => if s.queue == [] then 2 else 6
    case Halted => 0
  }

  /** Bound on the number of accesses until the next halt. */
  function Rank(s: State): nat {
    20 * |s.events| + 20 * |s.queue| + (if s.redrawPending then 20 else 0) + PcRank(s)
  }

  lemma StreamLowersRank(s: State)
    requires InStream(s.pc)
    ensures Rank(StreamAccess(s)) < Rank(s)
  {
  }

  lemma ShellLowersRank(s: State)
    requires InShell(s.pc)
    ensures Rank(ShellAccess(s)) < Rank(s)
  {
  }

  lemma RedrawLowersRank(s: State)
    requires PollingRedraw(s.pc)
    ensures Rank(RedrawAccess(s)) < Rank(s)
  {
  }

  lemma ExecutorLowersRank(s: State)
    requires InExecutor(s.pc) && !s.pc.Halted?
    ensures Rank(ExecutorAccess(s)) < Rank(s)
  {
  }

  lemma NextLowersRank(s: State)
    requires !s.pc.Halted?
    ensures Rank(Next(s)) < Rank(s)
  {
    if InStream(s.pc) {
      StreamLowersRank(s);
    } else if InShell(s.pc) {
      ShellLowersRank(s);
    } else if PollingRedraw(s.pc) {
      RedrawLowersRank(s);
    } else {
      ExecutorLowersRank(s);
    }
  }

  function Iterate(s: State, n: nat): State
    decreases n
  {
    if n == 0 then s else Iterate(Next(s), n - 1)
  }

  lemma {:induction false} IterateIsRun(s: State, n: nat)
    ensures Iterate(s, n) == Run(s, seq(n, _ => Advance))
    decreases n
  {
    if n > 0 {
      IterateIsRun(Next(s), n - 1);
      assert seq(n, _ => Advance)[1..] == seq(n - 1, _ => Advance);
    }
  }

  lemma {:induction false} HaltsWithin(s: State) returns (n: nat)
    ensures n <= Rank(s)
    ensures Iterate(s, n).pc.Halted?
    decreases Rank(s)
  {
    if s.pc.Halted? {
      n := 0;
    } else {
      NextLowersRank(s);
      n := HaltsWithin(Next(s));
      n := n + 1;
    }
  }

  lemma {:induction false} RunConcat(s: State, a: seq<Step>, b: seq<Step>)
    ensures Run(s, a + b) == Run(Run(s, a), b)
    decreases |a|
  {
    if a == [] {
      assert a + b == b;
    } else {
      assert (a + b)[1..] == a[1..] + b;
      RunConcat(Apply(s, a[0]), a[1..], b);
    }
  }

  lemma RunSnoc(trace: seq<Step>, step: Step)
    ensures Run(INITIAL, trace + [step]) == Apply(Run(INITIAL, trace), step)
  {
    RunConcat(INITIAL, trace, [step]);
    assert [step][1..] == [];
    assert Run(Run(INITIAL, trace), [step]) == Apply(Run(INITIAL, trace), step);
  }

  lemma {:induction false} IterateKeepsTasks(s: State, n: nat)
    ensures Iterate(s, n).tasks == s.tasks
    decreases n
  {
    if n > 0 {
      NextKeepsTasks(s);
      IterateKeepsTasks(Next(s), n - 1);
    }
  }

  lemma NextKeepsTasks(s: State)
    ensures Next(s).tasks == s.tasks
  {
    assert StreamAccess(s).tasks == s.tasks;
    assert ShellAccess(s).tasks == s.tasks;
    assert RedrawAccess(s).tasks == s.tasks;
    assert ExecutorAccess(s).tasks == s.tasks;
  }

  /** Liveness: from any reachable state, if no further interrupt arrives, the
      processor halts within `Rank` accesses with every event handled. */
  lemma QuietKernelFinishesAllWork(steps: seq<Step>) returns (n: nat)
    ensures var s := Run(INITIAL, steps);
            && n <= Rank(s)
            && Iterate(s, n).pc.Halted?
            && (SHELL in s.tasks && REDRAW in s.tasks ==>
                  && Iterate(s, n).queue == []
                  && Iterate(s, n).events == []
                  && !Iterate(s, n).redrawPending)
  {
    var s := Run(INITIAL, steps);
    n := HaltsWithin(s);
    var more := seq(n, _ => Advance);
    IterateIsRun(s, n);
    RunConcat(INITIAL, steps, more);
    IterateKeepsTasks(s, n);
    NoLostWakeup(steps + more);
  }

  // ---------------------------------------------------------------------
  // The check in `sleep_if_idle` is needed

  /** The shell has been polled and waits; the executor's pop found nothing. */
  const DROWSY := State(Sleeping, {SHELL}, [], true, false, true, [], Some(SHELL), None, false, 0, 0,
                        Past([], true, [], []))

  const SPAWNED := INITIAL.(tasks := {SHELL}, queue := [SHELL])
  const POPPED := INITIAL.(tasks := {SHELL}, pc := ShellStart)
  const STARTED := POPPED.(pc := ShellPop, ready := true, shellStarted := true)
  const REGISTERED := STARTED.(pc := ShellRepop, shellWaker := Some(SHELL))

  lemma TwoAccesses(s: State)
    ensures Iterate(s, 2) == Next(Next(s))
  {
    assert Iterate(Next(s), 1) == Next(Next(s));
  }

  lemma SpawnedReachesPopped()
    ensures Iterate(SPAWNED, 2) == POPPED
  {
    TwoAccesses(SPAWNED);
    assert Next(SPAWNED) == SPAWNED.(pc := PopTask);
  }

  lemma PoppedReachesStarted()
    ensures Iterate(POPPED, 2) == STARTED
  {
    TwoAccesses(POPPED);
    assert Next(POPPED) == POPPED.(pc := ShellBaseline, ready := true, shellStarted := true);
  }

  lemma StartedReachesRegistered()
    ensures Iterate(STARTED, 2) == REGISTERED
  {
    TwoAccesses(STARTED);
    assert Next(STARTED) == STARTED.(pc := ShellRegister);
  }

  lemma RegisteredReachesDrowsy()
    ensures Iterate(REGISTERED, 2) == DROWSY
  {
    TwoAccesses(REGISTERED);
    assert Next(REGISTERED) == REGISTERED.(pc := PopTask);
  }

  lemma {:induction false} IterateConcat(s: State, m: nat, n: nat)
    ensures Iterate(s, m + n) == Iterate(Iterate(s, m), n)
    decreases m
  {
    if m > 0 {
      IterateConcat(Next(s), m - 1, n);
    }
  }

  lemma BootReachesDrowsy()
    ensures Iterate(SPAWNED, 8) == DROWSY
  {
    SpawnedReachesPopped();
    PoppedReachesStarted();
    StartedReachesRegistered();
    RegisteredReachesDrowsy();
    IterateConcat(SPAWNED, 2, 6);
    IterateConcat(POPPED, 2, 4);
    IterateConcat(STARTED, 2, 2);
  }

  /** A key pressed just before interrupts go off queues the shell. */
  lemma KeyBeforeDisable(s: State)
    requires s.pc.Sleeping? && s.ready && s.events == [] && s.shellWaker == Some(SHELL)
    ensures var t := Run(s, [KeyIrq(0), Advance]); t.pc.Disabled? && SHELL in t.queue && t.events != []
  {
    var t := Apply(s, KeyIrq(0));
    assert [KeyIrq(0), Advance][1..] == [Advance] && [Advance][1..] == [];
    assert Run(t, [Advance]) == ExecutorAccess(t);
  }

  lemma SpawnIsFirst(steps: seq<Step>)
    ensures Run(INITIAL, [Spawn(SHELL)] + steps) == Run(SPAWNED, steps)
  {
    var all := [Spawn(SHELL)] + steps;
    assert all[0] == Spawn(SHELL) && all[1..] == steps;
    assert Apply(INITIAL, Spawn(SHELL)) == SPAWNED by {
      assert [] + [SHELL] == [SHELL] && {} + {SHELL} == {SHELL};
    }
  }

  /** An interrupt can queue a task between the pop that found nothing and the
      moment interrupts are off, so an executor that slept without looking
      again would lose it. */
  lemma SleepCheckIsNeeded() returns (steps: seq<Step>)
    ensures var s := Run(INITIAL, steps); s.pc.Disabled? && SHELL in s.queue && s.events != []
  {
    var boot, race := [Spawn(SHELL)] + seq(8, _ => Advance), [KeyIrq(0), Advance];
    BootReachesDrowsy();
    IterateIsRun(SPAWNED, 8);
    SpawnIsFirst(seq(8, _ => Advance));
    RunConcat(INITIAL, boot, race);
    KeyBeforeDisable(DROWSY);
    steps := boot + race;
  }
}
