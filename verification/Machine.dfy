/** The executor, the two tasks and the interrupt handlers in the source's own
    control flow.  Before every atomic access the processor may take interrupts
    from a script.  The program counter of `Kernel` is a ghost: whatever the
    methods do is proved to be a run of `Kernel`. */
module Machine {
  import opened Prelude
  import opened Kernel

  /** The interrupts to come: `Irq` arrives now, `Quiet` lets one access pass. */
  datatype Tick = Quiet | Irq(step: Step)

  predicate IsInterrupt(step: Step) {
    step.KeyIrq? || step.OtherIrq? || (step.MouseIrq? && (step.action.Some? ==> !step.action.value.Scancode?))
  }

  predicate ScriptOk(script: seq<Tick>) {
    forall i :: 0 <= i < |script| && script[i].Irq? ==> IsInterrupt(script[i].step)
  }

  /** The interrupts of a script, in order. */
  function Planned(script: seq<Tick>): seq<Step> {
    if script == [] then []
    else (if script[0].Irq? then [script[0].step] else []) + Planned(script[1..])
  }

  /** The interrupts of a run, in order. */
  function Taken(trace: seq<Step>): seq<Step> {
    if trace == [] then []
    else
      var last := trace[|trace| - 1];
      Taken(trace[..|trace| - 1]) + if IsInterrupt(last) then [last] else []
  }

  lemma TakenSnoc(trace: seq<Step>, step: Step)
    ensures Taken(trace + [step]) == Taken(trace) + if IsInterrupt(step) then [step] else []
  {
    assert (trace + [step])[..|trace|] == trace;
  }

  /** An access extends the run and takes no interrupt. */
  lemma AdvanceTrace(trace: seq<Step>)
    ensures Run(INITIAL, trace + [Advance]) == Next(Run(INITIAL, trace))
    ensures Taken(trace + [Advance]) == Taken(trace)
  {
    RunSnoc(trace, Advance);
    TakenSnoc(trace, Advance);
  }

  lemma Associate(a: seq<Step>, b: seq<Step>, c: seq<Step>)
    ensures a + (b + c) == (a + b) + c
  {
  }

  lemma PlanMoves(trace: seq<Step>, script: seq<Tick>)
    requires script != [] && script[0].Irq? && IsInterrupt(script[0].step)
    ensures Taken(trace + [script[0].step]) + Planned(script[1..]) == Taken(trace) + Planned(script)
  {
    TakenSnoc(trace, script[0].step);
    Associate(Taken(trace), [script[0].step], Planned(script[1..]));
  }

  /** A shell that has returned `Poll::Pending` will be polled again. */
  lemma PendingShell(trace: seq<Step>)
    ensures var s := Run(INITIAL, trace);
            s.pc.PopTask? && s.shellStarted && SHELL in s.tasks ==>
              SHELL in s.queue || (s.shellWaker == Some(SHELL) && s.events == [])
  {
    RunKeepsWakeupInv(INITIAL, trace);
  }

  lemma PendingRedraw(trace: seq<Step>)
    ensures var s := Run(INITIAL, trace);
            s.pc.PopTask? && REDRAW in s.tasks ==>
              REDRAW in s.queue || (s.redrawWaker == Some(REDRAW) && !s.redrawPending)
  {
    RunKeepsWakeupInv(INITIAL, trace);
  }

  /** Asleep with no interrupt to come: nothing is left to do. */
  lemma AsleepIsDone(trace: seq<Step>, plan: seq<Step>)
    requires Run(INITIAL, trace).pc.Halted? && Taken(trace) + Planned([]) == plan
    ensures Taken(trace) == plan
    ensures var s := Run(INITIAL, trace);
            SHELL in s.tasks && REDRAW in s.tasks ==> s.queue == [] && s.events == [] && !s.redrawPending
  {
    NoLostWakeup(trace);
    assert Taken(trace) + [] == Taken(trace);
  }

  class Processor {
    // The executor.
    var tasks: set<TaskId>
    var taskQueue: seq<TaskId>
    // `run_shell`: whether it has been polled, and its local `dropped`.
    var shellStarted: bool
    var seen: nat
    // Statics of the keyboard and the desktop.
    var ready: bool
    var events: seq<InputEvent>
    var shellWaker: Option<TaskId>
    var redrawWaker: Option<TaskId>
    var redrawPending: bool
    var dropped: nat
    // The environment.
    var script: seq<Tick>
    // History.
    var past: Past
    ghost var pc: Pc
    ghost var redrawStarted: bool
    ghost var trace: seq<Step>
    ghost const plan: seq<Step>

    ghost function View(): State
      reads this
    {
      State(pc, tasks, taskQueue, shellStarted, redrawStarted, ready, events, shellWaker, redrawWaker,
            redrawPending, dropped, seen, past)
    }

    /** The state is the one that the trace leads to, and every interrupt of the
        plan has been taken or is still to come. */
    ghost predicate Valid()
      reads this
    {
      View() == Run(INITIAL, trace) && ScriptOk(script) && Taken(trace) + Planned(script) == plan
    }

    /** Some access was performed: the script or the rank went down. */
    twostate predicate Progressed()
      reads this
    {
      && tasks == old(tasks)
      && (|script| < old(|script|) || (script == old(script) && Rank(View()) < old(Rank(View()))))
    }

    constructor (interrupts: seq<Tick>)
      requires ScriptOk(interrupts)
      ensures Valid() && pc == Boot && tasks == {} && script == interrupts && plan == Planned(interrupts)
    {
      tasks, taskQueue := {}, [];
      shellStarted, seen, ready, events := false, 0, false, [];
      shellWaker, redrawWaker, redrawPending, dropped := None, None, false, 0;
      past, pc, redrawStarted, trace := INITIAL.past, Boot, false, [];
      script, plan := interrupts, Planned(interrupts);
    }

    /** `Executor::spawn`; a repeated id panics. */
    method Spawn(id: TaskId)
      requires Valid() && pc.Boot? && id !in tasks
      modifies this`tasks, this`taskQueue, this`trace
      ensures Valid() && tasks == old(tasks) + {id}
    {
      RunSnoc(trace, Step.Spawn(id));
      TakenSnoc(trace, Step.Spawn(id));
      assert Taken(trace) + [] == Taken(trace);
      ghost var after := SpawnTask(View(), id);
      tasks := tasks + {id};
      taskQueue := taskQueue + [id];
      trace := trace + [Step.Spawn(id)];
      assert View() == after;
    }

    // Interrupt handlers.

    /** `WAKER.wake()`. */
    method WakeShell()
      modifies this`taskQueue, this`shellWaker
      ensures taskQueue == Fired(old(taskQueue), old(shellWaker)) && shellWaker == None
    {
      if shellWaker.Some? {
        taskQueue := taskQueue + [shellWaker.value];
      }
      shellWaker := None;
    }

    /** `add_scancode`. */
    method AddScancode(code: byte)
      modifies this`events, this`dropped, this`past, this`taskQueue, this`shellWaker
      ensures View().(pc := Resume(pc)) == Kernel.AddScancode(old(View()), code)
    {
      if ready {
        if |events| >= CAPACITY {
          dropped := dropped + 1;
        } else {
          events := events + [Scancode(code, |past.arrivals|)];
        }
        past := past.(arrivals := past.arrivals + [code]);
        WakeShell();
      }
    }

    /** `desktop_action`. */
    method DesktopAction(event: InputEvent)
      modifies this`events, this`taskQueue, this`shellWaker
      ensures View() == Kernel.DesktopAction(old(View()), event)
    {
      if ready {
        if |events| < CAPACITY {
          events := events + [event];
        }
        WakeShell();
      }
    }

    /** The end of `mouse_byte`. */
    method MousePacket(action: Option<InputEvent>)
      requires action.Some? ==> !action.value.Scancode?
      modifies this`events, this`taskQueue, this`shellWaker, this`redrawPending, this`redrawWaker
      ensures View().(pc := Resume(pc)) == Kernel.MousePacket(old(View()), action)
    {
      if action.Some? {
        DesktopAction(action.value);
      }
      redrawPending := true;
      if redrawWaker.Some? {
        taskQueue := taskQueue + [redrawWaker.value];
      }
      redrawWaker := None;
    }

    /** One interrupt, at any point where interrupts are on. */
    method Interrupt(step: Step)
      requires View() == Run(INITIAL, trace) && IsInterrupt(step) && InterruptsEnabled(View())
      modifies this`events, this`dropped, this`past, this`taskQueue, this`shellWaker, this`redrawPending,
               this`redrawWaker, this`pc, this`trace
      ensures View() == Run(INITIAL, trace) && trace == old(trace) + [step] && pc == Resume(old(pc))
    {
      RunSnoc(trace, step);
      match step {
        case KeyIrq(code) => AddScancode(code);
        case MouseIrq(action) => MousePacket(action);
        case OtherIrq =>
      }
      pc := Resume(pc);
      trace := trace + [step];
    }

    /** The interrupts before the next access. */
    method Interrupts()
      requires Valid() && InterruptsEnabled(View()) && !pc.Halted?
      modifies this`events, this`dropped, this`past, this`taskQueue, this`shellWaker, this`redrawPending,
               this`redrawWaker, this`pc, this`trace, this`script
      ensures Valid() && pc == old(pc)
      ensures |script| < old(|script|) || (script == old(script) && View() == old(View()))
    {
      while script != [] && script[0].Irq?
        invariant Valid() && pc == old(pc)
        invariant |script| < old(|script|) || (script == old(script) && View() == old(View()))
        decreases |script|
      {
        TakeInterrupt();
      }
      if script != [] {
        script := script[1..];
      }
    }

    method TakeInterrupt()
      requires Valid() && InterruptsEnabled(View()) && script != [] && script[0].Irq?
      modifies this`events, this`dropped, this`past, this`taskQueue, this`shellWaker, this`redrawPending,
               this`redrawWaker, this`pc, this`trace, this`script
      ensures Valid() && pc == Resume(old(pc)) && script == old(script)[1..]
    {
      PlanMoves(trace, script);
      Interrupt(script[0].step);
      script := script[1..];
    }

    /** Note the access just performed in the trace. */
    ghost method Record()
      requires View() == Next(Run(INITIAL, trace))
      modifies this`trace
      ensures View() == Run(INITIAL, trace) && Taken(trace) == Taken(old(trace))
    {
      AdvanceTrace(trace);
      trace := trace + [Advance];
    }

    // The scancode stream.

    method PopAccess() returns (event: Option<InputEvent>)
      requires pc.ShellPop? || pc.ShellRepop?
      modifies this`events, this`pc
      ensures View() == StreamAccess(old(View()))
      ensures event == if old(events) == [] then None else Some(old(events)[0])
    {
      ghost var after := StreamAccess(View());
      if events == [] {
        event := None;
      } else {
        event := Some(events[0]);
        events := events[1..];
      }
      pc := after.pc;
    }

    /** `queue.pop()`, the first or the second of `poll_next`. */
    method PopEvent() returns (event: Option<InputEvent>)
      requires Valid() && (pc.ShellPop? || pc.ShellRepop?)
      modifies this
      ensures Valid() && Progressed() && shellStarted == old(shellStarted)
      ensures old(pc).ShellPop? ==> pc == if event.None? then ShellRegister else ShellRead(event.value)
      ensures old(pc).ShellRepop? ==> pc == if event.None? then PopTask else ShellTake(event.value)
    {
      Interrupts();
      StreamLowersRank(View());
      event := PopAccess();
      Record();
    }

    /** `WAKER.register`. */
    method RegisterShell()
      requires Valid() && pc.ShellRegister?
      modifies this
      ensures Valid() && Progressed() && pc.ShellRepop? && shellStarted == old(shellStarted)
    {
      Interrupts();
      StreamLowersRank(View());
      shellWaker := Some(SHELL);
      pc := ShellRepop;
      Record();
    }

    /** `WAKER.take`. */
    method TakeShellWaker()
      requires Valid() && pc.ShellTake?
      modifies this
      ensures Valid() && Progressed() && pc == ShellRead(old(pc).event) && shellStarted == old(shellStarted)
    {
      Interrupts();
      StreamLowersRank(View());
      shellWaker := None;
      pc := ShellRead(pc.event);
      Record();
    }

    /** `ScancodeStream::poll_next`. */
    method PollNext() returns (event: Option<InputEvent>)
      requires Valid() && pc.ShellPop?
      modifies this
      ensures Valid() && Progressed() && shellStarted == old(shellStarted)
      ensures pc == if event.None? then PopTask else ShellRead(event.value)
    {
      event := PopEvent();
      if event.Some? {
        return;
      }
      RegisterShell();
      event := PopEvent();
      if event.Some? {
        TakeShellWaker();
      }
    }

    // The shell task.

    /** `ScancodeStream::new`. */
    method CreateQueue()
      requires Valid() && pc.ShellStart?
      modifies this
      ensures Valid() && Progressed() && pc.ShellBaseline? && shellStarted
    {
      Interrupts();
      ShellLowersRank(View());
      ready, shellStarted := true, true;
      pc := ShellBaseline;
      Record();
    }

    /** `let mut dropped = dropped_scancodes()`. */
    method ReadBaseline()
      requires Valid() && pc.ShellBaseline?
      modifies this
      ensures Valid() && Progressed() && pc.ShellPop? && shellStarted == old(shellStarted)
    {
      Interrupts();
      ShellLowersRank(View());
      BaselineAccess();
      Record();
    }

    method BaselineAccess()
      requires pc.ShellBaseline?
      modifies this`seen, this`past, this`pc
      ensures View() == ShellAccess(old(View()))
    {
      seen := dropped;
      past := past.(clean := dropped == 0 || Stamps(events) == []);
      pc := ShellPop;
    }

    /** `let current_dropped = dropped_scancodes()`. */
    method ReadDropped(event: InputEvent) returns (current: nat)
      requires Valid() && pc == ShellRead(event)
      modifies this
      ensures Valid() && Progressed() && shellStarted == old(shellStarted)
      ensures pc == if current != seen then ShellDrain(current) else ShellHandle(event)
    {
      Interrupts();
      ShellLowersRank(View());
      current := dropped;
      pc := if current != seen then ShellDrain(current) else ShellHandle(event);
      Record();
    }

    /** `while queue.pop().is_some() {}` with interrupts off. */
    method DrainEvents()
      modifies this`events
      ensures events == []
    {
      while events != []
        decreases |events|
      {
        events := events[1..];
      }
    }

    /** Input was lost: empty the queue, and start a new decoder. */
    method ResetDecoder(current: nat)
      requires Valid() && pc == ShellDrain(current)
      modifies this
      ensures Valid() && Progressed() && pc.ShellPop? && shellStarted == old(shellStarted)
    {
      Interrupts();
      ShellLowersRank(View());
      ResetAccess(current);
      Record();
    }

    method ResetAccess(current: nat)
      requires pc == ShellDrain(current)
      modifies this`events, this`seen, this`past, this`pc
      ensures View() == ShellAccess(old(View()))
    {
      DrainEvents();
      past := past.(fed := [], retired := past.retired + [past.fed]);
      seen := current;
      pc := ShellPop;
    }

    /** Feed the decoder and the shell. */
    method HandleEvent(event: InputEvent)
      requires Valid() && pc == ShellHandle(event)
      modifies this
      ensures Valid() && Progressed() && pc.ShellPop? && shellStarted == old(shellStarted)
    {
      Interrupts();
      ShellLowersRank(View());
      HandleAccess(event);
      Record();
    }

    method HandleAccess(event: InputEvent)
      requires pc == ShellHandle(event)
      modifies this`past, this`pc
      ensures View() == ShellAccess(old(View()))
    {
      if event.Scancode? {
        past := past.(fed := past.fed + [event]);
      }
      pc := ShellPop;
    }

    /** One poll of `run_shell`, up to `Poll::Pending`: afterwards the task is
        queued, or its waker is registered and no event waits. */
    method PollShell()
      requires Valid() && pc == if shellStarted then ShellPop else ShellStart
      modifies this
      ensures Valid() && Progressed() && pc.PopTask?
      ensures SHELL in tasks ==> SHELL in taskQueue || (shellWaker == Some(SHELL) && events == [])
    {
      if !shellStarted {
        CreateQueue();
        ReadBaseline();
      }
      var event := PollNext();
      while event.Some?
        invariant Valid() && Progressed() && shellStarted
        invariant pc == if event.None? then PopTask else ShellRead(event.value)
        decreases |script|, Rank(View())
      {
        var current := ReadDropped(event.value);
        if current != seen {
          ResetDecoder(current);
        } else {
          HandleEvent(event.value);
        }
        event := PollNext();
      }
      PendingShell(trace);
    }

    // The redraw task.

    method RegisterRedraw()
      requires Valid() && pc.RedrawRegister?
      modifies this
      ensures Valid() && Progressed() && pc.RedrawSwap?
    {
      Interrupts();
      RedrawLowersRank(View());
      redrawWaker := Some(REDRAW);
      pc := RedrawSwap;
      Record();
    }

    /** `REDRAW_PENDING.swap(false)`. */
    method SwapPending() returns (pending: bool)
      requires Valid() && pc.RedrawSwap?
      modifies this
      ensures Valid() && Progressed() && pc == if pending then RedrawPaint else PopTask
    {
      Interrupts();
      RedrawLowersRank(View());
      pending := redrawPending;
      redrawPending := false;
      pc := if pending then RedrawPaint else PopTask;
      Record();
    }

    method Paint()
      requires Valid() && pc.RedrawPaint?
      modifies this
      ensures Valid() && Progressed() && pc.RedrawRegister?
    {
      Interrupts();
      RedrawLowersRank(View());
      pc := RedrawRegister;
      Record();
    }

    /** One poll of `run_redraw_worker`. */
    method PollRedraw()
      requires Valid() && pc.RedrawRegister?
      modifies this
      ensures Valid() && Progressed() && pc.PopTask?
      ensures REDRAW in tasks ==> REDRAW in taskQueue || (redrawWaker == Some(REDRAW) && !redrawPending)
    {
      RegisterRedraw();
      var pending := SwapPending();
      while pending
        invariant Valid() && Progressed() && pc == if pending then RedrawPaint else PopTask
        decreases |script|, Rank(View())
      {
        Paint();
        RegisterRedraw();
        pending := SwapPending();
      }
      PendingRedraw(trace);
    }

    // The executor.

    method PopAccessTask() returns (id: Option<TaskId>)
      requires pc.PopTask?
      modifies this`taskQueue, this`redrawStarted, this`pc
      ensures View() == ExecutorAccess(old(View()))
      ensures id == if old(taskQueue) == [] then None else Some(old(taskQueue)[0])
    {
      ghost var after := ExecutorAccess(View());
      if taskQueue == [] {
        id := None;
      } else {
        id := Some(taskQueue[0]);
        taskQueue := taskQueue[1..];
      }
      pc, redrawStarted := after.pc, after.redrawStarted;
    }

    /** `task_queue.pop()`. */
    method PopTaskId() returns (id: Option<TaskId>)
      requires Valid() && pc.PopTask?
      modifies this
      ensures Valid() && Progressed()
      ensures pc == if id.None? then Sleeping else Dispatch(View(), id.value)
    {
      Interrupts();
      ExecutorLowersRank(View());
      id := PopAccessTask();
      Record();
    }

    /** `run_ready_tasks`: returns only after a pop that found nothing. */
    method RunReadyTasks()
      requires Valid() && pc.PopTask?
      modifies this
      ensures Valid() && Progressed() && pc.Sleeping?
    {
      var id := PopTaskId();
      while id.Some?
        invariant Valid() && Progressed()
        invariant pc == if id.None? then Sleeping else Dispatch(View(), id.value)
        decreases |script|, Rank(View())
      {
        if id.value in tasks {
          if id.value == SHELL {
            PollShell();
          } else if id.value == REDRAW {
            PollRedraw();
          }
        }
        id := PopTaskId();
      }
    }

    /** `interrupts::disable()`; interrupts may still come before it. */
    method DisableInterrupts()
      requires Valid() && pc.Sleeping?
      modifies this
      ensures Valid() && Progressed() && pc.Disabled?
    {
      Interrupts();
      ExecutorLowersRank(View());
      pc := Disabled;
      Record();
    }

    /** The check with interrupts off. */
    method CheckQueue() returns (idle: bool)
      requires Valid() && pc.Disabled?
      modifies this
      ensures Valid() && Progressed() && script == old(script)
      ensures pc == if idle then Halted else PopTask
    {
      ExecutorLowersRank(View());
      idle := taskQueue == [];
      pc := if idle then Halted else PopTask;
      Record();
    }

    /** `hlt`: wait for the next interrupt of the script, if there is one. */
    method Halt() returns (woken: bool)
      requires Valid() && pc.Halted?
      modifies this
      ensures Valid() && tasks == old(tasks)
      ensures if woken then pc.PopTask? && |script| < old(|script|) else pc.Halted? && script == []
    {
      while script != [] && script[0].Quiet?
        invariant Valid() && pc.Halted? && tasks == old(tasks) && |script| <= old(|script|)
        decreases |script|
      {
        script := script[1..];
      }
      if script == [] {
        return false;
      }
      TakeInterrupt();
      return true;
    }

    /** `sleep_if_idle`: halts only when nothing is left to do. */
    method SleepIfIdle() returns (woken: bool)
      requires Valid() && pc.Sleeping?
      modifies this
      ensures Valid() && tasks == old(tasks)
      ensures woken ==> Progressed() && pc.PopTask?
      ensures !woken ==> pc.Halted? && script == []
      ensures !woken && SHELL in tasks && REDRAW in tasks ==> taskQueue == [] && events == [] && !redrawPending
    {
      DisableInterrupts();
      var idle := CheckQueue();
      if idle {
        woken := Halt();
      } else {
        woken := true;
      }
      NoLostWakeup(trace);
    }

    /** One turn of the loop of `Executor::run`. */
    method Turn() returns (woken: bool)
      requires Valid() && pc.PopTask?
      modifies this
      ensures Valid() && tasks == old(tasks)
      ensures woken ==> Progressed() && pc.PopTask?
      ensures !woken ==> pc.Halted? && script == []
    {
      RunReadyTasks();
      woken := SleepIfIdle();
    }

    method EnterLoop()
      requires Valid() && pc.Boot?
      modifies this
      ensures Valid() && pc.PopTask? && tasks == old(tasks)
    {
      Interrupts();
      pc := PopTask;
      Record();
    }

    /** `Executor::run` under any finite script: every interrupt is taken, in
        order, and the processor ends asleep with nothing left to do. */
    method RunExecutor()
      requires Valid() && pc.Boot?
      modifies this
      ensures Valid() && pc.Halted? && tasks == old(tasks)
      ensures Taken(trace) == plan
      ensures SHELL in tasks && REDRAW in tasks ==> taskQueue == [] && events == [] && !redrawPending
    {
      EnterLoop();
      var woken := Turn();
      while woken
        invariant Valid() && tasks == old(tasks)
        invariant woken ==> pc.PopTask?
        invariant !woken ==> pc.Halted? && script == []
        decreases woken, |script|, Rank(View())
      {
        woken := Turn();
      }
      AsleepIsDone(trace, plan);
    }
  }
}
