/** Each decoder instance of `run_shell` is fed a gap-free stretch of the
    scancode stream. */
module Decoders {
  import opened Prelude
  import opened Kernel

  /** The event already popped but not yet fed. */
  function InHand(pc: Pc): seq<InputEvent> {
    if pc.ShellTake? || pc.ShellRead? || pc.ShellHandle? then [pc.event] else []
  }

  predicate GapFree(stamps: seq<nat>) {
    forall i :: 0 <= i < |stamps| ==> stamps[i] == stamps[0] + i
  }

  /** `stamps` are the most recent arrivals, none missing. */
  predicate EndsAt(stamps: seq<nat>, n: nat) {
    |stamps| <= n && forall i :: 0 <= i < |stamps| ==> stamps[i] == n - |stamps| + i
  }

  /** Everything fed, popped or queued since the current decoder was created. */
  function Pipeline(s: State): seq<nat> {
    Stamps(s.past.fed) + Stamps(InHand(s.pc)) + Stamps(s.events)
  }

  /** The decoder is known to start on a clean stream. */
  predicate Tracked(s: State) {
    s.past.clean || s.past.retired != []
  }

  /** Before the baseline read the shell has popped nothing: the queue holds
      the first arrivals, and is full once one has been dropped. */
  predicate Untouched(s: State) {
    && s.past.fed == [] && s.past.retired == [] && s.past.clean
    && EndsAt(Stamps(s.events), |Stamps(s.events)|)
    && |Stamps(s.events)| + s.dropped == |s.past.arrivals|
    && (s.dropped > 0 ==> |s.events| >= CAPACITY)
  }

  predicate CountersOk(s: State) {
    s.seen <= (if s.pc.ShellDrain? then s.pc.current else s.dropped) <= s.dropped
  }

  predicate RetiredOk(p: Past) {
    forall i :: 0 <= i < |p.retired| && (i > 0 || p.clean) ==> GapFree(Stamps(p.retired[i]))
  }

  /** While no drop has gone unnoticed, everything since the decoder was created
      is still on its way to it. */
  predicate FeedingOk(s: State) {
    && GapFree(Stamps(s.past.fed))
    && (s.pc.ShellHandle? ==> GapFree(Stamps(s.past.fed) + Stamps([s.pc.event])))
    && (s.dropped == s.seen && !s.pc.ShellDrain? ==> EndsAt(Pipeline(s), |s.past.arrivals|))
  }

  predicate DecoderInv(s: State) {
    && CountersOk(s)
    && RetiredOk(s.past)
    && (s.pc.ShellStart? ==> !s.shellStarted)
    && (if !s.shellStarted then
          s.pc != ShellBaseline && InHand(s.pc) == [] && !s.pc.ShellDrain? &&
          s.past == INITIAL.past && s.events == [] && s.dropped == 0
        else if s.pc.ShellBaseline? then Untouched(s)
        else Tracked(s) ==> FeedingOk(s))
  }

  // ---------------------------------------------------------------------
  // Sequences of stamps

  lemma {:induction false} StampsOfConcat(a: seq<InputEvent>, b: seq<InputEvent>)
    ensures Stamps(a + b) == Stamps(a) + Stamps(b)
    decreases |a|
  {
    if a == [] {
      assert a + b == b;
    } else {
      var head := if a[0].Scancode? then [a[0].stamp] else [];
      assert (a + b)[0] == a[0] && (a + b)[1..] == a[1..] + b;
      StampsOfConcat(a[1..], b);
      assert head + (Stamps(a[1..]) + Stamps(b)) == head + Stamps(a[1..]) + Stamps(b);
    }
  }

  lemma StampsOfOne(e: InputEvent)
    ensures Stamps([e]) == if e.Scancode? then [e.stamp] else []
  {
    assert [e][1..] == [];
  }

  lemma EndsAtPrefixIsGapFree(a: seq<nat>, b: seq<nat>, n: nat)
    requires EndsAt(a + b, n)
    ensures GapFree(a)
  {
    forall i | 0 <= i < |a|
      ensures a[i] == a[0] + i
    {
      assert (a + b)[i] == a[i];
      assert (a + b)[0] == a[0];
    }
  }

  // ---------------------------------------------------------------------
  // The processor

  /** Popping the head of the queue moves its stamp along the pipeline. */
  lemma PopMovesStamp(s: State, t: State)
    requires s.events != [] && InHand(s.pc) == []
    requires InHand(t.pc) == [s.events[0]] && t.events == s.events[1..] && t.past == s.past
    ensures Pipeline(t) == Pipeline(s)
  {
    assert s.events == [s.events[0]] + s.events[1..];
    StampsOfConcat([s.events[0]], s.events[1..]);
    assert Stamps([]) == [];
  }

  /** What leaves the pipeline as it is. */
  ghost predicate SamePipeline(s: State, t: State) {
    && t.past == s.past && t.events == s.events && t.dropped == s.dropped && t.seen == s.seen
    && t.shellStarted == s.shellStarted && InHand(t.pc) == InHand(s.pc)
    && !s.pc.ShellBaseline? && !t.pc.ShellBaseline? && !s.pc.ShellDrain? && !t.pc.ShellDrain?
    && !t.pc.ShellHandle? && (t.pc.ShellStart? ==> !t.shellStarted)
  }

  lemma PipelineUntouched(s: State, t: State)
    requires DecoderInv(s) && SamePipeline(s, t)
    ensures DecoderInv(t)
  {
    assert Pipeline(t) == Pipeline(s);
  }

  lemma PopKeepsDecoderInv(s: State)
    requires ShellInv(s) && DecoderInv(s) && (s.pc.ShellPop? || s.pc.ShellRepop?) && s.events != []
    ensures DecoderInv(StreamAccess(s))
  {
    PopMovesStamp(s, StreamAccess(s));
  }

  lemma StreamSparesPipeline(s: State)
    requires ShellInv(s) && InStream(s.pc) && !((s.pc.ShellPop? || s.pc.ShellRepop?) && s.events != [])
    ensures SamePipeline(s, StreamAccess(s))
  {
  }

  lemma StreamKeepsDecoderInv(s: State)
    requires ShellInv(s) && DecoderInv(s) && InStream(s.pc)
    ensures DecoderInv(StreamAccess(s))
  {
    if (s.pc.ShellPop? || s.pc.ShellRepop?) && s.events != [] {
      PopKeepsDecoderInv(s);
    } else {
      StreamSparesPipeline(s);
      PipelineUntouched(s, StreamAccess(s));
    }
  }

  lemma BaselineKeepsDecoderInv(s: State)
    requires ShellInv(s) && DecoderInv(s) && (s.pc.ShellStart? || s.pc.ShellBaseline?)
    ensures DecoderInv(ShellAccess(s))
  {
    var t := ShellAccess(s);
    assert Stamps([]) == [];
    assert Pipeline(t) == Stamps(t.events);
  }

  lemma ReadKeepsDecoderInv(s: State)
    requires ShellInv(s) && DecoderInv(s) && s.pc.ShellRead?
    ensures DecoderInv(ShellAccess(s))
  {
    var t := ShellAccess(s);
    if s.dropped == s.seen && Tracked(s) {
      var front := Stamps(s.past.fed) + Stamps([s.pc.event]);
      assert Pipeline(t) == Pipeline(s) == front + Stamps(s.events);
      EndsAtPrefixIsGapFree(front, Stamps(s.events), |s.past.arrivals|);
    }
  }

  lemma HandleKeepsDecoderInv(s: State)
    requires ShellInv(s) && DecoderInv(s) && s.pc.ShellHandle?
    ensures DecoderInv(ShellAccess(s))
  {
    var t, e := ShellAccess(s), s.pc.event;
    StampsOfOne(e);
    StampsOfConcat(s.past.fed, [e]);
    assert Stamps([]) == [];
    assert Stamps(t.past.fed) == Stamps(s.past.fed) + Stamps([e]);
    assert Pipeline(t) == Pipeline(s);
  }

  lemma DrainKeepsDecoderInv(s: State)
    requires ShellInv(s) && DecoderInv(s) && s.pc.ShellDrain?
    ensures DecoderInv(ShellAccess(s))
  {
    var t := ShellAccess(s);
    assert Stamps([]) == [];
    assert Pipeline(t) == [];
    forall i | 0 <= i < |t.past.retired| && (i > 0 || t.past.clean)
      ensures GapFree(Stamps(t.past.retired[i]))
    {
      assert i < |s.past.retired| ==> t.past.retired[i] == s.past.retired[i];
    }
  }

  lemma ShellKeepsDecoderInv(s: State)
    requires ShellInv(s) && DecoderInv(s) && InShell(s.pc)
    ensures DecoderInv(ShellAccess(s))
  {
    match s.pc
    case ShellRead(_) => ReadKeepsDecoderInv(s);
    case ShellHandle(_) => HandleKeepsDecoderInv(s);
    case ShellDrain(_) => DrainKeepsDecoderInv(s);
    case _ => BaselineKeepsDecoderInv(s);
  }

  lemma NextKeepsDecoderInv(s: State)
    requires WakeupInv(s) && DecoderInv(s)
    ensures DecoderInv(Next(s))
  {
    if InStream(s.pc) {
      StreamKeepsDecoderInv(s);
    } else if InShell(s.pc) {
      ShellKeepsDecoderInv(s);
    } else if PollingRedraw(s.pc) {
      PipelineUntouched(s, RedrawAccess(s));
    } else {
      ExecutorSparesPipeline(s);
      PipelineUntouched(s, ExecutorAccess(s));
    }
  }

  lemma DispatchSparesPipeline(s: State)
    requires s.pc.PopTask? && s.queue != []
    ensures SamePipeline(s, ExecutorAccess(s))
  {
  }

  lemma ExecutorSparesPipeline(s: State)
    requires InExecutor(s.pc)
    ensures SamePipeline(s, ExecutorAccess(s))
  {
    if s.pc.PopTask? && s.queue != [] {
      DispatchSparesPipeline(s);
    }
  }

  // ---------------------------------------------------------------------
  // Interrupts

  lemma AddScancodeKeepsDecoderInv(s: State, code: byte)
    requires WakeupInv(s) && DecoderInv(s)
    ensures DecoderInv(AddScancode(s, code))
  {
    var t := AddScancode(s, code);
    if s.ready && |s.events| < CAPACITY {
      var event := Scancode(code, |s.past.arrivals|);
      StampsOfConcat(s.events, [event]);
      StampsOfOne(event);
      assert Stamps(t.events) == Stamps(s.events) + [|s.past.arrivals|];
      assert Pipeline(t) == Pipeline(s) + [|s.past.arrivals|];
    }
  }

  lemma DesktopActionKeepsDecoderInv(s: State, event: InputEvent)
    requires WakeupInv(s) && DecoderInv(s) && !event.Scancode?
    ensures DecoderInv(DesktopAction(s, event))
  {
    var t := DesktopAction(s, event);
    StampsOfConcat(s.events, [event]);
    StampsOfOne(event);
    assert Stamps(t.events) == Stamps(s.events);
    assert Pipeline(t) == Pipeline(s);
  }

  /** Only the program counter, and not within the shell, or the repaint
      request changes. */
  lemma OutsideKeepsDecoderInv(s: State, t: State)
    requires DecoderInv(s) && t.pc == Resume(s.pc)
    requires t == s.(pc := t.pc, redrawPending := t.redrawPending, queue := t.queue, redrawWaker := t.redrawWaker)
    ensures DecoderInv(t)
  {
    assert Pipeline(t) == Pipeline(s);
  }

  lemma MousePacketKeepsDecoderInv(s: State, action: Option<InputEvent>)
    requires WakeupInv(s) && DecoderInv(s)
    ensures DecoderInv(MousePacket(s, action))
  {
    var t := s;
    if action.Some? && !action.value.Scancode? {
      DesktopActionKeepsDecoderInv(s, action.value);
      t := DesktopAction(s, action.value);
    }
    OutsideKeepsDecoderInv(t, MousePacket(s, action));
  }

  lemma SpawnKeepsDecoderInv(s: State, id: TaskId)
    requires DecoderInv(s)
    ensures DecoderInv(SpawnTask(s, id))
  {
    if SpawnTask(s, id) != s {
      PipelineUntouched(s, SpawnTask(s, id));
    }
  }

  lemma ApplyKeepsDecoderInv(s: State, step: Step)
    requires WakeupInv(s) && DecoderInv(s)
    ensures DecoderInv(Apply(s, step))
  {
    match step
    case Spawn(id) => SpawnKeepsDecoderInv(s, id);
    case Advance => NextKeepsDecoderInv(s);
    case KeyIrq(code) => AddScancodeKeepsDecoderInv(s, code);
    case MouseIrq(action) => MousePacketKeepsDecoderInv(s, action);
    case OtherIrq => OutsideKeepsDecoderInv(s, s.(pc := Resume(s.pc)));
  }

  lemma {:induction false} RunKeepsDecoderInv(s: State, steps: seq<Step>)
    requires WakeupInv(s) && DecoderInv(s)
    ensures WakeupInv(Run(s, steps)) && DecoderInv(Run(s, steps))
    decreases |steps|
  {
    if steps != [] {
      ApplyKeepsWakeupInv(s, steps[0]);
      ApplyKeepsDecoderInv(s, steps[0]);
      RunKeepsDecoderInv(Apply(s, steps[0]), steps[1..]);
    }
  }

  // ---------------------------------------------------------------------
  // The stamps are true

  predicate TrueTo(arrivals: seq<byte>, events: seq<InputEvent>) {
    forall i :: 0 <= i < |events| && events[i].Scancode? ==>
      events[i].stamp < |arrivals| && arrivals[events[i].stamp] == events[i].code
  }

  predicate AllScancodes(events: seq<InputEvent>) {
    forall i :: 0 <= i < |events| ==> events[i].Scancode?
  }

  /** What one decoder was fed: scancodes that arrived. */
  predicate Fed(arrivals: seq<byte>, fed: seq<InputEvent>) {
    AllScancodes(fed) && TrueTo(arrivals, fed)
  }

  predicate PastOk(p: Past) {
    Fed(p.arrivals, p.fed) && forall i :: 0 <= i < |p.retired| ==> Fed(p.arrivals, p.retired[i])
  }

  predicate TruthInv(s: State) {
    TrueTo(s.past.arrivals, s.events) && TrueTo(s.past.arrivals, InHand(s.pc)) && PastOk(s.past)
  }

  lemma ArrivalKeepsPast(p: Past, code: byte)
    requires PastOk(p)
    ensures PastOk(p.(arrivals := p.arrivals + [code]))
  {
    var q := p.(arrivals := p.arrivals + [code]);
    forall i | 0 <= i < |p.retired|
      ensures Fed(q.arrivals, q.retired[i])
    {
      assert Fed(p.arrivals, p.retired[i]);
    }
  }

  lemma AddScancodeKeepsTruth(s: State, code: byte)
    requires TruthInv(s)
    ensures TruthInv(AddScancode(s, code))
  {
    ArrivalKeepsPast(s.past, code);
    assert InHand(Resume(s.pc)) == InHand(s.pc);
  }

  lemma MousePacketKeepsTruth(s: State, action: Option<InputEvent>)
    requires TruthInv(s)
    ensures TruthInv(MousePacket(s, action))
  {
    assert InHand(Resume(s.pc)) == InHand(s.pc);
  }

  lemma StreamKeepsTruth(s: State)
    requires TruthInv(s) && InStream(s.pc)
    ensures TruthInv(StreamAccess(s))
  {
    if s.events != [] {
      TruthSplits(s.past.arrivals, s.events);
    }
  }

  lemma TruthSplits(arrivals: seq<byte>, events: seq<InputEvent>)
    requires TrueTo(arrivals, events) && events != []
    ensures TrueTo(arrivals, [events[0]]) && TrueTo(arrivals, events[1..])
  {
  }

  /** Feeding the event in hand. */
  lemma FedGrows(p: Past, e: InputEvent)
    requires PastOk(p) && TrueTo(p.arrivals, [e]) && e.Scancode?
    ensures PastOk(p.(fed := p.fed + [e]))
  {
    assert [e][0] == e;
  }

  lemma FedRetires(p: Past)
    requires PastOk(p)
    ensures PastOk(p.(fed := [], retired := p.retired + [p.fed]))
  {
  }

  lemma ShellKeepsTruth(s: State)
    requires TruthInv(s) && InShell(s.pc)
    ensures TruthInv(ShellAccess(s))
  {
    match s.pc
    case ShellHandle(e) => if e.Scancode? { FedGrows(s.past, e); }
    case ShellDrain(_) => FedRetires(s.past);
    case _ =>
  }

  lemma ExecutorKeepsTruth(s: State)
    requires TruthInv(s) && InExecutor(s.pc)
    ensures TruthInv(ExecutorAccess(s))
  {
    ExecutorSparesPipeline(s);
  }

  lemma ApplyKeepsTruth(s: State, step: Step)
    requires TruthInv(s)
    ensures TruthInv(Apply(s, step))
  {
    match step
    case Spawn(_) =>
    case Advance =>
      if InStream(s.pc) {
        StreamKeepsTruth(s);
      } else if InShell(s.pc) {
        ShellKeepsTruth(s);
      } else if InExecutor(s.pc) {
        ExecutorKeepsTruth(s);
      }
    case KeyIrq(code) => AddScancodeKeepsTruth(s, code);
    case MouseIrq(action) => MousePacketKeepsTruth(s, action);
    case OtherIrq => assert InHand(Resume(s.pc)) == InHand(s.pc);
  }

  lemma {:induction false} RunKeepsTruth(s: State, steps: seq<Step>)
    requires TruthInv(s)
    ensures TruthInv(Run(s, steps))
    decreases |steps|
  {
    if steps != [] {
      ApplyKeepsTruth(s, steps[0]);
      RunKeepsTruth(Apply(s, steps[0]), steps[1..]);
    }
  }

  // ---------------------------------------------------------------------
  // Byte for byte

  /** The bytes that a decoder was given. */
  function Codes(fed: seq<InputEvent>): Bytes
    requires AllScancodes(fed)
  {
    seq(|fed|, i requires 0 <= i < |fed| => fed[i].code)
  }

  /** The bytes that arrived from position `a` on, as many as were fed. */
  predicate StretchAt(fed: seq<InputEvent>, arrivals: seq<byte>, a: nat) {
    AllScancodes(fed) && a + |fed| <= |arrivals| && Codes(fed) == arrivals[a..a + |fed|]
  }

  /** A contiguous stretch of the arrival stream, byte for byte. */
  ghost predicate IsStretch(fed: seq<InputEvent>, arrivals: seq<byte>) {
    exists a: nat :: StretchAt(fed, arrivals, a)
  }

  lemma {:induction false} StampsOfScancodes(fed: seq<InputEvent>)
    requires AllScancodes(fed)
    ensures |Stamps(fed)| == |fed| && forall i :: 0 <= i < |fed| ==> Stamps(fed)[i] == fed[i].stamp
    decreases |fed|
  {
    if fed != [] {
      StampsOfScancodes(fed[1..]);
    }
  }

  lemma GapFreeIsStretch(fed: seq<InputEvent>, arrivals: seq<byte>)
    requires Fed(arrivals, fed) && GapFree(Stamps(fed))
    ensures IsStretch(fed, arrivals)
  {
    StampsOfScancodes(fed);
    if fed == [] {
      assert StretchAt(fed, arrivals, 0);
    } else {
      var a := fed[0].stamp;
      forall i | 0 <= i < |fed|
        ensures a + i < |arrivals| && Codes(fed)[i] == arrivals[a + i]
      {
        assert Stamps(fed)[i] == a + i;
      }
      assert fed[|fed| - 1].stamp == a + (|fed| - 1);
      assert StretchAt(fed, arrivals, a);
    }
  }

  /** In every run each decoder after the first has been fed a contiguous
      stretch of the arrival stream, byte for byte; so has the first, unless
      its baseline read missed a gap. */
  lemma DecodersSeeGapFreeSegments(steps: seq<Step>)
    ensures var p := Run(INITIAL, steps).past;
            && (forall i :: 0 < i < |p.retired| ==> IsStretch(p.retired[i], p.arrivals))
            && (p.retired != [] ==> IsStretch(p.fed, p.arrivals))
            && (p.clean ==> IsStretch(First(p), p.arrivals))
  {
    RunKeepsDecoderInv(INITIAL, steps);
    RunKeepsTruth(INITIAL, steps);
    var s := Run(INITIAL, steps);
    forall i | 0 <= i < |s.past.retired| && (i > 0 || s.past.clean)
      ensures IsStretch(s.past.retired[i], s.past.arrivals)
    {
      GapFreeIsStretch(s.past.retired[i], s.past.arrivals);
    }
    if Tracked(s) {
      FedIsGapFree(s);
      GapFreeIsStretch(s.past.fed, s.past.arrivals);
    }
  }

  lemma FedIsGapFree(s: State)
    requires DecoderInv(s) && Tracked(s)
    ensures GapFree(Stamps(s.past.fed))
  {
    assert Stamps([]) == [];
  }

  /** What the first decoder was fed. */
  function First(p: Past): seq<InputEvent> {
    if p.retired == [] then p.fed else p.retired[0]
  }

  // ---------------------------------------------------------------------
  // When the first decoder is safe

  lemma {:induction false} CleanIsSettled(s: State, steps: seq<Step>)
    requires s.shellStarted && !s.pc.ShellBaseline? && ShellInv(s) && WakeupInv(s)
    ensures Run(s, steps).past.clean == s.past.clean
    decreases |steps|
  {
    if steps != [] {
      ApplyKeepsWakeupInv(s, steps[0]);
      StepSettles(s, steps[0]);
      CleanIsSettled(Apply(s, steps[0]), steps[1..]);
    }
  }

  predicate Settled(s: State, t: State) {
    t.shellStarted && !t.pc.ShellBaseline? && t.past.clean == s.past.clean
  }

  lemma StepSettles(s: State, step: Step)
    requires s.shellStarted && !s.pc.ShellBaseline? && ShellInv(s)
    ensures Settled(s, Apply(s, step))
  {
    if step.Advance? {
      if InStream(s.pc) {
        StreamSettles(s);
      } else if InShell(s.pc) {
        ShellSettles(s);
      } else if InExecutor(s.pc) {
        ExecutorSettles(s);
      }
    }
  }

  lemma StreamSettles(s: State)
    requires s.shellStarted && InStream(s.pc)
    ensures Settled(s, StreamAccess(s))
  {
  }

  lemma ShellSettles(s: State)
    requires s.shellStarted && InShell(s.pc) && !s.pc.ShellBaseline? && ShellInv(s)
    ensures Settled(s, ShellAccess(s))
  {
  }

  lemma ExecutorSettles(s: State)
    requires s.shellStarted && InExecutor(s.pc)
    ensures Settled(s, ExecutorAccess(s))
  {
  }

  /** The scancodes among some events. */
  function Scancodes(events: seq<InputEvent>): seq<InputEvent> {
    if events == [] then []
    else (if events[0].Scancode? then [events[0]] else []) + Scancodes(events[1..])
  }

  lemma {:induction false} ScancodesStamps(events: seq<InputEvent>)
    ensures Stamps(Scancodes(events)) == Stamps(events)
    decreases |events|
  {
    if events != [] {
      ScancodesStamps(events[1..]);
      var head := if events[0].Scancode? then [events[0]] else [];
      StampsOfConcat(head, Scancodes(events[1..]));
      StampsOfOne(events[0]);
    }
  }

  function Repeat(step: Step, n: nat): seq<Step> {
    seq(n, _ => step)
  }

  /** Left alone, with no drop to notice, the shell feeds all that is queued. */
  function Drained(s: State): State {
    s.(events := [], past := s.past.(fed := s.past.fed + Scancodes(s.events)))
  }

  lemma FeedOne(s: State)
    requires s.pc.ShellPop? && s.dropped == s.seen && s.events != []
    ensures var e := s.events[0];
            Run(s, Repeat(Advance, 3)) ==
            s.(events := s.events[1..], past := if e.Scancode? then s.past.(fed := s.past.fed + [e]) else s.past)
  {
    var s1 := Next(s);
    assert s1 == s.(events := s.events[1..], pc := ShellRead(s.events[0]));
    var s2 := Next(s1);
    assert s2 == s1.(pc := ShellHandle(s.events[0]));
    RunThree(s, Advance, Advance, Advance);
    assert Repeat(Advance, 3) == [Advance, Advance, Advance];
  }

  lemma RunThree(s: State, a: Step, b: Step, c: Step)
    ensures Run(s, [a, b, c]) == Apply(Apply(Apply(s, a), b), c)
  {
    assert [a, b, c][1..] == [b, c] && [b, c][1..] == [c];
    assert Run(Apply(Apply(s, a), b), [c]) == Apply(Apply(Apply(s, a), b), c);
  }

  lemma {:induction false} ShellDrains(s: State)
    requires s.pc.ShellPop? && s.dropped == s.seen
    ensures Run(s, Repeat(Advance, 3 * |s.events|)) == Drained(s)
    decreases |s.events|
  {
    if s.events == [] {
      assert Repeat(Advance, 0) == [];
      assert s.past.fed + [] == s.past.fed;
    } else {
      var n := |s.events|;
      FeedOne(s);
      var t := Run(s, Repeat(Advance, 3));
      ShellDrains(t);
      assert Repeat(Advance, 3 * n) == Repeat(Advance, 3) + Repeat(Advance, 3 * (n - 1));
      RunConcat(s, Repeat(Advance, 3), Repeat(Advance, 3 * (n - 1)));
      DrainedStep(s, t);
    }
  }

  lemma DrainedStep(s: State, t: State)
    requires s.events != []
    requires t == s.(events := s.events[1..],
                     past := if s.events[0].Scancode? then s.past.(fed := s.past.fed + [s.events[0]]) else s.past)
    ensures Drained(t) == Drained(s)
  {
    var head := if s.events[0].Scancode? then [s.events[0]] else [];
    assert s.past.fed + (head + Scancodes(s.events[1..])) == s.past.fed + head + Scancodes(s.events[1..]);
    assert s.past.fed + [] == s.past.fed;
  }

  /** The shell feeds all that is queued, then one more scancode. */
  lemma DrainAndFeed(s: State) returns (more: seq<Step>)
    requires s.pc.ShellPop? && s.dropped == s.seen && s.ready
    ensures Run(s, more).past ==
            s.past.(arrivals := s.past.arrivals + [0],
                    fed := s.past.fed + Scancodes(s.events) + [Scancode(0, |s.past.arrivals|)])
  {
    var drain, feed := Repeat(Advance, 3 * |s.events|), Repeat(Advance, 3);
    ShellDrains(s);
    var t := Drained(s);
    var u := AddScancode(t, 0);
    FeedOne(u);
    more := drain + ([KeyIrq(0)] + feed);
    RunConcat(s, drain, [KeyIrq(0)] + feed);
    assert ([KeyIrq(0)] + feed)[1..] == feed;
    assert Run(t, [KeyIrq(0)] + feed) == Run(u, feed);
  }

  lemma CrossesTheGap(events: seq<InputEvent>, e: InputEvent)
    requires Stamps(events) != [] && EndsAt(Stamps(events), |Stamps(events)|)
    requires e.Scancode? && e.stamp > |Stamps(events)|
    ensures !GapFree(Stamps(Scancodes(events) + [e]))
  {
    ScancodesStamps(events);
    StampsOfConcat(Scancodes(events), [e]);
    StampsOfOne(e);
    var stamps, k := Stamps(Scancodes(events) + [e]), |Stamps(events)|;
    assert stamps[0] == 0 && stamps[k] == e.stamp;
  }

  /** After a missed drop behind a queued scancode, one more scancode is fed
      across the gap. */
  lemma NextScancodeCrossesTheGap(s: State) returns (more: seq<Step>)
    requires s.pc.ShellPop? && s.dropped == s.seen && s.ready && s.past.fed == [] && s.past.retired == []
    requires Stamps(s.events) != [] && EndsAt(Stamps(s.events), |Stamps(s.events)|)
    requires |s.past.arrivals| > |Stamps(s.events)|
    ensures !GapFree(Stamps(First(Run(s, more).past)))
  {
    more := DrainAndFeed(s);
    assert [] + Scancodes(s.events) == Scancodes(s.events);
    CrossesTheGap(s.events, Scancode(0, |s.past.arrivals|));
  }

  /** Whatever happens after the baseline read, the first decoder is fed a
      gap-free stretch, if and only if nothing had been dropped by then or no
      scancode was queued. */
  lemma FirstDecoderExactly(steps: seq<Step>)
    requires Run(INITIAL, steps).pc.ShellBaseline?
    ensures var s := Run(INITIAL, steps);
            (forall more :: GapFree(Stamps(First(Run(Next(s), more).past))))
            <==> s.dropped == 0 || Stamps(s.events) == []
  {
    var s := Run(INITIAL, steps);
    RunKeepsDecoderInv(INITIAL, steps);
    var t := Next(s);
    NextKeepsWakeupInv(s);
    NextKeepsDecoderInv(s);
    if CleanStart(s) {
      forall more
        ensures GapFree(Stamps(First(Run(t, more).past)))
      {
        RunKeepsDecoderInv(t, more);
        CleanIsSettled(t, more);
        FedIsGapFree(Run(t, more));
      }
    } else {
      var more := NextScancodeCrossesTheGap(t);
    }
  }
}
