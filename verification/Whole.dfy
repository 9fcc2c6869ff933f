/** The interrupt protocol and the consoles together: what the executor's runs
    do to the two terminals.  The keyboard decoder is any function of the bytes
    fed to it since it was created. */
module Whole {
  import opened Prelude
  import opened Kernel
  import opened Decoders
  import Painting
  import Shell
  import Desktop
  import Consoles

  type Op = Painting.Op

  type Decoder = Bytes -> Option<Shell.Key>

  /** What may happen next: a task is spawned, the processor performs an access,
      or an interrupt arrives.  `output` is what a handler prints, if one runs. */
  datatype Input =
    | Start(id: TaskId)
    | Access(output: seq<Op>)
    | KeyByte(code: byte)
    | PointerByte(b: byte)
    | Timer

  datatype World = World(
    kernel: State,
    system: Consoles.System,
    // History: the kernel's steps; the console events handled; the input events
    // the interrupts offered, and how many of them before input was last lost;
    // the events handled since; and whether the pointer was used since the last
    // repaint.
    steps: seq<Step>,
    log: seq<Consoles.Event>,
    offered: seq<Offer>,
    mark: nat,
    handled: seq<InputEvent>,
    stale: bool
  )

  /** An event an interrupt had for a shell that was started, and whether 100
      events were already waiting then. */
  datatype Offer = Offer(event: InputEvent, full: bool)

  const BOOT := World(INITIAL, Consoles.START, [], [], [], 0, [], false)

  predicate InputOk(input: Input) {
    input.Access? ==> Shell.Clean(input.output)
  }

  /** A click on the desktop becomes an input event. */
  function Clicked(request: Option<Desktop.Request>): Option<InputEvent> {
    match request
    case None => None
    case Some(OpenRequest) => Some(OpenTerminal)
    case Some(CloseRequest(index)) => Some(CloseTerminal(index))
  }

  /** The step of the interrupt protocol. */
  function KernelStep(w: World, input: Input): Step
    requires Desktop.Shaped(w.system.desktop)
  {
    match input
    case Start(id) => Spawn(id)
    case Access(_) => Advance
    case KeyByte(code) => KeyIrq(code)
    case PointerByte(b) =>
      if |w.system.desktop.packet| == 2 then MouseIrq(Clicked(Desktop.MouseByte(w.system.desktop, b).1)) else OtherIrq
    case Timer => OtherIrq
  }

  /** The match of `run_shell` on a decoded key. */
  function KeyEvent(key: Option<Shell.Key>, output: seq<Op>): seq<Consoles.Event> {
    match key
    case None => []
    case Some(k) =>
      if k == Shell.Unicode(3) then [Consoles.CloseKey]
      else if k == Shell.Unicode(17) then [Consoles.OpenKey(output)]
      else [Consoles.Press(k, output)]
  }

  /** What an input event means, after the bytes that the decoder already has. */
  function Meaning(decode: Decoder, fed: Bytes, e: InputEvent, output: seq<Op>): seq<Consoles.Event> {
    match e
    case Scancode(code, _) => KeyEvent(decode(fed + [code]), output)
    case OpenTerminal => KeyEvent(Some(Shell.Unicode(17)), output)
    case CloseTerminal(index) => [Consoles.CloseClick(index)]
  }

  /** The console events of one input: at most one. */
  function ConsoleEvents(decode: Decoder, w: World, input: Input): seq<Consoles.Event> {
    match input
    case Access(output) =>
      if w.kernel.pc.ShellHandle? then Meaning(decode, TypedBytes(w.kernel.past.fed), w.kernel.pc.event, output)
      else if w.kernel.pc.ShellDrain? then [Consoles.Lost(output)]
      else []
    case PointerByte(b) => if InterruptsEnabled(w.kernel) then [Consoles.MouseByte(b)] else []
    case _ => []
  }

  /** The codes of the scancodes among some events. */
  function TypedBytes(events: seq<InputEvent>): Bytes {
    if events == [] then []
    else
      var last := events[|events| - 1];
      TypedBytes(events[..|events| - 1]) + if last.Scancode? then [last.code] else []
  }

  /** The event an input has for the shell, read off the input alone. */
  function EventOf(w: World, input: Input): Option<InputEvent>
    requires Desktop.Shaped(w.system.desktop)
  {
    match input
    case KeyByte(code) => Some(Scancode(code, |w.kernel.past.arrivals|))
    case PointerByte(b) =>
      if |w.system.desktop.packet| == 2 then Clicked(Desktop.MouseByte(w.system.desktop, b).1) else None
    case _ => None
  }

  /** The offer of one input: none while interrupts are off or before the shell
      starts. */
  function Offers(w: World, input: Input): seq<Offer>
    requires Desktop.Shaped(w.system.desktop)
  {
    if InterruptsEnabled(w.kernel) && w.kernel.shellStarted && EventOf(w, input).Some?
    then [Offer(EventOf(w, input).value, |w.kernel.events| >= 100)]
    else []
  }

  function Mark(w: World, input: Input): nat {
    if input.Access? && w.kernel.pc.ShellDrain? then |w.offered| else w.mark
  }

  /** The third byte of a packet calls for a repaint; painting answers it. */
  function Stale(w: World, input: Input): bool
    requires Desktop.Shaped(w.system.desktop)
  {
    if input.PointerByte? then w.stale || (InterruptsEnabled(w.kernel) && |w.system.desktop.packet| == 2)
    else w.stale && !(input.Access? && w.kernel.pc.RedrawPaint?)
  }

  /** Everything offered. */
  function EventsOffered(offers: seq<Offer>): seq<InputEvent> {
    if offers == [] then [] else EventsOffered(offers[..|offers| - 1]) + [offers[|offers| - 1].event]
  }

  /** What was offered while there was room. */
  function Accepted(offers: seq<Offer>): seq<InputEvent> {
    if offers == [] then []
    else
      var last := offers[|offers| - 1];
      Accepted(offers[..|offers| - 1]) + if last.full then [] else [last.event]
  }

  /** How many scancodes met a full queue. */
  function Refused(offers: seq<Offer>): nat {
    if offers == [] then 0
    else
      var last := offers[|offers| - 1];
      Refused(offers[..|offers| - 1]) + if last.full && last.event.Scancode? then 1 else 0
  }

  predicate AlwaysRoom(offers: seq<Offer>) {
    forall i :: 0 <= i < |offers| ==> !offers[i].full
  }

  lemma OfferSnoc(offers: seq<Offer>, o: Offer)
    ensures EventsOffered(offers + [o]) == EventsOffered(offers) + [o.event]
    ensures Accepted(offers + [o]) == Accepted(offers) + if o.full then [] else [o.event]
    ensures Refused(offers + [o]) == Refused(offers) + if o.full && o.event.Scancode? then 1 else 0
  {
    assert (offers + [o])[..|offers|] == offers;
  }

  /** With room for every offer nothing is refused and all is accepted. */
  lemma {:induction false} RoomMeansAll(offers: seq<Offer>)
    requires AlwaysRoom(offers)
    ensures Refused(offers) == 0 && Accepted(offers) == EventsOffered(offers)
  {
    if offers != [] {
      RoomMeansAll(offers[..|offers| - 1]);
    }
  }

  /** What was accepted since the last loss. */
  function AcceptedSince(offered: seq<Offer>, mark: nat): seq<InputEvent> {
    if mark <= |offered| then Accepted(offered[mark..]) else []
  }

  function Handled(w: World, input: Input): seq<InputEvent> {
    if !input.Access? then w.handled
    else if w.kernel.pc.ShellDrain? then []
    else if w.kernel.pc.ShellHandle? then w.handled + [w.kernel.pc.event]
    else w.handled
  }

  lemma EventsAreOk(decode: Decoder, w: World, input: Input)
    requires InputOk(input)
    ensures Consoles.EventsOk(ConsoleEvents(decode, w, input))
  {
  }

  ghost function Next(decode: Decoder, names: seq<Bytes>, w: World, input: Input): (u: World)
    requires Consoles.Inv(w.system) && Shell.Printables(names) && InputOk(input)
    ensures Consoles.Inv(u.system)
  {
    EventsAreOk(decode, w, input);
    var step, events := KernelStep(w, input), ConsoleEvents(decode, w, input);
    var k := Apply(w.kernel, step);
    World(k, Consoles.Run(w.system, events, names), w.steps + [step], w.log + events,
          w.offered + Offers(w, input), Mark(w, input), Handled(w, input), Stale(w, input))
  }

  predicate InputsOk(inputs: seq<Input>) {
    forall i :: 0 <= i < |inputs| ==> InputOk(inputs[i])
  }

  ghost function RunWorld(decode: Decoder, names: seq<Bytes>, w: World, inputs: seq<Input>): (u: World)
    requires Consoles.Inv(w.system) && Shell.Printables(names) && InputsOk(inputs)
    ensures Consoles.Inv(u.system)
    decreases |inputs|
  {
    if inputs == [] then w else RunWorld(decode, names, Next(decode, names, w, inputs[0]), inputs[1..])
  }

  // ---------------------------------------------------------------------
  // The log

  /** An event without what its handler prints. */
  function Bare(e: Consoles.Event): Consoles.Event {
    match e
    case Press(key, _) => Consoles.Press(key, [])
    case OpenKey(_) => Consoles.OpenKey([])
    case Lost(_) => Consoles.Lost([])
    case _ => e
  }

  /** A click on the [x] of a window closes that window, one on the icon opens a
      terminal, whatever was typed before. */
  lemma ClicksMean(decode: Decoder, fed: Bytes, d: Desktop.Desktop, b: byte, output: seq<Op>,
                   s: Consoles.System, names: seq<Bytes>)
    requires Desktop.Shaped(d) && Desktop.MouseByte(d, b).1.Some?
    requires Consoles.Inv(s) && Shell.Printables(names) && Shell.Clean(output)
    ensures var request := Desktop.MouseByte(d, b).1;
            var events := Meaning(decode, fed, Clicked(request).value, output);
            && Consoles.EventsOk(events)
            && Consoles.Run(s, events, names) ==
               match request.value
               case OpenRequest => Consoles.Opened(s, output)
               case CloseRequest(index) => Consoles.Closed(s, index)
  {
    var events := Meaning(decode, fed, Clicked(Desktop.MouseByte(d, b).1).value, output);
    assert events == [events[0]] && events[1..] == [];
    assert Consoles.Run(s, events, names) == Consoles.Handle(s, events[0], names);
  }

  /** A scancode that completes a key acts as that key: Ctrl+C closes the active
      terminal, Ctrl+Q opens one, any other goes to the active shell; one that
      completes none does nothing. */
  lemma KeysMean(decode: Decoder, fed: Bytes, code: byte, stamp: nat, output: seq<Op>,
                 s: Consoles.System, names: seq<Bytes>)
    requires Consoles.Inv(s) && Shell.Printables(names) && Shell.Clean(output)
    ensures var events := Meaning(decode, fed, Scancode(code, stamp), output);
            && Consoles.EventsOk(events)
            && Consoles.Run(s, events, names) ==
               match decode(fed + [code])
               case None => s
               case Some(key) =>
                 if key == Shell.Unicode(3) then
                   (if s.desktop.open[s.desktop.active] then Consoles.Closed(s, s.desktop.active) else s)
                 else if key == Shell.Unicode(17) then Consoles.Opened(s, output)
                 else Consoles.Handle(s, Consoles.Press(key, output), names)
  {
    var events := Meaning(decode, fed, Scancode(code, stamp), output);
    if events != [] {
      assert events == [events[0]] && events[1..] == [];
      assert Consoles.Run(s, events, names) == Consoles.Handle(s, events[0], names);
    }
  }

  /** What the shell was told since input was last lost. */
  function Told(log: seq<Consoles.Event>): seq<Consoles.Event> {
    if log == [] then []
    else
      var before, e := Told(log[..|log| - 1]), log[|log| - 1];
      if e.Lost? then [] else if e.MouseByte? then before else before + [Bare(e)]
  }

  function Losses(log: seq<Consoles.Event>): nat {
    if log == [] then 0 else Losses(log[..|log| - 1]) + if log[|log| - 1].Lost? then 1 else 0
  }

  /** What some input events mean to a new decoder. */
  function Translated(decode: Decoder, events: seq<InputEvent>): seq<Consoles.Event> {
    if events == [] then []
    else
      var before, e := events[..|events| - 1], events[|events| - 1];
      Translated(decode, before) + Meaning(decode, TypedBytes(before), e, [])
  }

  lemma TypedSnoc(events: seq<InputEvent>, e: InputEvent)
    ensures TypedBytes(events + [e]) == TypedBytes(events) + if e.Scancode? then [e.code] else []
  {
    assert (events + [e])[..|events|] == events;
  }

  lemma TranslatedSnoc(decode: Decoder, events: seq<InputEvent>, e: InputEvent)
    ensures Translated(decode, events + [e]) == Translated(decode, events) + Meaning(decode, TypedBytes(events), e, [])
  {
    assert (events + [e])[..|events|] == events;
  }

  lemma LogSnoc(log: seq<Consoles.Event>, e: Consoles.Event)
    ensures Losses(log + [e]) == Losses(log) + if e.Lost? then 1 else 0
    ensures Told(log + [e]) == if e.Lost? then [] else if e.MouseByte? then Told(log) else Told(log) + [Bare(e)]
  {
    assert (log + [e])[..|log|] == log;
  }

  /** A handled event is told, whatever it prints. */
  lemma MeaningIsTold(decode: Decoder, fed: Bytes, e: InputEvent, output: seq<Op>, log: seq<Consoles.Event>)
    ensures var events := Meaning(decode, fed, e, output);
            && Told(log + events) == Told(log) + Meaning(decode, fed, e, [])
            && Losses(log + events) == Losses(log)
  {
    var events, bare := Meaning(decode, fed, e, output), Meaning(decode, fed, e, []);
    if events == [] {
      assert bare == [] && log + events == log && Told(log) + bare == Told(log);
    } else {
      assert events == [events[0]] && bare == [Bare(events[0])];
      LogSnoc(log, events[0]);
    }
  }

  // ---------------------------------------------------------------------
  // Accounting for every input event

  /** Everything accepted since the last loss has been handled, is in hand, or is
      still queued, in order. */
  predicate Accounted(k: State, queued: seq<InputEvent>, handled: seq<InputEvent>) {
    k.pc.ShellDrain? || handled + InHand(k.pc) + k.events == queued
  }

  /** What an interrupt does to the queue and the decoder's history. */
  predicate Appends(k: State, t: State) {
    && |k.events| <= |t.events| && t.events[..|k.events|] == k.events
    && InHand(t.pc) == InHand(k.pc) && (t.pc.ShellDrain? <==> k.pc.ShellDrain?)
    && t.past.fed == k.past.fed && t.past.retired == k.past.retired
  }

  lemma KeyAppends(k: State, code: byte)
    ensures Appends(k, AddScancode(k, code))
    ensures AddScancode(k, code).events
            == k.events + if k.ready && |k.events| < 100 then [Scancode(code, |k.past.arrivals|)] else []
  {
    assert k.events + [] == k.events;
  }

  lemma MouseAppends(k: State, action: Option<InputEvent>)
    requires action.Some? ==> !action.value.Scancode?
    ensures Appends(k, MousePacket(k, action))
    ensures MousePacket(k, action).events
            == k.events + if action.Some? && k.ready && |k.events| < 100 then [action.value] else []
  {
    assert k.events + [] == k.events;
  }

  /** The offer of a step, as the kernel sees it. */
  function StepOffers(k: State, step: Step): seq<Offer> {
    if !InterruptsEnabled(k) || !k.ready then []
    else if step.KeyIrq? then [Offer(Scancode(step.code, |k.past.arrivals|), |k.events| >= 100)]
    else if step.MouseIrq? && step.action.Some? then [Offer(step.action.value, |k.events| >= 100)]
    else []
  }

  predicate StepOk(step: Step) {
    step.MouseIrq? && step.action.Some? ==> !step.action.value.Scancode?
  }

  lemma OffersOfStep(w: World, input: Input)
    requires Desktop.Shaped(w.system.desktop) && ShellInv(w.kernel)
    ensures StepOk(KernelStep(w, input)) && Offers(w, input) == StepOffers(w.kernel, KernelStep(w, input))
  {
  }

  lemma AcceptedOne(o: Offer)
    ensures Accepted([o]) == if o.full then [] else [o.event]
  {
    assert [] + [o] == [o];
    OfferSnoc([], o);
  }

  lemma StepAppends(k: State, step: Step)
    requires !step.Advance? && StepOk(step)
    ensures Appends(k, Apply(k, step)) && Apply(k, step).events == k.events + Accepted(StepOffers(k, step))
  {
    assert k.events + [] == k.events;
    if StepOffers(k, step) != [] {
      AcceptedOne(StepOffers(k, step)[0]);
    }
    match step
    case KeyIrq(code) => KeyAppends(k, code);
    case MouseIrq(action) => MouseAppends(k, action);
    case _ =>
  }

  /** An interrupt queues exactly what it offers while there is room. */
  lemma InterruptAppends(w: World, input: Input)
    requires !input.Access? && ShellInv(w.kernel) && Desktop.Shaped(w.system.desktop)
    ensures var k := Apply(w.kernel, KernelStep(w, input));
            && Appends(w.kernel, k)
            && k.events == w.kernel.events + Accepted(Offers(w, input))
  {
    OffersOfStep(w, input);
    StepAppends(w.kernel, KernelStep(w, input));
  }

  lemma AppendKeepsAccount(k: State, t: State, more: seq<InputEvent>, queued: seq<InputEvent>, handled: seq<InputEvent>)
    requires Accounted(k, queued, handled) && Appends(k, t) && t.events == k.events + more
    ensures Accounted(t, queued + more, handled)
  {
    assert handled + InHand(k.pc) + (k.events + more) == handled + InHand(k.pc) + k.events + more;
  }

  lemma AcceptedGrows(w: World, input: Input)
    requires Desktop.Shaped(w.system.desktop) && w.mark <= |w.offered|
    ensures AcceptedSince(w.offered + Offers(w, input), w.mark)
            == AcceptedSince(w.offered, w.mark) + Accepted(Offers(w, input))
  {
    var since, more := w.offered[w.mark..], Offers(w, input);
    assert (w.offered + more)[w.mark..] == since + more;
    if more == [] {
      assert since + more == since;
    } else {
      assert more == [more[0]] && [] + more == more;
      OfferSnoc(since, more[0]);
      OfferSnoc([], more[0]);
    }
  }

  lemma TakeFirst(handled: seq<InputEvent>, events: seq<InputEvent>)
    requires events != []
    ensures handled + [events[0]] + events[1..] == handled + [] + events
  {
  }

  lemma StreamKeepsAccount(k: State, queued: seq<InputEvent>, handled: seq<InputEvent>)
    requires Accounted(k, queued, handled) && InStream(k.pc) && ShellInv(k)
    ensures Accounted(StreamAccess(k), queued, handled)
  {
    if (k.pc.ShellPop? || k.pc.ShellRepop?) && k.events != [] {
      TakeFirst(handled, k.events);
      assert InHand(StreamAccess(k).pc) == [k.events[0]];
    } else {
      StreamSparesPipeline(k);
    }
  }

  /** What is handled and queued after an access of the shell itself. */
  lemma ShellKeepsAccount(k: State, queued: seq<InputEvent>, handled: seq<InputEvent>)
    requires Accounted(k, queued, handled) && InShell(k.pc) && ShellInv(k)
    ensures var t := ShellAccess(k);
            if k.pc.ShellDrain? then Accounted(t, [], [])
            else if k.pc.ShellHandle? then Accounted(t, queued, handled + [k.pc.event])
            else Accounted(t, queued, handled)
  {
    if k.pc.ShellHandle? {
      var e := k.pc.event;
      assert handled + [e] + k.events == (handled + [e]) + [] + k.events;
    }
  }

  lemma OthersKeepAccount(k: State, queued: seq<InputEvent>, handled: seq<InputEvent>)
    requires Accounted(k, queued, handled) && !PollingShell(k.pc)
    ensures Accounted(Kernel.Next(k), queued, handled)
  {
    if InExecutor(k.pc) {
      ExecutorSparesPipeline(k);
    }
  }

  lemma AccessKeepsAccount(w: World, output: seq<Op>)
    requires ShellInv(w.kernel) && Accounted(w.kernel, AcceptedSince(w.offered, w.mark), w.handled)
    ensures Accounted(Kernel.Next(w.kernel), AcceptedSince(w.offered, Mark(w, Access(output))), Handled(w, Access(output)))
  {
    var queued := AcceptedSince(w.offered, w.mark);
    assert AcceptedSince(w.offered, |w.offered|) == [];
    if InStream(w.kernel.pc) {
      StreamKeepsAccount(w.kernel, queued, w.handled);
    } else if InShell(w.kernel.pc) {
      ShellKeepsAccount(w.kernel, queued, w.handled);
    } else {
      OthersKeepAccount(w.kernel, queued, w.handled);
    }
  }

  lemma NextKeepsAccount(w: World, input: Input)
    requires ShellInv(w.kernel) && w.mark <= |w.offered| && Desktop.Shaped(w.system.desktop)
    requires Accounted(w.kernel, AcceptedSince(w.offered, w.mark), w.handled)
    ensures Accounted(Apply(w.kernel, KernelStep(w, input)),
                      AcceptedSince(w.offered + Offers(w, input), Mark(w, input)), Handled(w, input))
  {
    if input.Access? {
      assert w.offered + [] == w.offered;
      AccessKeepsAccount(w, input.output);
    } else {
      InterruptAppends(w, input);
      AcceptedGrows(w, input);
      AppendKeepsAccount(w.kernel, Apply(w.kernel, KernelStep(w, input)), Accepted(Offers(w, input)),
                         AcceptedSince(w.offered, w.mark), w.handled);
    }
  }

  // ---------------------------------------------------------------------
  // The log tells what was handled

  /** The decoder has the bytes handled; the shell was told what they mean; and
      each loss replaced one decoder. */
  ghost predicate Faithful(decode: Decoder, p: Past, log: seq<Consoles.Event>, handled: seq<InputEvent>) {
    && TypedBytes(p.fed) == TypedBytes(handled)
    && Told(log) == Translated(decode, handled)
    && Losses(log) == |p.retired|
  }

  lemma HandlingIsFaithful(decode: Decoder, p: Past, e: InputEvent, log: seq<Consoles.Event>, handled: seq<InputEvent>,
                           output: seq<Op>)
    requires Faithful(decode, p, log, handled)
    ensures Faithful(decode, if e.Scancode? then p.(fed := p.fed + [e]) else p,
                     log + Meaning(decode, TypedBytes(p.fed), e, output), handled + [e])
  {
    TypedSnoc(handled, e);
    TypedSnoc(p.fed, e);
    TranslatedSnoc(decode, handled, e);
    MeaningIsTold(decode, TypedBytes(p.fed), e, output, log);
    assert TypedBytes(handled) + [] == TypedBytes(handled);
  }

  lemma LosingIsFaithful(decode: Decoder, p: Past, log: seq<Consoles.Event>, handled: seq<InputEvent>, output: seq<Op>)
    requires Faithful(decode, p, log, handled)
    ensures Faithful(decode, p.(fed := [], retired := p.retired + [p.fed]), log + [Consoles.Lost(output)], [])
  {
    LogSnoc(log, Consoles.Lost(output));
  }

  lemma OtherAccessesSpareDecoder(k: State)
    requires !k.pc.ShellHandle? && !k.pc.ShellDrain?
    ensures Kernel.Next(k).past.fed == k.past.fed && Kernel.Next(k).past.retired == k.past.retired
  {
    assert StreamAccess(k).past == k.past && RedrawAccess(k).past == k.past && ExecutorAccess(k).past == k.past;
  }

  lemma FeedingPast(k: State)
    ensures k.pc.ShellHandle? ==>
              Kernel.Next(k).past == if k.pc.event.Scancode? then k.past.(fed := k.past.fed + [k.pc.event]) else k.past
    ensures k.pc.ShellDrain? ==> Kernel.Next(k).past == k.past.(fed := [], retired := k.past.retired + [k.past.fed])
  {
    assert k.pc.ShellHandle? || k.pc.ShellDrain? ==> Kernel.Next(k) == ShellAccess(k);
  }

  lemma AccessIsFaithful(decode: Decoder, w: World, output: seq<Op>)
    requires Faithful(decode, w.kernel.past, w.log, w.handled)
    ensures Faithful(decode, Kernel.Next(w.kernel).past, w.log + ConsoleEvents(decode, w, Access(output)),
                     Handled(w, Access(output)))
  {
    var k := w.kernel;
    FeedingPast(k);
    if k.pc.ShellHandle? {
      HandlingIsFaithful(decode, k.past, k.pc.event, w.log, w.handled, output);
    } else if k.pc.ShellDrain? {
      LosingIsFaithful(decode, k.past, w.log, w.handled, output);
    } else {
      OtherAccessesSpareDecoder(k);
      assert w.log + [] == w.log;
    }
  }

  lemma NextIsFaithful(decode: Decoder, w: World, input: Input)
    requires Faithful(decode, w.kernel.past, w.log, w.handled) && Desktop.Shaped(w.system.desktop) && ShellInv(w.kernel)
    ensures Faithful(decode, Apply(w.kernel, KernelStep(w, input)).past, w.log + ConsoleEvents(decode, w, input),
                     Handled(w, input))
  {
    if input.Access? {
      AccessIsFaithful(decode, w, input.output);
    } else {
      InterruptAppends(w, input);
      InterruptLogIsFaithful(decode, w, input);
    }
  }

  lemma InterruptLogIsFaithful(decode: Decoder, w: World, input: Input)
    requires !input.Access?
    ensures var log := w.log + ConsoleEvents(decode, w, input); Told(log) == Told(w.log) && Losses(log) == Losses(w.log)
  {
    if input.PointerByte? && InterruptsEnabled(w.kernel) {
      LogSnoc(w.log, Consoles.MouseByte(input.b));
    } else {
      assert w.log + [] == w.log;
    }
  }

  // ---------------------------------------------------------------------
  // What is dropped is what met a full queue

  /** The counter counts the scancodes refused; every loss answers at least one
      of them; and the arrivals are the scancodes offered. */
  predicate Counted(k: State, offered: seq<Offer>, mark: nat) {
    && k.dropped == Refused(offered)
    && k.past.arrivals == TypedBytes(EventsOffered(offered))
    && |k.past.retired| <= k.seen <= k.dropped
    && (k.pc.ShellDrain? ==> k.seen < k.pc.current <= k.dropped)
    && mark <= |offered| && (k.past.retired == [] ==> mark == 0)
  }

  lemma KeyIsCounted(k: State, code: byte, offered: seq<Offer>, mark: nat)
    requires Counted(k, offered, mark) && k.ready
    ensures Counted(AddScancode(k, code), offered + [Offer(Scancode(code, |k.past.arrivals|), |k.events| >= 100)], mark)
  {
    var o := Offer(Scancode(code, |k.past.arrivals|), |k.events| >= 100);
    OfferSnoc(offered, o);
    TypedSnoc(EventsOffered(offered), o.event);
  }

  lemma ActionIsCounted(k: State, action: InputEvent, offered: seq<Offer>, mark: nat)
    requires Counted(k, offered, mark) && !action.Scancode?
    ensures Counted(MousePacket(k, Some(action)), offered + [Offer(action, |k.events| >= 100)], mark)
  {
    OfferSnoc(offered, Offer(action, |k.events| >= 100));
    TypedSnoc(EventsOffered(offered), action);
    assert TypedBytes(EventsOffered(offered)) + [] == TypedBytes(EventsOffered(offered));
  }

  lemma StepIsCounted(k: State, step: Step, offered: seq<Offer>, mark: nat)
    requires Counted(k, offered, mark) && !step.Advance? && StepOk(step)
    ensures Counted(Apply(k, step), offered + StepOffers(k, step), mark)
  {
    assert offered + [] == offered;
    match step
    case KeyIrq(code) =>
      if k.ready {
        KeyIsCounted(k, code, offered, mark);
      }
    case MouseIrq(action) =>
      if action.Some? && k.ready {
        ActionIsCounted(k, action.value, offered, mark);
      }
    case _ =>
  }

  lemma ShellIsCounted(k: State, offered: seq<Offer>, mark: nat)
    requires Counted(k, offered, mark) && InShell(k.pc) && (k.pc.ShellBaseline? ==> k.past.retired == [])
    ensures Counted(ShellAccess(k), offered, if k.pc.ShellDrain? then |offered| else mark)
  {
  }

  /** What the counters and the histories depend on. */
  predicate SameCounts(k: State, t: State) {
    t.dropped == k.dropped && t.seen == k.seen && t.past == k.past && !t.pc.ShellDrain?
  }

  lemma OtherAccessCounts(k: State)
    requires !InShell(k.pc)
    ensures SameCounts(k, Kernel.Next(k))
  {
    if InStream(k.pc) {
      assert SameCounts(k, StreamAccess(k));
    } else if PollingRedraw(k.pc) {
      assert SameCounts(k, RedrawAccess(k));
    } else {
      assert SameCounts(k, ExecutorAccess(k));
    }
  }

  lemma AccessIsCounted(k: State, offered: seq<Offer>, mark: nat)
    requires Counted(k, offered, mark) && DecoderInv(k)
    ensures Counted(Kernel.Next(k), offered, if k.pc.ShellDrain? then |offered| else mark)
  {
    if InShell(k.pc) {
      ShellIsCounted(k, offered, mark);
    } else {
      OtherAccessCounts(k);
    }
  }

  lemma NextIsCounted(w: World, input: Input)
    requires Counted(w.kernel, w.offered, w.mark) && DecoderInv(w.kernel) && ShellInv(w.kernel)
    requires Desktop.Shaped(w.system.desktop)
    ensures Counted(Apply(w.kernel, KernelStep(w, input)), w.offered + Offers(w, input), Mark(w, input))
  {
    if !input.Access? {
      OffersOfStep(w, input);
      StepIsCounted(w.kernel, KernelStep(w, input), w.offered, w.mark);
    } else {
      assert w.offered + [] == w.offered;
      AccessIsCounted(w.kernel, w.offered, w.mark);
    }
  }

  /** A pointer packet not yet painted will be. */
  predicate PaintDue(k: State, stale: bool) {
    stale ==> k.redrawPending || k.pc.RedrawPaint?
  }

  lemma NextKeepsPaintDue(w: World, input: Input)
    requires PaintDue(w.kernel, w.stale) && Desktop.Shaped(w.system.desktop)
    ensures PaintDue(Apply(w.kernel, KernelStep(w, input)), Stale(w, input))
  {
  }

  // ---------------------------------------------------------------------
  // Whole runs

  /** The kernel's half: its run, and what became of every input event. */
  ghost predicate KernelHalf(decode: Decoder, w: World) {
    && w.kernel == Run(INITIAL, w.steps)
    && Accounted(w.kernel, AcceptedSince(w.offered, w.mark), w.handled)
    && Faithful(decode, w.kernel.past, w.log, w.handled)
    && Counted(w.kernel, w.offered, w.mark)
    && PaintDue(w.kernel, w.stale)
  }

  /** The consoles' half: their run over the log. */
  ghost predicate ConsoleHalf(names: seq<Bytes>, w: World)
    requires Shell.Printables(names)
  {
    && Consoles.Inv(Consoles.START) && Consoles.EventsOk(w.log)
    && w.system == Consoles.Run(Consoles.START, w.log, names)
  }

  ghost predicate WorldInv(decode: Decoder, names: seq<Bytes>, w: World)
    requires Shell.Printables(names)
  {
    KernelHalf(decode, w) && ConsoleHalf(names, w)
  }

  lemma KernelHalfKept(decode: Decoder, w: World, input: Input, u: World)
    requires KernelHalf(decode, w) && Desktop.Shaped(w.system.desktop)
    requires u.kernel == Apply(w.kernel, KernelStep(w, input)) && u.steps == w.steps + [KernelStep(w, input)]
    requires u.log == w.log + ConsoleEvents(decode, w, input)
    requires u.offered == w.offered + Offers(w, input) && u.mark == Mark(w, input)
    requires u.handled == Handled(w, input) && u.stale == Stale(w, input)
    ensures KernelHalf(decode, u)
  {
    RunKeepsDecoderInv(INITIAL, w.steps);
    RunSnoc(w.steps, KernelStep(w, input));
    NextKeepsAccount(w, input);
    NextIsFaithful(decode, w, input);
    NextIsCounted(w, input);
    NextKeepsPaintDue(w, input);
  }

  lemma LogIsRun(decode: Decoder, names: seq<Bytes>, w: World, input: Input)
    requires Shell.Printables(names) && ConsoleHalf(names, w) && InputOk(input)
    ensures var events := ConsoleEvents(decode, w, input);
            && Consoles.EventsOk(events) && Consoles.EventsOk(w.log + events)
            && Consoles.Run(w.system, events, names) == Consoles.Run(Consoles.START, w.log + events, names)
  {
    var events := ConsoleEvents(decode, w, input);
    EventsAreOk(decode, w, input);
    if events == [] {
      assert w.log + events == w.log;
    } else {
      assert events == [events[0]] && [events[0]][1..] == [];
      Consoles.RunSnoc(Consoles.START, w.log, events[0], names);
    }
  }

  lemma NextKeepsInv(decode: Decoder, names: seq<Bytes>, w: World, input: Input)
    requires Shell.Printables(names) && InputOk(input) && WorldInv(decode, names, w)
    ensures WorldInv(decode, names, Next(decode, names, w, input))
  {
    LogIsRun(decode, names, w, input);
    KernelHalfKept(decode, w, input, Next(decode, names, w, input));
  }

  lemma {:induction false} RunKeepsInv(decode: Decoder, names: seq<Bytes>, w: World, inputs: seq<Input>)
    requires Shell.Printables(names) && InputsOk(inputs) && WorldInv(decode, names, w)
    ensures WorldInv(decode, names, RunWorld(decode, names, w, inputs))
    decreases |inputs|
  {
    if inputs != [] {
      NextKeepsInv(decode, names, w, inputs[0]);
      RunKeepsInv(decode, names, Next(decode, names, w, inputs[0]), inputs[1..]);
    }
  }

  lemma BootInv(decode: Decoder, names: seq<Bytes>)
    requires Shell.Printables(names)
    ensures Consoles.Inv(BOOT.system) && WorldInv(decode, names, BOOT)
  {
    Consoles.StartInv();
  }

  /** Asleep, the shell has been told all that was accepted. */
  lemma AsleepIsToldAll(decode: Decoder, w: World)
    requires KernelHalf(decode, w) && w.kernel.pc.Halted? && SHELL in w.kernel.tasks && REDRAW in w.kernel.tasks
    ensures Told(w.log) == Translated(decode, AcceptedSince(w.offered, w.mark)) && !w.stale
    ensures Refused(w.offered) == 0 ==> Losses(w.log) == 0 && Told(w.log) == Translated(decode, Accepted(w.offered))
    ensures AlwaysRoom(w.offered) ==> Losses(w.log) == 0 && Told(w.log) == Translated(decode, EventsOffered(w.offered))
  {
    NoLostWakeup(w.steps);
    assert w.handled + [] + [] == w.handled;
    assert w.offered[0..] == w.offered;
    if AlwaysRoom(w.offered) {
      RoomMeansAll(w.offered);
    }
  }

  lemma ConsolesAreDisplayed(names: seq<Bytes>, w: World)
    requires Shell.Printables(names) && ConsoleHalf(names, w)
    ensures Consoles.Shaped(w.system) && w.system.terms[0].faults == 0 && w.system.terms[1].faults == 0
    ensures Consoles.Displayed(w.system, 0) && Consoles.Displayed(w.system, 1)
  {
    Consoles.NoFaultInAnyRun(w.log, names);
  }

  /** In every interleaving of interrupts with the tasks' accesses, the kernel is
      in a run of its protocol and the two terminals are the consoles' run over
      the events handled, without a fault.  The drop counter is the number of
      scancodes that met 100 waiting events, and input is lost at most that
      often.  Whenever the processor halts, every pointer packet has been painted
      and the shell has been told exactly what the scancodes and clicks offered
      since the last loss mean, in order, but for those that met a full queue: if
      none ever did, everything offered since the boot. */
  lemma AsleepIsUpToDate(decode: Decoder, names: seq<Bytes>, inputs: seq<Input>)
    requires Shell.Printables(names) && InputsOk(inputs)
    ensures Consoles.Inv(BOOT.system)
    ensures var w := RunWorld(decode, names, BOOT, inputs);
            && w.kernel == Run(INITIAL, w.steps)
            && Consoles.EventsOk(w.log) && w.system == Consoles.Run(BOOT.system, w.log, names)
            && w.system.terms[0].faults == 0 && w.system.terms[1].faults == 0
            && Consoles.Displayed(w.system, 0) && Consoles.Displayed(w.system, 1)
            && w.kernel.dropped == Refused(w.offered) && Losses(w.log) <= Refused(w.offered)
            && (w.kernel.pc.Halted? && SHELL in w.kernel.tasks && REDRAW in w.kernel.tasks ==>
                  && !w.stale
                  && w.mark <= |w.offered| && Told(w.log) == Translated(decode, Accepted(w.offered[w.mark..]))
                  && (Refused(w.offered) == 0 ==> Losses(w.log) == 0 && Told(w.log) == Translated(decode, Accepted(w.offered)))
                  && (AlwaysRoom(w.offered) ==>
                        Losses(w.log) == 0 && Told(w.log) == Translated(decode, EventsOffered(w.offered))))
  {
    BootInv(decode, names);
    RunKeepsInv(decode, names, BOOT, inputs);
    var w := RunWorld(decode, names, BOOT, inputs);
    ConsolesAreDisplayed(names, w);
    if w.kernel.pc.Halted? && SHELL in w.kernel.tasks && REDRAW in w.kernel.tasks {
      AsleepIsToldAll(decode, w);
    }
  }
}
