/** Hooking one interrupt while it is being dispatched: the stores of first_layer/source/hook.c
    against the loads of the kernel and of the hook handlers, in every interleaving.

    The module hooks and unhooks from one thread; any number of processors dispatch the interrupt.
    Every processor sees the stores in program order, which the source's plain stores do not enforce.
    The kernel loads the handler from the descriptor and calls it. A hook handler, after its delay,
    loads the saved handler from the slot and calls that. The original handler is not null. */
module HookSteps {

  /** A processor that has loaded the handler, and one inside the hook handler, before its load. */
  datatype Pc = Loaded(hook: bool) | InHook

  /** Where the module's thread stands. */
  datatype Phase = Unhooked | SlotStored | Hooked | HandlerRestored

  datatype State = State(
    phase: Phase,
    slotSet: bool,         // the slot holds the original handler; otherwise it is null
    handlerIsHook: bool,   // the descriptor holds the hook handler; otherwise the original one
    cpus: map<nat, Pc>,    // the dispatches now running
    dispatches: nat,       // begun so far
    ran: nat,              // calls of the original handler so far
    nullCalls: nat)        // calls through an empty slot so far

  datatype Step =
    | StoreSlot            // hook_interrupt: orig_irqs[interrupt] = desc->handle_irq
    | StoreHandler         // hook_interrupt: desc->handle_irq = handler
    | RestoreHandler       // unhook_interrupt: desc->handle_irq = orig_irqs[interrupt]
    | ClearSlot            // unhook_interrupt: orig_irqs[interrupt] = 0
    | LoadHandler(c: nat)  // the kernel loads desc->handle_irq
    | CallHandler(c: nat)  // and calls it
    | CallSaved(c: nat)    // the hook handler loads the slot and calls what it holds

  predicate Enabled(s: State, step: Step) {
    match step
    case StoreSlot => s.phase == Unhooked
    case StoreHandler => s.phase == SlotStored
    case RestoreHandler => s.phase == Hooked
    case ClearSlot => s.phase == HandlerRestored
    case LoadHandler(c) => c !in s.cpus
    case CallHandler(c) => c in s.cpus && s.cpus[c].Loaded?
    case CallSaved(c) => c in s.cpus && s.cpus[c].InHook?
  }

  function Next(s: State, step: Step): State
    requires Enabled(s, step)
  {
    match step
    case StoreSlot => s.(phase := SlotStored, slotSet := true)
    case StoreHandler => s.(phase := Hooked, handlerIsHook := true)
    case RestoreHandler => s.(phase := HandlerRestored, handlerIsHook := false)
    case ClearSlot => s.(phase := Unhooked, slotSet := false)
    case LoadHandler(c) => s.(cpus := s.cpus[c := Loaded(s.handlerIsHook)], dispatches := s.dispatches + 1)
    case CallHandler(c) =>
      if s.cpus[c].hook then s.(cpus := s.cpus[c := InHook])
      else s.(cpus := s.cpus - {c}, ran := s.ran + 1)
    case CallSaved(c) =>
      if s.slotSet then s.(cpus := s.cpus - {c}, ran := s.ran + 1)
      else s.(cpus := s.cpus - {c}, nullCalls := s.nullCalls + 1)
  }

  const START := State(Unhooked, false, false, map[], 0, 0, 0)

  ghost predicate Reaches(s: State, steps: seq<Step>, s': State)
    decreases |steps|
  {
    if steps == [] then s == s'
    else Enabled(s, steps[0]) && Reaches(Next(s, steps[0]), steps[1..], s')
  }

  predicate Sound(s: State) {
    && (s.slotSet <==> s.phase != Unhooked)
    && (s.handlerIsHook <==> s.phase == Hooked)
    && s.dispatches == s.ran + s.nullCalls + |s.cpus|
  }

  lemma {:induction false} RunKeepsSound(s: State, steps: seq<Step>, s': State)
    requires Sound(s) && Reaches(s, steps, s')
    ensures Sound(s')
    decreases |steps|
  {
    if steps != [] {
      StepKeepsSound(s, steps[0]);
      RunKeepsSound(Next(s, steps[0]), steps[1..], s');
    }
  }

  lemma StepKeepsSound(s: State, step: Step)
    requires Sound(s) && Enabled(s, step)
    ensures Sound(Next(s, step))
  {
    var s' := Next(s, step);
    match step
    case LoadHandler(c) => assert s'.cpus.Keys == s.cpus.Keys + {c};
    case CallHandler(c) => assert s'.cpus.Keys == if s.cpus[c].hook then s.cpus.Keys else s.cpus.Keys - {c};
    case CallSaved(c) => assert s'.cpus.Keys == s.cpus.Keys - {c};
    case _ =>
  }

  /** In every interleaving each dispatch that has ended made exactly one call: of the original handler,
      or through an empty slot. */
  lemma OneCallPerDispatch(steps: seq<Step>, s: State)
    requires Reaches(START, steps, s)
    ensures s.dispatches == s.ran + s.nullCalls + |s.cpus|
  {
    RunKeepsSound(START, steps, s);
  }

  // ----------------------------------------------------------------- hooking is safe

  /** While the slot is empty nobody holds the hook handler. */
  predicate NobodyEarly(s: State) {
    !s.slotSet ==> forall c | c in s.cpus :: s.cpus[c] == Loaded(false)
  }

  lemma {:induction false} NoClearNoNull(s: State, steps: seq<Step>, s': State)
    requires Sound(s) && NobodyEarly(s) && Reaches(s, steps, s') && ClearSlot !in steps
    ensures s'.nullCalls == s.nullCalls
    decreases |steps|
  {
    if steps != [] {
      assert steps[0] in steps;
      StepKeepsSound(s, steps[0]);
      NoClearNoNull(Next(s, steps[0]), steps[1..], s');
    }
  }

  /** The slot is stored before the handler, and as long as every processor sees the two stores in that
      order, hooking is safe against dispatches at any moment: until
      the first unhook has cleared the slot, every dispatch that ends has called the original handler. */
  lemma HookingIsSafe(steps: seq<Step>, s: State)
    requires Reaches(START, steps, s) && ClearSlot !in steps
    ensures s.nullCalls == 0 && s.dispatches == s.ran + |s.cpus|
  {
    NoClearNoNull(START, steps, s);
    OneCallPerDispatch(steps, s);
  }

  // ------------------------------------------------------------- unhooking is not

  /** Whether the slot is set after a run. */
  function SlotAfter(steps: seq<Step>, before: bool): bool {
    if steps == [] then before
    else SlotAfter(steps[1..], if steps[0].StoreSlot? then true else if steps[0].ClearSlot? then false else before)
  }

  lemma {:induction false} SlotIsLastStore(s: State, steps: seq<Step>, s': State)
    requires Reaches(s, steps, s')
    ensures s'.slotSet == SlotAfter(steps, s.slotSet)
    decreases |steps|
  {
    if steps != [] { SlotIsLastStore(Next(s, steps[0]), steps[1..], s'); }
  }

  /** A dispatch that has loaded the hook handler calls through an empty slot exactly when the last store
      to the slot since its load is the one that clears it. */
  lemma NullCallIffClearedSince(early: seq<Step>, s: State, c: nat, mid: seq<Step>, s': State)
    requires Reaches(START, early, s) && Enabled(s, LoadHandler(c)) && s.handlerIsHook
    requires Reaches(Next(s, LoadHandler(c)), mid, s') && Enabled(s', CallSaved(c))
    ensures Next(s', CallSaved(c)).nullCalls == s'.nullCalls + 1 <==> !SlotAfter(mid, true)
    ensures Next(s', CallSaved(c)).ran == s'.ran + 1 <==> SlotAfter(mid, true)
  {
    RunKeepsSound(START, early, s);
    SlotIsLastStore(Next(s, LoadHandler(c)), mid, s');
  }

  lemma Chain(s: State, step: Step, rest: seq<Step>, s': State)
    requires Enabled(s, step) && Reaches(Next(s, step), rest, s')
    ensures Reaches(s, [step] + rest, s')
  {
    assert ([step] + rest)[1..] == rest;
  }

  lemma {:induction false} Joined(s: State, first: seq<Step>, mid: State, rest: seq<Step>, s': State)
    requires Reaches(s, first, mid) && Reaches(mid, rest, s')
    ensures Reaches(s, first + rest, s')
    decreases |first|
  {
    if first == [] {
      assert first + rest == rest;
    } else {
      Joined(Next(s, first[0]), first[1..], mid, rest, s');
      assert (first + rest)[1..] == first[1..] + rest;
    }
  }

  /** The interrupt is hooked, and a dispatch enters the hook handler. */
  lemma HookAndEnter() returns (s: State)
    ensures Reaches(START, [StoreSlot, StoreHandler, LoadHandler(0), CallHandler(0)], s)
    ensures s == State(Hooked, true, true, map[0 := InHook], 1, 0, 0)
  {
    var s1 := Next(START, StoreSlot);
    var s2 := Next(s1, StoreHandler);
    var s3 := Next(s2, LoadHandler(0));
    s := Next(s3, CallHandler(0));
    Chain(s3, CallHandler(0), [], s);
    Chain(s2, LoadHandler(0), [CallHandler(0)], s);
    Chain(s1, StoreHandler, [LoadHandler(0), CallHandler(0)], s);
    Chain(START, StoreSlot, [StoreHandler, LoadHandler(0), CallHandler(0)], s);
    assert s.cpus == map[0 := InHook];
  }

  /** Such a call: the hook handler is still in its delay while the interrupt is unhooked. */
  lemma UnhookUnderADispatch()
    ensures exists s: State :: s.nullCalls == 1 &&
              Reaches(START, [StoreSlot, StoreHandler, LoadHandler(0), CallHandler(0)] + [RestoreHandler, ClearSlot, CallSaved(0)], s)
  {
    var s := HookAndEnter();
    var s1 := Next(s, RestoreHandler);
    var s2 := Next(s1, ClearSlot);
    var s3 := Next(s2, CallSaved(0));
    Chain(s2, CallSaved(0), [], s3);
    Chain(s1, ClearSlot, [CallSaved(0)], s3);
    Chain(s, RestoreHandler, [ClearSlot, CallSaved(0)], s3);
    Joined(START, [StoreSlot, StoreHandler, LoadHandler(0), CallHandler(0)], s, [RestoreHandler, ClearSlot, CallSaved(0)], s3);
  }
}
