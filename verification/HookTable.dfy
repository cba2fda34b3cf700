/** Hooking interrupts: first_layer/source/hook.c, and the two hook handlers of
    first_layer/source/plugins/keyboard/plugin.c and .../touchscreen/plugin.c. */
module HookTable {
  import opened Common
  import opened Random

  /** The length of orig_irqs. The source never checks an interrupt number against it. */
  type Irq = i: nat | i < 512

  const KEYBOARD_IRQ: Irq := 1
  const TOUCHSCREEN_IRQ: Irq := 413

  /** A flow handler: the null pointer, one of the kernel's, or one of the module's two. */
  datatype Handler = Null | Flow(id: nat) | KbHook | TouchHook

  /** An interrupt descriptor; other stands for everything the module does not name. */
  datatype Desc = Desc(handleIrq: Handler, irqsUnhandled: nat, other: int)

  /** The kernel's descriptors, by interrupt number, and the module's saved handlers. */
  datatype Irqs = Irqs(descs: map<nat, Desc>, orig: seq<Handler>)

  predicate WellFormed(t: Irqs) {
    |t.orig| == 512
  }

  function Hook(t: Irqs, i: Irq, handler: Handler): (r: (Irqs, int))
    requires WellFormed(t)
    ensures WellFormed(r.0)
  {
    if i !in t.descs || t.orig[i] != Null then (t, -EINVAL)
    else (Irqs(t.descs[i := t.descs[i].(handleIrq := handler)], t.orig[i := t.descs[i].handleIrq]), 0)
  }

  function Unhook(t: Irqs, i: Irq): (r: Irqs)
    requires WellFormed(t)
    ensures WellFormed(r)
  {
    if t.orig[i] == Null || i !in t.descs then t
    else Irqs(t.descs[i := t.descs[i].(handleIrq := t.orig[i])], t.orig[i := Null])
  }

  // ------------------------------------------------------------------ whole runs

  datatype Op = HookOp(irq: Irq, handler: Handler) | UnhookOp(irq: Irq)

  function Apply(t: Irqs, op: Op): (r: Irqs)
    requires WellFormed(t)
    ensures WellFormed(r)
  {
    match op
    case HookOp(i, h) => Hook(t, i, h).0
    case UnhookOp(i) => Unhook(t, i)
  }

  function ApplyAll(t: Irqs, ops: seq<Op>): (r: Irqs)
    requires WellFormed(t)
    ensures WellFormed(r)
  {
    if ops == [] then t else Apply(ApplyAll(t, ops[..|ops| - 1]), ops[|ops| - 1])
  }

  /** The handler hooked into interrupt i by the first hook since its last unhook. */
  function Hooked(present: set<nat>, ops: seq<Op>, i: Irq): Option<Handler> {
    if ops == [] then None
    else
      var before := Hooked(present, ops[..|ops| - 1], i);
      match ops[|ops| - 1]
      case HookOp(j, h) => if j == i && i in present && before == None then Some(h) else before
      case UnhookOp(j) => if j == i then None else before
  }

  /** A slot is set exactly while its interrupt is hooked, it then holds the handler from before the
      hook, the descriptor holds the hook, and nothing else differs from the start. */
  predicate Tracks(start: Irqs, t: Irqs, i: Irq, hooked: Option<Handler>)
    requires WellFormed(start) && WellFormed(t)
  {
    && (t.orig[i] != Null <==> hooked.Some?)
    && (i in t.descs <==> i in start.descs)
    && (hooked.Some? ==>
          && i in start.descs
          && t.orig[i] == start.descs[i].handleIrq
          && t.descs[i] == start.descs[i].(handleIrq := hooked.value))
    && (hooked.None? && i in start.descs ==> t.descs[i] == start.descs[i])
  }

  predicate NothingHooked(t: Irqs)
    requires WellFormed(t)
  {
    forall i: Irq :: t.orig[i] == Null
  }

  predicate HandlersSet(t: Irqs) {
    forall i: Irq | i in t.descs :: t.descs[i].handleIrq != Null
  }

  lemma {:induction false} RunTracks(start: Irqs, ops: seq<Op>, i: Irq)
    requires WellFormed(start) && NothingHooked(start) && HandlersSet(start)
    ensures Tracks(start, ApplyAll(start, ops), i, Hooked(start.descs.Keys, ops, i))
    ensures forall k: nat | k >= 512 && k in start.descs ::
              k in ApplyAll(start, ops).descs && ApplyAll(start, ops).descs[k] == start.descs[k]
  {
    if ops != [] { RunTracks(start, ops[..|ops| - 1], i); }
  }

  ghost predicate EveryRunTracks(start: Irqs)
    requires WellFormed(start)
  {
    forall ops: seq<Op>, i: Irq :: Tracks(start, ApplyAll(start, ops), i, Hooked(start.descs.Keys, ops, i))
  }

  /** Every run of hooks and unhooks keeps the table exact, if and only if no descriptor starts with a
      null handler: such a handler would be saved as an empty slot. */
  lemma TableIsExactIffHandlersSet(start: Irqs)
    requires WellFormed(start) && NothingHooked(start)
    ensures EveryRunTracks(start) <==> HandlersSet(start)
  {
    if HandlersSet(start) {
      forall ops: seq<Op>, i: Irq
        ensures Tracks(start, ApplyAll(start, ops), i, Hooked(start.descs.Keys, ops, i))
      {
        RunTracks(start, ops, i);
      }
    } else {
      var i: Irq :| i in start.descs && start.descs[i].handleIrq == Null;
      var ops := [HookOp(i, KbHook)];
      assert ops[..0] == [] && ApplyAll(start, []) == start;
      assert ApplyAll(start, ops) == Apply(start, HookOp(i, KbHook));
      assert Hooked(start.descs.Keys, [], i) == None && Hooked(start.descs.Keys, ops, i) == Some(KbHook);
      assert !Tracks(start, ApplyAll(start, ops), i, Hooked(start.descs.Keys, ops, i));
    }
  }

  /** A hook and its unhook restore the whole table exactly when the handler was set, or the hook was
      refused, or it put the null pointer back itself. */
  lemma UnhookRestores(t: Irqs, i: Irq, h: Handler)
    requires WellFormed(t) && t.orig[i] == Null
    ensures Unhook(Hook(t, i, h).0, i) == t
       <==> i !in t.descs || t.descs[i].handleIrq != Null || h == Null
  {
    if i in t.descs {
      var (u, _) := Hook(t, i, h);
      if t.descs[i].handleIrq != Null {
        assert Unhook(u, i).descs == t.descs;
        assert Unhook(u, i).orig == t.orig;
      } else {
        assert Unhook(u, i) == u && u.orig == t.orig;
        assert u.descs[i].handleIrq == h;
        if h == Null { assert u.descs == t.descs; }
      }
    }
  }

  // -------------------------------------------------------------------- dispatch

  /** What came of calling a handler: the descriptor afterwards, the kernel's handlers that ran, and
      the delay in microseconds; or a call through the null pointer, or of a hook by a hook. */
  datatype Outcome = Handled(desc: Desc, ran: seq<nat>, delay: nat) | NullPointer | Reentered

  /** The kernel's handlers: any effect on the descriptor they are called with. */
  type Flows = (nat, Desc) -> Desc

  /** Both hook handlers: remember the count, delay, call the saved handler, put the count back. */
  function CallSaved(t: Irqs, saved: Irq, desc: Desc, flows: Flows, delay: nat): Outcome
    requires WellFormed(t)
  {
    match t.orig[saved]
    case Flow(id) => Handled(flows(id, desc).(irqsUnhandled := desc.irqsUnhandled), [id], delay)
    case Null => NullPointer
    case _ => Reentered
  }

  /** The kernel dispatches an interrupt through its descriptor. words are the random words a hook draws. */
  function Dispatch(t: Irqs, i: nat, flows: Flows, words: seq<uint32>): Outcome
    requires WellFormed(t) && i in t.descs
    requires t.descs[i].handleIrq.KbHook? ==> Suffices(ISR_DELAY_MIN, ISR_DELAY_MAX, words)
    requires t.descs[i].handleIrq.TouchHook? ==> Suffices(TOUCH_DELAY_MIN, TOUCH_DELAY_MAX, words)
  {
    var desc := t.descs[i];
    match desc.handleIrq
    case Flow(id) => Handled(flows(id, desc), [id], 0)
    case KbHook => CallSaved(t, KEYBOARD_IRQ, desc, flows, Drawn(ISR_DELAY_MIN, ISR_DELAY_MAX, words))
    case TouchHook => CallSaved(t, TOUCHSCREEN_IRQ, desc, flows, Drawn(TOUCH_DELAY_MIN, TOUCH_DELAY_MAX, words))
    case Null => NullPointer
  }

  /** The module hooks its two interrupts, each with its own handler. */
  predicate OwnHooks(ops: seq<Op>) {
    forall k | 0 <= k < |ops| && ops[k].HookOp? ::
      (ops[k].irq, ops[k].handler) in {(KEYBOARD_IRQ, KbHook), (TOUCHSCREEN_IRQ, TouchHook)}
  }

  lemma {:induction false} HookedByOwn(present: set<nat>, ops: seq<Op>, i: Irq)
    requires OwnHooks(ops)
    ensures Hooked(present, ops, i).Some? ==>
              (i, Hooked(present, ops, i).value) in {(KEYBOARD_IRQ, KbHook), (TOUCHSCREEN_IRQ, TouchHook)}
  {
    if ops != [] {
      var n := |ops| - 1;
      assert forall k | 0 <= k < n :: ops[..n][k] == ops[k];
      HookedByOwn(present, ops[..n], i);
    }
  }

  /** The range of the delay that belongs to an interrupt the module hooks. */
  function DelayRange(i: nat): (uint32, uint32) {
    if i == KEYBOARD_IRQ then (ISR_DELAY_MIN, ISR_DELAY_MAX) else (TOUCH_DELAY_MIN, TOUCH_DELAY_MAX)
  }

  /** Interposition is transparent: at any point of any run of the module's hooks and unhooks, an
      interrupt runs the kernel's original handler, once, and nothing else. Hooked, it changes the
      descriptor as the original does except for the count of unhandled interrupts, which it leaves,
      after a delay that the sampler draws from the interrupt's range; unhooked, there is no delay and no
      difference. */
  lemma InterpositionIsTransparent(start: Irqs, ops: seq<Op>, i: Irq, flows: Flows, words: seq<uint32>)
    requires WellFormed(start) && NothingHooked(start) && OwnHooks(ops)
    requires forall k | k in start.descs :: start.descs[k].handleIrq.Flow?
    requires i in start.descs
    requires Suffices(DelayRange(i).0, DelayRange(i).1, words)
    ensures var t := ApplyAll(start, ops);
            && i in t.descs
            && (t.descs[i].handleIrq.KbHook? ==> i == KEYBOARD_IRQ)
            && (t.descs[i].handleIrq.TouchHook? ==> i == TOUCHSCREEN_IRQ)
    ensures var t := ApplyAll(start, ops);
            var original := start.descs[i].handleIrq.id;
            var outcome := Dispatch(t, i, flows, words);
            && outcome.Handled? && outcome.ran == [original]
            && if Hooked(start.descs.Keys, ops, i).Some? then
                 && outcome.desc == flows(original, t.descs[i]).(irqsUnhandled := t.descs[i].irqsUnhandled)
                 && outcome.delay == Drawn(DelayRange(i).0, DelayRange(i).1, words)
                 && DelayRange(i).0 <= outcome.delay <= DelayRange(i).1
               else
                 outcome.desc == flows(original, t.descs[i]) && outcome.delay == 0
  {
    RunTracks(start, ops, i);
    HookedByOwn(start.descs.Keys, ops, i);
    DrawnInRange(DelayRange(i).0, DelayRange(i).1, words);
  }

  /** The module's hook is in place on one of its two interrupts. */
  predicate OwnHookInPlace(t: Irqs, i: nat)
    requires WellFormed(t)
  {
    && i in t.descs
    && ((i == KEYBOARD_IRQ && t.descs[i].handleIrq.KbHook?) || (i == TOUCHSCREEN_IRQ && t.descs[i].handleIrq.TouchHook?))
    && t.orig[i].Flow?
  }

  /** The accepted random words with which the dispatch of a hooked interrupt is delayed so long. */
  ghost function DelayWords(t: Irqs, i: nat, flows: Flows, delay: int): set<int>
    requires WellFormed(t) && OwnHookInPlace(t, i)
  {
    set raw: uint32 | 0 <= raw < TWO_TO_THE_32 && Suffices(DelayRange(i).0, DelayRange(i).1, [raw])
                      && Dispatch(t, i, flows, [raw]).delay == delay :: raw
  }

  /** The delay of a hooked interrupt is uniform: each of the 101 delays of the keyboard's and each of the
      1000 of the touchscreen's comes from the same number of random words, and no other delay occurs. */
  lemma DelaysAreUniform(t: Irqs, i: nat, flows: Flows, delay: uint32)
    requires WellFormed(t) && OwnHookInPlace(t, i)
    ensures |DelayWords(t, i, flows, delay)|
         == if i == KEYBOARD_IRQ then (if 0 <= delay <= 100 then TWO_TO_THE_32 / 101 else 0)
            else (if 1 <= delay <= 1000 then TWO_TO_THE_32 / 1000 else 0)
  {
    var low, high := DelayRange(i).0, DelayRange(i).1;
    Uniform(low, high, delay);
    forall raw: uint32
      ensures raw in DelayWords(t, i, flows, delay) <==> raw in Preimages(low, Span(low, high), delay)
    {
      assert [raw][1..] == [];
      assert Suffices(low, high, [raw]) <==> Accepted(Span(low, high), raw);
    }
    assert DelayWords(t, i, flows, delay) == Preimages(low, Span(low, high), delay);
  }

  // -------------------------------------------------------------------- in place

  class Hooks {
    const origIrqs: array<Handler>
    var descs: map<nat, Desc>

    ghost predicate Valid()
      reads this
    {
      origIrqs.Length == 512
    }

    ghost function View(): (t: Irqs)
      requires Valid()
      reads this, origIrqs
      ensures WellFormed(t)
    {
      Irqs(descs, origIrqs[..])
    }

    constructor (descs: map<nat, Desc>)
      ensures Valid() && fresh(origIrqs) && this.descs == descs && NothingHooked(View())
    {
      origIrqs := new Handler[512](_ => Null);
      this.descs := descs;
    }

    /** The source also dereferences the descriptor's action when it logs, without checking it. */
    method HookInterrupt(interrupt: Irq, handler: Handler) returns (r: int)
      requires Valid()
      modifies this, origIrqs
      ensures Valid() && (View(), r) == Hook(old(View()), interrupt, handler)
      ensures r == if interrupt in old(descs) && old(origIrqs[interrupt]) == Null then 0 else -EINVAL
    {
      if interrupt in descs {
        if origIrqs[interrupt] != Null {
          return -EINVAL;
        }
        origIrqs[interrupt] := descs[interrupt].handleIrq;
        descs := descs[interrupt := descs[interrupt].(handleIrq := handler)];
        return 0;
      } else {
        return -EINVAL;
      }
    }

    method UnhookInterrupt(interrupt: Irq)
      requires Valid()
      modifies this, origIrqs
      ensures Valid() && View() == Unhook(old(View()), interrupt)
      ensures old(origIrqs[interrupt]) == Null || interrupt !in old(descs) ==> View() == old(View())
      ensures old(origIrqs[interrupt]) != Null && interrupt in old(descs) ==>
                origIrqs[interrupt] == Null && descs[interrupt].handleIrq == old(origIrqs[interrupt])
    {
      if origIrqs[interrupt] == Null {
        return;
      }
      if interrupt in descs {
        descs := descs[interrupt := descs[interrupt].(handleIrq := origIrqs[interrupt])];
        origIrqs[interrupt] := Null;
      }
    }

    method HookGetOriginal(interrupt: Irq) returns (handler: Handler)
      requires Valid()
      ensures handler == View().orig[interrupt]
    {
      handler := origIrqs[interrupt];
    }

    /** kb_hook_handler and touchscreen_hook_handler, called with the descriptor of interrupt i. */
    method HookHandler(i: nat, saved: Irq, low: uint32, high: uint32, flows: Flows, words: seq<uint32>)
      returns (outcome: Outcome)
      requires Valid() && i in descs && Suffices(low, high, words)
      modifies `descs
      ensures Valid() && outcome == CallSaved(old(View()), saved, old(descs[i]), flows, Drawn(low, high, words))
      ensures OwnHookInPlace(old(View()), i) && saved == i && (low, high) == DelayRange(i) ==>
                outcome == Dispatch(old(View()), i, flows, words)
      ensures descs == if outcome.Handled? then old(descs)[i := outcome.desc] else old(descs)
    {
      var unhandled := descs[i].irqsUnhandled;
      var rnd := GetRandom(low, high, words);
      var original := HookGetOriginal(saved);
      match original
      case Flow(id) =>
        descs := descs[i := flows(id, descs[i])];
        descs := descs[i := descs[i].(irqsUnhandled := unhandled)];
        outcome := Handled(descs[i], [id], rnd.value);
      case Null => outcome := NullPointer;
      case _ => outcome := Reentered;
    }
  }
}
