/** The module as a whole, with the keyboard: bytes arrive, their tasklets run some time later and
    re-draw the timer, the timer fires and injects, the state is written, and at exit the timer is
    cancelled first and the key filter taken out afterwards. */
module Typing {
  import opened Common
  import opened Random
  import opened KeyEvents
  import Scheduler

  datatype Event =
    | KeyByte(at: nat, code: Byte)                        // the port's interrupt: driver and key_filter
    | RunTasklet(at: nat, kind: EventType, draw: nat)     // kb_callback, and with it real_key
    | TimerFires(at: nat, draw: nat)                      // timer_function
    | ProcWrite(at: nat, value: int)                      // keydrown_write
    | TimerCleanup(at: nat)                               // timer_cleanup
    | RemoveKeyFilter(at: nat)                            // in plugin_cleanup; it kills no tasklet

  /** since(k) is when the byte came in that scheduled the pending tasklet of kind k. */
  datatype System = System(
    sched: Scheduler.Sched,
    tasklets: Tasklets,
    pressSince: nat,
    releaseSince: nat,
    filter: bool,          // key_filter is installed
    port: seq<Item>)       // the bytes that have reached the keyboard driver

  function Since(s: System, kind: EventType): nat {
    if kind.KeyPress? then s.pressSince else s.releaseSince
  }

  /** timer_init at time t, with the key filter in place and nothing typed. */
  function Loaded(t: nat, state: int): System {
    System(Scheduler.Started(t, state), Tasklets(false, false, []), 0, 0, true, [])
  }

  /** key_filter, if it is installed, marks the tasklet of the byte's kind. */
  function Arrive(s: System, at: nat, code: Byte): System {
    var kind := KindOf(code);
    if !s.filter then s.(sched := s.sched.(now := at))
    else
      var first := !Pending(s.tasklets, kind);
      s.(sched := s.sched.(now := at),
         tasklets := Happens(s.tasklets, Arrives(code, false)),
         pressSince := if first && kind.KeyPress? then at else s.pressSince,
         releaseSince := if first && kind.KeyRelease? then at else s.releaseSince)
  }

  function FakeKey(state: int): seq<Item> {
    if Scheduler.Injecting(state) then [Injected(ILLEGAL_SCANCODE), Injected(ILLEGAL_RELEASE)] else []
  }

  /** What an event sends to the keyboard driver. */
  function Sent(s: System, e: Event): seq<Item> {
    match e
    case KeyByte(_, code) => [Typed(code)]
    case TimerFires(_, _) => FakeKey(s.sched.state)
    case _ => []
  }

  /** What an event is to the timer; one that does not concern it only lets time pass. */
  function ForTimer(s: System, e: Event): Scheduler.Event {
    match e
    case RunTasklet(at, _, draw) => Scheduler.Real(at, draw)
    case TimerFires(at, draw) => Scheduler.Fire(at, draw)
    case ProcWrite(at, value) => Scheduler.Write(at, value)
    case TimerCleanup(at) => Scheduler.Stop(at)
    case _ => Scheduler.Write(e.at, s.sched.state)
  }

  function Change(s: System, e: Event, resolution: nat): System
    requires resolution > 0
  {
    match e
    case KeyByte(at, code) => Arrive(s, at, code)
    case RunTasklet(at, kind, draw) =>
      s.(tasklets := Happens(s.tasklets, Runs(kind)), sched := Scheduler.Step(s.sched, Scheduler.Real(at, draw), resolution))
    case TimerFires(at, draw) => s.(sched := Scheduler.Step(s.sched, Scheduler.Fire(at, draw), resolution))
    case ProcWrite(at, value) => s.(sched := Scheduler.Step(s.sched, Scheduler.Write(at, value), resolution))
    case TimerCleanup(at) => s.(sched := Scheduler.Step(s.sched, Scheduler.Stop(at), resolution))
    case RemoveKeyFilter(at) => s.(sched := s.sched.(now := at), filter := false)
  }

  function Happen(s: System, e: Event, resolution: nat): (r: System)
    requires resolution > 0
    ensures r.sched.now == e.at
  {
    Change(s, e, resolution).(port := s.port + Sent(s, e))
  }

  /** What may happen next: what the timer allows, with its latency; a tasklet runs only when it is
      pending, and nothing happens later than delay after the byte that made one pending, before it
      has run. */
  predicate Allowed(s: System, e: Event, latency: nat, delay: nat) {
    && Scheduler.Allowed(s.sched, ForTimer(s, e), latency)
    && (e.RunTasklet? ==> Pending(s.tasklets, e.kind))
    && forall kind: EventType | Pending(s.tasklets, kind) :: e.at <= Since(s, kind) + delay
  }

  function After(s: System, run: seq<Event>, resolution: nat): System
    requires resolution > 0
  {
    if run == [] then s
    else Happen(After(s, run[..|run| - 1], resolution), run[|run| - 1], resolution)
  }

  predicate Possible(s: System, run: seq<Event>, latency: nat, delay: nat, resolution: nat)
    requires resolution > 0
  {
    run != [] ==>
      var before := run[..|run| - 1];
      && Possible(s, before, latency, delay, resolution)
      && Allowed(After(s, before, resolution), run[|run| - 1], latency, delay)
  }

  predicate NoCleanup(run: seq<Event>) {
    forall i | 0 <= i < |run| :: !run[i].TimerCleanup?
  }

  /** Whether at place i of a run the byte came in that the pending tasklet of its kind waits for. */
  predicate Marks(s: System, run: seq<Event>, i: nat, kind: EventType, resolution: nat)
    requires resolution > 0 && i < |run|
  {
    && run[i].KeyByte? && KindOf(run[i].code) == kind
    && After(s, run[..i], resolution).filter && !Pending(After(s, run[..i], resolution).tasklets, kind)
    && forall j | i < j < |run| :: run[j].RunTasklet? ==> run[j].kind != kind
  }

  /** A pending tasklet waits since the first byte of its kind that has come in since it last ran. */
  lemma {:induction false} PendingSinceFirstByte(s: System, run: seq<Event>, kind: EventType, resolution: nat) returns (i: nat)
    requires resolution > 0 && !Pending(s.tasklets, kind) && Pending(After(s, run, resolution).tasklets, kind)
    ensures i < |run| && Marks(s, run, i, kind, resolution) && run[i].at == Since(After(s, run, resolution), kind)
  {
    var n := |run| - 1;
    var before := After(s, run[..n], resolution);
    if Pending(before.tasklets, kind) {
      i := PendingSinceFirstByte(s, run[..n], kind, resolution);
      assert run[n].RunTasklet? ==> run[n].kind != kind;
      StillMarks(s, run, i, kind, resolution);
    } else {
      i := n;
    }
  }

  lemma StillMarks(s: System, run: seq<Event>, i: nat, kind: EventType, resolution: nat)
    requires resolution > 0 && i < |run| - 1 && Marks(s, run[..|run| - 1], i, kind, resolution)
    requires run[|run| - 1].RunTasklet? ==> run[|run| - 1].kind != kind
    ensures Marks(s, run, i, kind, resolution)
  {
    var front := run[..|run| - 1];
    assert front[..i] == run[..i] && front[i] == run[i];
    assert forall j | i < j < |run| - 1 :: front[j] == run[j];
  }

  // ------------------------------------------------------------ the timer's part

  /** A run as the timer sees it. */
  function Schedule(s: System, run: seq<Event>, resolution: nat): (r: seq<Scheduler.Event>)
    requires resolution > 0
    ensures |r| == |run|
  {
    if run == [] then []
    else
      var before := run[..|run| - 1];
      Schedule(s, before, resolution) + [ForTimer(After(s, before, resolution), run[|run| - 1])]
  }

  lemma {:induction false} ScheduleKinds(s: System, run: seq<Event>, resolution: nat)
    requires resolution > 0
    ensures forall i | 0 <= i < |run| ::
              var e := Schedule(s, run, resolution)[i];
              && (e.Real? <==> run[i].RunTasklet?)
              && (e.Fire? <==> run[i].TimerFires?)
              && (e.Stop? <==> run[i].TimerCleanup?)
  {
    if run != [] {
      var n := |run| - 1;
      ScheduleKinds(s, run[..n], resolution);
      assert forall i | 0 <= i < n :: run[..n][i] == run[i];
    }
  }

  /** Every run of the system is a run of the atomic schedule, in which a tasklet's callback is the
      keystroke. */
  lemma {:induction false} ScheduleIsARun(s: System, run: seq<Event>, latency: nat, delay: nat, resolution: nat)
    requires resolution > 0 && Possible(s, run, latency, delay, resolution)
    ensures Scheduler.Possible(s.sched, Schedule(s, run, resolution), latency, resolution)
    ensures Scheduler.Final(s.sched, Schedule(s, run, resolution), resolution) == After(s, run, resolution).sched
  {
    if run != [] {
      var n := |run| - 1;
      ScheduleIsARun(s, run[..n], latency, delay, resolution);
      assert Schedule(s, run, resolution)[..n] == Schedule(s, run[..n], resolution);
    }
  }

  /** The tasklets that have run. */
  function TaskletRuns(run: seq<Event>): seq<Event> {
    if run == [] then []
    else TaskletRuns(run[..|run| - 1]) + if run[|run| - 1].RunTasklet? then [run[|run| - 1]] else []
  }

  /** The keystrokes of a schedule. */
  function Keystrokes(schedule: seq<Scheduler.Event>): seq<Scheduler.Event> {
    if schedule == [] then []
    else
      Keystrokes(schedule[..|schedule| - 1])
      + if schedule[|schedule| - 1].Real? then [schedule[|schedule| - 1]] else []
  }

  /** Callback i is that of tasklet run i, which is keystroke i. */
  predicate InStep(callbacks: seq<EventType>, runs: seq<Event>, keystrokes: seq<Scheduler.Event>) {
    && |callbacks| == |runs| == |keystrokes|
    && forall i | 0 <= i < |runs| ::
         runs[i].RunTasklet? && callbacks[i] == runs[i].kind && keystrokes[i] == Scheduler.Real(runs[i].at, runs[i].draw)
  }

  lemma StaysInStep(callbacks: seq<EventType>, runs: seq<Event>, keystrokes: seq<Scheduler.Event>, e: Event)
    requires InStep(callbacks, runs, keystrokes)
    ensures e.RunTasklet? ==> InStep(callbacks + [e.kind], runs + [e], keystrokes + [Scheduler.Real(e.at, e.draw)])
    ensures runs + [] == runs && keystrokes + [] == keystrokes
  {}

  /** Every tasklet that runs makes one callback, of its kind and in its turn, and that callback is one
      keystroke of the schedule, with its time and its draw. */
  lemma {:induction false} CallbacksAreKeystrokes(s: System, run: seq<Event>, latency: nat, delay: nat, resolution: nat)
    requires resolution > 0 && Possible(s, run, latency, delay, resolution) && s.tasklets.callbacks == []
    ensures InStep(After(s, run, resolution).tasklets.callbacks, TaskletRuns(run), Keystrokes(Schedule(s, run, resolution)))
  {
    if run != [] {
      var n := |run| - 1;
      var before := After(s, run[..n], resolution);
      var schedule := Schedule(s, run[..n], resolution);
      CallbacksAreKeystrokes(s, run[..n], latency, delay, resolution);
      StaysInStep(before.tasklets.callbacks, TaskletRuns(run[..n]), Keystrokes(schedule), run[n]);
      OneMoreKeystroke(schedule, ForTimer(before, run[n]));
    }
  }

  lemma OneMoreKeystroke(schedule: seq<Scheduler.Event>, e: Scheduler.Event)
    ensures Keystrokes(schedule + [e]) == Keystrokes(schedule) + if e.Real? then [e] else []
  {
    assert (schedule + [e])[..|schedule|] == schedule;
  }

  // ------------------------------------------------------------- the keyboard's part

  function TypedBytes(run: seq<Event>): seq<Item> {
    if run == [] then []
    else
      TypedBytes(run[..|run| - 1]) + if run[|run| - 1].KeyByte? then [Typed(run[|run| - 1].code)] else []
  }

  /** The fake events a run shows: the callbacks that find injection switched on. */
  function FakeEvents(s: System, run: seq<Event>, resolution: nat): nat
    requires resolution > 0
  {
    if run == [] then 0
    else
      var before := run[..|run| - 1];
      FakeEvents(s, before, resolution) +
      if run[|run| - 1].TimerFires? && Scheduler.Injecting(After(s, before, resolution).sched.state) then 1 else 0
  }

  lemma {:induction false} ItemsAppend(a: seq<Item>, b: seq<Item>)
    ensures TypedItems(a + b) == TypedItems(a) + TypedItems(b)
    ensures InjectedCodes(a + b) == InjectedCodes(a) + InjectedCodes(b)
  {
    if b == [] {
      assert a + b == a;
    } else {
      var n := |b| - 1;
      assert (a + b)[..|a + b| - 1] == a + b[..n];
      ItemsAppend(a, b[..n]);
    }
  }

  lemma OneItem(item: Item)
    ensures TypedItems([item]) == if item.Typed? then [item] else []
    ensures InjectedCodes([item]) == if item.Injected? then [item.code] else []
  {
    assert [item][..0] == [];
  }

  lemma FakeKeyItems(state: int)
    ensures TypedItems(FakeKey(state)) == []
    ensures InjectedCodes(FakeKey(state))
         == if Scheduler.Injecting(state) then [ILLEGAL_SCANCODE, ILLEGAL_RELEASE] else []
  {
    var first, second := [Injected(ILLEGAL_SCANCODE)], [Injected(ILLEGAL_RELEASE)];
    OneItem(Injected(ILLEGAL_SCANCODE));
    OneItem(Injected(ILLEGAL_RELEASE));
    assert [Injected(ILLEGAL_SCANCODE), Injected(ILLEGAL_RELEASE)] == first + second;
    ItemsAppend(first, second);
  }

  lemma SentItems(s: System, e: Event)
    ensures TypedItems(Sent(s, e)) == if e.KeyByte? then [Typed(e.code)] else []
    ensures InjectedCodes(Sent(s, e))
         == if e.TimerFires? && Scheduler.Injecting(s.sched.state) then [ILLEGAL_SCANCODE, ILLEGAL_RELEASE] else []
  {
    if e.KeyByte? { OneItem(Typed(e.code)); }
    FakeKeyItems(s.sched.state);
  }

  /** The port carries the typed bytes in order, whatever is injected and whenever tasklets run. */
  lemma {:induction false} PortCarriesTyped(s: System, run: seq<Event>, resolution: nat)
    requires resolution > 0 && s.port == []
    ensures TypedItems(After(s, run, resolution).port) == TypedBytes(run)
  {
    if run != [] {
      var before, e := After(s, run[..|run| - 1], resolution), run[|run| - 1];
      PortCarriesTyped(s, run[..|run| - 1], resolution);
      SentItems(before, e);
      ItemsAppend(before.port, Sent(before, e));
    }
  }

  /** A sequence of complete injections. */
  predicate Complete(codes: seq<Byte>) {
    InjectorBytes(codes) && |codes| % 2 == 0
  }

  lemma OneMorePair(codes: seq<Byte>)
    requires Complete(codes)
    ensures Complete(codes + [ILLEGAL_SCANCODE, ILLEGAL_RELEASE]) && codes + [] == codes
  {}

  lemma {:induction false} PortCarriesInjected(s: System, run: seq<Event>, resolution: nat)
    requires resolution > 0 && s.port == []
    ensures Complete(InjectedCodes(After(s, run, resolution).port))
    ensures |InjectedCodes(After(s, run, resolution).port)| == 2 * FakeEvents(s, run, resolution)
  {
    if run != [] {
      var before, e := After(s, run[..|run| - 1], resolution), run[|run| - 1];
      PortCarriesInjected(s, run[..|run| - 1], resolution);
      SentItems(before, e);
      ItemsAppend(before.port, Sent(before, e));
      OneMorePair(InjectedCodes(before.port));
    }
  }

  predicate NeverTypesIllegal(run: seq<Event>) {
    forall i | 0 <= i < |run| && run[i].KeyByte? :: run[i].code != ILLEGAL_SCANCODE && run[i].code != ILLEGAL_RELEASE
  }

  /** A run before the cleanup, in which the illegal key is never typed. */
  predicate Ordinary(run: seq<Event>) {
    NoCleanup(run) && NeverTypesIllegal(run)
  }

  predicate Illegal(item: Item) {
    item == Typed(ILLEGAL_SCANCODE) || item == Typed(ILLEGAL_RELEASE)
  }

  lemma {:induction false} PortNeverTypesIllegal(s: System, run: seq<Event>, resolution: nat)
    requires resolution > 0 && s.port == [] && NeverTypesIllegal(run)
    ensures forall item | item in After(s, run, resolution).port :: !Illegal(item)
  {
    if run != [] {
      var n := |run| - 1;
      assert NeverTypesIllegal(run[..n]) by { assert forall i | 0 <= i < n :: run[..n][i] == run[i]; }
      PortNeverTypesIllegal(s, run[..n], resolution);
      assert forall item | item in Sent(After(s, run[..n], resolution), run[n]) :: !Illegal(item);
    }
  }

  // ------------------------------------------------------------------ covered typing

  /** The system's last sign: when it came, how far ahead the timer's deadline can have been then, and how
      many tasklets have run since. */
  datatype Sign = Sign(at: nat, horizon: nat, tasklets: nat)

  /** A typed byte, a fake event while injection is on, or the switching on of injection. */
  predicate ShowsSign(s: System, e: Event) {
    match e
    case KeyByte(_, _) => true
    case TimerFires(_, _) => Scheduler.Injecting(s.sched.state)
    case ProcWrite(_, value) => !Scheduler.Injecting(s.sched.state) && Scheduler.Injecting(value)
    case _ => false
  }

  function Horizon(s: System, run: seq<Event>, resolution: nat): nat
    requires resolution > 0
  {
    Scheduler.Horizon(Schedule(s, run, resolution), resolution)
  }

  function LastSign(s: System, run: seq<Event>, resolution: nat): Sign
    requires resolution > 0
  {
    if run == [] then Sign(s.sched.now, Horizon(s, run, resolution), 0)
    else
      var before, e := run[..|run| - 1], run[|run| - 1];
      if ShowsSign(After(s, before, resolution), e) then Sign(e.at, Horizon(s, run, resolution), 0)
      else
        var sign := LastSign(s, before, resolution);
        if e.RunTasklet? then sign.(tasklets := sign.tasklets + 1) else sign
  }

  /** How long after a sign the timer's deadline can lie. A tasklet runs at most delay after the sign, and
      never later than the timer allows; and only one of each kind can be pending at the sign. */
  function Reach(sign: Sign, latency: nat, delay: nat): nat {
    match sign.tasklets
    case 0 => sign.horizon
    case 1 => RND_MAX + Min(delay, sign.horizon + latency)
    case _ => RND_MAX + Min(delay, sign.horizon + RND_MAX + 2 * latency)
  }

  /** The longest silence after a sign with the given horizon, however many tasklets then run. */
  function Longest(horizon: nat, latency: nat, delay: nat): nat {
    latency + Max(horizon, RND_MAX + Min(delay, horizon + RND_MAX + 2 * latency))
  }

  function PendingCount(t: Tasklets): nat {
    (if t.press then 1 else 0) + if t.release then 1 else 0
  }

  /** While injection is on, every tasklet that has run since the last sign, or is still to run, was
      pending then, and the deadline is within reach of the sign. */
  predicate WithinReach(s: System, sign: Sign, horizon: nat, latency: nat, delay: nat) {
    && sign.at <= s.sched.now
    && (forall kind: EventType | Pending(s.tasklets, kind) :: Since(s, kind) <= sign.at)
    && (Scheduler.Injecting(s.sched.state) ==>
          && sign.tasklets + PendingCount(s.tasklets) <= 2
          && s.sched.timer.expires <= sign.at + Reach(sign, latency, delay)
          && (if sign.tasklets == 0 then horizon == sign.horizon else horizon >= RND_MAX))
  }

  lemma HorizonAfter(s: System, run: seq<Event>, resolution: nat)
    requires resolution > 0 && run != []
    ensures var before, e := run[..|run| - 1], run[|run| - 1];
            Horizon(s, run, resolution) ==
            if e.RunTasklet? || e.TimerFires? then Max(RND_MAX, resolution) else Horizon(s, before, resolution)
  {
    var n := |run| - 1;
    var schedule := Schedule(s, run, resolution);
    assert forall i | 0 <= i < n :: schedule[i] == Schedule(s, run[..n], resolution)[i];
    assert schedule[n] == ForTimer(After(s, run[..n], resolution), run[n]);
    if run[n].RunTasklet? || run[n].TimerFires? {
      assert schedule[n].Real? || schedule[n].Fire?;
    }
  }

  lemma StepStaysWithinReach(s: System, e: Event, sign: Sign, horizon: nat, latency: nat, delay: nat, resolution: nat)
    requires resolution > 0 && Allowed(s, e, latency, delay) && !e.TimerCleanup? && s.sched.timer.queued
    requires WithinReach(s, sign, horizon, latency, delay) && !ShowsSign(s, e)
    ensures var sign' := if e.RunTasklet? then sign.(tasklets := sign.tasklets + 1) else sign;
            var horizon' := if e.RunTasklet? || e.TimerFires? then Max(RND_MAX, resolution) else horizon;
            WithinReach(Happen(s, e, resolution), sign', horizon', latency, delay)
  {
    if e.RunTasklet? {
      assert e.at <= Since(s, e.kind) + delay;
      var s' := Happen(s, e, resolution);
      assert forall kind: EventType | Pending(s'.tasklets, kind) ::
          Pending(s.tasklets, kind) && Since(s', kind) == Since(s, kind);
      if Scheduler.Injecting(s.sched.state) {
        assert s'.sched.timer.expires <= sign.at + Reach(sign.(tasklets := sign.tasklets + 1), latency, delay);
      }
    }
  }

  lemma SignIsWithinReach(s: System, e: Event, sign: Sign, horizon: nat, horizon': nat,
                          latency: nat, delay: nat, resolution: nat)
    requires resolution > 0 && Allowed(s, e, latency, delay)
    requires WithinReach(s, sign, horizon, latency, delay) && ShowsSign(s, e)
    requires Happen(s, e, resolution).sched.timer.expires <= e.at + horizon'
    ensures WithinReach(Happen(s, e, resolution), Sign(e.at, horizon', 0), horizon', latency, delay)
  {
    var s' := Happen(s, e, resolution);
    assert forall kind: EventType | Pending(s'.tasklets, kind) :: Since(s', kind) == e.at || Pending(s.tasklets, kind);
  }

  lemma TimerIsQueued(t: nat, state: int, run: seq<Event>, latency: nat, delay: nat, resolution: nat)
    requires resolution > 0 && Possible(Loaded(t, state), run, latency, delay, resolution) && NoCleanup(run)
    ensures var s, s' := Loaded(t, state), After(Loaded(t, state), run, resolution);
            && s'.sched.timer.queued && s'.sched.now <= s'.sched.timer.expires + latency
            && s'.sched.timer.expires <= s'.sched.now + Horizon(s, run, resolution)
  {
    var s := Loaded(t, state);
    ScheduleIsARun(s, run, latency, delay, resolution);
    ScheduleKinds(s, run, resolution);
    Scheduler.DeadlineIsNear(t, state, Schedule(s, run, resolution), latency, resolution);
  }

  lemma {:induction false} StaysWithinReach(t: nat, state: int, run: seq<Event>, latency: nat, delay: nat, resolution: nat)
    requires resolution > 0 && Possible(Loaded(t, state), run, latency, delay, resolution) && NoCleanup(run)
    ensures var s := Loaded(t, state);
            WithinReach(After(s, run, resolution), LastSign(s, run, resolution), Horizon(s, run, resolution), latency, delay)
  {
    var s := Loaded(t, state);
    if run != [] {
      var n := |run| - 1;
      assert forall i | 0 <= i < n :: run[..n][i] == run[i];
      StaysWithinReach(t, state, run[..n], latency, delay, resolution);
      TimerIsQueued(t, state, run[..n], latency, delay, resolution);
      TimerIsQueued(t, state, run, latency, delay, resolution);
      HorizonAfter(s, run, resolution);
      var before, sign := After(s, run[..n], resolution), LastSign(s, run[..n], resolution);
      var horizon := Horizon(s, run[..n], resolution);
      if ShowsSign(before, run[n]) {
        SignIsWithinReach(before, run[n], sign, horizon, Horizon(s, run, resolution), latency, delay, resolution);
      } else {
        StepStaysWithinReach(before, run[n], sign, horizon, latency, delay, resolution);
      }
    }
  }

  lemma {:induction false} HorizonIsOneOfTwo(s: System, run: seq<Event>, resolution: nat)
    requires resolution > 0
    ensures LastSign(s, run, resolution).horizon in {Scheduler.FIRST_PERIOD, Max(RND_MAX, resolution)}
  {
    if run != [] { HorizonIsOneOfTwo(s, run[..|run| - 1], resolution); }
  }

  /** While injection is on, the silence since the last sign is at most the timer's reach, plus its
      latency; so it is bounded both with the tasklets' delay and without it. */
  lemma SilenceIsBounded(t: nat, state: int, run: seq<Event>, latency: nat, delay: nat, resolution: nat)
    requires resolution > 0 && Possible(Loaded(t, state), run, latency, delay, resolution) && NoCleanup(run)
    requires Scheduler.Injecting(After(Loaded(t, state), run, resolution).sched.state)
    ensures var s := Loaded(t, state);
            var now, sign := After(s, run, resolution).sched.now, LastSign(s, run, resolution);
            && sign.tasklets <= 2
            && now <= sign.at + Reach(sign, latency, delay) + latency
            && now <= sign.at + Longest(sign.horizon, latency, delay)
            && now <= sign.at + Horizon(s, run, resolution) + delay + latency
            && now <= sign.at + 3 * (Max(Scheduler.FIRST_PERIOD, resolution) + latency)
  {
    StaysWithinReach(t, state, run, latency, delay, resolution);
    TimerIsQueued(t, state, run, latency, delay, resolution);
    HorizonIsOneOfTwo(Loaded(t, state), run, resolution);
  }

  /** Over every possible run, with any bytes typed but those of the illegal key, tasklets late by up to
      delay and shared between bytes, a timer late by up to latency, and any numbers written to the proc
      file: the keys held are exactly those of the bytes typed, as if the module were not there; and while
      injection is on, the silence since the last sign is at most the longest one for the horizon then:
      the first period until something re-draws the timer, max(RND_MAX, resolution) from then on. */
  lemma TypingIsCovered(t: nat, state: int, run: seq<Event>, latency: nat, delay: nat, resolution: nat)
    requires resolution > 0 && Possible(Loaded(t, state), run, latency, delay, resolution)
    requires Ordinary(run)
    ensures var s, s' := Loaded(t, state), After(Loaded(t, state), run, resolution);
            var sign := LastSign(s, run, resolution);
            && Held(s'.port) == Held(TypedBytes(run))
            && (Scheduler.Injecting(s'.sched.state) ==> s'.sched.now <= sign.at + Longest(sign.horizon, latency, delay))
  {
    var s, s' := Loaded(t, state), After(Loaded(t, state), run, resolution);
    PortCarriesTyped(s, run, resolution);
    PortCarriesInjected(s, run, resolution);
    PortNeverTypesIllegal(s, run, resolution);
    assert Illegal(Typed(ILLEGAL_SCANCODE)) && Illegal(Typed(ILLEGAL_RELEASE));
    CompleteInjectionsLeaveNoKey(s'.port);
    if Scheduler.Injecting(s'.sched.state) {
      SilenceIsBounded(t, state, run, latency, delay, resolution);
    }
  }

  lemma OneMore(s: System, run: seq<Event>, e: Event, latency: nat, delay: nat, resolution: nat)
    requires resolution > 0 && Possible(s, run, latency, delay, resolution)
    requires Allowed(After(s, run, resolution), e, latency, delay)
    ensures Possible(s, run + [e], latency, delay, resolution)
    ensures After(s, run + [e], resolution) == Happen(After(s, run, resolution), e, resolution)
  {
    assert (run + [e])[..|run|] == run;
  }

  lemma OneMoreSigned(s: System, run: seq<Event>, e: Event, latency: nat, delay: nat, resolution: nat)
    requires resolution > 0 && Possible(s, run, latency, delay, resolution)
    requires Allowed(After(s, run, resolution), e, latency, delay)
    ensures Possible(s, run + [e], latency, delay, resolution)
    ensures After(s, run + [e], resolution) == Happen(After(s, run, resolution), e, resolution)
    ensures LastSign(s, run + [e], resolution) ==
            if ShowsSign(After(s, run, resolution), e) then Sign(e.at, Horizon(s, run + [e], resolution), 0)
            else
              var sign := LastSign(s, run, resolution);
              if e.RunTasklet? then sign.(tasklets := sign.tasklets + 1) else sign
    ensures Ordinary(run) && !e.TimerCleanup? && NeverTypesIllegal([e]) ==> Ordinary(run + [e])
    ensures Horizon(s, run + [e], resolution) ==
            if e.RunTasklet? || e.TimerFires? then Max(RND_MAX, resolution) else Horizon(s, run, resolution)
  {
    OneMore(s, run, e, latency, delay, resolution);
    assert (run + [e])[..|run|] == run;
    HorizonAfter(s, run + [e], resolution);
  }

  /** A run just after a sign, with injection on, no tasklet pending and the deadline as far as it can be. */
  predicate JustShown(s: System, run: seq<Event>, latency: nat, delay: nat, resolution: nat)
    requires resolution > 0
  {
    var s', sign := After(s, run, resolution), LastSign(s, run, resolution);
    && Possible(s, run, latency, delay, resolution) && Ordinary(run)
    && Scheduler.Injecting(s'.sched.state) && s'.filter && PendingCount(s'.tasklets) == 0
    && sign.tasklets == 0 && sign.horizon == Horizon(s, run, resolution)
    && s'.sched.now == sign.at && s'.sched.timer == Scheduler.Hrtimer(true, sign.at + sign.horizon)
  }

  lemma PressAndRelease(s: System, run: seq<Event>, latency: nat, delay: nat, resolution: nat) returns (run': seq<Event>)
    requires resolution > 0 && JustShown(s, run, latency, delay, resolution)
    ensures var sign, s' := LastSign(s, run, resolution), After(s, run', resolution);
            && Possible(s, run', latency, delay, resolution) && Ordinary(run') && LastSign(s, run', resolution) == sign
            && s'.sched == After(s, run, resolution).sched
            && s'.tasklets.press && s'.tasklets.release && s'.pressSince == s'.releaseSince == sign.at
  {
    var at := LastSign(s, run, resolution).at;
    OneMoreSigned(s, run, KeyByte(at, 0x1e), latency, delay, resolution);
    OneMoreSigned(s, run + [KeyByte(at, 0x1e)], KeyByte(at, 0x9e), latency, delay, resolution);
    run' := run + [KeyByte(at, 0x1e)] + [KeyByte(at, 0x9e)];
  }

  lemma LateTasklets(s: System, run: seq<Event>, first: nat, second: nat, latency: nat, delay: nat, resolution: nat)
      returns (run': seq<Event>)
    requires resolution > 0 && Possible(s, run, latency, delay, resolution) && Ordinary(run)
    requires var s' := After(s, run, resolution);
             && s'.tasklets.press && s'.tasklets.release && s'.pressSince == s'.releaseSince
             && s'.sched.now <= first <= second <= s'.pressSince + delay
             && s'.sched.timer.queued && first <= s'.sched.timer.expires + latency && second <= first + RND_MAX + latency
    ensures var s' := After(s, run', resolution);
            && Possible(s, run', latency, delay, resolution) && Ordinary(run')
            && LastSign(s, run', resolution) == (var sign := LastSign(s, run, resolution); sign.(tasklets := sign.tasklets + 2))
            && s'.sched == Scheduler.Sched(second, After(s, run, resolution).sched.state, Scheduler.Start(second, RND_MAX))
            && PendingCount(s'.tasklets) == 0
  {
    OneMoreSigned(s, run, RunTasklet(first, KeyPress, RND_MAX), latency, delay, resolution);
    run' := run + [RunTasklet(first, KeyPress, RND_MAX)];
    OneMoreSigned(s, run', RunTasklet(second, KeyRelease, RND_MAX), latency, delay, resolution);
    run' := run' + [RunTasklet(second, KeyRelease, RND_MAX)];
  }

  /** The run that stays silent longest: nothing more, or a key pressed and released at once, whose two
      tasklets run as late as they can and draw the maximum. */
  lemma SilentAfter(s: System, run: seq<Event>, latency: nat, delay: nat, resolution: nat)
      returns (silent: seq<Event>, next: Event)
    requires resolution > 0 && JustShown(s, run, latency, delay, resolution)
    ensures Ordinary(silent)
    ensures Possible(s, silent, latency, delay, resolution) && Allowed(After(s, silent, resolution), next, latency, delay)
    ensures ShowsSign(After(s, silent, resolution), next)
    ensures var sign := LastSign(s, silent, resolution);
            && sign.horizon == LastSign(s, run, resolution).horizon
            && next.at == sign.at + Longest(sign.horizon, latency, delay)
  {
    var sign := LastSign(s, run, resolution);
    var at, h := sign.at, sign.horizon;
    if h >= RND_MAX + Min(delay, h + RND_MAX + 2 * latency) {
      silent, next := run, TimerFires(at + h + latency, RND_MIN);
    } else {
      var first, second := at + Min(delay, h + latency), at + Min(delay, h + RND_MAX + 2 * latency);
      silent := PressAndRelease(s, run, latency, delay, resolution);
      silent := LateTasklets(s, silent, first, second, latency, delay, resolution);
      next := TimerFires(second + RND_MAX + latency, RND_MIN);
    }
  }

  /** The longest silence does occur, for every latency, delay and resolution, before the first re-draw
      of the timer as well as after it. */
  lemma BoundIsReached(fired: bool, latency: nat, delay: nat, resolution: nat) returns (run: seq<Event>, next: Event)
    requires resolution > 0
    ensures var s := Loaded(0, 1);
            var horizon := if fired then Max(RND_MAX, resolution) else Scheduler.FIRST_PERIOD;
            && Ordinary(run)
            && Possible(s, run, latency, delay, resolution) && Allowed(After(s, run, resolution), next, latency, delay)
            && ShowsSign(After(s, run, resolution), next)
            && next.at == LastSign(s, run, resolution).at + Longest(horizon, latency, delay)
  {
    var s := Loaded(0, 1);
    var fire := TimerFires(Scheduler.FIRST_PERIOD, RND_MAX);
    if fired {
      OneMoreSigned(s, [], fire, latency, delay, resolution);
      assert [] + [fire] == [fire];
      Scheduler.ForwardLands(fire.at, fire.at, RND_MAX, resolution);
      run, next := SilentAfter(s, [fire], latency, delay, resolution);
    } else {
      run, next := SilentAfter(s, [], latency, delay, resolution);
    }
  }

  // -------------------------------------------------------------------- at exit

  predicate SomePending(s: System) {
    s.tasklets.press || s.tasklets.release
  }

  /** A byte came in while the key filter was installed. */
  predicate SeesByte(s: System, run: seq<Event>, resolution: nat)
    requires resolution > 0
  {
    run != [] &&
      var before := run[..|run| - 1];
      SeesByte(s, before, resolution) || (run[|run| - 1].KeyByte? && After(s, before, resolution).filter)
  }

  /** At exit timer_cleanup comes before the key filter is taken out, and nothing kills a tasklet. So
      once no tasklet is pending any more, the timer is queued exactly when a tasklet was pending at the
      cleanup or a byte came in after it that the filter still saw. */
  lemma {:induction false} QuietAfterExit(s: System, at: nat, after: seq<Event>, latency: nat, delay: nat, resolution: nat)
    requires resolution > 0 && NoCleanup(after)
    requires Possible(Happen(s, TimerCleanup(at), resolution), after, latency, delay, resolution)
    ensures var s0 := Happen(s, TimerCleanup(at), resolution);
            var s' := After(s0, after, resolution);
            && (s'.sched.timer.queued || SomePending(s') <==> SomePending(s) || SeesByte(s0, after, resolution))
            && (!SomePending(s') ==> (s'.sched.timer.queued <==> SomePending(s) || SeesByte(s0, after, resolution)))
  {
    if after != [] {
      assert forall i | 0 <= i < |after| - 1 :: after[..|after| - 1][i] == after[i];
      QuietAfterExit(s, at, after[..|after| - 1], latency, delay, resolution);
    }
  }

  /** The latest such case: a tasklet that was scheduled before the exit runs after it, with the filter
      gone, and starts the timer. */
  lemma TaskletOutlivesTheFilter()
    ensures var run := [KeyByte(1, 0x1e), TimerCleanup(2), RemoveKeyFilter(3), RunTasklet(4, KeyPress, 7)];
            && Possible(Loaded(0, 1), run, 0, 5, 1)
            && !After(Loaded(0, 1), run, 1).filter
            && After(Loaded(0, 1), run, 1).sched.timer == Scheduler.Hrtimer(true, 11)
  {
    var s := Loaded(0, 1);
    var byte, cleanup, unfilter := KeyByte(1, 0x1e), TimerCleanup(2), RemoveKeyFilter(3);
    OneMore(s, [], byte, 0, 5, 1);
    assert [] + [byte] == [byte];
    OneMore(s, [byte], cleanup, 0, 5, 1);
    assert [byte] + [cleanup] == [byte, cleanup];
    OneMore(s, [byte, cleanup], unfilter, 0, 5, 1);
    assert [byte, cleanup] + [unfilter] == [byte, cleanup, unfilter];
    OneMore(s, [byte, cleanup, unfilter], RunTasklet(4, KeyPress, 7), 0, 5, 1);
    assert [byte, cleanup, unfilter] + [RunTasklet(4, KeyPress, 7)] == [byte, cleanup, unfilter, RunTasklet(4, KeyPress, 7)];
  }
}
