/** The main timer of first_layer/source/timer.c under concurrency, statement by statement.

    Any number of threads are inside timer_reset while the timer's callback, timer_function, runs
    on another processor. The kernel's part: hrtimer_cancel waits for a running callback and then
    dequeues the timer; the timer is dequeued before its callback runs, one callback runs at a time,
    forwarding a queued timer does nothing, and a callback that asks for a restart queues the timer
    unless somebody else has. */
module MainTimer {
  import opened Common
  import opened Random
  import opened Scheduler

  /** A thread inside timer_reset: it has drawn, or it has also cancelled the timer. */
  datatype Pc = HasDrawn | HasCancelled

  /** The callback: not running, entered, the period drawn, the deadline forwarded. */
  datatype CallbackPc = Away | Entered | Drew | Forwarded

  datatype State = State(
    now: nat,
    periode: nat,             // one static variable, shared by all
    timer: Hrtimer,
    threads: map<nat, Pc>,    // a thread that is not listed is outside
    callback: CallbackPc,
    first: bool)              // the timer has neither been restarted nor fired since timer_init

  datatype Step =
    | Tick(ns: nat)                // time passes
    | DrawPeriod(t: nat, draw: nat)  // periode = ktime_set(..., get_random(...))
    | Cancel(t: nat)               // hrtimer_cancel
    | Restart(t: nat)              // hrtimer_start with the period that periode then holds
    | Expire                       // the timer fires
    | CallbackDraw(draw: nat)      // periode = ktime_set(..., get_random(...))
    | CallbackForward              // hrtimer_forward_now with the period that periode then holds
    | CallbackReturn               // return HRTIMER_RESTART
    | Cleanup                      // timer_cleanup: hrtimer_cancel

  predicate Enabled(s: State, step: Step) {
    match step
    case Tick(_) => true
    case DrawPeriod(t, draw) => t !in s.threads && RND_MIN <= draw <= RND_MAX
    case Cancel(t) => t in s.threads && s.threads[t] == HasDrawn && s.callback == Away
    case Restart(t) => t in s.threads && s.threads[t] == HasCancelled
    case Expire => s.timer.queued && s.timer.expires <= s.now && s.callback == Away
    case CallbackDraw(draw) => s.callback == Entered && RND_MIN <= draw <= RND_MAX
    case CallbackForward => s.callback == Drew
    case CallbackReturn => s.callback == Forwarded
    case Cleanup => s.callback == Away
  }

  function Next(s: State, step: Step, resolution: nat): State
    requires resolution > 0 && Enabled(s, step)
  {
    match step
    case Tick(ns) => s.(now := s.now + ns)
    case DrawPeriod(t, draw) => s.(periode := draw, threads := s.threads[t := HasDrawn])
    case Cancel(t) => s.(timer := s.timer.(queued := false), threads := s.threads[t := HasCancelled])
    case Restart(t) => s.(timer := Start(s.now, s.periode), threads := s.threads - {t}, first := false)
    case Expire => s.(timer := s.timer.(queued := false), callback := Entered, first := false)
    case CallbackDraw(draw) => s.(periode := draw, callback := Drew)
    case CallbackForward =>
      if s.timer.queued then s.(callback := Forwarded)
      else s.(callback := Forwarded,
              timer := s.timer.(expires := Forward(s.timer.expires, s.now, s.periode, resolution)))
    case CallbackReturn => s.(callback := Away, timer := s.timer.(queued := true))
    case Cleanup => s.(timer := s.timer.(queued := false))
  }

  /** The state timer_init leaves at time t. */
  function AfterInit(t: nat): State {
    State(t, FIRST_PERIOD, Start(t, FIRST_PERIOD), map[], Away, true)
  }

  ghost predicate Reaches(s: State, steps: seq<Step>, s': State, resolution: nat)
    requires resolution > 0
    decreases |steps|
  {
    if steps == [] then s == s'
    else Enabled(s, steps[0]) && Reaches(Next(s, steps[0], resolution), steps[1..], s', resolution)
  }

  predicate NoCleanup(steps: seq<Step>) {
    forall i | 0 <= i < |steps| :: !steps[i].Cleanup?
  }

  /** The states between timer_init and timer_cleanup. */
  ghost predicate Reachable(s: State, resolution: nat)
    requires resolution > 0
  {
    exists t: nat, steps: seq<Step> :: NoCleanup(steps) && Reaches(AfterInit(t), steps, s, resolution)
  }

  ghost predicate SomeoneRestarts(s: State) {
    exists t: nat :: t in s.threads && s.threads[t] == HasCancelled
  }

  ghost predicate Sound(s: State, resolution: nat) {
    && (s.timer.queued || s.callback != Away || SomeoneRestarts(s))
    && (s.periode <= RND_MAX || (s.threads == map[] && s.callback in {Away, Entered}))
    && (s.callback in {Entered, Drew} && !s.timer.queued ==> s.timer.expires <= s.now)
    && (s.timer.queued || s.callback == Forwarded ==>
          s.timer.expires <= s.now + if s.first then FIRST_PERIOD else Max(RND_MAX, resolution))
    && (s.callback != Away ==> !s.first)
    && (s.first && !s.timer.queued ==> SomeoneRestarts(s))
  }

  lemma StepKeepsSound(s: State, step: Step, resolution: nat)
    requires resolution > 0 && Sound(s, resolution) && Enabled(s, step) && !step.Cleanup?
    ensures Sound(Next(s, step, resolution), resolution)
  {
    var s' := Next(s, step, resolution);
    if step.CallbackForward? && !s.timer.queued {
      ForwardLands(s.timer.expires, s.now, s.periode, resolution);
    }
    if step.Cancel? {
      assert s'.threads[step.t] == HasCancelled;
    }
    if SomeoneRestarts(s) && !step.Restart? {
      var t: nat :| t in s.threads && s.threads[t] == HasCancelled;
      assert t in s'.threads && s'.threads[t] == HasCancelled;
    }
  }

  lemma {:induction false} RunKeepsSound(s: State, steps: seq<Step>, s': State, resolution: nat)
    requires resolution > 0 && Sound(s, resolution) && NoCleanup(steps) && Reaches(s, steps, s', resolution)
    ensures Sound(s', resolution)
    decreases |steps|
  {
    if steps != [] {
      StepKeepsSound(s, steps[0], resolution);
      RunKeepsSound(Next(s, steps[0], resolution), steps[1..], s', resolution);
    }
  }

  /** The timer is never lost. In every interleaving of any number of threads inside timer_reset with
      the callback, the timer is queued, or the callback that will queue it again is running, or a
      thread that has cancelled it is still to start it. A queued deadline is never further away than
      max(RND_MAX, resolution), whoever's draw it came from; the first period only until the timer is
      first restarted or fires. So when nobody is inside, a fake event is due within that time. */
  lemma NeverLost(s: State, resolution: nat)
    requires resolution > 0 && Reachable(s, resolution)
    ensures s.timer.queued || s.callback != Away || SomeoneRestarts(s)
    ensures s.timer.queued ==>
              s.timer.expires <= s.now + if s.first then FIRST_PERIOD else Max(RND_MAX, resolution)
    ensures s.threads == map[] && s.callback == Away ==> s.timer.queued
  {
    var t: nat, steps: seq<Step> :| NoCleanup(steps) && Reaches(AfterInit(t), steps, s, resolution);
    RunKeepsSound(AfterInit(t), steps, s, resolution);
  }

  lemma Then(s: State, step: Step, rest: seq<Step>, s': State, resolution: nat)
    requires resolution > 0 && Enabled(s, step) && Reaches(Next(s, step, resolution), rest, s', resolution)
    ensures Reaches(s, [step] + rest, s', resolution)
  {
    assert ([step] + rest)[1..] == rest;
  }

  // ------------------------------------------------------------- whose draw is used

  /** The last draw stored in periode during a run, by a thread or by the callback. */
  function LastDraw(steps: seq<Step>, before: nat): nat {
    if steps == [] then before
    else
      match steps[0]
      case DrawPeriod(_, draw) => LastDraw(steps[1..], draw)
      case CallbackDraw(draw) => LastDraw(steps[1..], draw)
      case _ => LastDraw(steps[1..], before)
  }

  lemma {:induction false} PeriodIsLastDraw(s: State, steps: seq<Step>, s': State, resolution: nat)
    requires resolution > 0 && Reaches(s, steps, s', resolution)
    ensures s'.periode == LastDraw(steps, s.periode)
    decreases |steps|
  {
    if steps != [] { PeriodIsLastDraw(Next(s, steps[0], resolution), steps[1..], s', resolution); }
  }

  /** The period is shared: a thread starts the timer with its own draw exactly when the last value
      that anybody drew in between, other threads and the callback included, equals it. */
  lemma OwnDrawIffLast(s: State, t: nat, draw: nat, mid: seq<Step>, s': State, resolution: nat)
    requires resolution > 0 && Enabled(s, DrawPeriod(t, draw))
    requires Reaches(Next(s, DrawPeriod(t, draw), resolution), mid, s', resolution) && Enabled(s', Restart(t))
    ensures Next(s', Restart(t), resolution).timer == Start(s'.now, LastDraw(mid, draw))
    ensures Next(s', Restart(t), resolution).timer.expires == s'.now + draw <==> LastDraw(mid, draw) == draw
  {
    PeriodIsLastDraw(Next(s, DrawPeriod(t, draw), resolution), mid, s', resolution);
  }

  /** No other call begins, and the timer does not fire. */
  predicate Serialised(steps: seq<Step>) {
    forall i | 0 <= i < |steps| :: !steps[i].DrawPeriod? && !steps[i].Expire?
  }

  lemma {:induction false} SerialisedDrawsNothing(s: State, steps: seq<Step>, s': State, resolution: nat, draw: nat)
    requires resolution > 0 && s.callback != Entered && Serialised(steps) && Reaches(s, steps, s', resolution)
    ensures LastDraw(steps, draw) == draw
    decreases |steps|
  {
    if steps != [] { SerialisedDrawsNothing(Next(s, steps[0], resolution), steps[1..], s', resolution, draw); }
  }

  /** A call during which no other begins and the timer does not fire, and that no callback about to
      draw overlaps, uses its own draw. */
  lemma SerialisedCallsUseTheirOwnDraw(s: State, t: nat, draw: nat, mid: seq<Step>, s': State, resolution: nat)
    requires resolution > 0 && Enabled(s, DrawPeriod(t, draw)) && s.callback != Entered && Serialised(mid)
    requires Reaches(Next(s, DrawPeriod(t, draw), resolution), mid, s', resolution) && Enabled(s', Restart(t))
    ensures Next(s', Restart(t), resolution).timer == Start(s'.now, draw)
  {
    SerialisedDrawsNothing(Next(s, DrawPeriod(t, draw), resolution), mid, s', resolution, draw);
    OwnDrawIffLast(s, t, draw, mid, s', resolution);
  }

  /** A call that does not: thread 0 draws 5, but starts the timer with the 7 that thread 1 drew. */
  lemma DrawsCanBeExchanged()
    ensures exists s: State :: Reachable(s, 1) && s.now == 0 && s.timer == Hrtimer(true, 7)
              && Reaches(AfterInit(0), [DrawPeriod(0, 5), Cancel(0), DrawPeriod(1, 7), Restart(0)], s, 1)
  {
    var s0 := AfterInit(0);
    var s1 := Next(s0, DrawPeriod(0, 5), 1);
    var s2 := Next(s1, Cancel(0), 1);
    var s3 := Next(s2, DrawPeriod(1, 7), 1);
    var s4 := Next(s3, Restart(0), 1);
    Then(s3, Restart(0), [], s4, 1);
    Then(s2, DrawPeriod(1, 7), [Restart(0)], s4, 1);
    Then(s1, Cancel(0), [DrawPeriod(1, 7), Restart(0)], s4, 1);
    Then(s0, DrawPeriod(0, 5), [Cancel(0), DrawPeriod(1, 7), Restart(0)], s4, 1);
    assert NoCleanup([DrawPeriod(0, 5), Cancel(0), DrawPeriod(1, 7), Restart(0)]);
    assert Reachable(s4, 1);
  }

  // ------------------------------------------------------------------ at exit

  /** Something is left that keeps or makes the timer queued. */
  predicate Alive(s: State) {
    s.timer.queued || s.callback != Away || s.threads != map[]
  }

  predicate SomeDraw(steps: seq<Step>) {
    exists i :: 0 <= i < |steps| && steps[i].DrawPeriod?
  }

  lemma StepKeepsAlive(s: State, step: Step, resolution: nat)
    requires resolution > 0 && Enabled(s, step) && !step.Cleanup?
    ensures Alive(Next(s, step, resolution)) <==> Alive(s) || step.DrawPeriod?
  {
    var s' := Next(s, step, resolution);
    match step
    case DrawPeriod(t, _) => assert t in s'.threads;
    case Cancel(t) => assert t in s'.threads;
    case _ =>
  }

  lemma {:induction false} RunKeepsAlive(s: State, steps: seq<Step>, s': State, resolution: nat)
    requires resolution > 0 && NoCleanup(steps) && Reaches(s, steps, s', resolution)
    ensures Alive(s') <==> Alive(s) || SomeDraw(steps)
    decreases |steps|
  {
    if steps != [] {
      StepKeepsAlive(s, steps[0], resolution);
      RunKeepsAlive(Next(s, steps[0], resolution), steps[1..], s', resolution);
      assert SomeDraw(steps) <==> steps[0].DrawPeriod? || SomeDraw(steps[1..]) by {
        if i :| 0 <= i < |steps| && steps[i].DrawPeriod? && i > 0 { assert steps[1..][i - 1].DrawPeriod?; }
      }
    }
  }

  /** timer_cleanup does not put an end to the timer if it comes in the middle of a call: after it, the
      timer is queued, or its callback runs, or a thread is inside, exactly when a thread was inside
      timer_reset at the cleanup or one has entered it since. So once nobody is inside any more, the
      timer is queued, with the module on its way out, in exactly these cases. */
  lemma QuietAfterCleanup(s: State, after: seq<Step>, s': State, resolution: nat)
    requires resolution > 0 && Enabled(s, Cleanup) && NoCleanup(after)
    requires Reaches(Next(s, Cleanup, resolution), after, s', resolution)
    ensures Alive(s') <==> s.threads != map[] || SomeDraw(after)
    ensures s'.threads == map[] && s'.callback == Away ==>
              (s'.timer.queued <==> s.threads != map[] || SomeDraw(after))
  {
    RunKeepsAlive(Next(s, Cleanup, resolution), after, s', resolution);
  }

  /** A cleanup in the middle of a call: the thread has cancelled the timer, and starts it afterwards. */
  lemma CleanupInsideACall()
    ensures var s := Next(Next(AfterInit(0), DrawPeriod(0, 5), 1), Cancel(0), 1);
            && Enabled(s, Cleanup)
            && Enabled(Next(s, Cleanup, 1), Restart(0))
            && Next(Next(s, Cleanup, 1), Restart(0), 1).timer == Hrtimer(true, 5)
  {}

  // --------------------------------------------------------- uninterrupted calls

  /** A timer_reset that nobody interrupts is the real event of the atomic schedule. */
  lemma UninterruptedReset(s: State, t: nat, draw: nat, state: int, resolution: nat) returns (s': State)
    requires resolution > 0 && Enabled(s, DrawPeriod(t, draw)) && s.callback == Away
    ensures Reaches(s, [DrawPeriod(t, draw), Cancel(t), Restart(t)], s', resolution)
    ensures Sched(s'.now, state, s'.timer) == Scheduler.Step(Sched(s.now, state, s.timer), Real(s.now, draw), resolution)
    ensures s'.threads == s.threads && s'.callback == Away && s'.periode == draw
  {
    var s1 := Next(s, DrawPeriod(t, draw), resolution);
    var s2 := Next(s1, Cancel(t), resolution);
    s' := Next(s2, Restart(t), resolution);
    Then(s2, Restart(t), [], s', resolution);
    Then(s1, Cancel(t), [Restart(t)], s', resolution);
    Then(s, DrawPeriod(t, draw), [Cancel(t), Restart(t)], s', resolution);
    assert s'.threads == s.threads;
  }

  /** A callback that nobody interrupts is the fake event of the atomic schedule. */
  lemma UninterruptedCallback(s: State, draw: nat, state: int, resolution: nat) returns (s': State)
    requires resolution > 0 && Enabled(s, Expire) && RND_MIN <= draw <= RND_MAX
    ensures Reaches(s, [Expire, CallbackDraw(draw), CallbackForward, CallbackReturn], s', resolution)
    ensures Sched(s'.now, state, s'.timer) == Scheduler.Step(Sched(s.now, state, s.timer), Fire(s.now, draw), resolution)
    ensures s'.threads == s.threads && s'.callback == Away && s'.periode == draw
  {
    var s1 := Next(s, Expire, resolution);
    var s2 := Next(s1, CallbackDraw(draw), resolution);
    var s3 := Next(s2, CallbackForward, resolution);
    s' := Next(s3, CallbackReturn, resolution);
    Then(s3, CallbackReturn, [], s', resolution);
    Then(s2, CallbackForward, [CallbackReturn], s', resolution);
    Then(s1, CallbackDraw(draw), [CallbackForward, CallbackReturn], s', resolution);
    Then(s, Expire, [CallbackDraw(draw), CallbackForward, CallbackReturn], s', resolution);
  }
}
