/** How long the module can be silent with its calls under way: the statement-level timer of MainTimer
    with a clock for every call.

    A call of timer_reset begins with its keystroke, and the callback with its fake event, injection
    being on. Each lasts at most work, whatever the others do; and the kernel serves a queued timer at
    most latency after its deadline, or after the callback before it has returned. */
module CallSilence {
  import opened Common
  import opened Random
  import opened Scheduler
  import opened MainTimer

  /** entered and called tell when the calls now running began, returned when a callback last ended, and
      sign when a call or a callback last began. */
  datatype Clocked = Clocked(s: MainTimer.State, entered: map<nat, nat>, called: nat, returned: nat, sign: nat)

  /** Time may pass up to the given moment. */
  predicate MayPass(c: Clocked, until: nat, latency: nat, work: nat) {
    && (forall t | t in c.s.threads && t in c.entered :: until <= c.entered[t] + work)
    && (c.s.callback != Away ==> until <= c.called + work)
    && (c.s.timer.queued && c.s.callback == Away ==> until <= Max(c.s.timer.expires, c.returned) + latency)
  }

  predicate Possible(c: Clocked, step: MainTimer.Step, latency: nat, work: nat) {
    && MainTimer.Enabled(c.s, step) && !step.Cleanup?
    && (step.Tick? ==> MayPass(c, c.s.now + step.ns, latency, work))
  }

  function Happen(c: Clocked, step: MainTimer.Step, resolution: nat): Clocked
    requires resolution > 0 && MainTimer.Enabled(c.s, step)
  {
    var now := c.s.now;
    var c' := c.(s := MainTimer.Next(c.s, step, resolution));
    match step
    case DrawPeriod(t, _) => c'.(entered := c.entered[t := now], sign := now)
    case Expire => c'.(called := now, sign := now)
    case CallbackReturn => c'.(returned := now)
    case _ => c'
  }

  /** The state timer_init leaves at time t. */
  function Loaded(t: nat): Clocked {
    Clocked(MainTimer.AfterInit(t), map[], t, t, t)
  }

  ghost predicate Leads(c: Clocked, steps: seq<MainTimer.Step>, c': Clocked, latency: nat, work: nat, resolution: nat)
    requires resolution > 0
    decreases |steps|
  {
    if steps == [] then c == c'
    else
      && Possible(c, steps[0], latency, work)
      && Leads(Happen(c, steps[0], resolution), steps[1..], c', latency, work, resolution)
  }

  /** The longest period the timer can have: the first one until it is first restarted or fires. */
  function Period(s: MainTimer.State, resolution: nat): nat {
    if s.first then FIRST_PERIOD else Max(RND_MAX, resolution)
  }

  /** No clock runs ahead of the last sign, and nothing has lasted too long. */
  predicate InTime(c: Clocked, latency: nat, work: nat, resolution: nat) {
    && c.sign <= c.s.now && c.called <= c.sign && c.returned <= c.sign + work
    && (forall t | t in c.s.threads :: t in c.entered && c.entered[t] <= c.sign && c.s.now <= c.entered[t] + work)
    && (c.s.callback != Away ==> c.s.now <= c.called + work)
    && (c.s.timer.queued && c.s.callback == Away ==> c.s.now <= Max(c.s.timer.expires, c.returned) + latency)
    && (c.s.timer.queued || c.s.callback == Forwarded ==>
          c.s.timer.expires <= c.sign + work + Period(c.s, resolution))
  }

  lemma StepStaysInTime(c: Clocked, step: MainTimer.Step, latency: nat, work: nat, resolution: nat)
    requires resolution > 0 && Possible(c, step, latency, work)
    requires MainTimer.Sound(c.s, resolution) && InTime(c, latency, work, resolution)
    ensures InTime(Happen(c, step, resolution), latency, work, resolution)
  {
    if step.CallbackForward? && !c.s.timer.queued {
      ForwardLands(c.s.timer.expires, c.s.now, c.s.periode, resolution);
    }
    if step.Restart? {
      assert c.s.now <= c.entered[step.t] + work;
    }
  }

  lemma {:induction false} RunStaysInTime(c: Clocked, steps: seq<MainTimer.Step>, c': Clocked,
                                          latency: nat, work: nat, resolution: nat)
    requires resolution > 0 && Leads(c, steps, c', latency, work, resolution)
    requires MainTimer.Sound(c.s, resolution) && InTime(c, latency, work, resolution)
    ensures MainTimer.Sound(c'.s, resolution) && InTime(c', latency, work, resolution)
    decreases |steps|
  {
    if steps != [] {
      MainTimer.StepKeepsSound(c.s, steps[0], resolution);
      StepStaysInTime(c, steps[0], latency, work, resolution);
      RunStaysInTime(Happen(c, steps[0], resolution), steps[1..], c', latency, work, resolution);
    }
  }

  /** In every interleaving of any number of calls with the callback, the last keystroke or fake event is
      never longer ago than the longest period, plus the time one call may take, plus the latency. */
  lemma SilenceIsBounded(t: nat, steps: seq<MainTimer.Step>, c: Clocked, latency: nat, work: nat, resolution: nat)
    requires resolution > 0 && Leads(Loaded(t), steps, c, latency, work, resolution)
    ensures c.s.now <= c.sign + Period(c.s, resolution) + work + latency
  {
    RunStaysInTime(Loaded(t), steps, c, latency, work, resolution);
    if !c.s.timer.queued && c.s.callback == Away {
      var t: nat :| t in c.s.threads && c.s.threads[t] == HasCancelled;
      assert c.s.now <= c.entered[t] + work;
    }
  }

  lemma Then(c: Clocked, step: MainTimer.Step, rest: seq<MainTimer.Step>, c': Clocked,
             latency: nat, work: nat, resolution: nat)
    requires resolution > 0 && Possible(c, step, latency, work)
    requires Leads(Happen(c, step, resolution), rest, c', latency, work, resolution)
    ensures Leads(c, [step] + rest, c', latency, work, resolution)
  {
    assert ([step] + rest)[1..] == rest;
  }

  /** All three parts belong in the bound: a keystroke's call that takes as long as it may and draws the
      maximum, and a timer as late as it may be. */
  lemma BoundIsReached(latency: nat, work: nat, resolution: nat) returns (c: Clocked)
    requires 0 < resolution <= RND_MAX
    ensures Leads(Loaded(0), [DrawPeriod(0, RND_MAX), Cancel(0), Tick(work), Restart(0), Tick(RND_MAX + latency)],
                  c, latency, work, resolution)
    ensures c.s.now == c.sign + Period(c.s, resolution) + work + latency
  {
    var c0 := Loaded(0);
    var c1 := Happen(c0, DrawPeriod(0, RND_MAX), resolution);
    var c2 := Happen(c1, Cancel(0), resolution);
    var c3 := Happen(c2, Tick(work), resolution);
    var c4 := Happen(c3, Restart(0), resolution);
    c := Happen(c4, Tick(RND_MAX + latency), resolution);
    Then(c4, Tick(RND_MAX + latency), [], c, latency, work, resolution);
    Then(c3, Restart(0), [Tick(RND_MAX + latency)], c, latency, work, resolution);
    Then(c2, Tick(work), [Restart(0), Tick(RND_MAX + latency)], c, latency, work, resolution);
    Then(c1, Cancel(0), [Tick(work), Restart(0), Tick(RND_MAX + latency)], c, latency, work, resolution);
    Then(c0, DrawPeriod(0, RND_MAX), [Cancel(0), Tick(work), Restart(0), Tick(RND_MAX + latency)],
         c, latency, work, resolution);
  }
}
