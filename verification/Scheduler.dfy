/** The injection scheduler: first_layer/source/timer.c driven by first_layer/main.c.

    Times and periods are nanoseconds of the monotonic clock. The kernel's timer is
    modelled by the two operations below; the latency with which it fires is a parameter. */
module Scheduler {
  import opened Arithmetic
  import opened Common
  import opened Random

  /** The period of the first deadline: 2 s and 104167 ns. */
  const FIRST_PERIOD: nat := 2000104167

  /** A kernel timer: whether it is queued, and its deadline. */
  datatype Hrtimer = Hrtimer(queued: bool, expires: nat)

  /** hrtimer_start with a relative period. */
  function Start(now: nat, period: nat): Hrtimer {
    Hrtimer(true, now + period)
  }

  /** hrtimer_forward_now: nothing for a deadline still to come; otherwise whole steps of the
      interval, which is raised to the timer's resolution, until the deadline lies after now. */
  function Forward(expires: nat, now: nat, interval: nat, resolution: nat): nat
    requires resolution > 0
  {
    if now < expires then expires
    else
      var step := Max(interval, resolution);
      expires + ((now - expires) / step + 1) * step
  }

  /** Bit 0 of the two's complement of the state. */
  predicate Injecting(state: int) {
    state % 2 == 1
  }

  // ------------------------------------------------------- whole runs, by value

  /** The part of the module's state the schedule depends on. */
  datatype Sched = Sched(now: nat, state: int, timer: Hrtimer)

  datatype Event =
    | Real(at: nat, draw: nat)    // a keystroke or tap: real_key, real_touchpad
    | Fire(at: nat, draw: nat)    // the timer's callback: timer_function
    | Write(at: nat, value: int)  // a number written to the proc file
    | Stop(at: nat)               // timer_cleanup

  function Step(s: Sched, e: Event, resolution: nat): (r: Sched)
    requires resolution > 0
    ensures r.now == e.at
  {
    match e
    case Real(at, draw) => Sched(at, s.state, Start(at, draw))
    case Fire(at, draw) => Sched(at, s.state, Hrtimer(true, Forward(s.timer.expires, at, draw, resolution)))
    case Write(at, value) => Sched(at, value, s.timer)
    case Stop(at) => Sched(at, s.state, s.timer.(queued := false))
  }

  /** What may happen next: time does not run back, a queued timer is served at most latency after
      its deadline, and the callback runs only for a queued timer whose deadline has come. */
  predicate Allowed(s: Sched, e: Event, latency: nat) {
    && s.now <= e.at
    && (s.timer.queued ==> e.at <= s.timer.expires + latency)
    && (e.Fire? ==> s.timer.queued && s.timer.expires <= e.at)
    && (e.Real? || e.Fire? ==> RND_MIN <= e.draw <= RND_MAX)
  }

  /** The state after timer_init at time t. */
  function Started(t: nat, state: int): Sched {
    Sched(t, state, Start(t, FIRST_PERIOD))
  }

  function Final(s: Sched, run: seq<Event>, resolution: nat): Sched
    requires resolution > 0
  {
    if run == [] then s
    else Step(Final(s, run[..|run| - 1], resolution), run[|run| - 1], resolution)
  }

  predicate Possible(s: Sched, run: seq<Event>, latency: nat, resolution: nat)
    requires resolution > 0
  {
    run != [] ==>
      var before := run[..|run| - 1];
      Possible(s, before, latency, resolution) && Allowed(Final(s, before, resolution), run[|run| - 1], latency)
  }

  // ------------------------------------------------------------- the kernel timer

  /** A forwarded deadline lies after now, by at most one step, and whole steps from the old one. */
  lemma ForwardLands(expires: nat, now: nat, interval: nat, resolution: nat)
    requires resolution > 0 && expires <= now
    ensures var step := Max(interval, resolution);
            var e := Forward(expires, now, interval, resolution);
            && now < e <= now + step
            && e == now + (step - (now - expires) % step)
            && (e - expires) % step == 0
  {
    var step := Max(interval, resolution);
    var late := now - expires;
    var q := late / step;
    assert late == q * step + late % step;
    assert (q + 1) * step == q * step + step;
    QuotientAndRemainder((q + 1) * step, step, q + 1, 0);
  }

  /** Re-drawing the timer by timer_reset and by timer_restart gives the same deadline exactly when
      the draw equals the rest of the step in which the callback runs. */
  lemma ResetMeetsRestart(expires: nat, now: nat, draw: nat, resolution: nat)
    requires resolution > 0 && expires <= now
    ensures Start(now, draw).expires == Forward(expires, now, draw, resolution)
       <==> draw == Max(draw, resolution) - (now - expires) % Max(draw, resolution)
    ensures now == expires ==>
              (Start(now, draw).expires == Forward(expires, now, draw, resolution) <==> draw >= resolution)
  {
    ForwardLands(expires, now, draw, resolution);
  }

  // --------------------------------------------------- real and fake look the same

  /** Two events an observer of times and draws cannot tell apart. */
  predicate SameInput(e: Event, f: Event) {
    e == f || ((e.Real? || e.Fire?) && (f.Real? || f.Fire?) && e.at == f.at && e.draw == f.draw)
  }

  predicate SameInputs(a: seq<Event>, b: seq<Event>) {
    |a| == |b| && forall i | 0 <= i < |a| :: SameInput(a[i], b[i])
  }

  /** Every event labelled differently in a and b drew at least the resolution. */
  predicate LongDraws(a: seq<Event>, b: seq<Event>, resolution: nat)
    requires SameInputs(a, b)
  {
    forall i | 0 <= i < |a| && a[i] != b[i] :: a[i].draw >= resolution
  }

  /** The deadlines agree at the start and after every event. */
  predicate SameDeadlines(s: Sched, a: seq<Event>, b: seq<Event>, resolution: nat)
    requires resolution > 0 && |a| == |b|
  {
    forall k | 0 <= k <= |a| :: Final(s, a[..k], resolution).timer == Final(s, b[..k], resolution).timer
  }

  /** The draw of an event is the rest of the step the timer is in, so that a real and a fake event
      re-draw it alike. */
  predicate DrawIsRest(expires: nat, e: Event, resolution: nat)
    requires resolution > 0 && (e.Real? || e.Fire?)
  {
    var step := Max(e.draw, resolution);
    e.draw == step - (e.at - expires) % step
  }

  /** Every event labelled differently in a and b drew the rest of its step, on the deadlines of a. */
  predicate Unseen(s: Sched, a: seq<Event>, b: seq<Event>, resolution: nat)
    requires resolution > 0 && SameInputs(a, b)
  {
    forall i | 0 <= i < |a| && a[i] != b[i] :: DrawIsRest(Final(s, a[..i], resolution).timer.expires, a[i], resolution)
  }

  /** Two runs with the same times and draws, and a timer with any latency, have the same deadline after
      every event exactly when each event with different labels drew the rest of its step. */
  lemma {:induction false} LabelsLeaveNoTrace(s: Sched, a: seq<Event>, b: seq<Event>, latency: nat, resolution: nat)
    requires resolution > 0 && SameInputs(a, b)
    requires Possible(s, a, latency, resolution) && Possible(s, b, latency, resolution)
    ensures SameDeadlines(s, a, b, resolution) <==> Unseen(s, a, b, resolution)
  {
    if a == [] {
      assert SameDeadlines(s, a, b, resolution);
    } else {
      var n := |a| - 1;
      var a', b' := a[..n], b[..n];
      LabelsLeaveNoTrace(s, a', b', latency, resolution);
      LastDeadline(s, a, b, resolution);
      LastLabel(s, a, b, resolution);
      if SameDeadlines(s, a', b', resolution) {
        LastStep(Final(s, a', resolution), Final(s, b', resolution), a[n], b[n], latency, resolution);
      }
    }
  }

  lemma LastLabel(s: Sched, a: seq<Event>, b: seq<Event>, resolution: nat)
    requires resolution > 0 && SameInputs(a, b) && a != []
    ensures var n := |a| - 1;
            Unseen(s, a, b, resolution) <==>
            Unseen(s, a[..n], b[..n], resolution)
            && (a[n] == b[n] || DrawIsRest(Final(s, a[..n], resolution).timer.expires, a[n], resolution))
  {
    var n := |a| - 1;
    assert forall i | 0 <= i < n :: a[..n][i] == a[i] && b[..n][i] == b[i] && a[..n][..i] == a[..i];
  }

  lemma LastStep(s: Sched, s': Sched, e: Event, f: Event, latency: nat, resolution: nat)
    requires resolution > 0 && SameInput(e, f) && s.timer == s'.timer
    requires Allowed(s, e, latency) && Allowed(s', f, latency)
    ensures Step(s, e, resolution).timer == Step(s', f, resolution).timer
       <==> e == f || DrawIsRest(s.timer.expires, e, resolution)
    ensures latency == 0 && e != f ==> (DrawIsRest(s.timer.expires, e, resolution) <==> e.draw >= resolution)
  {
    if e != f {
      ResetMeetsRestart(s.timer.expires, e.at, e.draw, resolution);
    }
  }

  /** With a timer that fires at its deadline, that is exactly when no draw below the resolution carries
      different labels. */
  lemma {:induction false} IdealLabelsLeaveNoTrace(s: Sched, a: seq<Event>, b: seq<Event>, resolution: nat)
    requires resolution > 0 && SameInputs(a, b)
    requires Possible(s, a, 0, resolution) && Possible(s, b, 0, resolution)
    ensures SameDeadlines(s, a, b, resolution) <==> LongDraws(a, b, resolution)
  {
    if a == [] {
      assert SameDeadlines(s, a, b, resolution);
    } else {
      var n := |a| - 1;
      var a', b' := a[..n], b[..n];
      IdealLabelsLeaveNoTrace(s, a', b', resolution);
      LastDeadline(s, a, b, resolution);
      LastDraw(a, b, resolution);
      if SameDeadlines(s, a', b', resolution) {
        LastStep(Final(s, a', resolution), Final(s, b', resolution), a[n], b[n], 0, resolution);
      }
    }
  }

  lemma LastDeadline(s: Sched, a: seq<Event>, b: seq<Event>, resolution: nat)
    requires resolution > 0 && |a| == |b| > 0
    ensures var n := |a| - 1;
            SameDeadlines(s, a, b, resolution) <==>
            SameDeadlines(s, a[..n], b[..n], resolution) && Final(s, a, resolution).timer == Final(s, b, resolution).timer
    ensures var n := |a| - 1;
            SameDeadlines(s, a[..n], b[..n], resolution) ==>
            Final(s, a[..n], resolution).timer == Final(s, b[..n], resolution).timer
  {
    var n := |a| - 1;
    var a', b' := a[..n], b[..n];
    assert a'[..n] == a' && b'[..n] == b' && a[..n + 1] == a && b[..n + 1] == b;
    forall k | 0 <= k <= n
      ensures Final(s, a'[..k], resolution) == Final(s, a[..k], resolution)
      ensures Final(s, b'[..k], resolution) == Final(s, b[..k], resolution)
    {
      assert a'[..k] == a[..k] && b'[..k] == b[..k];
    }
    if SameDeadlines(s, a', b', resolution) && Final(s, a, resolution).timer == Final(s, b, resolution).timer {
      forall k | 0 <= k <= n + 1
        ensures Final(s, a[..k], resolution).timer == Final(s, b[..k], resolution).timer
      {
        if k <= n { assert Final(s, a'[..k], resolution).timer == Final(s, b'[..k], resolution).timer; }
      }
    }
  }

  lemma LastDraw(a: seq<Event>, b: seq<Event>, resolution: nat)
    requires SameInputs(a, b) && a != []
    ensures var n := |a| - 1;
            LongDraws(a, b, resolution) <==>
            LongDraws(a[..n], b[..n], resolution) && (a[n] == b[n] || a[n].draw >= resolution)
  {
    var n := |a| - 1;
    assert forall i | 0 <= i < n :: a[..n][i] == a[i] && b[..n][i] == b[i];
  }

  /** Every keystroke in a that is a fake event in b comes when the timer may fire. */
  predicate OnTime(s: Sched, a: seq<Event>, b: seq<Event>, latency: nat, resolution: nat)
    requires resolution > 0 && |a| == |b|
  {
    forall i | 0 <= i < |a| && a[i].Real? && b[i].Fire? ::
      var timer := Final(s, a[..i], resolution).timer;
      timer.queued && timer.expires <= a[i].at <= timer.expires + latency
  }

  /** Any keystroke that comes when the timer may fire may have been a fake event, and any fake event a
      keystroke: relabelling a possible run that way, where the draws are the rests of their steps, gives
      a possible run with the same deadlines. */
  lemma {:induction false} AnyRelabellingIsPossible(s: Sched, a: seq<Event>, b: seq<Event>, latency: nat, resolution: nat)
    requires resolution > 0 && SameInputs(a, b) && Unseen(s, a, b, resolution)
    requires Possible(s, a, latency, resolution) && OnTime(s, a, b, latency, resolution)
    ensures Possible(s, b, latency, resolution)
    ensures Final(s, a, resolution).timer == Final(s, b, resolution).timer
    ensures Final(s, a, resolution).now == Final(s, b, resolution).now
  {
    if a != [] {
      var n := |a| - 1;
      var a', b' := a[..n], b[..n];
      assert forall k | 0 <= k <= n :: a'[..k] == a[..k];
      LastLabel(s, a, b, resolution);
      AnyRelabellingIsPossible(s, a', b', latency, resolution);
      assert a[..n] == a';
      LastStep(Final(s, a', resolution), Final(s, b', resolution), a[n], b[n], latency, resolution);
    }
  }

  /** For a timer that fires at its deadline, draws of at least the resolution are enough. */
  lemma {:induction false} LongDrawsAreUnseen(s: Sched, a: seq<Event>, b: seq<Event>, resolution: nat)
    requires resolution > 0 && SameInputs(a, b) && LongDraws(a, b, resolution)
    requires Possible(s, a, 0, resolution) && OnTime(s, a, b, 0, resolution)
    ensures Unseen(s, a, b, resolution)
  {
    if a != [] {
      var n := |a| - 1;
      var a', b' := a[..n], b[..n];
      assert forall k | 0 <= k <= n :: a'[..k] == a[..k];
      LastDraw(a, b, resolution);
      LongDrawsAreUnseen(s, a', b', resolution);
      LastLabel(s, a, b, resolution);
      if a[n] != b[n] {
        assert a[..n] == a';
        ResetMeetsRestart(a[n].at, a[n].at, a[n].draw, resolution);
      }
    }
  }

  /** A draw below the resolution does tell the two apart: a fake event at time 5 that draws 3 with a
      resolution of 10 moves the deadline to 15, a keystroke then moves it to 8. */
  lemma ShortDrawsLeaveATrace()
    ensures var s := Sched(0, 1, Hrtimer(true, 5));
            && Possible(s, [Fire(5, 3)], 0, 10) && Possible(s, [Real(5, 3)], 0, 10)
            && Final(s, [Fire(5, 3)], 10).timer.expires == 15
            && Final(s, [Real(5, 3)], 10).timer.expires == 8
  {
    var s := Sched(0, 1, Hrtimer(true, 5));
    assert [Fire(5, 3)][..0] == [] == [Real(5, 3)][..0];
    assert Possible(s, [], 0, 10);
  }

  // -------------------------------------------------------- the chances of a deadline

  /** The deadline after an event at time now, if a fake one came in exactly on its own deadline. */
  function Redrawn(fake: bool, now: nat, draw: nat, resolution: nat): nat
    requires resolution > 0
  {
    if fake then Forward(now, now, draw, resolution) else Start(now, draw).expires
  }

  /** The accepted random words that lead to a deadline. */
  ghost function WordsTo(fake: bool, now: nat, deadline: nat, resolution: nat): set<int>
    requires resolution > 0
  {
    var n := Span(RND_MIN, RND_MAX);
    set raw: uint32 | 0 <= raw < TWO_TO_THE_32 && Accepted(n, raw)
                      && Redrawn(fake, now, Image(RND_MIN, n, raw), resolution) == deadline :: raw
  }

  /** Whether a deadline lies in the range where the timer's resolution shows. */
  predicate ResolutionShows(now: nat, deadline: nat, resolution: nat) {
    deadline == now + resolution || (now <= deadline < now + resolution && deadline <= now + RND_MAX)
  }

  /** After a real event every deadline up to RND_MAX ahead is equally likely. */
  lemma RealDeadlinesAreUniform(now: nat, deadline: nat, resolution: nat)
    requires resolution > 0
    ensures |WordsTo(false, now, deadline, resolution)|
         == if now <= deadline <= now + RND_MAX then TWO_TO_THE_32 / Span(RND_MIN, RND_MAX) else 0
  {
    var n := Span(RND_MIN, RND_MAX);
    if now <= deadline <= now + RND_MAX {
      Uniform(RND_MIN, RND_MAX, deadline - now);
      assert WordsTo(false, now, deadline, resolution) == Preimages(RND_MIN, n, deadline - now);
    } else {
      assert WordsTo(false, now, deadline, resolution) == {};
    }
  }

  lemma FakeDeadline(now: nat, draw: nat, resolution: nat)
    requires resolution > 0
    ensures Redrawn(true, now, draw, resolution) == now + Max(draw, resolution)
  {
    ForwardLands(now, now, draw, resolution);
    QuotientAndRemainder(0, Max(draw, resolution), 0, 0);
  }

  lemma FakeWordsBeyond(now: nat, deadline: nat, resolution: nat)
    requires resolution > 0 && deadline > now + resolution
    ensures |WordsTo(true, now, deadline, resolution)| == |WordsTo(false, now, deadline, resolution)|
  {
    forall draw: nat { FakeDeadline(now, draw, resolution); }
    assert WordsTo(true, now, deadline, resolution) == WordsTo(false, now, deadline, resolution);
  }

  lemma FakeWordsWithin(now: nat, deadline: nat, resolution: nat)
    requires resolution > 0 && deadline < now + resolution
    ensures |WordsTo(true, now, deadline, resolution)| == 0
  {
    forall draw: nat { FakeDeadline(now, draw, resolution); }
    assert WordsTo(true, now, deadline, resolution) == {};
  }

  /** At the resolution itself a fake event collects the words of every shorter draw as well. */
  lemma FakeWordsAtResolution(now: nat, resolution: nat)
    requires resolution > 0
    ensures |WordsTo(true, now, now + resolution, resolution)| > |WordsTo(false, now, now + resolution, resolution)|
  {
    var atOnce, later := WordsTo(false, now, now, resolution), WordsTo(false, now, now + resolution, resolution);
    forall draw: nat { FakeDeadline(now, draw, resolution); }
    assert atOnce + later <= WordsTo(true, now, now + resolution, resolution);
    RealDeadlinesAreUniform(now, now, resolution);
    DisjointIsLarger(atOnce, later, WordsTo(true, now, now + resolution, resolution));
  }

  lemma DisjointIsLarger(a: set<int>, b: set<int>, c: set<int>)
    requires |a| > 0 && a !! b && a + b <= c
    ensures |b| < |c|
  {
    assert |a + b| == |a| + |b|;
    assert c == (a + b) + (c - (a + b));
  }

  lemma FakeCounts(now: nat, deadline: nat, resolution: nat)
    requires resolution > 0
    ensures var words, key := |WordsTo(true, now, deadline, resolution)|, |WordsTo(false, now, deadline, resolution)|;
            && (deadline < now + resolution ==> words == 0)
            && (deadline == now + resolution ==> words > key)
            && (deadline > now + resolution ==> words == key)
  {
    if deadline < now + resolution {
      FakeWordsWithin(now, deadline, resolution);
    } else if deadline == now + resolution {
      FakeWordsAtResolution(now, resolution);
    } else {
      FakeWordsBeyond(now, deadline, resolution);
    }
  }

  lemma KeyCounts(now: nat, deadline: nat, resolution: nat)
    requires resolution > 0
    ensures |WordsTo(false, now, deadline, resolution)| > 0 <==> now <= deadline <= now + RND_MAX
  {
    RealDeadlinesAreUniform(now, deadline, resolution);
  }

  /** The chances of the next deadline, counted in random words, are the same after a real and after a
      fake event for every deadline further ahead than the timer's resolution, and differ for every
      other one that can occur. */
  lemma SameChancesBeyondResolution(now: nat, deadline: nat, resolution: nat)
    requires resolution > 0
    ensures |WordsTo(true, now, deadline, resolution)| == |WordsTo(false, now, deadline, resolution)|
       <==> !ResolutionShows(now, deadline, resolution)
  {
    FakeCounts(now, deadline, resolution);
    KeyCounts(now, deadline, resolution);
  }

  // --------------------------------------------------------------- bounded silence

  /** The last moment at which an event showed or injection was switched on, after event e. A callback
      shows only while injection is on. */
  function SignAfter(s: Sched, e: Event, sign: nat): nat {
    match e
    case Real(at, _) => at
    case Fire(at, _) => if Injecting(s.state) then at else sign
    case Write(at, value) => if !Injecting(s.state) && Injecting(value) then at else sign
    case Stop(_) => sign
  }

  function LastSign(s: Sched, run: seq<Event>, resolution: nat): nat
    requires resolution > 0
  {
    if run == [] then s.now
    else
      var before := run[..|run| - 1];
      SignAfter(Final(s, before, resolution), run[|run| - 1], LastSign(s, before, resolution))
  }

  /** The longest period the timer can have been given: the first one until an event re-draws it. */
  function Horizon(run: seq<Event>, resolution: nat): nat {
    if exists i :: 0 <= i < |run| && (run[i].Real? || run[i].Fire?) then Max(RND_MAX, resolution)
    else FIRST_PERIOD
  }

  predicate NeverStopped(run: seq<Event>) {
    forall i | 0 <= i < |run| :: !run[i].Stop?
  }

  /** From timer_init to timer_cleanup the timer is always queued and its deadline never further than
      the horizon from now; while injection is on, never further than that from the last sign. */
  lemma {:induction false} DeadlineIsNear(t: nat, state: int, run: seq<Event>, latency: nat, resolution: nat)
    requires resolution > 0 && NeverStopped(run)
    requires Possible(Started(t, state), run, latency, resolution)
    ensures var s := Final(Started(t, state), run, resolution);
            var sign := LastSign(Started(t, state), run, resolution);
            && s.timer.queued
            && sign <= s.now <= s.timer.expires + latency
            && s.timer.expires <= s.now + Horizon(run, resolution)
            && (Injecting(s.state) ==> s.timer.expires <= sign + Horizon(run, resolution))
  {
    if run != [] {
      var n := |run| - 1;
      var before, e := run[..n], run[n];
      DeadlineIsNear(t, state, before, latency, resolution);
      assert e.Write? ==> Horizon(before, resolution) == Horizon(run, resolution) by {
        if e.Write? {
          assert forall i | 0 <= i < n :: before[i] == run[i];
        }
      }
      if e.Fire? {
        ForwardLands(Final(Started(t, state), before, resolution).timer.expires, e.at, e.draw, resolution);
      }
    }
  }

  /** No silence outlasts the bound: at every moment of every run in which injection is on, the last
      sign of life is at most max(RND_MAX, resolution) plus the timer's latency ago. Before the first
      event the first period takes the place of RND_MAX. */
  lemma SilenceIsBounded(t: nat, state: int, run: seq<Event>, latency: nat, resolution: nat)
    requires resolution > 0 && NeverStopped(run)
    requires Possible(Started(t, state), run, latency, resolution)
    requires Injecting(Final(Started(t, state), run, resolution).state)
    ensures Final(Started(t, state), run, resolution).now
         <= LastSign(Started(t, state), run, resolution) + Horizon(run, resolution) + latency
  {
    DeadlineIsNear(t, state, run, latency, resolution);
  }

  predicate Shows(s: Sched, run: seq<Event>, i: nat, resolution: nat)
    requires resolution > 0 && i < |run|
  {
    run[i].Real? || (run[i].Fire? && Injecting(Final(s, run[..i], resolution).state))
  }

  /** The same bound between neighbours: two consecutive visible events, with injection on in
      between, are at most that far apart. */
  lemma NeighboursAreClose(t: nat, state: int, run: seq<Event>, i: nat, latency: nat, resolution: nat)
    requires resolution > 0 && NeverStopped(run) && i < |run| - 1
    requires Possible(Started(t, state), run, latency, resolution)
    requires var s := Started(t, state);
             && Shows(s, run, i, resolution) && Shows(s, run, |run| - 1, resolution)
             && (forall k | i < k < |run| - 1 :: !Shows(s, run, k, resolution))
             && (forall k | i < k < |run| :: Injecting(Final(s, run[..k], resolution).state))
    ensures run[|run| - 1].at <= run[i].at + Max(RND_MAX, resolution) + latency
  {
    var n := |run| - 1;
    var before := run[..n];
    var s := Started(t, state);
    DeadlineIsNear(t, state, before, latency, resolution);
    assert before[i] == run[i];
    LastSignIs(s, run, i, n, resolution);
  }

  lemma {:induction false} LastSignIs(s: Sched, run: seq<Event>, i: nat, n: nat, resolution: nat)
    requires resolution > 0 && i < n <= |run| && NeverStopped(run)
    requires Shows(s, run, i, resolution)
    requires forall k | i < k < n :: !Shows(s, run, k, resolution)
    requires forall k | i < k <= n && k < |run| :: Injecting(Final(s, run[..k], resolution).state)
    ensures LastSign(s, run[..n], resolution) == run[i].at
  {
    var m := n - 1;
    assert run[..n][..m] == run[..m];
    if m > i {
      LastSignIs(s, run, i, m, resolution);
      assert !Shows(s, run, m, resolution);
    }
  }

  /** With keystrokes that are handled at once, the timer is queued after timer_cleanup exactly when a
      keystroke has been handled since. Keystrokes whose handling the cleanup interrupts, or that wait
      for their tasklet at that moment, are the subject of MainTimer.QuietAfterCleanup and of
      Typing.QuietAfterExit. */
  lemma {:induction false} QuietAfterStop(s: Sched, stop: Event, after: seq<Event>, latency: nat, resolution: nat)
    requires resolution > 0 && stop.Stop?
    requires Possible(s, [stop] + after, latency, resolution)
    requires NeverStopped(after)
    ensures Final(s, [stop] + after, resolution).timer.queued
       <==> exists i :: 0 <= i < |after| && after[i].Real?
  {
    var run := [stop] + after;
    if after == [] {
      assert run[..0] == [];
      assert Final(s, run, resolution) == Step(s, stop, resolution);
    } else {
      var n := |after| - 1;
      assert run[..|run| - 1] == [stop] + after[..n];
      assert run[|run| - 1] == after[n];
      QuietAfterStop(s, stop, after[..n], latency, resolution);
      assert forall i | 0 <= i < n :: after[..n][i] == after[i];
    }
  }

  // ----------------------------------------------------- timer.c and main.c in place

  /** What a write to the proc file parsed to. */
  datatype Parsed = NotANumber | Number(value: int)

  datatype Member = NoMember | Enable | Disable

  /** The log says "activated" for every number but 0, and injection is on for every odd one: the two
      agree exactly for 0 and the odd numbers. */
  lemma LogAgreesWithBit(value: int)
    ensures (value != 0 <==> Injecting(value)) <==> value == 0 || value % 2 == 1
  {}

  class KeyDrown {
    const resolution: nat
    var state: int
    var timer: Hrtimer
    var periode: nat
    var faketimer: Hrtimer
    var faketimerRunning: int

    ghost predicate Valid()
      reads this
    {
      resolution > 0
    }

    ghost function View(now: nat): Sched
      reads this
    {
      Sched(now, state, timer)
    }

    /** The static variables as the module is loaded. */
    constructor (resolution: nat)
      requires resolution > 0
      ensures Valid() && this.resolution == resolution
      ensures state == 0 && faketimerRunning == 0 && !timer.queued && !faketimer.queued
    {
      this.resolution := resolution;
      state, periode, faketimerRunning := 0, 0, 0;
      timer, faketimer := Hrtimer(false, 0), Hrtimer(false, 0);
    }

    method TimerInit(now: nat) returns (r: int)
      requires Valid()
      modifies `timer, `periode
      ensures r == 0 && View(now) == Started(now, state) && timer == Hrtimer(true, now + 2000104167)
    {
      periode := 2 * 1000000000 + 104167;
      timer := Start(now, periode);
      r := 0;
    }

    method TimerCleanup(now: nat)
      requires Valid()
      modifies `timer
      ensures View(now) == Step(old(View(now)), Stop(now), resolution)
    {
      timer := timer.(queued := false);
    }

    /** The body of the callback: the kernel has dequeued the timer, and queues it again. */
    method TimerRestart(now: nat, words: seq<uint32>)
      requires Valid() && Suffices(RND_MIN, RND_MAX, words)
      modifies `timer, `periode
      ensures periode == Drawn(RND_MIN, RND_MAX, words)
      ensures View(now) == Step(old(View(now)), Fire(now, periode), resolution)
    {
      var rnd := GetRandom(RND_MIN, RND_MAX, words);
      periode := rnd.value;
      timer := timer.(expires := Forward(timer.expires, now, periode, resolution));
      timer := timer.(queued := true);
    }

    method TimerReset(now: nat, words: seq<uint32>)
      requires Valid() && Suffices(RND_MIN, RND_MAX, words)
      modifies `timer, `periode
      ensures periode == Drawn(RND_MIN, RND_MAX, words)
      ensures View(now) == Step(old(View(now)), Real(now, periode), resolution)
    {
      var rnd := GetRandom(RND_MIN, RND_MAX, words);
      periode := rnd.value;
      timer := timer.(queued := false);
      timer := Start(now, periode);
    }

    method TimerInjectIrq(now: nat) returns (r: int)
      modifies `faketimer, `faketimerRunning
      ensures faketimerRunning == 1
      ensures old(faketimerRunning) != 0 ==> r == -EBUSY && faketimer == old(faketimer)
      ensures old(faketimerRunning) == 0 ==> r == 0 && faketimer == Hrtimer(true, now)
    {
      var was := faketimerRunning;
      faketimerRunning := 1;
      if was != 0 {
        return -EBUSY;
      }
      faketimer := Start(now, 0);
      return 0;
    }

    /** The decoy timer fires once: the kernel has dequeued it. */
    method FaketimerFunction()
      modifies `faketimer, `faketimerRunning
      ensures faketimerRunning == 0 && faketimer == old(faketimer).(queued := false)
    {
      faketimer := faketimer.(queued := false);
      faketimerRunning := 0;
    }

    /** real_key and real_touchpad: a decoy interrupt, then a new draw. */
    method RealKey(now: nat, words: seq<uint32>) returns (r: int)
      requires Valid() && Suffices(RND_MIN, RND_MAX, words)
      modifies `timer, `periode, `faketimer, `faketimerRunning
      ensures r == 0 && periode == Drawn(RND_MIN, RND_MAX, words)
      ensures View(now) == Step(old(View(now)), Real(now, periode), resolution)
      ensures faketimerRunning == 1
      ensures faketimer == if old(faketimerRunning) == 0 then Hrtimer(true, now) else old(faketimer)
    {
      var _ := TimerInjectIrq(now);
      TimerReset(now, words);
      r := 0;
    }

    /** The callback of the main timer: a fake event if bit 0 of the state is set, a new draw always. */
    method TimerFunction(now: nat, words: seq<uint32>) returns (injected: bool)
      requires Valid() && Suffices(RND_MIN, RND_MAX, words)
      modifies `timer, `periode
      ensures injected <==> Injecting(state)
      ensures periode == Drawn(RND_MIN, RND_MAX, words)
      ensures View(now) == Step(old(View(now)), Fire(now, periode), resolution)
    {
      injected := state % 2 == 1;
      TimerRestart(now, words);
    }

    /** A write that parses replaces the state. activated tells what is logged, and called which member
        of the touchscreen plugin is called, on the targets that have one. */
    method KeydrownWrite(now: nat, parsed: Parsed, count: nat, hasTouchscreen: bool)
      returns (r: int, activated: bool, called: Member)
      requires Valid()
      modifies `state
      ensures parsed.Number? ==> r == count && View(now) == Step(old(View(now)), Write(now, parsed.value), resolution)
      ensures state == if parsed.Number? then parsed.value else old(state)
      ensures parsed.NotANumber? ==> r == -EINVAL
      ensures activated <==> parsed.Number? && parsed.value != 0
      ensures parsed.Number? ==> ((activated <==> Injecting(state)) <==> parsed.value == 0 || parsed.value % 2 == 1)
      ensures called == if parsed.NotANumber? || !hasTouchscreen then NoMember else if activated then Enable else Disable
    {
      if parsed.Number? {
        state := parsed.value;
        activated, called := false, NoMember;
        if state != 0 {
          activated := true;
          if hasTouchscreen { called := Enable; }
        } else {
          if hasTouchscreen { called := Disable; }
        }
        return count, activated, called;
      }
      return -EINVAL, false, NoMember;
    }
  }

  /** Writing 2 is logged as an activation, and leaves injection off. */
  method TwoIsNoActivation(k: KeyDrown, now: nat, count: nat, hasTouchscreen: bool) returns (r: int, activated: bool)
    requires k.Valid()
    modifies k`state
    ensures r == count && activated && !Injecting(k.state)
  {
    var called: Member;
    r, activated, called := k.KeydrownWrite(now, Number(2), count, hasTouchscreen);
  }

  /** Every draw of the two timer functions is one a run may contain. */
  lemma DrawsAreAllowed(words: seq<uint32>)
    requires Suffices(RND_MIN, RND_MAX, words)
    ensures RND_MIN <= Drawn(RND_MIN, RND_MAX, words) <= RND_MAX
  {
    DrawnInRange(RND_MIN, RND_MAX, words);
  }
}
