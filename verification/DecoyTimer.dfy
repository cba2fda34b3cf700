/** The decoy timer of first_layer/source/timer.c, statement by statement.

    Any number of callers of timer_inject_irq run at once with the timer's callbacks, on any
    number of processors. Every step below is one statement of the source, or one act of the
    kernel's timer queue; every interleaving of them is a run. */
module DecoyTimer {
  import opened Common

  /** Where a caller stands: outside the function, or before the statement named. */
  datatype Pc = Outside | BeforeDelay | BeforeInit | BeforeFunction | BeforeStart

  /** Where a callback stands: before or after the store that clears the flag. */
  datatype CallbackPc = BeforeStore | AfterStore

  datatype State = State(
    running: int,                      // faketimer_running
    callers: map<nat, Pc>,             // by thread; a thread that is not listed is outside
    queued: bool,                      // faketimer is in the kernel's queue
    hasFunction: bool,                 // faketimer.function is set
    callbacks: map<nat, CallbackPc>,   // the callbacks now running
    acquired: nat,                     // test-and-sets that read 0, so far
    cleared: nat)                      // stores of 0 by the callback, so far

  datatype Step =
    | TestAndSet(t: nat)    // __sync_lock_test_and_set(&faketimer_running, 1)
    | SetDelay(t: nat)      // faketimer_t = ktime_set(0, 0)
    | InitTimer(t: nat)     // hrtimer_init, which overwrites the whole timer
    | SetFunction(t: nat)   // faketimer.function = faketimer_function
    | StartTimer(t: nat)    // hrtimer_start
    | Expire(c: nat)        // the kernel takes the timer off its queue and enters the function
    | Clear(c: nat)         // faketimer_running = 0
    | Leave(c: nat)         // the function returns, without a restart

  function PcOf(s: State, t: nat): Pc {
    if t in s.callers then s.callers[t] else Outside
  }

  predicate Enabled(s: State, step: Step) {
    match step
    case TestAndSet(t) => PcOf(s, t) == Outside
    case SetDelay(t) => PcOf(s, t) == BeforeDelay
    case InitTimer(t) => PcOf(s, t) == BeforeInit
    case SetFunction(t) => PcOf(s, t) == BeforeFunction
    case StartTimer(t) => PcOf(s, t) == BeforeStart
    case Expire(c) => s.queued && c !in s.callbacks
    case Clear(c) => c in s.callbacks && s.callbacks[c] == BeforeStore
    case Leave(c) => c in s.callbacks && s.callbacks[c] == AfterStore
  }

  function Next(s: State, step: Step): State
    requires Enabled(s, step)
  {
    match step
    case TestAndSet(t) =>
      if s.running != 0 then s.(running := 1)   // -EBUSY: back outside at once
      else s.(running := 1, callers := s.callers[t := BeforeDelay], acquired := s.acquired + 1)
    case SetDelay(t) => s.(callers := s.callers[t := BeforeInit])
    case InitTimer(t) => s.(callers := s.callers[t := BeforeFunction], queued := false, hasFunction := false)
    case SetFunction(t) => s.(callers := s.callers[t := BeforeStart], hasFunction := true)
    case StartTimer(t) => s.(callers := s.callers - {t}, queued := true)
    case Expire(c) => s.(queued := false, callbacks := s.callbacks[c := BeforeStore])
    case Clear(c) => s.(running := 0, callbacks := s.callbacks[c := AfterStore], cleared := s.cleared + 1)
    case Leave(c) => s.(callbacks := s.callbacks - {c})
  }

  const LOADED := State(0, map[], false, false, map[], 0, 0)

  predicate Run(s: State, steps: seq<Step>)
    decreases |steps|
  {
    steps != [] ==> Enabled(s, steps[0]) && Run(Next(s, steps[0]), steps[1..])
  }

  function After(s: State, steps: seq<Step>): State
    requires Run(s, steps)
    decreases |steps|
  {
    if steps == [] then s else After(Next(s, steps[0]), steps[1..])
  }

  // -------------------------------------------------------------------- the token

  /** Who may hold the right to use the decoy timer. */
  datatype Holder = Caller(t: nat) | TheTimer | Callback(c: nat)

  /** A caller between its test-and-set and its start, the queued timer, and a callback that has not
      yet cleared the flag. */
  predicate Holds(s: State, h: Holder) {
    match h
    case Caller(t) => PcOf(s, t) != Outside
    case TheTimer => s.queued
    case Callback(c) => c in s.callbacks && s.callbacks[c] == BeforeStore
  }

  ghost predicate OnlyHolder(s: State, token: Option<Holder>) {
    forall h: Holder :: Holds(s, h) <==> token == Some(h)
  }

  ghost predicate Sound(s: State, token: Option<Holder>) {
    && OnlyHolder(s, token)
    && s.running == (if token.Some? then 1 else 0)
    && (s.queued || (exists t: nat :: PcOf(s, t) == BeforeStart) ==> s.hasFunction)
    && ((exists t: nat :: PcOf(s, t) == BeforeFunction) ==> !s.hasFunction)
    && s.acquired == s.cleared + s.running
  }

  /** Where the token goes. */
  function Passed(s: State, step: Step, token: Option<Holder>): Option<Holder> {
    match step
    case TestAndSet(t) => if s.running != 0 then token else Some(Caller(t))
    case StartTimer(_) => Some(TheTimer)
    case Expire(c) => Some(Callback(c))
    case Clear(_) => None
    case _ => token
  }

  lemma StepKeepsToken(s: State, step: Step, token: Option<Holder>)
    requires Sound(s, token) && Enabled(s, step)
    ensures Sound(Next(s, step), Passed(s, step, token))
  {
    var s', token' := Next(s, step), Passed(s, step, token);
    assert step.SetDelay? || step.InitTimer? || step.SetFunction? || step.StartTimer? ==> Holds(s, Caller(step.t));
    assert step.Expire? ==> Holds(s, TheTimer);
    assert step.Clear? ==> Holds(s, Callback(step.c));
    forall h: Holder
      ensures Holds(s', h) <==> token' == Some(h)
    {
      assert Holds(s, h) <==> token == Some(h);
    }
    if t: nat :| PcOf(s', t) == BeforeStart && !step.SetFunction? {
      assert Holds(s', Caller(t));
      if !step.TestAndSet? { assert Holds(s, Caller(t)); }
    }
    if t: nat :| PcOf(s', t) == BeforeFunction && !step.InitTimer? {
      assert Holds(s', Caller(t));
      if !step.TestAndSet? { assert Holds(s, Caller(t)); }
    }
  }

  lemma {:induction false} RunKeepsToken(s: State, steps: seq<Step>, token: Option<Holder>) returns (token': Option<Holder>)
    requires Sound(s, token) && Run(s, steps)
    ensures Sound(After(s, steps), token')
    decreases |steps|
  {
    if steps == [] {
      token' := token;
    } else {
      StepKeepsToken(s, steps[0], token);
      token' := RunKeepsToken(Next(s, steps[0]), steps[1..], Passed(s, steps[0], token));
    }
  }

  /** The states some interleaving leads to. */
  ghost predicate Reachable(s: State) {
    exists steps: seq<Step> :: Run(LOADED, steps) && After(LOADED, steps) == s
  }

  lemma ReachableIsSound(s: State) returns (token: Option<Holder>)
    requires Reachable(s)
    ensures Sound(s, token)
  {
    var steps: seq<Step> :| Run(LOADED, steps) && After(LOADED, steps) == s;
    assert Sound(LOADED, None);
    token := RunKeepsToken(LOADED, steps, None);
  }

  /** In every reachable state the flag is 1 exactly when somebody holds the token, no two hold it,
      and acquisitions equal clearing stores plus the flag. */
  lemma OneToken(s: State)
    requires Reachable(s)
    ensures s.running == 0 || s.running == 1
    ensures s.running == 1 <==> exists h: Holder :: Holds(s, h)
    ensures forall h: Holder, h': Holder :: Holds(s, h) && Holds(s, h') ==> h == h'
    ensures s.acquired == s.cleared + s.running
  {
    var token := ReachableIsSound(s);
    if token.Some? { assert Holds(s, token.value); }
  }

  /** Whatever the interleaving, the decoy timer is neither initialised, given its function nor
      started while it is queued, nor while a callback has yet to clear the flag; a caller that has
      initialised it finds it without a function until it has set one; and when it fires, its function
      is set. */
  lemma NeverTouchedWhileQueued(s: State, step: Step)
    requires Reachable(s) && Enabled(s, step)
    ensures UsesTimer(step) ==>
              !s.queued && forall c: nat | c in s.callbacks :: s.callbacks[c] == AfterStore
    ensures step.SetFunction? ==> !s.hasFunction
    ensures step.StartTimer? || step.Expire? ==> s.hasFunction
  {
    var token := ReachableIsSound(s);
    if step.InitTimer? || step.SetFunction? || step.StartTimer? {
      assert Holds(s, Caller(step.t));
      assert Holds(s, TheTimer) <==> s.queued;
      forall c: nat | c in s.callbacks
        ensures s.callbacks[c] == AfterStore
      {
        assert !Holds(s, Callback(c));
      }
    }
  }

  predicate UsesTimer(step: Step) {
    step.InitTimer? || step.SetFunction? || step.StartTimer?
  }

  /** Some callback has cleared the flag and not returned. */
  predicate Lingering(s: State) {
    exists c: nat | c in s.callbacks :: s.callbacks[c] == AfterStore
  }

  /** A caller that initialises or starts the timer overlaps a running callback exactly when some callback
      has cleared the flag and not left. Once a caller has the flag nobody but a leaving callback can
      change that: until the caller starts the timer itself no callback begins and none clears the flag. */
  lemma ReuseOverlapsIffLingering(s: State, step: Step)
    requires Reachable(s) && Enabled(s, step) && UsesTimer(step)
    ensures s.callbacks != map[] <==> Lingering(s)
    ensures forall other: Step | Enabled(s, other) ::
              && !other.Expire? && !other.Clear?
              && (Lingering(Next(s, other)) ==> Lingering(s))
              && (Lingering(s) && !Lingering(Next(s, other)) <==> other.Leave? && s.callbacks.Keys == {other.c})
  {
    NeverTouchedWhileQueued(s, step);
    if s.callbacks != map[] {
      var c :| c in s.callbacks;
      assert s.callbacks[c] == AfterStore;
    }
    forall other: Step | Enabled(s, other)
      ensures !other.Expire? && !other.Clear?
      ensures Lingering(Next(s, other)) ==> Lingering(s)
      ensures Lingering(s) && !Lingering(Next(s, other)) <==> other.Leave? && s.callbacks.Keys == {other.c}
    {
      LingeringStep(s, other);
    }
  }

  lemma LingeringStep(s: State, other: Step)
    requires Enabled(s, other) && !s.queued && forall c: nat | c in s.callbacks :: s.callbacks[c] == AfterStore
    ensures !other.Expire? && !other.Clear?
    ensures Lingering(Next(s, other)) ==> Lingering(s)
    ensures Lingering(s) && !Lingering(Next(s, other)) <==> other.Leave? && s.callbacks.Keys == {other.c}
  {
    var s' := Next(s, other);
    assert forall c: nat | c in s'.callbacks :: c in s.callbacks && s'.callbacks[c] == s.callbacks[c];
    if other.Leave? {
      assert forall d: nat | d in s.callbacks && d != other.c :: d in s'.callbacks && s'.callbacks[d] == AfterStore;
    }
  }

  lemma Chain(s: State, step: Step, rest: seq<Step>)
    requires Enabled(s, step) && Run(Next(s, step), rest)
    ensures Run(s, [step] + rest) && After(s, [step] + rest) == After(Next(s, step), rest)
  {
    assert ([step] + rest)[1..] == rest;
  }

  // --------------------------------------------------- a clearing store is to come

  /** The steps that belong to the holder of the token. */
  predicate MovesToken(step: Step) {
    !step.TestAndSet? && !step.Leave?
  }

  /** How many steps of its holders the token is away from the clearing store. */
  function Distance(s: State, token: Option<Holder>): nat {
    match token
    case None => 0
    case Some(Caller(t)) =>
      (match PcOf(s, t) case BeforeDelay => 6 case BeforeInit => 5 case BeforeFunction => 4 case _ => 3)
    case Some(TheTimer) => 2
    case Some(Callback(_)) => 1
  }

  function HolderMoves(steps: seq<Step>): nat {
    if steps == [] then 0 else (if MovesToken(steps[0]) then 1 else 0) + HolderMoves(steps[1..])
  }

  lemma DistanceFalls(s: State, step: Step, token: Option<Holder>)
    requires Sound(s, token) && s.running == 1 && Enabled(s, step)
    ensures var s', token' := Next(s, step), Passed(s, step, token);
            && Distance(s', token') == Distance(s, token) - (if MovesToken(step) then 1 else 0)
            && (s'.cleared == s.cleared <==> Distance(s', token') > 0)
            && (s'.cleared == s.cleared ==> s'.running == 1)
  {
    assert step.SetDelay? || step.InitTimer? || step.SetFunction? || step.StartTimer? ==> Holds(s, Caller(step.t));
    assert step.Expire? ==> Holds(s, TheTimer);
    assert step.Clear? ==> Holds(s, Callback(step.c));
    assert token.Some? && Holds(s, token.value);
    if token.value.Caller? && step.TestAndSet? { assert step.t != token.value.t; }
  }

  lemma {:induction false} ClearedAfterMoves(s: State, steps: seq<Step>, token: Option<Holder>)
    requires Sound(s, token) && s.running == 1 && Run(s, steps)
    ensures HolderMoves(steps) >= Distance(s, token) <==> After(s, steps).cleared > s.cleared
    ensures After(s, steps).cleared >= s.cleared
    ensures After(s, steps).cleared == s.cleared ==> After(s, steps).running == 1
    decreases |steps|
  {
    if steps == [] {
      assert Holds(s, token.value);
    } else {
      var s', token' := Next(s, steps[0]), Passed(s, steps[0], token);
      StepKeepsToken(s, steps[0], token);
      DistanceFalls(s, steps[0], token);
      if s'.cleared == s.cleared {
        ClearedAfterMoves(s', steps[1..], token');
      } else {
        ClearsOnlyGrow(s', steps[1..]);
      }
    }
  }

  lemma {:induction false} ClearsOnlyGrow(s: State, steps: seq<Step>)
    requires Run(s, steps)
    ensures After(s, steps).cleared >= s.cleared
    decreases |steps|
  {
    if steps != [] { ClearsOnlyGrow(Next(s, steps[0]), steps[1..]); }
  }

  /** In every run from s the clearing store comes exactly with the given number of steps of the
      token's holders, and until then the flag stays 1. */
  ghost predicate ClearComesAfter(s: State, moves: nat) {
    forall after: seq<Step> | Run(s, after) ::
      && (After(s, after).cleared > s.cleared <==> HolderMoves(after) >= moves)
      && (After(s, after).cleared == s.cleared ==> After(s, after).running == 1)
  }

  lemma TokenGetsThere(s: State, token: Option<Holder>)
    requires Sound(s, token) && s.running == 1
    ensures 1 <= Distance(s, token) <= 6
    ensures ClearComesAfter(s, Distance(s, token))
  {
    assert Holds(s, token.value);
    forall after: seq<Step> | Run(s, after)
      ensures After(s, after).cleared > s.cleared <==> HolderMoves(after) >= Distance(s, token)
      ensures After(s, after).cleared == s.cleared ==> After(s, after).running == 1
    {
      ClearedAfterMoves(s, after, token);
    }
  }

  /** At the test-and-set of any call, refused or not, a clearing store is still to come: it is between
      one and six steps of the token's holders away, and there is always such a step to take. */
  lemma EveryCallIsFollowedByAClear(s: State, t: nat) returns (moves: nat)
    requires Reachable(s) && Enabled(s, TestAndSet(t))
    ensures 1 <= moves <= 6 && ClearComesAfter(Next(s, TestAndSet(t)), moves)
    ensures exists step: Step :: MovesToken(step) && Enabled(Next(s, TestAndSet(t)), step)
  {
    var token := ReachableIsSound(s);
    StepKeepsToken(s, TestAndSet(t), token);
    HolderCanMove(Next(s, TestAndSet(t)), Passed(s, TestAndSet(t), token));
    TokenGetsThere(Next(s, TestAndSet(t)), Passed(s, TestAndSet(t), token));
    moves := Distance(Next(s, TestAndSet(t)), Passed(s, TestAndSet(t), token));
  }

  lemma HolderCanMove(s: State, token: Option<Holder>)
    requires Sound(s, token) && s.running == 1
    ensures exists step: Step :: MovesToken(step) && Enabled(s, step)
  {
    assert Holds(s, token.value);
    match token.value
    case Caller(t) =>
      var step := match PcOf(s, t) case BeforeDelay => SetDelay(t) case BeforeInit => InitTimer(t)
                                   case BeforeFunction => SetFunction(t) case _ => StartTimer(t);
      assert MovesToken(step) && Enabled(s, step);
    case TheTimer =>
      var c := Unused(s.callbacks.Keys);
      assert MovesToken(Expire(c)) && Enabled(s, Expire(c));
    case Callback(c) =>
      assert MovesToken(Clear(c)) && Enabled(s, Clear(c));
  }

  lemma {:induction false} Unused(used: set<nat>) returns (c: nat)
    ensures forall u | u in used :: u < c
    decreases |used|
  {
    if used == {} {
      c := 0;
    } else {
      var u :| u in used;
      var d := Unused(used - {u});
      c := if d <= u then u + 1 else d;
      assert forall v | v in used :: v == u || v in used - {u};
    }
  }

  // --------------------------------------------------------- an uninterrupted call

  lemma FinishCall(s: State, t: nat)
    requires PcOf(s, t) == BeforeDelay
    ensures var rest := [SetDelay(t), InitTimer(t), SetFunction(t), StartTimer(t)];
            && Run(s, rest)
            && After(s, rest) == s.(callers := s.callers - {t}, queued := true, hasFunction := true)
  {
    var s1 := Next(s, SetDelay(t));
    var s2 := Next(s1, InitTimer(t));
    var s3 := Next(s2, SetFunction(t));
    Chain(s3, StartTimer(t), []);
    Chain(s2, SetFunction(t), [StartTimer(t)]);
    Chain(s1, InitTimer(t), [SetFunction(t), StartTimer(t)]);
    Chain(s, SetDelay(t), [InitTimer(t), SetFunction(t), StartTimer(t)]);
    assert s3.callers - {t} == s.callers - {t};
  }

  /** A call that no other thread interrupts does what timer_inject_irq does as a whole: it fails with
      the state unchanged if the flag is set, and otherwise leaves the flag set and the timer queued. */
  lemma UninterruptedCall(s: State, t: nat)
    requires t !in s.callers && (s.running == 0 || s.running == 1)
    ensures s.running == 1 ==> Run(s, [TestAndSet(t)]) && After(s, [TestAndSet(t)]) == s
    ensures s.running == 0 ==>
              var call := [TestAndSet(t), SetDelay(t), InitTimer(t), SetFunction(t), StartTimer(t)];
              Run(s, call) && After(s, call) == s.(running := 1, queued := true, hasFunction := true, acquired := s.acquired + 1)
  {
    var s1 := Next(s, TestAndSet(t));
    if s.running == 1 {
      Chain(s, TestAndSet(t), []);
    } else {
      FinishCall(s1, t);
      Chain(s, TestAndSet(t), [SetDelay(t), InitTimer(t), SetFunction(t), StartTimer(t)]);
      assert s1.callers - {t} == s.callers;
    }
  }

  lemma {:induction false} Joined(s: State, first: seq<Step>, rest: seq<Step>)
    requires Run(s, first) && Run(After(s, first), rest)
    ensures Run(s, first + rest) && After(s, first + rest) == After(After(s, first), rest)
    decreases |first|
  {
    if first == [] {
      assert first + rest == rest;
    } else {
      Joined(Next(s, first[0]), first[1..], rest);
      assert (first + rest)[1..] == first[1..] + rest;
    }
  }

  /** Such an overlap can be reached: after one whole call the callback clears the flag, and before it
      returns another thread is about to initialise the timer. */
  lemma ReuseBeforeReturnIsPossible()
    ensures var steps := [TestAndSet(0), SetDelay(0), InitTimer(0), SetFunction(0), StartTimer(0)]
                       + [Expire(0), Clear(0), TestAndSet(1), SetDelay(1)];
            && Run(LOADED, steps)
            && Lingering(After(LOADED, steps)) && Enabled(After(LOADED, steps), InitTimer(1))
  {
    var call := [TestAndSet(0), SetDelay(0), InitTimer(0), SetFunction(0), StartTimer(0)];
    UninterruptedCall(LOADED, 0);
    var s := After(LOADED, call);
    var s1 := Next(s, Expire(0));
    var s2 := Next(s1, Clear(0));
    var s3 := Next(s2, TestAndSet(1));
    Chain(s3, SetDelay(1), []);
    Chain(s2, TestAndSet(1), [SetDelay(1)]);
    Chain(s1, Clear(0), [TestAndSet(1), SetDelay(1)]);
    Chain(s, Expire(0), [Clear(0), TestAndSet(1), SetDelay(1)]);
    Joined(LOADED, call, [Expire(0), Clear(0), TestAndSet(1), SetDelay(1)]);
    assert 0 in Next(s3, SetDelay(1)).callbacks;
  }
}
