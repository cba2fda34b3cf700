/** The injector of the second layer: second_layer/x86/inject.c.

    Random numbers are parameters. The snooper of the main thread stores base_event once, at any
    moment; a call of inject_key that finds it unset emits nothing. */
module GtkInjector {

  const GDK_KEY_A: int := 0x41
  const GDK_KEY_Z: int := 0x5a
  const GDK_KEY_a: int := 0x61
  const GDK_KEY_z: int := 0x7a

  datatype KeyEvent = KeyEvent(press: bool, keyval: int)

  predicate IsLetter(keyval: int) {
    GDK_KEY_A <= keyval <= GDK_KEY_Z || GDK_KEY_a <= keyval <= GDK_KEY_z
  }

  /** The results of the calls of rand at the start of one run of inject_thread. */
  datatype Rands = Rands(choice: nat, lower: nat, upper: nat, runs: nat)

  function KeyOf(r: Rands): int {
    var range := r.choice % 2;
    var range1 := GDK_KEY_a + r.lower % (GDK_KEY_z - GDK_KEY_a + 1);
    var range2 := GDK_KEY_A + r.upper % (GDK_KEY_Z - GDK_KEY_A + 1);
    range1 * range + range2 * (1 - range)
  }

  /** An odd choice takes one of the 26 lower-case letters by lower, an even one one of the 26 upper-case
      letters by upper. */
  lemma KeyIsLetter(r: Rands)
    ensures IsLetter(KeyOf(r))
    ensures r.choice % 2 == 1 ==> KeyOf(r) == 0x61 + r.lower % 26 && 0x61 <= KeyOf(r) <= 0x7a
    ensures r.choice % 2 == 0 ==> KeyOf(r) == 0x41 + r.upper % 26 && 0x41 <= KeyOf(r) <= 0x5a
  {}

  lemma EveryLetterIsChosen(key: int) returns (r: Rands)
    requires IsLetter(key)
    ensures KeyOf(r) == key
  {
    r := if key >= GDK_KEY_a then Rands(1, key - GDK_KEY_a, 0, 0) else Rands(0, 0, key - GDK_KEY_A, 0);
  }

  /** What the application sees: letters only, presses and releases in turn, and every press followed
      by the release of the same key. So at most a lone release comes first, and at most a lone press
      is still open at the end. */
  predicate Alternating(events: seq<KeyEvent>) {
    && (forall i | 0 <= i < |events| :: IsLetter(events[i].keyval))
    && (forall i | 0 <= i < |events| - 1 ::
          && events[i].press != events[i + 1].press
          && (events[i].press ==> events[i].keyval == events[i + 1].keyval))
  }

  /** The calls of inject_key made by runs of inject_thread, one after the other. */
  function CallsOf(runs: seq<Rands>): seq<KeyEvent> {
    if runs == [] then []
    else CallsOf(runs[..|runs| - 1]) + Pairs(KeyOf(runs[|runs| - 1]), runs[|runs| - 1].runs % 100)
  }

  function Pairs(key: int, n: nat): seq<KeyEvent> {
    if n == 0 then [] else Pairs(key, n - 1) + [KeyEvent(true, key), KeyEvent(false, key)]
  }

  lemma {:induction false} PairsAlternate(key: int, n: nat)
    ensures |Pairs(key, n)| == 2 * n
    ensures forall j | 0 <= j < 2 * n :: Pairs(key, n)[j] == KeyEvent(j % 2 == 0, key)
  {
    if n > 0 { PairsAlternate(key, n - 1); }
  }

  lemma {:induction false} CallsGrow(runs: seq<Rands>, k: nat)
    requires k <= |runs|
    ensures CallsOf(runs[..k]) <= CallsOf(runs)
  {
    var n := |runs| - 1;
    if k <= n {
      CallsGrow(runs[..n], k);
      assert runs[..n][..k] == runs[..k];
    } else {
      assert runs[..k] == runs;
    }
  }

  lemma LastRun(runs: seq<Rands>, last: Rands)
    ensures CallsOf(runs + [last]) == CallsOf(runs) + Pairs(KeyOf(last), last.runs % 100)
  {
    assert (runs + [last])[..|runs|] == runs;
  }

  /** Run k makes its number of pairs of calls, with its key, after those of the runs before it. */
  lemma RunMakesItsCalls(runs: seq<Rands>, k: nat)
    requires k < |runs|
    ensures CallsOf(runs[..k]) + Pairs(KeyOf(runs[k]), runs[k].runs % 100) <= CallsOf(runs)
  {
    CallsGrow(runs, k + 1);
    LastRun(runs[..k], runs[k]);
    assert runs[..k + 1] == runs[..k] + [runs[k]];
  }

  /** An even number of calls, a press first. */
  predicate Paired(calls: seq<KeyEvent>) {
    |calls| % 2 == 0 && Alternating(calls) && (calls != [] ==> calls[0].press)
  }

  /** The parity of a place in such a sequence says what is there. */
  lemma {:induction false} PressAtEvenPlaces(calls: seq<KeyEvent>, i: nat)
    requires Alternating(calls) && i < |calls| && calls[0].press
    ensures calls[i].press <==> i % 2 == 0
  {
    if i > 0 { PressAtEvenPlaces(calls, i - 1); }
  }

  lemma PairedAppend(calls: seq<KeyEvent>, key: int)
    requires Paired(calls) && IsLetter(key)
    ensures Paired(calls + [KeyEvent(true, key), KeyEvent(false, key)])
  {
    if calls != [] { PressAtEvenPlaces(calls, |calls| - 1); }
  }

  lemma {:induction false} PairedMore(calls: seq<KeyEvent>, key: int, n: nat)
    requires Paired(calls) && IsLetter(key)
    ensures Paired(calls + Pairs(key, n))
  {
    if n == 0 {
      assert calls + Pairs(key, 0) == calls;
    } else {
      PairedMore(calls, key, n - 1);
      PairedAppend(calls + Pairs(key, n - 1), key);
      assert calls + Pairs(key, n) == calls + Pairs(key, n - 1) + [KeyEvent(true, key), KeyEvent(false, key)];
    }
  }

  lemma {:induction false} CallsArePaired(runs: seq<Rands>)
    ensures Paired(CallsOf(runs))
  {
    if runs != [] {
      var n := |runs| - 1;
      CallsArePaired(runs[..n]);
      KeyIsLetter(runs[n]);
      PairedMore(CallsOf(runs[..n]), KeyOf(runs[n]), runs[n].runs % 100);
    }
  }

  /** Whatever the random numbers, however many runs, and at whichever call base_event is set: the
      events emitted alternate, every press is followed by its release, a lone release comes first
      exactly if base_event was set between the two calls of a pair, and a release comes last. */
  lemma EmissionsAlternate(runs: seq<Rands>, setAt: nat)
    requires setAt < |CallsOf(runs)|
    ensures var emitted := CallsOf(runs)[setAt..];
            && Alternating(emitted)
            && (emitted[0].press <==> setAt % 2 == 0)
            && !emitted[|emitted| - 1].press
  {
    CallsArePaired(runs);
    PressAtEvenPlaces(CallsOf(runs), setAt);
    PressAtEvenPlaces(CallsOf(runs), |CallsOf(runs)| - 1);
  }

  // ------------------------------------------------------------------- in place

  class Injector {
    var baseEvent: bool            // base_event is set
    var emitted: seq<KeyEvent>     // what gtk_main_do_event was given
    ghost var calls: seq<KeyEvent> // the calls of inject_key
    ghost var setAt: nat           // how many calls came before base_event was set

    ghost predicate Valid()
      reads this
    {
      if baseEvent then setAt <= |calls| && emitted == calls[setAt..] else emitted == []
    }

    constructor ()
      ensures Valid() && !baseEvent && calls == []
    {
      baseEvent, emitted, calls, setAt := false, [], [], 0;
    }

    /** Called by the main thread for every key event; the first one with a window is kept. */
    method Snooper(hasWindow: bool)
      requires Valid()
      modifies this
      ensures Valid() && calls == old(calls) && emitted == old(emitted)
      ensures baseEvent == (old(baseEvent) || hasWindow)
      ensures old(baseEvent) ==> setAt == old(setAt)
    {
      if hasWindow && !baseEvent {
        baseEvent := true;
        setAt := |calls|;
      }
    }

    method InjectKey(key: int, press: bool)
      requires Valid()
      modifies this
      ensures Valid() && calls == old(calls) + [KeyEvent(press, key)]
      ensures baseEvent == old(baseEvent) && setAt == old(setAt)
    {
      calls := calls + [KeyEvent(press, key)];
      if !baseEvent {
        return;
      }
      emitted := emitted + [KeyEvent(press, key)];
    }

    /** One run. Before each call the main thread may snoop; snoops says with what. */
    method InjectThread(r: Rands, snoops: nat -> bool)
      requires Valid()
      modifies this
      ensures Valid() && calls == old(calls) + Pairs(KeyOf(r), r.runs % 100)
      ensures old(baseEvent) ==> baseEvent && setAt == old(setAt)
    {
      var range := r.choice % 2;
      var range1 := GDK_KEY_a + r.lower % (GDK_KEY_z - GDK_KEY_a + 1);
      var range2 := GDK_KEY_A + r.upper % (GDK_KEY_Z - GDK_KEY_A + 1);
      var runs := r.runs % 100;
      var i := 0;
      while i < runs
        invariant 0 <= i <= runs && Valid()
        invariant calls == old(calls) + Pairs(KeyOf(r), i)
        invariant old(baseEvent) ==> baseEvent && setAt == old(setAt)
      {
        Snooper(snoops(2 * i));
        InjectKey(range1 * range + range2 * (1 - range), true);
        Snooper(snoops(2 * i + 1));
        InjectKey(range1 * range + range2 * (1 - range), false);
        i := i + 1;
      }
    }

    /** Any number of turns of the endless loop. */
    method InjectThreadWrapper(runs: seq<Rands>, snoops: (nat, nat) -> bool)
      requires Valid() && calls == []
      modifies this
      ensures Valid() && calls == CallsOf(runs) && Alternating(emitted)
    {
      for k := 0 to |runs|
        invariant Valid() && calls == CallsOf(runs[..k])
      {
        assert runs[..k + 1][..k] == runs[..k];
        InjectThread(runs[k], (j: nat) => snoops(k, j));
      }
      assert runs[..|runs|] == runs;
      CallsArePaired(runs);
    }
  }
}
