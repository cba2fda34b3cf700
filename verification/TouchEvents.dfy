/** Touches, real and injected: first_layer/source/plugins/touchscreen/devices/s3320.c and the filter
    of first_layer/source/plugins/touchscreen/plugin.c. */
module TouchEvents {
  import KeyEvents

  const SEND_VALUE: int := 230

  // Codes of the kernel's input interface.
  const EV_SYN := 0
  const EV_KEY := 1
  const EV_ABS := 3
  const SYN_REPORT := 0
  const SYN_TIME_SEC := 4
  const SYN_TIME_NSEC := 5
  const ABS_MT_SLOT := 0x2f
  const ABS_MT_TOUCH_MAJOR := 0x30
  const ABS_MT_TOUCH_MINOR := 0x31
  const ABS_MT_POSITION_X := 0x35
  const ABS_MT_POSITION_Y := 0x36
  const ABS_MT_TOOL_TYPE := 0x37
  const ABS_MT_TRACKING_ID := 0x39
  const MT_TOOL_FINGER := 0
  const BTN_TOOL_FINGER := 0x145

  datatype InputEvent = InputEvent(kind: int, code: int, value: int)

  /** The values an injection reads outside: the two clock readings and the contact's number. */
  datatype Context = Context(sec1: int, nsec1: int, sec2: int, nsec2: int, contact: int)

  /** A finger put down. */
  function Contact(x: Context): seq<InputEvent> {
    [ InputEvent(EV_SYN, SYN_TIME_SEC, x.sec1), InputEvent(EV_SYN, SYN_TIME_NSEC, x.nsec1),
      InputEvent(EV_ABS, ABS_MT_SLOT, 0),
      InputEvent(EV_ABS, ABS_MT_TRACKING_ID, x.contact), InputEvent(EV_ABS, ABS_MT_TOOL_TYPE, MT_TOOL_FINGER),
      InputEvent(EV_KEY, BTN_TOOL_FINGER, 1) ]
  }

  /** Where and how large; d is the value of the toggle. */
  function Axes(d: int): seq<InputEvent> {
    [ InputEvent(EV_ABS, ABS_MT_POSITION_X, d + SEND_VALUE), InputEvent(EV_ABS, ABS_MT_POSITION_Y, d + SEND_VALUE),
      InputEvent(EV_ABS, ABS_MT_TOUCH_MAJOR, d + 20), InputEvent(EV_ABS, ABS_MT_TOUCH_MINOR, d + 20),
      InputEvent(EV_SYN, SYN_REPORT, 0) ]
  }

  /** The finger lifted. */
  function Up(x: Context): seq<InputEvent> {
    [ InputEvent(EV_SYN, SYN_TIME_SEC, x.sec2), InputEvent(EV_SYN, SYN_TIME_NSEC, x.nsec2),
      InputEvent(EV_ABS, ABS_MT_SLOT, 0), InputEvent(EV_ABS, ABS_MT_TRACKING_ID, -1),
      InputEvent(EV_KEY, BTN_TOOL_FINGER, 0),
      InputEvent(EV_SYN, SYN_REPORT, 0) ]
  }

  function FakeTouch(d: int, x: Context): seq<InputEvent> {
    Contact(x) + Axes(d) + Up(x)
  }

  /** The classifier: does the event make the filter schedule the tap callback? */
  predicate RequestsTap(e: InputEvent) {
    e.kind == EV_ABS && e.code == ABS_MT_POSITION_X && (e.value > SEND_VALUE + 1 || e.value < SEND_VALUE - 1)
  }

  // --------------------------------------------------------------------- streams

  /** Events of the device as the filter sees them, marked by origin. */
  datatype Item = Touched(event: InputEvent) | Injected(event: InputEvent)

  function InjectedEvents(stream: seq<Item>): seq<InputEvent> {
    if stream == [] then []
    else InjectedEvents(stream[..|stream| - 1]) + if stream[|stream| - 1].Injected? then [stream[|stream| - 1].event] else []
  }

  /** Injection after injection, starting with the given toggle, which flips each time. */
  function Injections(d: int, xs: seq<Context>): seq<InputEvent>
    decreases |xs|
  {
    if xs == [] then [] else FakeTouch(d, xs[0]) + Injections(if d == 0 then 1 else 0, xs[1..])
  }

  lemma {:induction false} InjectionsRequestNothing(d: int, xs: seq<Context>)
    requires d == 0 || d == 1
    ensures forall e | e in Injections(d, xs) :: !RequestsTap(e)
    decreases |xs|
  {
    if xs != [] { InjectionsRequestNothing(1 - d, xs[1..]); }
  }

  /** The positions in a stream at which the filter requests a tap. */
  function Requests(stream: seq<Item>): set<nat> {
    set i | 0 <= i < |stream| && RequestsTap(stream[i].event)
  }

  /** Fake touches are invisible to the classifier: in any interleaving, event by event, of any number
      of injections with touches of the screen, taps are requested exactly for the horizontal positions
      outside [229, 231] that the screen reports. */
  lemma FakeTouchesAreInvisible(stream: seq<Item>, xs: seq<Context>)
    requires InjectedEvents(stream) <= Injections(0, xs)
    ensures Requests(stream) == set i | 0 <= i < |stream| && stream[i].Touched?
                                        && stream[i].event.kind == EV_ABS && stream[i].event.code == ABS_MT_POSITION_X
                                        && !(229 <= stream[i].event.value <= 231)
  {
    InjectionsRequestNothing(0, xs);
    forall i | 0 <= i < |stream| && stream[i].Injected?
      ensures !RequestsTap(stream[i].event)
    {
      InjectedIsListed(stream, i);
    }
  }

  lemma {:induction false} InjectedIsListed(stream: seq<Item>, i: nat)
    requires i < |stream| && stream[i].Injected?
    ensures stream[i].event in InjectedEvents(stream)
  {
    var n := |stream| - 1;
    if i < n {
      assert stream[..n][i] == stream[i];
      InjectedIsListed(stream[..n], i);
    }
  }

  /** The value an injection reports on an axis. */
  function Reported(events: seq<InputEvent>, code: int): int {
    if events == [] then 0
    else if events[0].kind == EV_ABS && events[0].code == code then events[0].value
    else Reported(events[1..], code)
  }

  lemma ReportedValues(d: int, x: Context)
    ensures Reported(FakeTouch(d, x), ABS_MT_POSITION_X) == d + SEND_VALUE
    ensures Reported(FakeTouch(d, x), ABS_MT_POSITION_Y) == d + SEND_VALUE
    ensures Reported(FakeTouch(d, x), ABS_MT_TOUCH_MAJOR) == d + 20
    ensures Reported(FakeTouch(d, x), ABS_MT_TOUCH_MINOR) == d + 20
  {
    forall code: int | code in {ABS_MT_POSITION_X, ABS_MT_POSITION_Y, ABS_MT_TOUCH_MAJOR, ABS_MT_TOUCH_MINOR}
      ensures Reported(FakeTouch(d, x), code) == if code in {ABS_MT_POSITION_X, ABS_MT_POSITION_Y} then d + SEND_VALUE else d + 20
    {
      var f := FakeTouch(d, x);
      SkipTo(f, code, 6);
      if code != ABS_MT_POSITION_X { SkipTo(f[6..], code, 1); }
      if code !in {ABS_MT_POSITION_X, ABS_MT_POSITION_Y} { SkipTo(f[7..], code, 1); }
      if code == ABS_MT_TOUCH_MINOR { SkipTo(f[8..], code, 1); }
    }
  }

  lemma {:induction false} SkipTo(events: seq<InputEvent>, code: int, k: nat)
    requires k <= |events| && forall i | 0 <= i < k :: !(events[i].kind == EV_ABS && events[i].code == code)
    ensures Reported(events, code) == Reported(events[k..], code)
  {
    if k > 0 {
      SkipTo(events[1..], code, k - 1);
      assert events[1..][k - 1..] == events[k..];
    } else {
      assert events[0..] == events;
    }
  }

  // -------------------------------------------------------------------- in place

  class TouchscreenDevice {
    var defuzz: int               // __touchscreen_abs_defuzz_var
    var events: seq<InputEvent>   // everything injected so far
    ghost var contexts: seq<Context>
    var interrupted: seq<KeyEvents.Cpu>
    var affinity: bv32
    var tapPending: bool
    var forwarded: seq<InputEvent>  // events the filter itself has given to the handler

    ghost predicate Valid()
      reads this
    {
      && defuzz == |contexts| % 2
      && events == Injections(0, contexts)
    }

    constructor (affinity: bv32)
      ensures Valid() && contexts == [] && this.affinity == affinity && !tapPending && forwarded == []
    {
      this.affinity := affinity;
      defuzz, events, contexts, interrupted, tapPending, forwarded := 0, [], [], [], false, [];
    }

    method Send(kind: int, code: int, value: int)
      modifies `events
      ensures events == old(events) + [InputEvent(kind, code, value)]
    {
      events := events + [InputEvent(kind, code, value)];
    }

    method SendContact(x: Context)
      modifies `events
      ensures events == old(events) + Contact(x)
    {
      Send(EV_SYN, SYN_TIME_SEC, x.sec1);
      Send(EV_SYN, SYN_TIME_NSEC, x.nsec1);
      Send(EV_ABS, ABS_MT_SLOT, 0);
      Send(EV_ABS, ABS_MT_TRACKING_ID, x.contact);
      Send(EV_ABS, ABS_MT_TOOL_TYPE, MT_TOOL_FINGER);
      Send(EV_KEY, BTN_TOOL_FINGER, 1);
    }

    method SendAxes()
      modifies `defuzz, `events
      ensures events == old(events) + Axes(old(defuzz))
      ensures defuzz == if old(defuzz) == 0 then 1 else 0
    {
      Send(EV_ABS, ABS_MT_POSITION_X, defuzz + SEND_VALUE);
      Send(EV_ABS, ABS_MT_POSITION_Y, defuzz + SEND_VALUE);
      Send(EV_ABS, ABS_MT_TOUCH_MAJOR, defuzz + 20);
      Send(EV_ABS, ABS_MT_TOUCH_MINOR, defuzz + 20);
      defuzz := if defuzz == 0 then 1 else 0;
      Send(EV_SYN, SYN_REPORT, 0);
    }

    method SendUp(x: Context)
      modifies `events
      ensures events == old(events) + Up(x)
    {
      Send(EV_SYN, SYN_TIME_SEC, x.sec2);
      Send(EV_SYN, SYN_TIME_NSEC, x.nsec2);
      Send(EV_ABS, ABS_MT_SLOT, 0);
      Send(EV_ABS, ABS_MT_TRACKING_ID, -1);
      Send(EV_KEY, BTN_TOOL_FINGER, 0);
      Send(EV_SYN, SYN_REPORT, 0);
    }

    method Inject(x: Context, online: seq<KeyEvents.Cpu>) returns (r: int)
      requires Valid()
      modifies `defuzz, `events, `contexts, `interrupted
      ensures Valid() && r == 0 && contexts == old(contexts) + [x]
      ensures defuzz == 1 - old(defuzz)
      ensures events == old(events) + FakeTouch(old(defuzz), x)
      ensures interrupted == KeyEvents.Selected(online, affinity, true)
    {
      OneMoreInjection(0, contexts, x);
      SendContact(x);
      SendAxes();
      SendUp(x);
      contexts := contexts + [x];
      interrupted := KeyEvents.FanOut(online, affinity, true);
      r := 0;
    }

    /** touchscreen_filter, on a kernel up to 3.6 or a later one. The kernel gives an event to the handler
        unless the filter says it has handled it: the handler gets every event once, either way. */
    method Filter(e: InputEvent, oldKernel: bool) returns (handled: bool)
      modifies `tapPending, `forwarded
      ensures handled == oldKernel && forwarded == old(forwarded) + if handled then [e] else []
      ensures tapPending == (old(tapPending) || RequestsTap(e))
    {
      if oldKernel {
        forwarded := forwarded + [e];
        if e.kind == EV_ABS && e.code == ABS_MT_POSITION_X && (e.value > SEND_VALUE + 1 || e.value < SEND_VALUE - 1) {
          tapPending := true;
        }
        return true;
      }
      if e.kind == EV_ABS && e.code == ABS_MT_POSITION_X && (e.value > SEND_VALUE + 1 || e.value < SEND_VALUE - 1) {
        tapPending := true;
      }
      return false;
    }
  }

  lemma FirstInjection(d: int, xs: seq<Context>)
    requires xs != []
    ensures Injections(d, xs) == FakeTouch(d, xs[0]) + Injections(if d == 0 then 1 else 0, xs[1..])
    ensures |FakeTouch(d, xs[0])| == 17
    ensures Injections(d, xs)[..17] == FakeTouch(d, xs[0])
  {}

  lemma Associative<T>(a: seq<T>, b: seq<T>, c: seq<T>)
    ensures (a + b) + c == a + (b + c)
  {}

  lemma NextParity(d: int, n: nat)
    requires (d == 0 || d == 1) && n > 0
    ensures (1 - d + (n - 1)) % 2 == (d + n) % 2
  {}

  lemma {:induction false} OneMoreInjection(d: int, xs: seq<Context>, x: Context)
    requires d == 0 || d == 1
    ensures Injections(d, xs + [x]) == Injections(d, xs) + FakeTouch((d + |xs|) % 2, x)
    decreases |xs|
  {
    if xs == [] {
      assert xs + [x] == [x] && [x][1..] == [];
    } else {
      var last := (d + |xs|) % 2;
      NextParity(d, |xs|);
      OneMoreInjection(1 - d, xs[1..], x);
      assert (xs + [x])[1..] == xs[1..] + [x];
      Associative(FakeTouch(d, xs[0]), Injections(1 - d, xs[1..]), FakeTouch(last, x));
    }
  }

  lemma LaterSlice<T>(first: seq<T>, rest: seq<T>, k: nat)
    requires |first| == 17 && k > 0 && 17 * k <= |rest|
    ensures (first + rest)[17 * k..17 * (k + 1)] == rest[17 * (k - 1)..17 * k]
  {}

  lemma {:induction false} InjectionsLength(d: int, xs: seq<Context>)
    ensures |Injections(d, xs)| == 17 * |xs|
    decreases |xs|
  {
    if xs != [] {
      FirstInjection(d, xs);
      InjectionsLength(if d == 0 then 1 else 0, xs[1..]);
    }
  }

  /** Injection k of a sequence of them, with its seventeen events. */
  lemma {:induction false} InjectionAt(d: int, xs: seq<Context>, k: nat)
    requires (d == 0 || d == 1) && k < |xs|
    ensures |Injections(d, xs)| == 17 * |xs|
    ensures Injections(d, xs)[17 * k..17 * (k + 1)] == FakeTouch((d + k) % 2, xs[k])
    decreases |xs|
  {
    InjectionsLength(d, xs);
    FirstInjection(d, xs);
    if k > 0 {
      var e := if d == 0 then 1 else 0;
      InjectionAt(e, xs[1..], k - 1);
      LaterSlice(FakeTouch(d, xs[0]), Injections(e, xs[1..]), k);
      assert (e + (k - 1)) % 2 == (d + k) % 2;
    }
  }

  const AXES := {ABS_MT_POSITION_X, ABS_MT_POSITION_Y, ABS_MT_TOUCH_MAJOR, ABS_MT_TOUCH_MINOR}

  /** In any sequence of injections, each and the next report different values on all four axes. The
      input layer drops unchanged values: with no touch of the screen in between it passes these on. */
  lemma NeighboursDiffer(xs: seq<Context>, k: nat)
    requires k + 1 < |xs|
    ensures |Injections(0, xs)| == 17 * |xs|
    ensures var first, second := Injections(0, xs)[17 * k..17 * (k + 1)], Injections(0, xs)[17 * (k + 1)..17 * (k + 2)];
            forall code | code in AXES :: Reported(first, code) != Reported(second, code)
  {
    InjectionAt(0, xs, k);
    InjectionAt(0, xs, k + 1);
    ValuesDiffer(k, xs[k], xs[k + 1]);
  }

  lemma ValuesDiffer(k: nat, x: Context, y: Context)
    ensures forall code | code in AXES :: Reported(FakeTouch(k % 2, x), code) != Reported(FakeTouch((k + 1) % 2, y), code)
  {
    ReportedValues(k % 2, x);
    ReportedValues((k + 1) % 2, y);
  }

  // ---------------------------------------------------------- what an application sees

  /** The state that events build up: the time, the current slot, the value of each axis of each slot (the
      tracking id, negative when no finger is down, among them), and the keys held. */
  datatype Frame = Frame(sec: int, nsec: int, slot: int, values: map<(int, int), int>, keys: set<int>)

  /** The state, and what it was at each SYN_REPORT. */
  datatype Input = Input(frame: Frame, reports: seq<Frame>)

  function Feed(s: Input, e: InputEvent): Input {
    var f := s.frame;
    if e.kind == EV_SYN && e.code == SYN_REPORT then s.(reports := s.reports + [f])
    else if e.kind == EV_SYN && e.code == SYN_TIME_SEC then s.(frame := f.(sec := e.value))
    else if e.kind == EV_SYN && e.code == SYN_TIME_NSEC then s.(frame := f.(nsec := e.value))
    else if e.kind == EV_KEY && e.value == 0 then s.(frame := f.(keys := f.keys - {e.code}))
    else if e.kind == EV_KEY then s.(frame := f.(keys := f.keys + {e.code}))
    else if e.kind == EV_ABS && e.code == ABS_MT_SLOT then s.(frame := f.(slot := e.value))
    else if e.kind == EV_ABS then s.(frame := f.(values := f.values[(f.slot, e.code) := e.value]))
    else s
  }

  /** The first n events fed. */
  function Fed(s: Input, events: seq<InputEvent>, n: nat): Input
    requires n <= |events|
  {
    if n == 0 then s else Feed(Fed(s, events, n - 1), events[n - 1])
  }

  lemma {:induction false} FedOnwards(s: Input, a: seq<InputEvent>, b: seq<InputEvent>, n: nat)
    requires n <= |b|
    ensures Fed(s, a + b, |a| + n) == Fed(Fed(s, a, |a|), b, n)
  {
    if n == 0 {
      FedFront(s, a, b, |a|);
    } else {
      FedOnwards(s, a, b, n - 1);
    }
  }

  lemma {:induction false} FedFront(s: Input, a: seq<InputEvent>, b: seq<InputEvent>, n: nat)
    requires n <= |a|
    ensures Fed(s, a + b, n) == Fed(s, a, n)
  {
    if n > 0 { FedFront(s, a, b, n - 1); }
  }

  lemma ContactFed(s: Input, x: Context)
    ensures Fed(s, Contact(x), 6) ==
            Input(Frame(x.sec1, x.nsec1, 0,
                        s.frame.values[(0, ABS_MT_TRACKING_ID) := x.contact][(0, ABS_MT_TOOL_TYPE) := MT_TOOL_FINGER],
                        s.frame.keys + {BTN_TOOL_FINGER}), s.reports)
  {
    var e := Contact(x);
    var s2 := Fed(s, e, 2);
    assert Fed(s, e, 1) == Feed(s, e[0]);
    assert s2 == Feed(Fed(s, e, 1), e[1]);
    var s4 := Fed(s, e, 4);
    assert Fed(s, e, 3) == Feed(s2, e[2]);
    assert s4 == Feed(Fed(s, e, 3), e[3]);
    assert Fed(s, e, 5) == Feed(s4, e[4]);
    assert Fed(s, e, 6) == Feed(Fed(s, e, 5), e[5]);
  }

  lemma AxesFed(s: Input, d: int)
    requires s.frame.slot == 0
    ensures var f := s.frame.(values := s.frame.values
                                [(0, ABS_MT_POSITION_X) := d + SEND_VALUE][(0, ABS_MT_POSITION_Y) := d + SEND_VALUE]
                                [(0, ABS_MT_TOUCH_MAJOR) := d + 20][(0, ABS_MT_TOUCH_MINOR) := d + 20]);
            Fed(s, Axes(d), 5) == Input(f, s.reports + [f])
  {
    var e := Axes(d);
    var s2 := Fed(s, e, 2);
    assert Fed(s, e, 1) == Feed(s, e[0]);
    assert s2 == Feed(Fed(s, e, 1), e[1]);
    var s4 := Fed(s, e, 4);
    assert Fed(s, e, 3) == Feed(s2, e[2]);
    assert s4 == Feed(Fed(s, e, 3), e[3]);
    assert Fed(s, e, 5) == Feed(s4, e[4]);
  }

  lemma UpFed(s: Input, x: Context)
    ensures var f := Frame(x.sec2, x.nsec2, 0, s.frame.values[(0, ABS_MT_TRACKING_ID) := -1],
                           s.frame.keys - {BTN_TOOL_FINGER});
            Fed(s, Up(x), 6) == Input(f, s.reports + [f])
  {
    var e := Up(x);
    var s2 := Fed(s, e, 2);
    assert Fed(s, e, 1) == Feed(s, e[0]);
    assert s2 == Feed(Fed(s, e, 1), e[1]);
    var s4 := Fed(s, e, 4);
    assert Fed(s, e, 3) == Feed(s2, e[2]);
    assert s4 == Feed(Fed(s, e, 3), e[3]);
    assert Fed(s, e, 5) == Feed(s4, e[4]);
    assert Fed(s, e, 6) == Feed(Fed(s, e, 5), e[5]);
  }

  predicate HasValue(f: Frame, code: int, value: int) {
    (0, code) in f.values && f.values[(0, code)] == value
  }

  /** A finger of that number is down in slot 0, at the fake position and with the fake size. */
  predicate FingerDown(f: Frame, d: int, x: Context) {
    && (f.sec, f.nsec, f.slot) == (x.sec1, x.nsec1, 0)
    && HasValue(f, ABS_MT_TRACKING_ID, x.contact) && HasValue(f, ABS_MT_TOOL_TYPE, MT_TOOL_FINGER)
    && HasValue(f, ABS_MT_POSITION_X, 230 + d) && HasValue(f, ABS_MT_POSITION_Y, 230 + d)
    && HasValue(f, ABS_MT_TOUCH_MAJOR, 20 + d) && HasValue(f, ABS_MT_TOUCH_MINOR, 20 + d)
    && BTN_TOOL_FINGER in f.keys
  }

  /** No finger is down in slot 0. */
  predicate FingerUp(f: Frame, x: Context) {
    && (f.sec, f.nsec, f.slot) == (x.sec2, x.nsec2, 0)
    && HasValue(f, ABS_MT_TRACKING_ID, -1) && BTN_TOOL_FINGER !in f.keys
  }

  /** Other slots, other axes and other keys are as they were. */
  ghost predicate OthersKept(before: Frame, after: Frame) {
    && after.keys - {BTN_TOOL_FINGER} == before.keys - {BTN_TOOL_FINGER}
    && forall slot: int, code: int | slot != 0 || code !in AXES + {ABS_MT_TRACKING_ID, ABS_MT_TOOL_TYPE} ::
         ((slot, code) in after.values <==> (slot, code) in before.values)
         && ((slot, code) in before.values ==> after.values[(slot, code)] == before.values[(slot, code)])
  }

  function FedAll(s: Input, events: seq<InputEvent>): Input {
    Fed(s, events, |events|)
  }

  lemma FedAppend(s: Input, a: seq<InputEvent>, b: seq<InputEvent>)
    ensures FedAll(s, a + b) == FedAll(FedAll(s, a), b)
  {
    FedOnwards(s, a, b, |b|);
  }

  /** Two reports have come: a finger down, and the finger lifted. */
  ghost predicate TouchShown(before: Input, after: Input, d: int, x: Context) {
    && |after.reports| == |before.reports| + 2 && before.reports <= after.reports
    && FingerDown(after.reports[|before.reports|], d, x) && OthersKept(before.frame, after.reports[|before.reports|])
    && FingerUp(after.frame, x) && OthersKept(before.frame, after.frame)
    && after.reports[|before.reports| + 1] == after.frame
  }

  /** One injection, whatever the state before it, is one touch. */
  lemma InjectionIsATouch(s: Input, d: int, x: Context)
    ensures TouchShown(s, FedAll(s, FakeTouch(d, x)), d, x)
  {
    var s1 := FedAll(s, Contact(x));
    var s2 := FedAll(s1, Axes(d));
    var s3 := FedAll(s2, Up(x));
    FedAppend(s, Contact(x), Axes(d));
    FedAppend(s, Contact(x) + Axes(d), Up(x));
    assert FedAll(s, FakeTouch(d, x)) == s3;
    TouchFromParts(s, s1, s2, s3, d, x);
  }

  lemma TouchFromParts(s: Input, s1: Input, s2: Input, s3: Input, d: int, x: Context)
    requires s1 == FedAll(s, Contact(x)) && s2 == FedAll(s1, Axes(d)) && s3 == FedAll(s2, Up(x))
    ensures TouchShown(s, s3, d, x)
  {
    ContactFed(s, x);
    AxesFed(s1, d);
    UpFed(s2, x);
  }

  /** Touch after touch, and nothing else. */
  ghost predicate TouchesShown(before: Input, after: Input, xs: seq<Context>) {
    && |after.reports| == |before.reports| + 2 * |xs| && before.reports <= after.reports
    && (forall k | 0 <= k < |xs| :: FingerDown(after.reports[|before.reports| + 2 * k], k % 2, xs[k]))
    && (forall k | 0 <= k < |xs| :: FingerUp(after.reports[|before.reports| + 2 * k + 1], xs[k]))
    && OthersKept(before.frame, after.frame)
    && if xs == [] then after == before else FingerUp(after.frame, xs[|xs| - 1])
  }

  lemma OneMoreTouch(s: Input, mid: Input, after: Input, xs: seq<Context>, x: Context)
    requires TouchesShown(s, mid, xs) && TouchShown(mid, after, |xs| % 2, x)
    ensures TouchesShown(s, after, xs + [x])
  {
    forall k | 0 <= k < |xs|
      ensures after.reports[|s.reports| + 2 * k] == mid.reports[|s.reports| + 2 * k]
      ensures after.reports[|s.reports| + 2 * k + 1] == mid.reports[|s.reports| + 2 * k + 1]
    {}
  }

  /** Any number of injections, whatever the state before them, are as many touches, each with its finger
      put down and lifted again, and no other report: no finger and no key of theirs is left down. */
  lemma {:induction false} InjectionsAreTouches(s: Input, xs: seq<Context>)
    ensures TouchesShown(s, FedAll(s, Injections(0, xs)), xs)
  {
    if xs != [] {
      var n := |xs| - 1;
      assert xs == xs[..n] + [xs[n]];
      InjectionsAreTouches(s, xs[..n]);
      OneMoreInjection(0, xs[..n], xs[n]);
      var before := FedAll(s, Injections(0, xs[..n]));
      FedAppend(s, Injections(0, xs[..n]), FakeTouch(n % 2, xs[n]));
      InjectionIsATouch(before, n % 2, xs[n]);
      OneMoreTouch(s, before, FedAll(before, FakeTouch(n % 2, xs[n])), xs[..n], xs[n]);
    }
  }
}
