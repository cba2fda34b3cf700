/** Scancodes, real and injected: first_layer/source/plugins/keyboard/plugin.c and .../devices/8042.c. */
module KeyEvents {
  import opened Common

  type Byte = b: int | 0 <= b < 256

  /** A scancode no key of the keyboard sends, and its release. */
  const ILLEGAL_SCANCODE: Byte := 0x5d
  const ILLEGAL_RELEASE: Byte := 0xdd

  /** A byte on its way to the keyboard driver. */
  datatype Item = Typed(code: Byte) | Injected(code: Byte)

  /** The driver's view of a one-byte scancode: bit 7 is a release. */
  function Decode(held: set<int>, code: Byte): set<int> {
    if code >= 0x80 then held - {code - 0x80} else held + {code}
  }

  /** The keys held after a stream of bytes. */
  function Held(stream: seq<Item>): set<int> {
    if stream == [] then {} else Decode(Held(stream[..|stream| - 1]), stream[|stream| - 1].code)
  }

  function TypedItems(stream: seq<Item>): seq<Item> {
    if stream == [] then []
    else TypedItems(stream[..|stream| - 1]) + if stream[|stream| - 1].Typed? then [stream[|stream| - 1]] else []
  }

  function InjectedCodes(stream: seq<Item>): seq<Byte> {
    if stream == [] then []
    else InjectedCodes(stream[..|stream| - 1]) + if stream[|stream| - 1].Injected? then [stream[|stream| - 1].code] else []
  }

  /** The bytes of injection after injection, the last one possibly half done. */
  predicate InjectorBytes(codes: seq<Byte>) {
    forall i | 0 <= i < |codes| :: codes[i] == if i % 2 == 0 then ILLEGAL_SCANCODE else ILLEGAL_RELEASE
  }

  /** Fake scancodes are neutral: however the bytes of injections and of the keyboard interleave, the
      keys held are those held by the typed bytes alone, but for the illegal key itself. */
  lemma {:induction false} FakeKeysAreNeutral(stream: seq<Item>)
    requires InjectorBytes(InjectedCodes(stream))
    ensures Held(stream) - {ILLEGAL_SCANCODE} == Held(TypedItems(stream)) - {ILLEGAL_SCANCODE}
  {
    if stream != [] {
      var before, item := stream[..|stream| - 1], stream[|stream| - 1];
      assert InjectedCodes(before) <= InjectedCodes(stream);
      FakeKeysAreNeutral(before);
      if item.Typed? {
        OneMoreItem(TypedItems(before), item);
        DecodeKeepsOthers(Held(before), item.code);
        DecodeKeepsOthers(Held(TypedItems(before)), item.code);
      } else {
        assert TypedItems(stream) == TypedItems(before);
        assert InjectedCodes(stream)[|InjectedCodes(before)|] == item.code;
      }
    }
  }

  /** If the illegal key is never typed, it is held exactly between the two bytes of an injection. */
  lemma {:induction false} IllegalKeyHeldOnlyHalfway(stream: seq<Item>)
    requires InjectorBytes(InjectedCodes(stream)) && Typed(ILLEGAL_SCANCODE) !in stream && Typed(ILLEGAL_RELEASE) !in stream
    ensures ILLEGAL_SCANCODE in Held(stream) <==> |InjectedCodes(stream)| % 2 == 1
  {
    if stream != [] {
      var before, item := stream[..|stream| - 1], stream[|stream| - 1];
      assert InjectedCodes(before) <= InjectedCodes(stream);
      IllegalKeyHeldOnlyHalfway(before);
      assert item in stream;
      if item.Injected? { assert InjectedCodes(stream)[|InjectedCodes(before)|] == item.code; }
    }
  }

  lemma {:induction false} TypedAlone(stream: seq<Item>)
    requires Typed(ILLEGAL_SCANCODE) !in stream
    ensures ILLEGAL_SCANCODE !in Held(TypedItems(stream))
  {
    if stream != [] {
      var before, item := stream[..|stream| - 1], stream[|stream| - 1];
      TypedAlone(before);
      assert item in stream;
      if item.Typed? { OneMoreItem(TypedItems(before), item); }
      else { assert TypedItems(stream) == TypedItems(before); }
    }
  }

  lemma OneMoreItem(items: seq<Item>, item: Item)
    ensures Held(items + [item]) == Decode(Held(items), item.code)
  {
    assert (items + [item])[..|items|] == items;
  }

  /** So once every injection is complete, the keys held are exactly those of the typed bytes. */
  lemma CompleteInjectionsLeaveNoKey(stream: seq<Item>)
    requires InjectorBytes(InjectedCodes(stream)) && |InjectedCodes(stream)| % 2 == 0
    requires Typed(ILLEGAL_SCANCODE) !in stream && Typed(ILLEGAL_RELEASE) !in stream
    ensures Held(stream) == Held(TypedItems(stream))
  {
    FakeKeysAreNeutral(stream);
    IllegalKeyHeldOnlyHalfway(stream);
    TypedAlone(stream);
    var all, typed := Held(stream), Held(TypedItems(stream));
    assert all - {ILLEGAL_SCANCODE} == all && typed - {ILLEGAL_SCANCODE} == typed;
  }

  lemma DecodeKeepsOthers(held: set<int>, code: Byte)
    ensures Decode(held, code) - {ILLEGAL_SCANCODE} == Decode(held - {ILLEGAL_SCANCODE}, code) - {ILLEGAL_SCANCODE}
  {}

  // ------------------------------------------------------------- filter and tasklets

  /** What reaches the module: a byte of the i8042 port, or a processor running a tasklet. */
  datatype Happening = Arrives(data: Byte, aux: bool) | Runs(kind: EventType)

  function KindOf(data: Byte): EventType {
    if data >= 0x80 then KeyRelease else KeyPress
  }

  /** A scheduled tasklet is only marked, so bytes that come in before it runs share one callback. */
  datatype Tasklets = Tasklets(press: bool, release: bool, callbacks: seq<EventType>)

  predicate Pending(t: Tasklets, kind: EventType) {
    if kind.KeyPress? then t.press else t.release
  }

  function Schedule(t: Tasklets, kind: EventType, on: bool): Tasklets {
    if kind.KeyPress? then t.(press := on) else t.(release := on)
  }

  function Happens(t: Tasklets, h: Happening): Tasklets {
    match h
    case Arrives(data, aux) => if aux then t else Schedule(t, KindOf(data), true)
    case Runs(kind) =>
      if Pending(t, kind) then Schedule(t, kind, false).(callbacks := t.callbacks + [kind]) else t
  }

  function After(hs: seq<Happening>): Tasklets {
    if hs == [] then Tasklets(false, false, []) else Happens(After(hs[..|hs| - 1]), hs[|hs| - 1])
  }

  /** The keyboard bytes of a kind, since its tasklet last ran. */
  function Waiting(hs: seq<Happening>, kind: EventType): nat {
    if hs == [] then 0
    else
      match hs[|hs| - 1]
      case Arrives(data, aux) =>
        Waiting(hs[..|hs| - 1], kind) + if !aux && KindOf(data) == kind then 1 else 0
      case Runs(k) => if k == kind then 0 else Waiting(hs[..|hs| - 1], kind)
  }

  function Bytes(hs: seq<Happening>, kind: EventType): nat {
    if hs == [] then 0
    else
      Bytes(hs[..|hs| - 1], kind) +
      if hs[|hs| - 1].Arrives? && !hs[|hs| - 1].aux && KindOf(hs[|hs| - 1].data) == kind then 1 else 0
  }

  /** No key is missed and none made up: a kind's tasklet is pending exactly when a byte of that kind
      has come in since it last ran, and there are never more callbacks than bytes. */
  lemma {:induction false} TaskletsCoverKeys(hs: seq<Happening>, kind: EventType)
    ensures Pending(After(hs), kind) <==> Waiting(hs, kind) > 0
    ensures multiset(After(hs).callbacks)[kind] + Waiting(hs, kind) <= Bytes(hs, kind)
    ensures Bytes(hs, kind) > 0 ==> kind in After(hs).callbacks || Pending(After(hs), kind)
  {
    if hs != [] { TaskletsCoverKeys(hs[..|hs| - 1], kind); }
  }

  /** At place i a processor runs a tasklet for which a byte is waiting. */
  predicate Serves(hs: seq<Happening>, i: nat) {
    i < |hs| && hs[i].Runs? && Waiting(hs[..i], hs[i].kind) > 0
  }

  /** How many places before n serve a byte, of one kind or of any. */
  function ServedPlaces(hs: seq<Happening>, n: nat): set<nat> {
    set i: nat | i < n && Serves(hs, i)
  }

  function ServedPlacesOf(hs: seq<Happening>, n: nat, kind: EventType): set<nat>
    requires n <= |hs|
  {
    set i: nat | i < n && hs[i] == Runs(kind) && Serves(hs, i)
  }

  lemma AddedOne(before: set<nat>, after: set<nat>, n: nat, added: bool)
    requires n !in before && forall i :: i in after <==> i in before || (added && i == n)
    ensures |after| == |before| + if added then 1 else 0
  {
    assert after == if added then before + {n} else before;
  }

  lemma ServedMore(hs: seq<Happening>, n: nat)
    requires n < |hs|
    ensures |ServedPlaces(hs, n + 1)| == |ServedPlaces(hs, n)| + if Serves(hs, n) then 1 else 0
  {
    AddedOne(ServedPlaces(hs, n), ServedPlaces(hs, n + 1), n, Serves(hs, n));
  }

  lemma ServedMoreOf(hs: seq<Happening>, n: nat, kind: EventType)
    requires n < |hs|
    ensures |ServedPlacesOf(hs, n + 1, kind)|
         == |ServedPlacesOf(hs, n, kind)| + if Serves(hs, n) && hs[n].kind == kind then 1 else 0
  {
    AddedOne(ServedPlacesOf(hs, n, kind), ServedPlacesOf(hs, n + 1, kind), n, Serves(hs, n) && hs[n].kind == kind);
  }

  lemma CallbackMade(hs: seq<Happening>, n: nat)
    requires n < |hs|
    ensures After(hs[..n + 1]).callbacks == After(hs[..n]).callbacks + if Serves(hs, n) then [hs[n].kind] else []
  {
    assert hs[..n + 1][..n] == hs[..n];
    if hs[n].Runs? { TaskletsCoverKeys(hs[..n], hs[n].kind); }
  }

  /** The callbacks are exactly the runs of a tasklet for which a byte is waiting, in order: for every n,
      the callbacks after n happenings are as many as those runs, and each stands at the place that the
      number of those before it gives. */
  lemma {:induction false} CallbacksAreExact(hs: seq<Happening>, n: nat)
    requires n <= |hs|
    ensures |After(hs[..n]).callbacks| == |ServedPlaces(hs, n)|
    ensures forall i | i in ServedPlaces(hs, n) :: HasCallback(hs, i, After(hs[..n]).callbacks)
  {
    if n > 0 {
      var m := n - 1;
      CallbacksAreExact(hs, m);
      ServedMore(hs, m);
      CallbackMade(hs, m);
      var before, callbacks := After(hs[..m]).callbacks, After(hs[..n]).callbacks;
      forall i | i in ServedPlaces(hs, n)
        ensures HasCallback(hs, i, callbacks)
      {
        if i < m {
          assert i in ServedPlaces(hs, m);
          assert HasCallback(hs, i, before);
        }
      }
    }
  }

  /** The callback made at place i stands where the number of places served before it says. */
  predicate HasCallback(hs: seq<Happening>, i: nat, callbacks: seq<EventType>)
    requires Serves(hs, i)
  {
    |ServedPlaces(hs, i)| < |callbacks| && callbacks[|ServedPlaces(hs, i)|] == hs[i].kind
  }

  lemma {:induction false} CallbacksByKind(hs: seq<Happening>, n: nat, kind: EventType)
    requires n <= |hs|
    ensures multiset(After(hs[..n]).callbacks)[kind] == |ServedPlacesOf(hs, n, kind)|
  {
    if n > 0 {
      CallbacksByKind(hs, n - 1, kind);
      ServedMoreOf(hs, n - 1, kind);
      CallbackMade(hs, n - 1);
    }
  }

  /** Bit 7 decides the kind, and it is what the byte does to its key: a press adds the key to those held,
      a release takes it away. */
  lemma KindIsBit7(held: set<int>, data: Byte)
    ensures KindOf(data).KeyRelease? <==> data / 0x80 % 2 == 1
    ensures KindOf(data).KeyPress? ==> Decode(held, data) == held + {data % 0x80}
    ensures KindOf(data).KeyRelease? ==> Decode(held, data) == held - {data % 0x80}
  {}

  // ------------------------------------------------------------------ fan-out

  /** The masks have 32 bits, and shifting by more is undefined in the source. */
  type Cpu = c: nat | c < 32

  /** The processors an injection interrupts, in order: those online whose bit is set. */
  function Selected(online: seq<Cpu>, affinity: bv32, noneMeansAll: bool): seq<Cpu>
  {
    if online == [] then []
    else
      var n := |online| - 1;
      Selected(online[..n], affinity, noneMeansAll) +
      if InAffinity(affinity, online[n]) || (noneMeansAll && affinity == 0) then [online[n]] else []
  }

  predicate InAffinity(affinity: bv32, c: Cpu)
  {
    affinity & ((1 as bv32) << c) != 0
  }

  predicate Ascending(cpus: seq<Cpu>) {
    forall i, j | 0 <= i < j < |cpus| :: cpus[i] < cpus[j]
  }

  /** With an empty mask the keyboard interrupts nobody and the touchscreen everybody. */
  lemma {:induction false} SelectedExactly(online: seq<Cpu>, affinity: bv32, noneMeansAll: bool)
    ensures forall c: Cpu :: c in Selected(online, affinity, noneMeansAll) <==>
              c in online && (InAffinity(affinity, c) || (noneMeansAll && affinity == 0))
    ensures affinity == 0 ==> Selected(online, affinity, noneMeansAll) == if noneMeansAll then online else []
  {
    if online != [] {
      var n := |online| - 1;
      assert online == online[..n] + [online[n]];
      SelectedExactly(online[..n], affinity, noneMeansAll);
    }
  }

  /** A processor in the mask is interrupted once for every time it is listed. */
  lemma {:induction false} SelectedAsOften(online: seq<Cpu>, affinity: bv32, noneMeansAll: bool, c: Cpu)
    ensures multiset(Selected(online, affinity, noneMeansAll))[c]
         == if InAffinity(affinity, c) || (noneMeansAll && affinity == 0) then multiset(online)[c] else 0
  {
    if online != [] {
      var n := |online| - 1;
      assert online == online[..n] + [online[n]];
      SelectedAsOften(online[..n], affinity, noneMeansAll, c);
    }
  }

  /** Processors listed in ascending order are interrupted in that order. */
  lemma {:induction false} SelectedInOrder(online: seq<Cpu>, affinity: bv32, noneMeansAll: bool)
    requires Ascending(online)
    ensures Ascending(Selected(online, affinity, noneMeansAll))
  {
    if online != [] {
      var n := |online| - 1;
      SelectedInOrder(online[..n], affinity, noneMeansAll);
      SelectedExactly(online[..n], affinity, noneMeansAll);
      AscendingMore(Selected(online[..n], affinity, noneMeansAll), online[n]);
    }
  }

  lemma AscendingMore(cpus: seq<Cpu>, c: Cpu)
    requires Ascending(cpus) && forall d | d in cpus :: d < c
    ensures Ascending(cpus + [c]) && cpus + [] == cpus
  {
    assert forall i | 0 <= i < |cpus| :: cpus[i] in cpus;
  }

  method FanOut(online: seq<Cpu>, affinity: bv32, noneMeansAll: bool) returns (interrupted: seq<Cpu>)
    ensures interrupted == Selected(online, affinity, noneMeansAll)
  {
    interrupted := [];
    for i := 0 to |online|
      invariant interrupted == Selected(online[..i], affinity, noneMeansAll)
    {
      assert online[..i + 1][..i] == online[..i];
      if affinity & ((1 as bv32) << online[i]) != 0 || (noneMeansAll && affinity == 0) {
        interrupted := interrupted + [online[i]];
      }
    }
    assert online[..|online|] == online;
  }

  // ------------------------------------------------------------------- in place

  class KeyboardPlugin {
    var sent: seq<Byte>       // what went to the keyboard's port
    var interrupted: seq<Cpu> // the processors interrupted by the last injection
    var affinity: bv32
    var tasklets: Tasklets

    ghost predicate Valid()
      reads this
    {
      |sent| % 2 == 0 && InjectorBytes(sent)
    }

    constructor (affinity: bv32)
      ensures Valid() && sent == [] && tasklets == After([]) && this.affinity == affinity
    {
      this.affinity := affinity;
      sent, interrupted := [], [];
      tasklets := Tasklets(false, false, []);
    }

    method SendScancode(code: Byte)
      modifies `sent
      ensures sent == old(sent) + [code]
    {
      sent := sent + [code];
    }

    method Inject(online: seq<Cpu>) returns (r: int)
      requires Valid()
      modifies `sent, `interrupted
      ensures Valid() && r == 0
      ensures sent == old(sent) + [ILLEGAL_SCANCODE, ILLEGAL_RELEASE]
      ensures interrupted == Selected(online, affinity, false)
    {
      SendScancode(ILLEGAL_SCANCODE);
      SendScancode(ILLEGAL_SCANCODE + 0x80);
      interrupted := FanOut(online, affinity, false);
      r := 0;
    }

    /** Never holds a byte back. */
    method KeyFilter(data: Byte, aux: bool) returns (held: bool)
      modifies `tasklets
      ensures !held && tasklets == Happens(old(tasklets), Arrives(data, aux))
    {
      if aux {
        return false;
      }
      if data >= 0x80 {
        tasklets := tasklets.(release := true);
      } else {
        tasklets := tasklets.(press := true);
      }
      return false;
    }

    /** kb_callback, when a processor runs one of the two tasklets. */
    method RunTasklet(kind: EventType)
      modifies `tasklets
      ensures tasklets == Happens(old(tasklets), Runs(kind))
    {
      match kind
      case KeyPress =>
        if tasklets.press {
          tasklets := tasklets.(press := false, callbacks := tasklets.callbacks + [KeyPress]);
        }
      case KeyRelease =>
        if tasklets.release {
          tasklets := tasklets.(release := false, callbacks := tasklets.callbacks + [KeyRelease]);
        }
    }
  }
}
