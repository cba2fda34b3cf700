/** The trace log of real and fake events: first_layer/source/traces.c.

    The length of the buffers, TRACES_BUFFER, is a parameter. Cursors and sizes have 64 bits. */
module Traces {
  import opened Arithmetic
  import opened Common

  const TWO_TO_THE_64: int := 0x1_0000_0000_0000_0000

  type uint64 = x: int | 0 <= x < 0x1_0000_0000_0000_0000

  // ---------------------------------------------------------------- one log, by value

  /** A buffer with the cursor of the writer and that of the reader. */
  datatype Log = Log(data: seq<bv64>, count: uint64, read: uint64)

  predicate WellFormed(l: Log) {
    l.count < |l.data| < TWO_TO_THE_64
  }

  function Add(l: Log, stamp: bv64): (r: Log)
    requires WellFormed(l)
    ensures WellFormed(r) && |r.data| == |l.data|
  {
    var count := l.count + 1;
    Log(l.data[l.count := stamp], if count >= |l.data| then 0 else count, l.read)
  }

  /** What a read returns: an error, some words, or words from behind the end of the buffer. */
  datatype ReadResult = Fault | Got(words: seq<bv64>) | Overrun

  /** How many words a read of so many bytes copies. The subtraction is unsigned. */
  function ReadSize(l: Log, length: uint64): nat {
    var available := (l.count - l.read) % TWO_TO_THE_64;
    if length / 8 > available then available else length / 8
  }

  /** A read of length bytes; copies tells whether copying a non-empty range to the caller works. */
  function Read(l: Log, length: uint64, copies: bool): (r: (Log, ReadResult))
    requires WellFormed(l)
    ensures WellFormed(r.0) && |r.0.data| == |l.data|
  {
    var size := ReadSize(l, length);
    if length % 8 != 0 then (l, Fault)
    else if size > 0 && !copies then (l, Fault)
    else if l.read + size > |l.data| then (l, Overrun)
    else (l.(read := l.read + size), Got(l.data[l.read..l.read + size]))
  }

  /** The poll functions. */
  predicate Readable(l: Log) {
    l.read < l.count
  }

  function Reset(l: Log): (r: Log)
    requires WellFormed(l)
    ensures WellFormed(r) && |r.data| == |l.data|
  {
    l.(count := 0, read := 0)
  }

  // ----------------------------------------------------------------------- whole runs

  datatype Op = AddOp(stamp: bv64) | ReadOp(length: uint64, copies: bool) | ResetOp

  function Apply(l: Log, op: Op): (r: Log)
    requires WellFormed(l)
    ensures WellFormed(r) && |r.data| == |l.data|
  {
    match op
    case AddOp(stamp) => Add(l, stamp)
    case ReadOp(length, copies) => Read(l, length, copies).0
    case ResetOp => Reset(l)
  }

  function After(l: Log, ops: seq<Op>): (r: Log)
    requires WellFormed(l)
    ensures WellFormed(r) && |r.data| == |l.data|
  {
    if ops == [] then l else Apply(After(l, ops[..|ops| - 1]), ops[|ops| - 1])
  }

  /** The stamps added since the last reset. */
  function Added(ops: seq<Op>): seq<bv64> {
    if ops == [] then []
    else
      var before := Added(ops[..|ops| - 1]);
      match ops[|ops| - 1]
      case AddOp(stamp) => before + [stamp]
      case ReadOp(_, _) => before
      case ResetOp => []
  }

  /** All that reads have returned since the last reset, joined. */
  function Delivered(l: Log, ops: seq<Op>): seq<bv64>
    requires WellFormed(l)
  {
    if ops == [] then []
    else
      var before := Delivered(l, ops[..|ops| - 1]);
      match ops[|ops| - 1]
      case AddOp(_) => before
      case ReadOp(length, copies) =>
        (match Read(After(l, ops[..|ops| - 1]), length, copies).1 case Got(words) => before + words case _ => before)
      case ResetOp => []
  }

  /** Never as many additions without a reset as the buffer is long. */
  predicate NoWrap(size: nat, ops: seq<Op>) {
    forall k | 0 <= k <= |ops| :: |Added(ops[..k])| < size
  }

  predicate Fresh(l: Log) {
    WellFormed(l) && l.count == 0 && l.read == 0
  }

  /** The cursors split the buffer into what was delivered and what is still to be read. */
  predicate Queue(s: Log, added: seq<bv64>, delivered: seq<bv64>) {
    && s.read <= s.count == |added| <= |s.data|
    && added == s.data[..s.count]
    && delivered == s.data[..s.read]
  }

  lemma QueueSplits(s: Log, added: seq<bv64>, delivered: seq<bv64>)
    requires Queue(s, added, delivered)
    ensures added == delivered + s.data[s.read..s.count]
  {}

  lemma AddKeepsQueue(s: Log, added: seq<bv64>, delivered: seq<bv64>, stamp: bv64)
    requires WellFormed(s) && Queue(s, added, delivered) && |added| + 1 < |s.data|
    ensures Queue(Add(s, stamp), added + [stamp], delivered)
  {}

  /** A read that is not refused delivers the oldest unread stamps, as many as asked for and there. */
  lemma ReadKeepsQueue(s: Log, added: seq<bv64>, delivered: seq<bv64>, length: uint64, copies: bool)
    requires WellFormed(s) && Queue(s, added, delivered)
    ensures var unread := added[|delivered|..];
            var (s', result) := Read(s, length, copies);
            && !result.Overrun?
            && (result.Fault? <==> length % 8 != 0 || (!copies && length > 0 && unread != []))
            && (result.Fault? ==> s' == s)
            && (result.Got? ==>
                  && result.words == unread[..if length / 8 < |unread| then length / 8 else |unread|]
                  && Queue(s', added, delivered + result.words))
  {
    assert ReadSize(s, length) == if length / 8 < s.count - s.read then length / 8 else s.count - s.read;
  }

  lemma NoWrapBefore(size: nat, ops: seq<Op>)
    requires NoWrap(size, ops) && ops != []
    ensures NoWrap(size, ops[..|ops| - 1]) && |Added(ops)| < size
  {
    var n := |ops| - 1;
    assert forall k | 0 <= k <= n :: ops[..n][..k] == ops[..k];
    assert ops[..|ops|] == ops;
  }

  /** As long as the write cursor does not wrap, the log is a queue: what was added is what was
      delivered followed by what lies between the cursors. */
  lemma {:induction false} LogIsAQueue(l: Log, ops: seq<Op>)
    requires Fresh(l) && NoWrap(|l.data|, ops)
    ensures Queue(After(l, ops), Added(ops), Delivered(l, ops))
  {
    if ops != [] {
      var n := |ops| - 1;
      NoWrapBefore(|l.data|, ops);
      LogIsAQueue(l, ops[..n]);
      var s := After(l, ops[..n]);
      match ops[n]
      case AddOp(stamp) => AddKeepsQueue(s, Added(ops[..n]), Delivered(l, ops[..n]), stamp);
      case ReadOp(length, copies) => ReadKeepsQueue(s, Added(ops[..n]), Delivered(l, ops[..n]), length, copies);
      case ResetOp =>
    }
  }

  /** Added is delivered and then unread, with nothing lost, repeated or out of order. */
  lemma NothingLost(l: Log, ops: seq<Op>)
    requires Fresh(l) && NoWrap(|l.data|, ops)
    ensures var s := After(l, ops);
            s.read <= s.count && Added(ops) == Delivered(l, ops) + s.data[s.read..s.count]
  {
    LogIsAQueue(l, ops);
    QueueSplits(After(l, ops), Added(ops), Delivered(l, ops));
  }

  /** Every read of such a run is exact; and poll says readable exactly when a read of one word or more
      that copies successfully returns anything. */
  lemma ReadsAreExact(l: Log, ops: seq<Op>, length: uint64, copies: bool)
    requires Fresh(l) && NoWrap(|l.data|, ops)
    ensures Delivered(l, ops) <= Added(ops)
    ensures var unread := Added(ops)[|Delivered(l, ops)|..];
            var result := Read(After(l, ops), length, copies).1;
            && !result.Overrun?
            && (result.Fault? <==> length % 8 != 0 || (!copies && length > 0 && unread != []))
            && (result.Got? ==> result.words == unread[..if length / 8 < |unread| then length / 8 else |unread|])
    ensures length % 8 == 0 && length > 0 && copies ==>
              var result := Read(After(l, ops), length, copies).1;
              Readable(After(l, ops)) <==> result.Got? && result.words != []
  {
    LogIsAQueue(l, ops);
    ReadKeepsQueue(After(l, ops), Added(ops), Delivered(l, ops), length, copies);
  }

  /** Poll and the reads tell the truth after ops: what was delivered is the beginning of what was
      added, and poll says whether that is all. */
  predicate Truthful(l: Log, ops: seq<Op>)
    requires WellFormed(l)
  {
    && Delivered(l, ops) <= Added(ops)
    && (Readable(After(l, ops)) <==> Delivered(l, ops) != Added(ops))
  }

  /** The log behaves as a queue throughout a run exactly when the write cursor never wraps: at the
      moment it does, poll denies the stamp just added. */
  lemma {:induction false} TruthfulIffNoWrap(l: Log, ops: seq<Op>)
    requires Fresh(l)
    ensures (forall k | 0 <= k <= |ops| :: Truthful(l, ops[..k])) <==> NoWrap(|l.data|, ops)
  {
    if NoWrap(|l.data|, ops) {
      forall k | 0 <= k <= |ops|
        ensures Truthful(l, ops[..k])
      {
        assert forall j | 0 <= j <= k :: ops[..k][..j] == ops[..j];
        LogIsAQueue(l, ops[..k]);
      }
    } else {
      var k := FirstWrap(|l.data|, ops);
      var before := ops[..k - 1];
      assert ops[..k][..k - 1] == before;
      assert forall j | 0 <= j <= k - 1 :: before[..j] == ops[..j];
      LogIsAQueue(l, before);
      assert Added(ops[..k]) == Added(before) + [ops[k - 1].stamp];
      assert !Truthful(l, ops[..k]);
    }
  }

  lemma FirstWrap(size: nat, ops: seq<Op>) returns (k: nat)
    requires size > 0 && !NoWrap(size, ops)
    ensures 0 < k <= |ops| && |Added(ops[..k])| == size && ops[k - 1].AddOp?
    ensures forall j | 0 <= j < k :: |Added(ops[..j])| < size
  {
    k := 0;
    while |Added(ops[..k])| < size
      invariant k <= |ops|
      invariant forall j | 0 <= j < k :: |Added(ops[..j])| < size
      decreases |ops| - k
    {
      if k == |ops| {
        assert false;
      }
      k := k + 1;
    }
    assert k > 0;
    assert ops[..k][..k - 1] == ops[..k - 1];
    assert |Added(ops[..k - 1])| < size;
  }

  // ---------------------------------------------------------------- beyond the wrap

  lemma NextModulo(n: nat, size: nat)
    requires size > 0
    ensures (n + 1) % size == if n % size + 1 == size then 0 else n % size + 1
  {
    var q := n / size;
    assert n == q * size + n % size;
    if n % size + 1 == size {
      assert n + 1 == (q + 1) * size + 0;
      QuotientAndRemainder(n + 1, size, q + 1, 0);
    } else {
      QuotientAndRemainder(n + 1, size, q, n % size + 1);
    }
  }

  lemma NearbyModulo(j: nat, n: nat, size: nat)
    requires j < n < j + size
    ensures j % size != n % size
  {
    var q := j / size;
    assert j == q * size + j % size;
    if j % size + (n - j) < size {
      QuotientAndRemainder(n, size, q, j % size + (n - j));
    } else {
      assert n == (q + 1) * size + (j % size + (n - j) - size);
      QuotientAndRemainder(n, size, q + 1, j % size + (n - j) - size);
    }
  }

  lemma AddMovesCursor(l: Log, stamp: bv64, n: nat)
    requires WellFormed(l) && l.count == n % |l.data|
    ensures Add(l, stamp).count == (n + 1) % |l.data|
  {
    NextModulo(n, |l.data|);
  }

  /** In every run, with any number of wraps, the write cursor is the number of additions since the last
      reset, modulo the size of the buffer. */
  lemma {:induction false} CursorCountsModulo(l: Log, ops: seq<Op>)
    requires Fresh(l)
    ensures After(l, ops).count == |Added(ops)| % |l.data|
  {
    if ops == [] {
      QuotientAndRemainder(0, |l.data|, 0, 0);
    } else {
      var n := |ops| - 1;
      CursorCountsModulo(l, ops[..n]);
      match ops[n]
      case AddOp(stamp) => AddMovesCursor(After(l, ops[..n]), stamp, |Added(ops[..n])|);
      case ReadOp(_, _) =>
      case ResetOp => QuotientAndRemainder(0, |l.data|, 0, 0);
    }
  }

  /** And the buffer holds the newest stamps, as many as fit, each at its number modulo the size. */
  lemma {:induction false} BufferHoldsNewest(l: Log, ops: seq<Op>, j: nat)
    requires Fresh(l) && j < |Added(ops)| <= j + |l.data|
    ensures After(l, ops).data[j % |l.data|] == Added(ops)[j]
  {
    var n := |ops| - 1;
    var before := Added(ops[..n]);
    CursorCountsModulo(l, ops[..n]);
    if ops[n].AddOp? {
      if j < |before| {
        BufferHoldsNewest(l, ops[..n], j);
        NearbyModulo(j, |before|, |l.data|);
      }
    } else {
      BufferHoldsNewest(l, ops[..n], j);
    }
  }

  /** With the write cursor behind the read cursor the unsigned difference counts everything as unread: a
      read returns whatever lies ahead of the read cursor, and overruns the end of the buffer. */
  lemma ReadsPastTheWriter(l: Log, length: uint64)
    requires WellFormed(l) && |l.data| <= 0x8000_0000_0000_0000
    requires l.count < l.read <= |l.data| && length % 8 == 0
    ensures var (l', result) := Read(l, length, true);
            if length / 8 <= |l.data| - l.read
            then result == Got(l.data[l.read..l.read + length / 8]) && l' == l.(read := l.read + length / 8)
            else result == Overrun && l' == l
  {
    assert (l.count - l.read) % TWO_TO_THE_64 == TWO_TO_THE_64 + l.count - l.read;
  }

  // ---------------------------------------------------------------------- real stamps

  function Stamp(clock: bv64, event: EventType): bv64 {
    match event
    case KeyPress => clock | 1
    case KeyRelease => clock & !(1 as bv64)
  }

  /** The low bit of a real stamp is the event's type; the other 63 are the clock's. */
  lemma StampDecodes(clock: bv64, event: EventType)
    ensures Stamp(clock, event) & 1 == (if event.KeyPress? then 1 else 0)
    ensures Stamp(clock, event) >> 1 == clock >> 1
  {
    match event
    case KeyPress => OrOne(clock);
    case KeyRelease =>
  }

  lemma OrOne(clock: bv64)
    ensures (clock | 1) & 1 == 1 && (clock | 1) >> 1 == clock >> 1
  {}

  // ------------------------------------------------------------------------ two logs

  datatype TwoLogs = TwoLogs(realLog: Log, fakeLog: Log)

  /** The calls the module and its two devices offer. */
  datatype Call =
    | AddReal(clock: bv64, event: EventType)
    | AddFake(clock: bv64)
    | ReadReal(length: uint64, copies: bool)
    | ReadFake(length: uint64, copies: bool)
    | ResetBoth

  /** The part of a sequence of calls that concerns the real log. */
  function RealOps(calls: seq<Call>): seq<Op> {
    if calls == [] then []
    else
      RealOps(calls[..|calls| - 1]) +
      match calls[|calls| - 1]
      case AddReal(clock, event) => [AddOp(Stamp(clock, event))]
      case ReadReal(length, copies) => [ReadOp(length, copies)]
      case ResetBoth => [ResetOp]
      case _ => []
  }

  /** The part that concerns the fake log. */
  function FakeOps(calls: seq<Call>): seq<Op> {
    if calls == [] then []
    else
      FakeOps(calls[..|calls| - 1]) +
      match calls[|calls| - 1]
      case AddFake(clock) => [AddOp(clock)]
      case ReadFake(length, copies) => [ReadOp(length, copies)]
      case ResetBoth => [ResetOp]
      case _ => []
  }

  lemma AfterOneMore(l: Log, ops: seq<Op>, op: Op)
    requires WellFormed(l)
    ensures After(l, ops + [op]) == Apply(After(l, ops), op)
  {
    assert (ops + [op])[..|ops|] == ops;
  }

  // --------------------------------------------------------------------------- in place

  /** What a read hands to its caller: a number of bytes or an error, and the data. */
  predicate Returns(result: ReadResult, r: int, words: seq<bv64>, overrun: bool) {
    match result
    case Fault => r == -EFAULT && words == [] && !overrun
    case Got(got) => r == 8 * |got| && words == got && !overrun
    case Overrun => overrun
  }

  class TraceLog {
    const traces: array<bv64>
    var count: uint64
    var read: uint64

    ghost predicate Valid()
      reads this
    {
      count < traces.Length < TWO_TO_THE_64
    }

    ghost function View(): (l: Log)
      requires Valid()
      reads this, traces
      ensures WellFormed(l)
    {
      Log(traces[..], count, read)
    }

    constructor (size: nat)
      requires 0 < size < TWO_TO_THE_64
      ensures Valid() && Fresh(View()) && fresh(traces) && traces.Length == size
    {
      traces := new bv64[size](_ => 0);
      count, read := 0, 0;
    }

    method AddStamp(stamp: bv64)
      requires Valid()
      modifies this`count, traces
      ensures Valid() && View() == Add(old(View()), stamp)
    {
      traces[count] := stamp;
      var next := count + 1;
      if next >= traces.Length {
        next := 0;
      }
      count := next;
    }

    /** words is what reaches the caller's buffer; r is the number of bytes or an error. */
    method DevRead(length: uint64, copies: bool) returns (r: int, words: seq<bv64>, overrun: bool)
      requires Valid()
      modifies this`read
      ensures Valid() && View() == Read(old(View()), length, copies).0
      ensures Returns(Read(old(View()), length, copies).1, r, words, overrun)
    {
      r, words, overrun := -EFAULT, [], false;
      if length % 8 != 0 {
        return;
      }
      var maximumRead := length / 8;
      var maximumAvailable := (count - read) % TWO_TO_THE_64;
      var actualRead := maximumRead;
      if maximumRead > maximumAvailable {
        actualRead := maximumAvailable;
      }
      if actualRead > 0 && !copies {
        return;
      }
      if read + actualRead > traces.Length {
        overrun := true;
        return;
      }
      words := traces[read..read + actualRead];
      read := read + actualRead;
      r := actualRead * 8;
    }

    method DevPoll() returns (readable: bool)
      requires Valid()
      ensures readable <==> Readable(View())
    {
      readable := read < count;
    }

    method ResetCursors()
      requires Valid()
      modifies this`count, this`read
      ensures Valid() && View() == Reset(old(View()))
    {
      count, read := 0, 0;
    }
  }

  /** Both logs with the calls on them. */
  class TraceDevices {
    const realLog: TraceLog
    const fakeLog: TraceLog

    ghost predicate Valid()
      reads this, realLog, fakeLog
    {
      realLog.Valid() && fakeLog.Valid() && realLog != fakeLog && realLog.traces != fakeLog.traces
    }

    ghost function View(): TwoLogs
      requires Valid()
      reads this, realLog, fakeLog, realLog.traces, fakeLog.traces
    {
      TwoLogs(realLog.View(), fakeLog.View())
    }

    constructor (size: nat)
      requires 0 < size < TWO_TO_THE_64
      ensures Valid() && Fresh(View().realLog) && Fresh(View().fakeLog)
      ensures fresh(realLog) && fresh(fakeLog) && fresh(realLog.traces) && fresh(fakeLog.traces)
    {
      realLog := new TraceLog(size);
      fakeLog := new TraceLog(size);
    }

    method TracesAddReal(clock: bv64, event: EventType)
      requires Valid()
      modifies realLog, realLog.traces
      ensures Valid() && View() == old(View()).(realLog := Add(old(View()).realLog, Stamp(clock, event)))
    {
      var ts := clock;
      if event == KeyPress {
        ts := ts | 1;
      } else if event == KeyRelease {
        ts := ts & !(1 as bv64);
      }
      realLog.AddStamp(ts);
    }

    method TracesAddFake(clock: bv64)
      requires Valid()
      modifies fakeLog, fakeLog.traces
      ensures Valid() && View() == old(View()).(fakeLog := Add(old(View()).fakeLog, clock))
    {
      fakeLog.AddStamp(clock);
    }

    method DevReadReal(length: uint64, copies: bool) returns (r: int, words: seq<bv64>, overrun: bool)
      requires Valid()
      modifies realLog
      ensures Valid() && View() == old(View()).(realLog := Read(old(View()).realLog, length, copies).0)
      ensures Returns(Read(old(View()).realLog, length, copies).1, r, words, overrun)
    {
      r, words, overrun := realLog.DevRead(length, copies);
    }

    method DevReadFake(length: uint64, copies: bool) returns (r: int, words: seq<bv64>, overrun: bool)
      requires Valid()
      modifies fakeLog
      ensures Valid() && View() == old(View()).(fakeLog := Read(old(View()).fakeLog, length, copies).0)
      ensures Returns(Read(old(View()).fakeLog, length, copies).1, r, words, overrun)
    {
      r, words, overrun := fakeLog.DevRead(length, copies);
    }

    method TracesReset()
      requires Valid()
      modifies realLog, fakeLog
      ensures Valid() && View() == TwoLogs(Reset(old(View()).realLog), Reset(old(View()).fakeLog))
    {
      realLog.ResetCursors();
      fakeLog.ResetCursors();
    }

    method ServeCall(call: Call)
      requires Valid()
      modifies realLog, fakeLog, realLog.traces, fakeLog.traces
      ensures Valid()
      ensures match call
              case AddReal(clock, event) => View() == old(View()).(realLog := Apply(old(View()).realLog, AddOp(Stamp(clock, event))))
              case AddFake(clock) => View() == old(View()).(fakeLog := Apply(old(View()).fakeLog, AddOp(clock)))
              case ReadReal(length, copies) => View() == old(View()).(realLog := Apply(old(View()).realLog, ReadOp(length, copies)))
              case ReadFake(length, copies) => View() == old(View()).(fakeLog := Apply(old(View()).fakeLog, ReadOp(length, copies)))
              case ResetBoth => View() == TwoLogs(Apply(old(View()).realLog, ResetOp), Apply(old(View()).fakeLog, ResetOp))
    {
      match call
      case AddReal(clock, event) => TracesAddReal(clock, event);
      case AddFake(clock) => TracesAddFake(clock);
      case ReadReal(length, copies) => var _, _, _ := DevReadReal(length, copies);
      case ReadFake(length, copies) => var _, _, _ := DevReadFake(length, copies);
      case ResetBoth => TracesReset();
    }

    /** In any interleaving of calls each log ends where its own calls alone take it. */
    method Serve(calls: seq<Call>)
      requires Valid()
      modifies realLog, fakeLog, realLog.traces, fakeLog.traces
      ensures Valid()
      ensures View() == TwoLogs(After(old(View()).realLog, RealOps(calls)), After(old(View()).fakeLog, FakeOps(calls)))
    {
      ghost var start := View();
      for i := 0 to |calls|
        invariant Valid()
        invariant View() == TwoLogs(After(start.realLog, RealOps(calls[..i])), After(start.fakeLog, FakeOps(calls[..i])))
      {
        OneMoreCall(start, calls, i);
        ServeCall(calls[i]);
      }
      assert calls[..|calls|] == calls;
    }
  }

  lemma OneMoreCall(start: TwoLogs, calls: seq<Call>, i: nat)
    requires WellFormed(start.realLog) && WellFormed(start.fakeLog) && i < |calls|
    ensures var r, f := After(start.realLog, RealOps(calls[..i])), After(start.fakeLog, FakeOps(calls[..i]));
            var r', f' := After(start.realLog, RealOps(calls[..i + 1])), After(start.fakeLog, FakeOps(calls[..i + 1]));
            match calls[i]
            case AddReal(clock, event) => r' == Apply(r, AddOp(Stamp(clock, event))) && f' == f
            case AddFake(clock) => r' == r && f' == Apply(f, AddOp(clock))
            case ReadReal(length, copies) => r' == Apply(r, ReadOp(length, copies)) && f' == f
            case ReadFake(length, copies) => r' == r && f' == Apply(f, ReadOp(length, copies))
            case ResetBoth => r' == Apply(r, ResetOp) && f' == Apply(f, ResetOp)
  {
    assert calls[..i + 1][..i] == calls[..i];
    var ro, fo := RealOps(calls[..i]), FakeOps(calls[..i]);
    assert ro + [] == ro && fo + [] == fo;
    match calls[i]
    case AddReal(clock, event) => AfterOneMore(start.realLog, ro, AddOp(Stamp(clock, event)));
    case AddFake(clock) => AfterOneMore(start.fakeLog, fo, AddOp(clock));
    case ReadReal(length, copies) => AfterOneMore(start.realLog, ro, ReadOp(length, copies));
    case ReadFake(length, copies) => AfterOneMore(start.fakeLog, fo, ReadOp(length, copies));
    case ResetBoth =>
      AfterOneMore(start.realLog, ro, ResetOp);
      AfterOneMore(start.fakeLog, fo, ResetOp);
  }
}
