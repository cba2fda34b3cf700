/** The rejection sampler of first_layer/source/random.c.

    All arithmetic is that of the source: unsigned 32-bit, except for the 64-bit
    dividend 2^32. The random words are a parameter, because they come from the
    processor's generator. */
module Random {
  import opened Arithmetic

  const TWO_TO_THE_32: int := 0x1_0000_0000

  type uint32 = x: int | 0 <= x < 0x1_0000_0000

  /** The number of values asked for, with the source's wrap-around. It is 0 for a full range. */
  function Span(low: uint32, high: uint32): uint32 {
    (high - low + 1) % TWO_TO_THE_32
  }

  /** The acceptance bound. The product is stored in 32 bits, so a product of 2^32 becomes 0. */
  function Bound(n: uint32): uint32
    requires n != 0
  {
    (TWO_TO_THE_32 / n * n) % TWO_TO_THE_32
  }

  predicate Accepted(n: uint32, raw: uint32)
    requires n != 0
  {
    raw < Bound(n)
  }

  /** The value an accepted word stands for. */
  function Image(low: uint32, n: uint32, raw: uint32): uint32
    requires n != 0
  {
    (raw % n + low) % TWO_TO_THE_32
  }

  /** How many words of a stream are rejected before the first accepted one. */
  function Rejected(n: uint32, words: seq<uint32>): (k: nat)
    requires n != 0
    ensures k <= |words|
    ensures forall i | 0 <= i < k :: !Accepted(n, words[i])
    ensures k < |words| ==> Accepted(n, words[k])
  {
    if words == [] || Accepted(n, words[0]) then 0 else 1 + Rejected(n, words[1..])
  }

  /** A stream on which the sampler returns. */
  predicate Suffices(low: uint32, high: uint32, words: seq<uint32>) {
    Span(low, high) != 0 && Rejected(Span(low, high), words) < |words|
  }

  /** The value the sampler returns on such a stream. */
  function Drawn(low: uint32, high: uint32, words: seq<uint32>): uint32
    requires Suffices(low, high, words)
  {
    Image(low, Span(low, high), words[Rejected(Span(low, high), words)])
  }

  /** What became of a call after a finite part of the random stream. */
  datatype Outcome =
    | DivideByZero
    | StillDrawing
    | Returned(value: uint32, drawn: nat)

  /** The sampler, for every pair of arguments and every stream. */
  method GetRandom(low: uint32, high: uint32, words: seq<uint32>) returns (outcome: Outcome)
    ensures outcome.DivideByZero? <==> Span(low, high) == 0
    ensures outcome.Returned? <==> Suffices(low, high, words)
    ensures outcome.Returned? ==>
              && outcome.value == Drawn(low, high, words)
              && outcome.drawn == Rejected(Span(low, high), words) + 1
  {
    var n: uint32 := (high - low + 1) % TWO_TO_THE_32;
    var tmp := TWO_TO_THE_32;
    if n == 0 {
      return DivideByZero;
    }
    tmp := tmp / n;
    var randTruncation: uint32 := (tmp * n) % TWO_TO_THE_32;
    var i := 0;
    while i < |words|
      invariant 0 <= i <= |words|
      invariant Rejected(n, words) == i + Rejected(n, words[i..])
    {
      var rawRand := words[i];
      i := i + 1;
      if rawRand < randTruncation {
        return Returned((rawRand % n + low) % TWO_TO_THE_32, i);
      }
    }
    return StillDrawing;
  }

  // ---------------------------------------------------------------- progress

  /** Where n divides 2^32 the bound is 0 and no word is ever accepted; for every other n more than
      half of all words are. So a call can return exactly when n does not divide 2^32. */
  lemma BoundAboveHalfOrZero(n: uint32)
    requires n != 0
    ensures TWO_TO_THE_32 % n == 0 ==> Bound(n) == 0
    ensures TWO_TO_THE_32 % n != 0 ==> Bound(n) == TWO_TO_THE_32 / n * n && 2 * Bound(n) > TWO_TO_THE_32
  {
    var q, r := TWO_TO_THE_32 / n, TWO_TO_THE_32 % n;
    assert q * n + r == TWO_TO_THE_32;
    if r != 0 {
      assert 0 <= q * n < TWO_TO_THE_32;
      if 2 * n > TWO_TO_THE_32 {
        assert q == 1;
      }
    } else {
      assert q * n == TWO_TO_THE_32;
    }
  }

  lemma Pow2Of32()
    ensures Pow2(32) == TWO_TO_THE_32
  {
    assert Pow2(8) == 256;
    assert Pow2(16) == 65536;
    assert Pow2(24) == 0x100_0000;
  }

  lemma Pow2DividesOrExceeds(k: nat)
    ensures TWO_TO_THE_32 % Pow2(k) == 0 || Pow2(k) >= TWO_TO_THE_32
  {
    Pow2Of32();
    if k <= 32 {
      Pow2Sum(k, 32 - k);
      QuotientAndRemainder(TWO_TO_THE_32, Pow2(k), Pow2(32 - k), 0);
    } else {
      Pow2Sum(32, k - 32);
      MultipleBounds(TWO_TO_THE_32, Pow2(k - 32));
    }
  }

  /** The exact set of arguments for which the sampler can return at all: the number of values is
      neither 0 nor a power of two. A caller can check this before the call. */
  lemma ReturnsIffNotPowerOfTwo(low: uint32, high: uint32)
    ensures (exists words: seq<uint32> :: Suffices(low, high, words))
       <==> Span(low, high) != 0 && forall k: nat :: Span(low, high) != Pow2(k)
  {
    var n := Span(low, high);
    if n != 0 {
      BoundAboveHalfOrZero(n);
      if TWO_TO_THE_32 % n == 0 {
        Pow2Of32();
        assert n * (TWO_TO_THE_32 / n) == Pow2(32);
        var k := FactorOfPow2(n, TWO_TO_THE_32 / n, 32);
        assert forall words: seq<uint32> :: !Suffices(low, high, words);
      } else {
        assert Suffices(low, high, [0]);
        forall k: nat
          ensures n != Pow2(k)
        {
          Pow2DividesOrExceeds(k);
        }
      }
    }
  }

  /** The smallest failing calls: asking for a single value never returns. */
  lemma SingleValueNeverReturns(low: uint32, words: seq<uint32>)
    ensures !Suffices(low, low, words)
  {
    assert Span(low, low) == 1 && Bound(1) == 0;
  }

  // -------------------------------------------------------------- uniformity

  /** The values between low and high, wrapping past 2^32 when low > high. */
  predicate Requested(low: uint32, high: uint32, v: uint32) {
    if low <= high then low <= v <= high else v >= low || v <= high
  }

  lemma RequestedIsOffset(low: uint32, high: uint32, v: uint32)
    requires Span(low, high) != 0
    ensures Requested(low, high, v) <==> (v - low) % TWO_TO_THE_32 < Span(low, high)
  {}

  /** The accepted words that stand for v. */
  ghost function Preimages(low: uint32, n: uint32, v: uint32): set<int>
    requires n != 0
  {
    set raw: uint32 | 0 <= raw < TWO_TO_THE_32 && Accepted(n, raw) && Image(low, n, raw) == v :: raw
  }

  /** The k smallest numbers with remainder r modulo n. */
  ghost function Column(n: nat, r: nat, k: nat): set<int> {
    if k == 0 then {} else Column(n, r, k - 1) + {(k - 1) * n + r}
  }

  lemma {:induction false} ColumnSize(n: nat, r: nat, k: nat)
    requires r < n
    ensures |Column(n, r, k)| == k
    ensures forall x: int :: x in Column(n, r, k) <==> InColumn(n, r, k, x)
  {
    if k > 0 {
      ColumnSize(n, r, k - 1);
      forall x: int
        ensures InColumn(n, r, k, x) <==> InColumn(n, r, k - 1, x) || x == (k - 1) * n + r
      {
        ColumnTop(n, r, k, x);
      }
      ColumnTop(n, r, k, (k - 1) * n + r);
    }
  }

  predicate InColumn(n: nat, r: nat, k: nat, x: int)
    requires n != 0
  {
    0 <= x < k * n && x % n == r
  }

  lemma ColumnTop(n: nat, r: nat, k: nat, x: int)
    requires r < n && k > 0
    ensures InColumn(n, r, k, x) <==> InColumn(n, r, k - 1, x) || x == (k - 1) * n + r
    ensures !InColumn(n, r, k - 1, (k - 1) * n + r)
  {
    var base := (k - 1) * n;
    assert k * n == base + n && base >= 0;
    QuotientAndRemainder(base + r, n, k - 1, r);
    if base <= x < base + n {
      QuotientAndRemainder(x, n, k - 1, x - base);
    }
  }

  lemma WrapAround(r: uint32, low: uint32, v: uint32)
    ensures (r + low) % TWO_TO_THE_32 == v <==> r == (v - low) % TWO_TO_THE_32
  {}

  lemma ImageOffset(low: uint32, n: uint32, raw: uint32, v: uint32)
    requires n != 0
    ensures Image(low, n, raw) == v <==> raw % n == (v - low) % TWO_TO_THE_32
  {
    WrapAround(raw % n, low, v);
  }

  /** Exact uniformity: every requested value has the same number floor(2^32 / n) of accepted words,
      and no accepted word stands for any other value. */
  lemma Uniform(low: uint32, high: uint32, v: uint32)
    requires Span(low, high) != 0 && TWO_TO_THE_32 % Span(low, high) != 0
    ensures |Preimages(low, Span(low, high), v)|
         == if Requested(low, high, v) then TWO_TO_THE_32 / Span(low, high) else 0
  {
    var n := Span(low, high);
    var k, r := TWO_TO_THE_32 / n, (v - low) % TWO_TO_THE_32;
    BoundAboveHalfOrZero(n);
    RequestedIsOffset(low, high, v);
    if r < n {
      ColumnSize(n, r, k);
      forall x: int
        ensures x in Preimages(low, n, v) <==> x in Column(n, r, k)
      {
        if 0 <= x < TWO_TO_THE_32 { ImageOffset(low, n, x, v); }
      }
      assert Preimages(low, n, v) == Column(n, r, k);
    } else {
      forall x: int
        ensures x !in Preimages(low, n, v)
      {
        if 0 <= x < TWO_TO_THE_32 { ImageOffset(low, n, x, v); }
      }
      assert Preimages(low, n, v) == {};
    }
  }

  // ------------------------------------------------------------- call sites

  lemma OffsetInRange(low: uint32, high: uint32, r: uint32)
    requires r < Span(low, high)
    ensures Requested(low, high, (r + low) % TWO_TO_THE_32)
    ensures low <= high ==> (r + low) % TWO_TO_THE_32 == r + low <= high
  {}

  /** What a caller gets from a return: a value in range, reached without overflow. */
  lemma DrawnInRange(low: uint32, high: uint32, words: seq<uint32>)
    requires Suffices(low, high, words)
    ensures Requested(low, high, Drawn(low, high, words))
    ensures low <= high ==>
              var raw := words[Rejected(Span(low, high), words)];
              Drawn(low, high, words) == raw % Span(low, high) + low <= high
  {
    OffsetInRange(low, high, words[Rejected(Span(low, high), words)] % Span(low, high));
  }

  /** maximum random delay between fake keystrokes, in nanoseconds */
  const RND_MAX: uint32 := 20000000
  const RND_MIN: uint32 := 0
  /** random delay of the keyboard interrupt, in microseconds */
  const ISR_DELAY_MAX: uint32 := 100
  const ISR_DELAY_MIN: uint32 := 0
  /** random delay of the touchscreen interrupt, in microseconds */
  const TOUCH_DELAY_MAX: uint32 := 1000
  const TOUCH_DELAY_MIN: uint32 := 1

  /** Each of the three ranges the module asks for is sampled uniformly: every value in it has the same
      number of accepted words. And a stream suffices as soon as it holds a word from the lower half. */
  lemma CallSitesAreSound(low: uint32, high: uint32, words: seq<uint32>)
    requires (low, high) in {(RND_MIN, RND_MAX), (ISR_DELAY_MIN, ISR_DELAY_MAX), (TOUCH_DELAY_MIN, TOUCH_DELAY_MAX)}
    ensures Span(low, high) != 0
    ensures forall v: uint32 | low <= v <= high ::
              |Preimages(low, Span(low, high), v)| == TWO_TO_THE_32 / Span(low, high) > 0
    ensures (exists i :: 0 <= i < |words| && words[i] <= 0x8000_0000) ==> Suffices(low, high, words)
  {
    assert TWO_TO_THE_32 % Span(low, high) != 0;
    BoundAboveHalfOrZero(Span(low, high));
    forall v: uint32 | low <= v <= high
      ensures |Preimages(low, Span(low, high), v)| == TWO_TO_THE_32 / Span(low, high) > 0
    {
      Uniform(low, high, v);
    }
  }
}
