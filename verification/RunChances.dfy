/** The chances of a whole run of real and fake events, counted in sequences of random words. */
module RunChances {
  import opened Random
  import opened Scheduler

  /** What can be seen of a re-draw: when it came and the deadline it set. */
  datatype Seen = Seen(at: nat, deadline: nat)

  /** The sequences of accepted random words that lead to what is seen; fakes says which events are fake. */
  ghost function WordRuns(fakes: seq<bool>, seen: seq<Seen>, resolution: nat): set<seq<int>>
    requires resolution > 0 && |fakes| == |seen|
  {
    if seen == [] then {[]}
    else
      var n := |seen| - 1;
      Extended(WordRuns(fakes[..n], seen[..n], resolution), WordsTo(fakes[n], seen[n].at, seen[n].deadline, resolution))
  }

  ghost function Extended<T>(fronts: set<seq<T>>, words: set<T>): set<seq<T>> {
    set front, word | front in fronts && word in words :: front + [word]
  }

  lemma ExtendedHas<T>(fronts: set<seq<T>>, words: set<T>, front: seq<T>, word: T)
    ensures front + [word] in Extended(fronts, words) <==> front in fronts && word in words
  {
    if front + [word] in Extended(fronts, words) {
      var front', word' :| front' in fronts && word' in words && front' + [word'] == front + [word];
      assert (front + [word])[..|front|] == front && (front' + [word'])[..|front'|] == front';
      assert (front + [word])[|front|] == word && (front' + [word'])[|front'|] == word';
    }
  }

  lemma WithoutOne<T>(fronts: set<seq<T>>, front: seq<T>, word: T)
    requires front in fronts
    ensures Extended(fronts, {word}) == Extended(fronts - {front}, {word}) + {front + [word]}
    ensures front + [word] !in Extended(fronts - {front}, {word})
  {
    ExtendedHas(fronts - {front}, {word}, front, word);
    ExtendedHas(fronts, {word}, front, word);
    forall run | run in Extended(fronts, {word}) && run != front + [word]
      ensures run in Extended(fronts - {front}, {word})
    {
      var f :| f in fronts && run == f + [word];
      ExtendedHas(fronts - {front}, {word}, f, word);
    }
    forall run | run in Extended(fronts - {front}, {word})
      ensures run in Extended(fronts, {word})
    {
      var f :| f in fronts - {front} && run == f + [word];
      ExtendedHas(fronts, {word}, f, word);
    }
  }

  lemma {:induction false} ExtendedByOne<T>(fronts: set<seq<T>>, word: T)
    ensures |Extended(fronts, {word})| == |fronts|
    decreases |fronts|
  {
    if front :| front in fronts {
      ExtendedByOne(fronts - {front}, word);
      WithoutOne(fronts, front, word);
    } else {
      assert fronts == {} && Extended(fronts, {word}) == {};
    }
  }

  lemma DisjointSize<T>(a: set<T>, b: set<T>)
    requires a !! b
    ensures |a + b| == |a| + |b|
  {}

  lemma ExtendedSplit<T>(fronts: set<seq<T>>, words: set<T>, word: T)
    requires word in words
    ensures Extended(fronts, words) == Extended(fronts, {word}) + Extended(fronts, words - {word})
    ensures Extended(fronts, {word}) !! Extended(fronts, words - {word})
  {
    forall run | run in Extended(fronts, {word})
      ensures run !in Extended(fronts, words - {word})
    {
      var front :| front in fronts && run == front + [word];
      ExtendedHas(fronts, words - {word}, front, word);
    }
  }

  lemma ExtendedByAnother<T>(fronts: set<seq<T>>, words: set<T>, word: T)
    requires word in words
    ensures |Extended(fronts, words)| == |fronts| + |Extended(fronts, words - {word})|
  {
    ExtendedSplit(fronts, words, word);
    ExtendedByOne(fronts, word);
    DisjointSize(Extended(fronts, {word}), Extended(fronts, words - {word}));
  }

  lemma OneMoreTimes(a: nat, b: nat)
    ensures a * (b + 1) == a + a * b
  {}

  lemma {:induction false} ExtendedSize<T>(fronts: set<seq<T>>, words: set<T>)
    ensures |Extended(fronts, words)| == |fronts| * |words|
    decreases |words|
  {
    if words == {} {
      assert Extended(fronts, words) == {};
    } else {
      var word :| word in words;
      ExtendedSize(fronts, words - {word});
      ExtendedByAnother(fronts, words, word);
      OneMoreTimes(|fronts|, |words - {word}|);
      assert |words| == |words - {word}| + 1;
    }
  }

  /** The event a word makes of what is seen. */
  function EventOf(fake: bool, seen: Seen, word: int): Event
    requires AcceptedWord(word)
  {
    var draw := Image(RND_MIN, Span(RND_MIN, RND_MAX), word);
    if fake then Fire(seen.at, draw) else Real(seen.at, draw)
  }

  function EventsOf(fakes: seq<bool>, seen: seq<Seen>, words: seq<int>): seq<Event>
    requires |fakes| == |seen| == |words| && AllAccepted(words)
  {
    seq(|words|, i requires 0 <= i < |words| => EventOf(fakes[i], seen[i], words[i]))
  }

  predicate AcceptedWord(word: int) {
    0 <= word < TWO_TO_THE_32 && Accepted(Span(RND_MIN, RND_MAX), word)
  }

  predicate AllAccepted(words: seq<int>) {
    forall i | 0 <= i < |words| :: AcceptedWord(words[i])
  }

  /** Fake events come in exactly on their deadlines. */
  predicate FakesOnDeadline(s: Sched, fakes: seq<bool>, seen: seq<Seen>)
    requires |fakes| == |seen|
  {
    seen != [] ==>
      var n := |seen| - 1;
      && FakesOnDeadline(s, fakes[..n], seen[..n])
      && (fakes[n] ==> seen[n].at == if n == 0 then s.timer.expires else seen[n - 1].deadline)
  }

  /** A run shows what is seen: each of its events sets the deadline that belongs to it. */
  predicate ShowsSeen(s: Sched, run: seq<Event>, seen: seq<Seen>, resolution: nat)
    requires resolution > 0 && |run| == |seen|
  {
    forall i | 0 <= i < |seen| :: Final(s, run[..i + 1], resolution).timer.expires == seen[i].deadline
  }

  /** The words counted are exactly those whose run shows what is seen. */
  lemma {:induction false} WordRunsShow(s: Sched, fakes: seq<bool>, seen: seq<Seen>, words: seq<int>, resolution: nat)
    requires resolution > 0 && |fakes| == |seen| == |words| && FakesOnDeadline(s, fakes, seen)
    ensures words in WordRuns(fakes, seen, resolution) <==>
            AllAccepted(words) && ShowsSeen(s, EventsOf(fakes, seen, words), seen, resolution)
    decreases |seen|
  {
    if seen != [] {
      var n := |seen| - 1;
      WordRunsShow(s, fakes[..n], seen[..n], words[..n], resolution);
      ExtendedHas(WordRuns(fakes[..n], seen[..n], resolution),
                  WordsTo(fakes[n], seen[n].at, seen[n].deadline, resolution), words[..n], words[n]);
      assert words == words[..n] + [words[n]];
      AcceptedFront(words);
      if AllAccepted(words) {
        LastSeen(s, fakes, seen, words, resolution);
      }
    }
  }

  lemma {:induction false} WordRunsLength(fakes: seq<bool>, seen: seq<Seen>, words: seq<int>, resolution: nat)
    requires resolution > 0 && |fakes| == |seen| && words in WordRuns(fakes, seen, resolution)
    ensures |words| == |seen|
    decreases |seen|
  {
    if seen != [] {
      var n := |seen| - 1;
      var front, word :| front in WordRuns(fakes[..n], seen[..n], resolution)
                         && word in WordsTo(fakes[n], seen[n].at, seen[n].deadline, resolution) && words == front + [word];
      WordRunsLength(fakes[..n], seen[..n], front, resolution);
    }
  }

  lemma AcceptedFront(words: seq<int>)
    requires words != []
    ensures AllAccepted(words) <==> AllAccepted(words[..|words| - 1]) && AcceptedWord(words[|words| - 1])
  {
    assert forall i | 0 <= i < |words| - 1 :: words[..|words| - 1][i] == words[i];
  }

  lemma EventsFront(fakes: seq<bool>, seen: seq<Seen>, words: seq<int>)
    requires |fakes| == |seen| == |words| > 0 && AllAccepted(words)
    ensures var n, run := |seen| - 1, EventsOf(fakes, seen, words);
            run[..n] == EventsOf(fakes[..n], seen[..n], words[..n]) && run[n] == EventOf(fakes[n], seen[n], words[n])
  {}

  lemma DeadlineBefore(s: Sched, run: seq<Event>, seen: seq<Seen>, resolution: nat)
    requires resolution > 0 && |run| == |seen| && ShowsSeen(s, run, seen, resolution)
    ensures Final(s, run, resolution).timer.expires == if seen == [] then s.timer.expires else seen[|seen| - 1].deadline
  {
    if seen != [] { assert run[..|seen| - 1 + 1] == run; }
  }

  /** One more event, on the deadlines of the run before it. */
  lemma LastSeen(s: Sched, fakes: seq<bool>, seen: seq<Seen>, words: seq<int>, resolution: nat)
    requires resolution > 0 && |fakes| == |seen| == |words| > 0 && AllAccepted(words) && FakesOnDeadline(s, fakes, seen)
    ensures var n := |seen| - 1;
            ShowsSeen(s, EventsOf(fakes, seen, words), seen, resolution) <==>
            && ShowsSeen(s, EventsOf(fakes[..n], seen[..n], words[..n]), seen[..n], resolution)
            && words[n] in WordsTo(fakes[n], seen[n].at, seen[n].deadline, resolution)
  {
    var n, run := |seen| - 1, EventsOf(fakes, seen, words);
    EventsFront(fakes, seen, words);
    ShownFront(s, run, seen, resolution);
    if ShowsSeen(s, run[..n], seen[..n], resolution) {
      DeadlineBefore(s, run[..n], seen[..n], resolution);
      LastWord(s, run, fakes[n], words[n], seen[n], resolution);
    }
  }

  lemma ShownFront(s: Sched, run: seq<Event>, seen: seq<Seen>, resolution: nat)
    requires resolution > 0 && |run| == |seen| > 0
    ensures var n := |seen| - 1;
            ShowsSeen(s, run, seen, resolution) <==>
            && ShowsSeen(s, run[..n], seen[..n], resolution)
            && Final(s, run, resolution).timer.expires == seen[n].deadline
  {
    var n := |seen| - 1;
    assert run[..n + 1] == run;
    assert forall i | 0 <= i < n :: run[..i + 1] == run[..n][..i + 1] && seen[..n][i] == seen[i];
  }

  lemma LastWord(s: Sched, run: seq<Event>, fake: bool, word: int, seen: Seen, resolution: nat)
    requires resolution > 0 && run != [] && AcceptedWord(word)
    requires run[|run| - 1] == EventOf(fake, seen, word)
    requires fake ==> Final(s, run[..|run| - 1], resolution).timer.expires == seen.at
    ensures Final(s, run, resolution).timer.expires == seen.deadline
       <==> word in WordsTo(fake, seen.at, seen.deadline, resolution)
  {
    assert Final(s, run, resolution) == Step(Final(s, run[..|run| - 1], resolution), run[|run| - 1], resolution);
  }

  /** What keystrokes alone can show: every deadline at most RND_MAX ahead. */
  predicate SeenFromKeys(seen: seq<Seen>) {
    forall i | 0 <= i < |seen| :: seen[i].at <= seen[i].deadline <= seen[i].at + RND_MAX
  }

  predicate FakeShows(fakes: seq<bool>, seen: seq<Seen>, resolution: nat)
    requires |fakes| == |seen|
  {
    exists i :: 0 <= i < |seen| && fakes[i] && ResolutionShows(seen[i].at, seen[i].deadline, resolution)
  }

  predicate FakeTooEarly(fakes: seq<bool>, seen: seq<Seen>, resolution: nat)
    requires |fakes| == |seen|
  {
    exists i :: 0 <= i < |seen| && fakes[i] && seen[i].deadline < seen[i].at + resolution
  }

  function AllReal(n: nat): seq<bool> {
    seq(n, _ => false)
  }

  lemma LargerProduct(a: nat, b: nat, c: nat, d: nat)
    requires a >= b > 0 && c >= d > 0
    ensures a * c >= b * d > 0
    ensures a > b || c > d ==> a * c > b * d
  {
    assert a * c - b * d == (a - b) * c + b * (c - d);
    assert (a - b) * c >= 0 && b * (c - d) >= 0;
  }

  /** Whole runs of real and fake events: what is seen of them has the same chances, counted in sequences
      of random words, as if all of it had been keystrokes, exactly when no fake event has set a deadline
      within the timer's resolution. */
  lemma SameChancesForRuns(fakes: seq<bool>, seen: seq<Seen>, resolution: nat)
    requires resolution > 0 && |fakes| == |seen| && SeenFromKeys(seen)
    ensures |WordRuns(fakes, seen, resolution)| == |WordRuns(AllReal(|seen|), seen, resolution)|
       <==> !FakeShows(fakes, seen, resolution)
  {
    CompareRuns(fakes, seen, resolution);
    if FakeTooEarly(fakes, seen, resolution) {
      var i :| 0 <= i < |seen| && fakes[i] && seen[i].deadline < seen[i].at + resolution;
      assert ResolutionShows(seen[i].at, seen[i].deadline, resolution);
    }
  }

  /** How the number of sequences for a mixed run compares with that for keystrokes alone. */
  predicate Compare(mixed: nat, keys: nat, early: bool, shows: bool) {
    && keys > 0
    && (early ==> mixed == 0)
    && (!early ==> mixed >= keys && (mixed > keys <==> shows))
  }

  lemma CompareProducts(mixed: nat, keys: nat, early: bool, shows: bool, last: nat, key: nat, early': bool, shows': bool)
    requires Compare(mixed, keys, early, shows) && Compare(last, key, early', shows')
    ensures Compare(mixed * last, keys * key, early || early', shows || shows')
  {
    LargerProduct(keys, keys, key, key);
    if !early && !early' { LargerProduct(mixed, keys, last, key); }
  }

  lemma WordRunsSize(fakes: seq<bool>, seen: seq<Seen>, resolution: nat)
    requires resolution > 0 && |fakes| == |seen| > 0
    ensures var n := |seen| - 1;
            |WordRuns(fakes, seen, resolution)| == |WordRuns(fakes[..n], seen[..n], resolution)|
                                                   * |WordsTo(fakes[n], seen[n].at, seen[n].deadline, resolution)|
  {
    var n := |seen| - 1;
    ExtendedSize(WordRuns(fakes[..n], seen[..n], resolution), WordsTo(fakes[n], seen[n].at, seen[n].deadline, resolution));
  }

  lemma {:induction false} CompareRuns(fakes: seq<bool>, seen: seq<Seen>, resolution: nat)
    requires resolution > 0 && |fakes| == |seen| && SeenFromKeys(seen)
    ensures Compare(|WordRuns(fakes, seen, resolution)|, |WordRuns(AllReal(|seen|), seen, resolution)|,
                    FakeTooEarly(fakes, seen, resolution), FakeShows(fakes, seen, resolution))
    decreases |seen|
  {
    if seen != [] {
      var n := |seen| - 1;
      var at, deadline := seen[n].at, seen[n].deadline;
      assert forall i | 0 <= i < n :: seen[..n][i] == seen[i];
      CompareRuns(fakes[..n], seen[..n], resolution);
      CompareLast(fakes[n], at, deadline, resolution);
      WordRunsSize(fakes, seen, resolution);
      WordRunsSize(AllReal(n + 1), seen, resolution);
      assert AllReal(n + 1)[..n] == AllReal(n);
      FrontOrLast(fakes, seen, resolution);
      CompareProducts(|WordRuns(fakes[..n], seen[..n], resolution)|, |WordRuns(AllReal(n), seen[..n], resolution)|,
                      FakeTooEarly(fakes[..n], seen[..n], resolution), FakeShows(fakes[..n], seen[..n], resolution),
                      |WordsTo(fakes[n], at, deadline, resolution)|, |WordsTo(false, at, deadline, resolution)|,
                      fakes[n] && deadline < at + resolution, fakes[n] && ResolutionShows(at, deadline, resolution));
    }
  }

  lemma FrontOrLast(fakes: seq<bool>, seen: seq<Seen>, resolution: nat)
    requires |fakes| == |seen| > 0
    ensures var n := |seen| - 1;
            && (FakeTooEarly(fakes, seen, resolution) <==>
                  FakeTooEarly(fakes[..n], seen[..n], resolution)
                  || (fakes[n] && seen[n].deadline < seen[n].at + resolution))
            && (FakeShows(fakes, seen, resolution) <==>
                  FakeShows(fakes[..n], seen[..n], resolution)
                  || (fakes[n] && ResolutionShows(seen[n].at, seen[n].deadline, resolution)))
  {
    var n := |seen| - 1;
    assert forall i | 0 <= i < n :: fakes[..n][i] == fakes[i] && seen[..n][i] == seen[i];
  }

  lemma CompareLast(fake: bool, at: nat, deadline: nat, resolution: nat)
    requires resolution > 0 && at <= deadline <= at + RND_MAX
    ensures Compare(|WordsTo(fake, at, deadline, resolution)|, |WordsTo(false, at, deadline, resolution)|,
                    fake && deadline < at + resolution, fake && ResolutionShows(at, deadline, resolution))
  {
    KeyCounts(at, deadline, resolution);
    if fake { FakeCounts(at, deadline, resolution); }
  }
}
