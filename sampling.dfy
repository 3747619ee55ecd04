/** What the controller computes from the feedback stream, as functions of
    the stream and of how many readings were taken before: the averaged
    reading of `get_fpos`, the outcome of the settle-wait poll loop, and the
    candidate pulses and outcome of the zero-point search. The controller's
    methods are proved to produce exactly these. */
module Sampling {
  import opened CInt
  import opened Hardware

  /** Iteration budget of the settle-wait and the zero search. */
  const MAX_ITER: nat := 300
  /** Readings averaged by `get_fpos()`. */
  const DEFAULT_SAMPLES: nat := 4
  /** Readings averaged by the feedback-presence probe at start-up. */
  const PROBE_SAMPLES: nat := 8
  /** An averaged probe reading below this means no sensor is wired. */
  const NC_TH: nat := 5

  /** The `uint16_t` running sum `get_fpos` accumulates over the readings
      numbered `start` up to (not including) `end`. */
  function SampleSum(feed: Feed, start: nat, end: nat): U16
    decreases end - start
  {
    if end <= start then 0
    else
      var total := SampleSum(feed, start, end - 1) + ReadAt(feed, end - 1);
      if total < TWO16 then total else total - TWO16
  }

  /** The same sum over unbounded integers. */
  function TrueSum(feed: Feed, start: nat, end: nat): nat
    decreases end - start
  {
    if end <= start then 0 else TrueSum(feed, start, end - 1) + ReadAt(feed, end - 1)
  }

  /** Up to 64 readings of at most 1023 never overflow the 16-bit sum. */
  lemma {:induction false} SampleSumExact(feed: Feed, start: nat, end: nat)
    requires start <= end <= start + 64
    decreases end - start
    ensures TrueSum(feed, start, end) <= 1023 * (end - start)
    ensures SampleSum(feed, start, end) == TrueSum(feed, start, end)
  {
    if start < end {
      SampleSumExact(feed, start, end - 1);
    }
  }

  /** The value `get_fpos(n)` stores and returns. */
  function SampleMean(feed: Feed, start: nat, n: nat): U16
    requires 1 <= n
  {
    SampleSum(feed, start, start + n) / n
  }

  /** The 16-bit running sum is the true sum of the readings modulo 2^16,
      however many readings it adds. */
  lemma {:induction false} SampleSumWraps(feed: Feed, start: nat, end: nat)
    decreases end - start
    ensures SampleSum(feed, start, end) == Wrap16(TrueSum(feed, start, end))
  {
    if start < end {
      SampleSumWraps(feed, start, end - 1);
      WrapAdd(TrueSum(feed, start, end - 1), ReadAt(feed, end - 1));
    }
  }

  /** The value `get_fpos(n)` returns is the true mean of its `n` readings,
      rounded down, for every count up to 64. */
  lemma SampleMeanIsMean(feed: Feed, start: nat, n: nat)
    requires 1 <= n <= 64
    ensures SampleMean(feed, start, n) == TrueSum(feed, start, start + n) / n
  {
    SampleSumExact(feed, start, start + n);
  }

  lemma {:induction false} SumWithin(feed: Feed, start: nat, end: nat, lo: int, hi: int)
    requires start <= end
    requires forall k :: start <= k < end ==> lo <= ReadAt(feed, k) <= hi
    decreases end - start
    ensures (end - start) * lo <= TrueSum(feed, start, end) <= (end - start) * hi
  {
    if start < end {
      SumWithin(feed, start, end - 1, lo, hi);
      assert (end - start) * lo == (end - 1 - start) * lo + lo;
      assert (end - start) * hi == (end - 1 - start) * hi + hi;
    }
  }

  /** The averaged reading lies between the smallest and the largest raw
      reading it averages, for every count `get_fpos` can sum without
      overflow. */
  lemma MeanWithin(feed: Feed, start: nat, n: nat, lo: nat, hi: nat)
    requires 1 <= n <= 64
    requires forall k :: start <= k < start + n ==> lo <= ReadAt(feed, k) <= hi
    ensures lo <= SampleMean(feed, start, n) <= hi
  {
    var sum := TrueSum(feed, start, start + n);
    SampleSumExact(feed, start, start + n);
    SumWithin(feed, start, start + n, lo, hi);
    assert n * lo <= sum <= n * hi;
    assert SampleMean(feed, start, n) == sum / n;
    DivAtLeast(sum, n, lo);
    DivAtMost(sum, n, hi);
  }

  /** A sensor that holds one value `v` averages to exactly `v`. */
  lemma MeanOfConstant(feed: Feed, start: nat, n: nat, v: Reading)
    requires 1 <= n <= 64
    requires forall k :: start <= k < start + n ==> ReadAt(feed, k) == v
    ensures SampleMean(feed, start, n) == v
  {
    MeanWithin(feed, start, n, v, v);
  }

  /** Result of a bounded poll: whether it succeeded, how many readings had
      been taken since construction when it ended, and the last averaged
      reading. */
  datatype Poll = Poll(ok: bool, taken: nat, fpos: U16)

  /** Poll `j` of `wait_stable`, which starts at read number `t`, takes two
      averaged readings of four samples each; it settles when they agree. */
  predicate SettledAt(feed: Feed, t: nat, j: nat)
  {
    SampleMean(feed, t + 8 * j, DEFAULT_SAMPLES) == SampleMean(feed, t + 8 * j + 4, DEFAULT_SAMPLES)
  }

  /** The first poll in `[j, MAX_ITER)` that settles, or `MAX_ITER` when
      none does: where the loop of `wait_stable` stops. */
  function FirstSettled(feed: Feed, t: nat, j: nat): (r: nat)
    requires j <= MAX_ITER
    decreases MAX_ITER - j
    ensures j <= r <= MAX_ITER
    ensures r < MAX_ITER ==> SettledAt(feed, t, r)
  {
    if j == MAX_ITER then MAX_ITER
    else if SettledAt(feed, t, j) then j
    else FirstSettled(feed, t, j + 1)
  }

  /** No poll before the first settled one settles. */
  lemma {:induction false} FirstSettledMisses(feed: Feed, t: nat, j: nat, k: nat)
    requires j <= MAX_ITER && j <= k < FirstSettled(feed, t, j)
    decreases MAX_ITER - j
    ensures !SettledAt(feed, t, k)
  {
    if k > j {
      FirstSettledMisses(feed, t, j + 1, k);
    }
  }

  lemma {:induction false} FirstSettledIs(feed: Feed, t: nat, j: nat, r: nat)
    requires j <= r <= MAX_ITER
    requires forall k :: j <= k < r ==> !SettledAt(feed, t, k)
    requires r < MAX_ITER ==> SettledAt(feed, t, r)
    decreases MAX_ITER - j
    ensures FirstSettled(feed, t, j) == r
  {
    if j < r {
      FirstSettledIs(feed, t, j + 1, r);
    }
  }

  /** `wait_stable` on a servo with feedback, starting at read number `t`:
      it polls until a poll settles, at most `MAX_ITER` times, succeeds iff
      some poll within the budget settled, and then reports the settled
      value. */
  function Settle(feed: Feed, t: nat): (s: Poll)
    ensures t + 8 <= s.taken <= t + 8 * MAX_ITER
    ensures !s.ok ==> s.taken == t + 8 * MAX_ITER
    ensures s.fpos == SampleMean(feed, s.taken - 4, DEFAULT_SAMPLES)
  {
    var j := FirstSettled(feed, t, 0);
    var polls := if j < MAX_ITER then j + 1 else MAX_ITER;
    Poll(j < MAX_ITER, t + 8 * polls, SampleMean(feed, t + 8 * polls - 4, DEFAULT_SAMPLES))
  }

  /** `wait_stable` succeeds iff some poll within the budget settled, and
      then it reports the settled value: the two averaged readings of its
      last poll agree. */
  lemma SettleSucceedsIff(feed: Feed, t: nat)
    ensures Settle(feed, t).ok <==> exists j: nat :: j < MAX_ITER && SettledAt(feed, t, j)
    ensures Settle(feed, t).ok ==>
      Settle(feed, t).fpos == SampleMean(feed, Settle(feed, t).taken - 8, DEFAULT_SAMPLES)
  {
    var j := FirstSettled(feed, t, 0);
    if j == MAX_ITER {
      forall k: nat | k < MAX_ITER
        ensures !SettledAt(feed, t, k)
      {
        FirstSettledMisses(feed, t, 0, k);
      }
    }
  }

  /** None of the first `j` polls of `wait_stable` settled, stated one poll
      at a time as the loop establishes it. */
  predicate UnsettledBefore(feed: Feed, t: nat, j: nat)
    decreases j
  {
    j == 0 || (UnsettledBefore(feed, t, j - 1) && !SettledAt(feed, t, j - 1))
  }

  lemma {:induction false} UnsettledBeforeAll(feed: Feed, t: nat, j: nat)
    requires UnsettledBefore(feed, t, j)
    ensures forall k :: 0 <= k < j ==> !SettledAt(feed, t, k)
    decreases j
  {
    if j > 0 {
      UnsettledBeforeAll(feed, t, j - 1);
    }
  }

  /** The loop in `wait_stable` stopped at its first settled poll `j`. */
  lemma SettleStoppedAt(feed: Feed, t: nat, j: nat)
    requires j < MAX_ITER && SettledAt(feed, t, j)
    requires UnsettledBefore(feed, t, j)
    ensures Settle(feed, t) == Poll(true, t + 8 * (j + 1), SampleMean(feed, t + 8 * j + 4, DEFAULT_SAMPLES))
  {
    UnsettledBeforeAll(feed, t, j);
    FirstSettledIs(feed, t, 0, j);
  }

  /** The loop in `wait_stable` ran out of budget. */
  lemma SettleExhausted(feed: Feed, t: nat)
    requires UnsettledBefore(feed, t, MAX_ITER)
    ensures Settle(feed, t) == Poll(false, t + 8 * MAX_ITER, SampleMean(feed, t + 8 * MAX_ITER - 4, DEFAULT_SAMPLES))
  {
    UnsettledBeforeAll(feed, t, MAX_ITER);
    FirstSettledIs(feed, t, 0, MAX_ITER);
  }

  /** A servo already at rest settles on the first poll, reporting its
      reading. */
  lemma SettleWhenSteady(feed: Feed, t: nat, v: Reading)
    requires forall k :: t <= k < t + 8 ==> ReadAt(feed, k) == v
    ensures Settle(feed, t) == Poll(true, t + 8, v)
  {
    MeanOfConstant(feed, t, DEFAULT_SAMPLES, v);
    MeanOfConstant(feed, t + 4, DEFAULT_SAMPLES, v);
    assert SettledAt(feed, t, 0);
    SettleStoppedAt(feed, t, 0);
  }

  /** `wait_stable` as a whole: without feedback it fails at once, without
      reading, and leaves the last averaged reading `f0` as it was. */
  function WaitOutcome(hasFeedback: bool, feed: Feed, t: nat, f0: U16): (w: Poll)
    ensures w.ok ==> hasFeedback
    ensures !hasFeedback ==> w.taken == t && w.fpos == f0
    ensures hasFeedback ==> t + 8 <= w.taken <= t + 8 * MAX_ITER
  {
    if hasFeedback then Settle(feed, t) else Poll(false, t, f0)
  }

  /** The correction the zero search applies to its candidate pulse for a
      feedback error `err` (target minus reading): one step toward the
      target, plus twice the error when the error exceeds 10. */
  function CorrectionStep(err: int): (s: int)
    requires err != 0
    ensures (s > 0) == (err > 0)
    ensures Abs(s) == if Abs(err) > 10 then 2 * Abs(err) + 1 else 1
  {
    (if err > 0 then 1 else -1) + (if Abs(err) > 10 then 2 * err else 0)
  }

  /** The candidate pulse after a poll that read `got` while the target was
      `wanted`: the `uint16_t` increment or decrement, then the
      proportional correction, each wrapping. */
  function NextCandidate(cur: U16, wanted: U16, got: U16): U16
  {
    var stepped := if wanted > got then Wrap16(cur + 1) else Wrap16(cur - 1);
    if Abs(wanted - got) > 10 then Wrap16(stepped + (wanted - got) * 2) else stepped
  }

  /** The two wrapping steps of the update add up to one correction: the
      next candidate is the current one moved by `CorrectionStep` of the
      error, modulo 2^16. */
  lemma NextCandidateCorrects(cur: U16, wanted: U16, got: U16)
    requires wanted != got
    ensures NextCandidate(cur, wanted, got) == Wrap16(cur + CorrectionStep(wanted - got))
  {
    WrapAdd(cur + (if wanted > got then 1 else -1), (wanted - got) * 2);
  }

  /** Narrowing an intermediate sum does not change the final `uint16_t`. */
  lemma WrapAdd(a: int, b: int)
    ensures Wrap16(Wrap16(a) + b) == Wrap16(a + b)
  {
    var w := Wrap16(a);
    CongruentSum(a - w, (w + b) - Wrap16(w + b));
    assert (a + b) - Wrap16(w + b) == (a - w) + ((w + b) - Wrap16(w + b));
    var k := ((a + b) - Wrap16(w + b)) / TWO16;
    assert (a + b) - Wrap16(w + b) == TWO16 * k;
    assert Wrap16(w + b) == (a + b) - TWO16 * k;
  }

  /** Poll `j` of the zero search reads four samples starting at read
      number `s + 4 * j`; it succeeds when their average is the target. */
  predicate MatchesAt(feed: Feed, s: nat, wanted: U16, j: nat)
  {
    SampleMean(feed, s + 4 * j, DEFAULT_SAMPLES) == wanted
  }

  /** The first poll in `[j, MAX_ITER)` that reads the target, or
      `MAX_ITER` when none does: where the search loop stops. */
  function FirstMatch(feed: Feed, s: nat, wanted: U16, j: nat): (r: nat)
    requires j <= MAX_ITER
    decreases MAX_ITER - j
    ensures j <= r <= MAX_ITER
    ensures r < MAX_ITER ==> MatchesAt(feed, s, wanted, r)
  {
    if j == MAX_ITER then MAX_ITER
    else if MatchesAt(feed, s, wanted, j) then j
    else FirstMatch(feed, s, wanted, j + 1)
  }

  /** No poll before the first match reads the target. */
  lemma {:induction false} FirstMatchMisses(feed: Feed, s: nat, wanted: U16, j: nat, k: nat)
    requires j <= MAX_ITER && j <= k < FirstMatch(feed, s, wanted, j)
    decreases MAX_ITER - j
    ensures !MatchesAt(feed, s, wanted, k)
  {
    if k > j {
      FirstMatchMisses(feed, s, wanted, j + 1, k);
    }
  }

  lemma {:induction false} FirstMatchIs(feed: Feed, s: nat, wanted: U16, j: nat, r: nat)
    requires j <= r <= MAX_ITER
    requires forall k :: j <= k < r ==> !MatchesAt(feed, s, wanted, k)
    requires r < MAX_ITER ==> MatchesAt(feed, s, wanted, r)
    decreases MAX_ITER - j
    ensures FirstMatch(feed, s, wanted, j) == r
  {
    if j < r {
      FirstMatchIs(feed, s, wanted, j + 1, r);
    }
  }

  /** The candidate pulse the zero search commands in poll `j`. */
  function Candidate(feed: Feed, s: nat, wanted: U16, c0: U16, j: nat): U16
    decreases j
  {
    if j == 0 then c0
    else NextCandidate(Candidate(feed, s, wanted, c0, j - 1), wanted,
                       SampleMean(feed, s + 4 * (j - 1), DEFAULT_SAMPLES))
  }

  /** Poll `j` of the zero search, whose reading starts at read number
      `t`, matches iff that reading is the target, and otherwise moves the
      candidate on to the next one. */
  lemma CandidateStep(feed: Feed, s: nat, wanted: U16, c0: U16, j: nat, t: nat)
    requires t == s + 4 * j
    ensures MatchesAt(feed, s, wanted, j) == (SampleMean(feed, t, DEFAULT_SAMPLES) == wanted)
    ensures NextCandidate(Candidate(feed, s, wanted, c0, j), wanted, SampleMean(feed, t, DEFAULT_SAMPLES))
            == Candidate(feed, s, wanted, c0, j + 1)
  {
  }

  /** Result of the zero search: whether it converged, how many polls it
      made, and the candidate commanded in the last poll. */
  datatype Search = Search(converged: bool, polls: nat, candidate: U16)

  /** The feedback loop of `set_zero_pos_current`, with the target
      `wanted`, the starting candidate `c0` and its first poll at read
      number `s`: it polls at least once and at most `MAX_ITER` times, and
      only a search that converged stops early. */
  function ZeroSearch(feed: Feed, s: nat, wanted: U16, c0: U16): (z: Search)
    ensures 1 <= z.polls <= MAX_ITER
    ensures !z.converged ==> z.polls == MAX_ITER
  {
    var j := FirstMatch(feed, s, wanted, 0);
    var polls := if j < MAX_ITER then j + 1 else MAX_ITER;
    Search(j < MAX_ITER, polls, Candidate(feed, s, wanted, c0, polls - 1))
  }

  /** The search converges iff some poll within the budget reads the
      target, and the candidate it then commits is the one whose poll read
      the target. */
  lemma ZeroSearchConvergesIff(feed: Feed, s: nat, wanted: U16, c0: U16)
    ensures ZeroSearch(feed, s, wanted, c0).converged
            <==> exists j: nat :: j < MAX_ITER && MatchesAt(feed, s, wanted, j)
    ensures ZeroSearch(feed, s, wanted, c0).converged ==>
            MatchesAt(feed, s, wanted, ZeroSearch(feed, s, wanted, c0).polls - 1)
  {
    var j := FirstMatch(feed, s, wanted, 0);
    if j == MAX_ITER {
      forall k: nat | k < MAX_ITER
        ensures !MatchesAt(feed, s, wanted, k)
      {
        FirstMatchMisses(feed, s, wanted, 0, k);
      }
    }
  }

  /** None of the first `j` polls of the search read the target, stated one
      poll at a time as the loop establishes it. */
  predicate MissedBefore(feed: Feed, s: nat, wanted: U16, j: nat)
    decreases j
  {
    j == 0 || (MissedBefore(feed, s, wanted, j - 1) && !MatchesAt(feed, s, wanted, j - 1))
  }

  lemma {:induction false} MissedBeforeAll(feed: Feed, s: nat, wanted: U16, j: nat)
    requires MissedBefore(feed, s, wanted, j)
    ensures forall k :: 0 <= k < j ==> !MatchesAt(feed, s, wanted, k)
    decreases j
  {
    if j > 0 {
      MissedBeforeAll(feed, s, wanted, j - 1);
    }
  }

  /** The corrections of the first `j` polls added up over unbounded
      integers; a poll that read the target adds none. */
  function Drift(feed: Feed, s: nat, wanted: U16, j: nat): int
    decreases j
  {
    if j == 0 then 0
    else
      var got := SampleMean(feed, s + 4 * (j - 1), DEFAULT_SAMPLES);
      Drift(feed, s, wanted, j - 1) + (if got == wanted then 0 else CorrectionStep(wanted - got))
  }

  /** While no poll has read the target, the candidate of poll `j` is the
      first candidate moved by all corrections so far, wrapped once modulo
      2^16: the wrapping of the intermediate `uint16_t` candidates loses
      nothing. */
  lemma {:induction false} CandidateDrift(feed: Feed, s: nat, wanted: U16, c0: U16, j: nat)
    requires MissedBefore(feed, s, wanted, j)
    decreases j
    ensures Candidate(feed, s, wanted, c0, j) == Wrap16(c0 + Drift(feed, s, wanted, j))
  {
    if j > 0 {
      var i := j - 1;
      assert MissedBefore(feed, s, wanted, i) && !MatchesAt(feed, s, wanted, i);
      CandidateDrift(feed, s, wanted, c0, i);
      DriftStep(feed, s, wanted, c0, i, j);
    } else {
      assert Drift(feed, s, wanted, 0) == 0;
    }
  }

  /** One missed poll `i` adds its correction to the drift of the
      candidate of poll `j = i + 1`. */
  lemma DriftStep(feed: Feed, s: nat, wanted: U16, c0: U16, i: nat, j: nat)
    requires j == i + 1 && !MatchesAt(feed, s, wanted, i)
    requires Candidate(feed, s, wanted, c0, i) == Wrap16(c0 + Drift(feed, s, wanted, i))
    ensures Candidate(feed, s, wanted, c0, j) == Wrap16(c0 + Drift(feed, s, wanted, j))
  {
    var t := s + 4 * i;
    CandidateStep(feed, s, wanted, c0, i, t);
    var got := SampleMean(feed, t, DEFAULT_SAMPLES);
    var before := Drift(feed, s, wanted, i);
    var total := c0 + Drift(feed, s, wanted, j);
    assert total == c0 + before + CorrectionStep(wanted - got);
    CorrectionAccumulates(c0 + before, wanted, got, Candidate(feed, s, wanted, c0, i), total);
  }

  /** One correction on top of an accumulated, unwrapped position `x`. */
  lemma CorrectionAccumulates(x: int, wanted: U16, got: U16, cur: U16, total: int)
    requires wanted != got
    requires cur == Wrap16(x) && total == x + CorrectionStep(wanted - got)
    ensures NextCandidate(cur, wanted, got) == Wrap16(total)
  {
    NextCandidateCorrects(cur, wanted, got);
    WrapAdd(x, CorrectionStep(wanted - got));
  }

  /** The search loop stopped at its first matching poll `j`. */
  lemma ZeroSearchStoppedAt(feed: Feed, s: nat, wanted: U16, c0: U16, j: nat)
    requires j < MAX_ITER && MatchesAt(feed, s, wanted, j)
    requires MissedBefore(feed, s, wanted, j)
    ensures ZeroSearch(feed, s, wanted, c0) == Search(true, j + 1, Candidate(feed, s, wanted, c0, j))
  {
    MissedBeforeAll(feed, s, wanted, j);
    FirstMatchIs(feed, s, wanted, 0, j);
  }

  /** The search loop ran out of budget. */
  lemma ZeroSearchExhausted(feed: Feed, s: nat, wanted: U16, c0: U16)
    requires MissedBefore(feed, s, wanted, MAX_ITER)
    ensures ZeroSearch(feed, s, wanted, c0) == Search(false, MAX_ITER, Candidate(feed, s, wanted, c0, MAX_ITER - 1))
  {
    MissedBeforeAll(feed, s, wanted, MAX_ITER);
    FirstMatchIs(feed, s, wanted, 0, MAX_ITER);
  }

  /** A servo at rest: when the target reading and the first poll read the
      same steady value, the search converges at once and commits the pulse
      it started from. */
  lemma ZeroSearchAtRest(feed: Feed, t: nat, c0: U16, v: Reading)
    requires forall k :: t <= k < t + 8 ==> ReadAt(feed, k) == v
    ensures ZeroSearch(feed, t + 4, SampleMean(feed, t, DEFAULT_SAMPLES), c0) == Search(true, 1, c0)
  {
    MeanOfConstant(feed, t, DEFAULT_SAMPLES, v);
    MeanOfConstant(feed, t + 4, DEFAULT_SAMPLES, v);
    ZeroSearchStoppedAt(feed, t + 4, v, c0, 0);
  }
}
