/**
 The gs_usb bit-timing search (GsUsbProtocol.cpp): of all the ways to reach a
 bit rate exactly, the one whose sample point lies nearest to 7/8.

 Sample points are compared as exact fractions.
 */
module GsUsbBitTiming {
  import opened CanTypes
  import opened Arithmetic

  const LIMIT32 := 0x1_0000_0000

  datatype BitTimingConstants = BitTimingConstants(
    clock: nat, tseg1Min: nat, tseg1Max: nat, tseg2Min: nat, tseg2Max: nat, sjwMax: nat,
    brpMin: nat, brpMax: nat, brpIncrement: nat)

  datatype BitTiming = BitTiming(propSeg: nat, phaseSeg1: nat, phaseSeg2: nat, sjw: nat, brp: nat)

  /** What DecodeBitTimingConstants lets through. */
  predicate Sane(c: BitTimingConstants) {
    && 0 < c.clock && 0 < c.brpMin <= c.brpMax
    && c.tseg1Min <= c.tseg1Max && c.tseg2Min <= c.tseg2Max
  }

  function Step(c: BitTimingConstants): nat {
    if c.brpIncrement > 1 then c.brpIncrement else 1
  }

  /** No 32-bit sum of the search wraps. */
  predicate NoWrap(c: BitTimingConstants) {
    c.brpMax + Step(c) < LIMIT32 && 1 + c.tseg1Max + c.tseg2Max < LIMIT32 && c.clock < LIMIT32
  }

  /* ---- What is looked for ---- */

  /** `brp` is one of the prescalers the device offers; a device that states no increment offers all of them. */
  ghost predicate OnGrid(c: BitTimingConstants, brp: nat) {
    && c.brpMin <= brp <= c.brpMax
    && (c.brpIncrement > 0 ==> exists i: nat :: brp == c.brpMin + i * c.brpIncrement)
  }

  lemma GridIndex(c: BitTimingConstants, brp: nat) returns (i: nat)
    requires OnGrid(c, brp)
    ensures brp == c.brpMin + i * Step(c)
  {
    if c.brpIncrement > 0 {
      i :| brp == c.brpMin + i * c.brpIncrement;
    } else {
      i := brp - c.brpMin;
    }
  }

  lemma IndexOnGrid(c: BitTimingConstants, brp: nat, i: nat)
    requires brp == c.brpMin + i * Step(c) && brp <= c.brpMax
    ensures OnGrid(c, brp)
  {
  }

  /** A bit of 1 + tseg1 + tseg2 quanta, `brp` clock cycles each, lasts exactly one bit time. */
  predicate Fits(c: BitTimingConstants, bitrate: nat, brp: nat, tseg1: nat, tseg2: nat) {
    && c.tseg1Min <= tseg1 <= c.tseg1Max && c.tseg2Min <= tseg2 <= c.tseg2Max
    && (1 + tseg1 + tseg2) * (brp * bitrate) == c.clock
  }

  ghost predicate Legal(c: BitTimingConstants, bitrate: nat, brp: nat, tseg1: nat, tseg2: nat) {
    OnGrid(c, brp) && Fits(c, bitrate, brp, tseg1, tseg2)
  }

  function Abs(x: int): nat {
    if x < 0 then -x else x
  }

  /** |(1 + tseg1) / quanta - 7/8| as a fraction: this over 8 * quanta. */
  function Distance(tseg1: nat, quanta: nat): nat {
    Abs(8 * (1 + tseg1) - 7 * quanta)
  }

  /** The sample point of the first timing lies strictly nearer to 7/8. */
  predicate Nearer(tseg1: nat, quanta: nat, otherTseg1: nat, otherQuanta: nat) {
    Distance(tseg1, quanta) * otherQuanta < Distance(otherTseg1, otherQuanta) * quanta
  }

  /* ---- One prescaler ---- */

  datatype Candidate = Candidate(tseg1: nat, tseg2: nat, brp: nat)

  function Quanta(x: Candidate): nat {
    1 + x.tseg1 + x.tseg2
  }

  /** `best`, nothing or something, is the best candidate of one prescaler. */
  ghost predicate BestOf(c: BitTimingConstants, bitrate: nat, brp: nat, best: Option<Candidate>) {
    && (best.Some? <==> exists t1: nat, t2: nat :: Fits(c, bitrate, brp, t1, t2))
    && (best.Some? ==>
          && best.value.brp == brp && Fits(c, bitrate, brp, best.value.tseg1, best.value.tseg2)
          && (forall t1: nat, t2: nat :: Fits(c, bitrate, brp, t1, t2) ==> !Beats(t1, t2, best.value))
          && LatestOfTies(c, bitrate, best.value))
  }

  /** Of the splits of its prescaler that lie as near, `x` has the longest second segment: halves are rounded up. */
  ghost predicate LatestOfTies(c: BitTimingConstants, bitrate: nat, x: Candidate) {
    forall t1: nat, t2: nat ::
      Fits(c, bitrate, x.brp, t1, t2) && Distance(t1, 1 + t1 + t2) == Distance(x.tseg1, Quanta(x)) ==> t2 <= x.tseg2
  }

  predicate Beats(t1: nat, t2: nat, x: Candidate) {
    Nearer(t1, 1 + t1 + t2, x.tseg1, Quanta(x))
  }

  predicate BeatenBy(x: Candidate, t1: nat, t2: nat) {
    Nearer(x.tseg1, Quanta(x), t1, 1 + t1 + t2)
  }

  function Clamp(x: int, lo: int, hi: int): int {
    if x < lo then lo else if x > hi then hi else x
  }

  /** lround(quanta / 8.0): halves go up. */
  function RoundEighth(quanta: nat): nat {
    (quanta + 4) / 8
  }

  method CandidateFor(c: BitTimingConstants, brp: nat, bitrate: nat) returns (best: Option<Candidate>)
    requires Sane(c) && NoWrap(c)
    ensures BestOf(c, bitrate, brp, best)
  {
    var divisor := brp * bitrate;
    if divisor == 0 || c.clock % divisor != 0 {
      NothingFits(c, bitrate, brp);
      return None;
    }
    var quanta := c.clock / divisor;
    if quanta < 1 + c.tseg1Min + c.tseg2Min || quanta > 1 + c.tseg1Max + c.tseg2Max {
      QuantaAreFixed(c, bitrate, brp);
      return None;
    }
    var tseg2 := Clamp(RoundEighth(quanta), c.tseg2Min, c.tseg2Max);
    var tseg1 := quanta - 1 - tseg2;
    assert tseg1 >= 0;  // the source computes it unsigned
    if tseg1 > c.tseg1Max {
      tseg1 := c.tseg1Max;
      tseg2 := quanta - 1 - tseg1;
    } else if tseg1 < c.tseg1Min {
      tseg1 := c.tseg1Min;
      tseg2 := quanta - 1 - tseg1;
    }
    ClampedIsBest(c, bitrate, brp, tseg1, tseg2);
    if tseg2 < c.tseg2Min || tseg2 > c.tseg2Max {
      return None;
    }
    return Some(Candidate(tseg1, tseg2, brp));
  }

  /** The second segment the code settles on for `quanta`. */
  function SettledTseg2(c: BitTimingConstants, quanta: nat): int {
    var r := Clamp(RoundEighth(quanta), c.tseg2Min, c.tseg2Max);
    if quanta - 1 - r > c.tseg1Max then quanta - 1 - c.tseg1Max
    else if quanta - 1 - r < c.tseg1Min then quanta - 1 - c.tseg1Min
    else r
  }

  lemma ClampedIsBest(c: BitTimingConstants, bitrate: nat, brp: nat, tseg1: nat, tseg2: nat)
    requires Sane(c) && brp * bitrate > 0 && c.clock % (brp * bitrate) == 0
    requires var quanta := c.clock / (brp * bitrate);
             && 1 + c.tseg1Min + c.tseg2Min <= quanta <= 1 + c.tseg1Max + c.tseg2Max
             && tseg2 == SettledTseg2(c, quanta) && tseg1 == quanta - 1 - tseg2
    ensures BestOf(c, bitrate, brp, Some(Candidate(tseg1, tseg2, brp)))
  {
    var quanta := c.clock / (brp * bitrate);
    assert quanta * (brp * bitrate) == c.clock;
    assert 1 + tseg1 + tseg2 == quanta;
    assert Fits(c, bitrate, brp, tseg1, tseg2);
    forall t1: nat, t2: nat | Fits(c, bitrate, brp, t1, t2)
      ensures !Beats(t1, t2, Candidate(tseg1, tseg2, brp))
    {
      FitsDividesClock(c, bitrate, brp, t1, t2);
      ClampedIsNearest(c, quanta, tseg1, tseg2, t1, t2);
      DistanceScales(Distance(tseg1, quanta), Distance(t1, quanta), quanta);
    }
    forall t1: nat, t2: nat | Fits(c, bitrate, brp, t1, t2) && Distance(t1, 1 + t1 + t2) == Distance(tseg1, quanta)
      ensures t2 <= tseg2
    {
      FitsDividesClock(c, bitrate, brp, t1, t2);
      ClampedIsNearest(c, quanta, tseg1, tseg2, t1, t2);
    }
  }

  lemma FitsDividesClock(c: BitTimingConstants, bitrate: nat, brp: nat, t1: nat, t2: nat)
    requires Fits(c, bitrate, brp, t1, t2) && c.clock > 0
    ensures brp * bitrate > 0 && c.clock % (brp * bitrate) == 0 && c.clock / (brp * bitrate) == 1 + t1 + t2
  {
    QuotientOf(c.clock, 1 + t1 + t2, 0, brp * bitrate);
  }

  lemma NothingFits(c: BitTimingConstants, bitrate: nat, brp: nat)
    requires c.clock > 0 && (brp * bitrate == 0 || c.clock % (brp * bitrate) != 0)
    ensures forall t1: nat, t2: nat :: !Fits(c, bitrate, brp, t1, t2)
  {
    forall t1: nat, t2: nat | Fits(c, bitrate, brp, t1, t2)
      ensures false
    {
      FitsDividesClock(c, bitrate, brp, t1, t2);
    }
  }

  lemma QuantaAreFixed(c: BitTimingConstants, bitrate: nat, brp: nat)
    requires c.clock > 0 && brp * bitrate > 0
    ensures forall t1: nat, t2: nat :: Fits(c, bitrate, brp, t1, t2) ==> 1 + t1 + t2 == c.clock / (brp * bitrate)
  {
    forall t1: nat, t2: nat | Fits(c, bitrate, brp, t1, t2)
      ensures 1 + t1 + t2 == c.clock / (brp * bitrate)
    {
      FitsDividesClock(c, bitrate, brp, t1, t2);
    }
  }

  /** Rounding an eighth of the quanta and clamping it into both segments' limits leaves the nearest sample point. */
  lemma ClampedIsNearest(c: BitTimingConstants, quanta: nat, tseg1: nat, tseg2: nat, t1: nat, t2: nat)
    requires 1 + tseg1 + tseg2 == quanta == 1 + t1 + t2
    requires c.tseg1Min <= t1 <= c.tseg1Max && c.tseg2Min <= t2 <= c.tseg2Max
    requires tseg2 == SettledTseg2(c, quanta)
    ensures Distance(tseg1, quanta) <= Distance(t1, quanta)
    ensures Distance(tseg1, quanta) == Distance(t1, quanta) ==> t2 <= tseg2
  {
    assert Distance(tseg1, quanta) == Abs(quanta - 8 * tseg2);
    assert Distance(t1, quanta) == Abs(quanta - 8 * t2);
  }

  lemma DistanceScales(d: nat, other: nat, quanta: nat)
    requires d <= other
    ensures d * quanta <= other * quanta
  {
  }

  /* ---- All prescalers ---- */

  /** What the search has found among the prescalers below `limit`: nothing if there is nothing to find, otherwise the
      nearest, and the smallest prescaler among the nearest. */
  ghost predicate BestBelow(c: BitTimingConstants, bitrate: nat, limit: nat, best: Option<Candidate>) {
    && (best.Some? ==>
          && Legal(c, bitrate, best.value.brp, best.value.tseg1, best.value.tseg2) && best.value.brp < limit
          && LatestOfTies(c, bitrate, best.value))
    && (forall brp: nat, t1: nat, t2: nat :: Legal(c, bitrate, brp, t1, t2) && brp < limit ==>
          && best.Some? && !Beats(t1, t2, best.value)
          && (brp < best.value.brp ==> BeatenBy(best.value, t1, t2)))
  }

  /** `x` is legal, nothing legal lies nearer to 7/8, nothing as near has a smaller prescaler, and nothing as near with the
      same prescaler has a longer second segment. */
  ghost predicate Optimal(c: BitTimingConstants, bitrate: nat, x: Candidate) {
    && Legal(c, bitrate, x.brp, x.tseg1, x.tseg2)
    && LatestOfTies(c, bitrate, x)
    && (forall brp: nat, t1: nat, t2: nat :: Legal(c, bitrate, brp, t1, t2) ==>
          !Beats(t1, t2, x) && (brp < x.brp ==> BeatenBy(x, t1, t2)))
  }

  /** So there is only one answer. */
  lemma OptimalIsUnique(c: BitTimingConstants, bitrate: nat, x: Candidate, y: Candidate)
    requires c.clock > 0 && Optimal(c, bitrate, x) && Optimal(c, bitrate, y)
    ensures x == y
  {
    assert !Beats(y.tseg1, y.tseg2, x) && !Beats(x.tseg1, x.tseg2, y);
    assert x.brp == y.brp;
    FitsDividesClock(c, bitrate, x.brp, x.tseg1, x.tseg2);
    FitsDividesClock(c, bitrate, x.brp, y.tseg1, y.tseg2);
    SameOverSame(Distance(x.tseg1, Quanta(x)), Distance(y.tseg1, Quanta(y)), Quanta(x));
  }

  lemma SameOverSame(a: nat, b: nat, n: nat)
    requires n > 0 && a * n >= b * n && b * n >= a * n
    ensures a == b
  {
    MultiplyLess(a, b, n);
    MultiplyLess(b, a, n);
  }

  method ComputeBitTiming(c: BitTimingConstants, bitrate: nat) returns (timing: Option<BitTiming>)
    requires Sane(c) && NoWrap(c)
    ensures timing.Some? <==> exists brp: nat, t1: nat, t2: nat :: Legal(c, bitrate, brp, t1, t2)
    ensures timing.Some? ==>
              var t := timing.value;
              && Optimal(c, bitrate, Candidate(t.propSeg + t.phaseSeg1, t.phaseSeg2, t.brp))
              && t.propSeg <= t.phaseSeg1 <= t.propSeg + 1
              && t.sjw == Min(c.sjwMax, 1)
  {
    var best := Search(c, bitrate);
    if best.None? {
      return None;
    }
    var x := best.value;
    return Some(BitTiming(x.tseg1 / 2, x.tseg1 - x.tseg1 / 2, x.tseg2, Min(c.sjwMax, 1), x.brp));
  }

  /** The loop of ComputeBitTiming over the prescalers. */
  method Search(c: BitTimingConstants, bitrate: nat) returns (best: Option<Candidate>)
    requires Sane(c) && NoWrap(c)
    ensures best.Some? <==> exists brp: nat, t1: nat, t2: nat :: Legal(c, bitrate, brp, t1, t2)
    ensures best.Some? ==> Optimal(c, bitrate, best.value)
  {
    best := None;
    var step := Step(c);
    var brp := c.brpMin;
    ghost var i: nat := 0;
    while brp <= c.brpMax
      invariant brp == c.brpMin + i * step
      invariant BestBelow(c, bitrate, brp, best)
      decreases c.brpMax + step - brp
    {
      var candidate := CandidateFor(c, brp, bitrate);
      ExtendsBest(c, bitrate, brp, i, best, candidate);
      if candidate.Some? && (best.None? || Beats(candidate.value.tseg1, candidate.value.tseg2, best.value)) {
        best := candidate;
      }
      brp := brp + step;
      NextOnGrid(i, step);
      i := i + 1;
    }
    assert forall p: nat, t1: nat, t2: nat :: Legal(c, bitrate, p, t1, t2) ==> p < brp;
  }

  lemma NextOnGrid(i: nat, step: nat)
    ensures (i + 1) * step == i * step + step
  {
  }

  /** There is no prescaler strictly between two neighbours of the grid. */
  lemma GridNeighbours(c: BitTimingConstants, i: nat, brp: nat)
    requires OnGrid(c, brp) && brp < c.brpMin + i * Step(c) + Step(c)
    ensures brp <= c.brpMin + i * Step(c)
  {
    var j := GridIndex(c, brp);
    if j > i { GridGap(i, j, Step(c)); }
  }

  lemma GridGap(i: nat, j: nat, step: nat)
    requires i < j
    ensures i * step + step <= j * step
  {
    MultipleIsFar(j - i, step);
    assert j * step == i * step + (j - i) * step;
  }

  lemma BestWins(x: Candidate, y: Candidate, t1: nat, t2: nat)
    requires Beats(x.tseg1, x.tseg2, y) && !Beats(t1, t2, y)
    ensures BeatenBy(x, t1, t2) && !Beats(t1, t2, x)
  {
    FractionLessAtMost(Distance(x.tseg1, Quanta(x)), Quanta(x), Distance(y.tseg1, Quanta(y)), Quanta(y),
                       Distance(t1, 1 + t1 + t2), 1 + t1 + t2);
  }

  lemma BestStays(x: Candidate, y: Candidate, t1: nat, t2: nat)
    requires !Beats(x.tseg1, x.tseg2, y) && !Beats(t1, t2, x)
    ensures !Beats(t1, t2, y)
  {
    FractionAtMost(Distance(y.tseg1, Quanta(y)), Quanta(y), Distance(x.tseg1, Quanta(x)), Quanta(x),
                   Distance(t1, 1 + t1 + t2), 1 + t1 + t2);
  }

  /** One prescaler further, the better of the old best and the new candidate is the best. */
  lemma ExtendsBest(c: BitTimingConstants, bitrate: nat, brp: nat, i: nat, before: Option<Candidate>, candidate: Option<Candidate>)
    requires Sane(c) && brp == c.brpMin + i * Step(c) && brp <= c.brpMax
    requires BestBelow(c, bitrate, brp, before) && BestOf(c, bitrate, brp, candidate)
    ensures BestBelow(c, bitrate, brp + Step(c),
                      if candidate.Some? && (before.None? || Beats(candidate.value.tseg1, candidate.value.tseg2, before.value))
                      then candidate else before)
  {
    var replace := candidate.Some? && (before.None? || Beats(candidate.value.tseg1, candidate.value.tseg2, before.value));
    var best := if replace then candidate else before;
    IndexOnGrid(c, brp, i);
    forall p: nat, t1: nat, t2: nat | Legal(c, bitrate, p, t1, t2) && p < brp + Step(c)
      ensures best.Some? && !Beats(t1, t2, best.value) && (p < best.value.brp ==> BeatenBy(best.value, t1, t2))
    {
      GridNeighbours(c, i, p);
      if p < brp {
        if replace { BestWins(candidate.value, before.value, t1, t2); }
      } else {
        assert Fits(c, bitrate, brp, t1, t2);
        if !replace { BestStays(candidate.value, before.value, t1, t2); }
      }
    }
  }
}
