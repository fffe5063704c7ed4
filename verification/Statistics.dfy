/** What a sequence yields pair by pair, as a multiset; a symmetric pairing forgets the order. */
module Pairs {
  import opened Sorting

  function BagFrom<T, R>(pair: (T, T) -> multiset<R>, start: T, ends: seq<T>): multiset<R> {
    if ends == [] then multiset{} else pair(start, ends[0]) + BagFrom(pair, start, ends[1..])
  }

  function Bag<T, R>(pair: (T, T) -> multiset<R>, xs: seq<T>): multiset<R> {
    if xs == [] then multiset{} else BagFrom(pair, xs[0], xs[1..]) + Bag(pair, xs[1..])
  }

  ghost predicate Symmetric<T(!new), R>(pair: (T, T) -> multiset<R>) {
    forall a, b :: pair(a, b) == pair(b, a)
  }

  lemma {:induction false} BagFromWithout<T, R>(pair: (T, T) -> multiset<R>, start: T, ends: seq<T>, k: nat)
    requires k < |ends|
    ensures BagFrom(pair, start, ends) == pair(start, ends[k]) + BagFrom(pair, start, Without(ends, k))
  {
    if k == 0 {
      assert Without(ends, 0) == ends[1..];
    } else {
      BagFromWithout(pair, start, ends[1..], k - 1);
      assert Without(ends, k)[0] == ends[0] && Without(ends, k)[1..] == Without(ends[1..], k - 1);
    }
  }

  lemma {:induction false} BagFromPermuted<T, R>(pair: (T, T) -> multiset<R>, start: T, xs: seq<T>, ys: seq<T>)
    requires multiset(xs) == multiset(ys)
    ensures BagFrom(pair, start, xs) == BagFrom(pair, start, ys)
  {
    SameMultisetSameSize(xs, ys);
    if xs != [] {
      assert xs[0] in ys;
      var k: nat :| k < |ys| && ys[k] == xs[0];
      DropMatched(xs, ys, k);
      BagFromPermuted(pair, start, xs[1..], Without(ys, k));
      BagFromWithout(pair, start, ys, k);
    }
  }

  lemma {:induction false} BagWithout<T(!new), R>(pair: (T, T) -> multiset<R>, xs: seq<T>, k: nat)
    requires k < |xs| && Symmetric(pair)
    ensures Bag(pair, xs) == BagFrom(pair, xs[k], Without(xs, k)) + Bag(pair, Without(xs, k))
  {
    if k == 0 {
      assert Without(xs, 0) == xs[1..];
    } else {
      BagWithout(pair, xs[1..], k - 1);
      BagFromWithout(pair, xs[0], xs[1..], k - 1);
      assert Without(xs, k)[0] == xs[0] && Without(xs, k)[1..] == Without(xs[1..], k - 1);
      assert pair(xs[0], xs[k]) == pair(xs[k], xs[0]);
    }
  }

  lemma {:induction false} BagPermuted<T(!new), R>(pair: (T, T) -> multiset<R>, xs: seq<T>, ys: seq<T>)
    requires multiset(xs) == multiset(ys) && Symmetric(pair)
    ensures Bag(pair, xs) == Bag(pair, ys)
  {
    SameMultisetSameSize(xs, ys);
    if xs != [] {
      assert xs[0] in ys;
      var k: nat :| k < |ys| && ys[k] == xs[0];
      DropMatched(xs, ys, k);
      BagFromPermuted(pair, xs[0], xs[1..], Without(ys, k));
      BagPermuted(pair, xs[1..], Without(ys, k));
      BagWithout(pair, ys, k);
    }
  }
}

/** Order statistics and the Theil-Sen slope the memory gates judge by, over exact reals. */
module Statistics {
  import opened Options
  import opened Pairs
  import opened Sorting

  predicate RealLe(a: real, b: real) { a <= b }

  function SortReals(values: seq<real>): (sorted: seq<real>)
    ensures |sorted| == |values|
  {
    SortPermutes(values, RealLe);
    Sort(values, RealLe)
  }

  ghost predicate Ascending(values: seq<real>) {
    forall i, j :: 0 <= i < j < |values| ==> values[i] <= values[j]
  }

  lemma {:induction false} SortRealsSorts(values: seq<real>)
    ensures multiset(SortReals(values)) == multiset(values) && Ascending(SortReals(values))
  {
    SortPermutes(values, RealLe);
    SortSorted(values, RealLe);
  }

  lemma {:induction false} SortRealsCanonical(xs: seq<real>, ys: seq<real>)
    requires multiset(xs) == multiset(ys)
    ensures SortReals(xs) == SortReals(ys)
  {
    SortCanonical(xs, ys, RealLe);
  }

  function Median(values: seq<real>): Option<real> {
    if values == [] then None else Some(Middle(SortReals(values)))
  }

  function Middle(sorted: seq<real>): real
    requires sorted != []
  {
    var middle := |sorted| / 2;
    if |sorted| % 2 == 1 then sorted[middle] else (sorted[middle - 1] + sorted[middle]) / 2.0
  }

  lemma {:induction false} MedianPermuted(xs: seq<real>, ys: seq<real>)
    requires multiset(xs) == multiset(ys)
    ensures Median(xs) == Median(ys)
  {
    SameMultisetSameSize(xs, ys);
    SortRealsCanonical(xs, ys);
  }

  // ---------------------------------------------------------------- Theil-Sen

  datatype Sample = Sample(elapsedSeconds: real, rssBytes: real)

  function Slope(a: Sample, b: Sample): real
    requires a.elapsedSeconds != b.elapsedSeconds
  {
    (b.rssBytes - a.rssBytes) / (b.elapsedSeconds - a.elapsedSeconds) * 3600.0
  }

  /** The slope of a pair, or nothing when the two samples share their time. */
  function PairSlope(a: Sample, b: Sample): seq<real> {
    if a.elapsedSeconds == b.elapsedSeconds then [] else [Slope(a, b)]
  }

  function SlopesFrom(start: Sample, ends: seq<Sample>): seq<real> {
    if ends == [] then [] else PairSlope(start, ends[0]) + SlopesFrom(start, ends[1..])
  }

  function Slopes(samples: seq<Sample>): seq<real> {
    if samples == [] then [] else SlopesFrom(samples[0], samples[1..]) + Slopes(samples[1..])
  }

  function TheilSen(samples: seq<Sample>): Option<real> {
    if |samples| < 2 then None else Median(Slopes(samples))
  }

  lemma TheilSenIsMedian(samples: seq<Sample>)
    ensures TheilSen(samples) == Median(Slopes(samples))
  {}

  method CollectFrom(samples: seq<Sample>, left: nat, slopes: seq<real>) returns (out: seq<real>)
    requires left < |samples|
    ensures out == slopes + SlopesFrom(samples[left], samples[left + 1..])
  {
    hide Slope;
    var start := samples[left];
    out := slopes;
    var right := left + 1;
    while right < |samples|
      invariant left < right <= |samples|
      invariant out + SlopesFrom(start, samples[right..]) == slopes + SlopesFrom(start, samples[left + 1..])
    {
      var end := samples[right];
      assert samples[right..][1..] == samples[right + 1..];
      ghost var later := SlopesFrom(start, samples[right + 1..]);
      assert SlopesFrom(start, samples[right..]) == PairSlope(start, end) + later;
      AppendAssoc(out, PairSlope(start, end), later);
      if end.elapsedSeconds != start.elapsedSeconds {
        out := out + [Slope(start, end)];
      } else {
        assert out + [] == out;
      }
      right := right + 1;
    }
  }

  method TheilSenBytesPerHour(samples: seq<Sample>) returns (slope: Option<real>)
    ensures slope == TheilSen(samples)
  {
    if |samples| < 2 { return None; }
    var slopes: seq<real> := [];
    var left := 0;
    assert samples[0..] == samples;
    while left < |samples| - 1
      invariant 0 <= left <= |samples| - 1
      invariant slopes + Slopes(samples[left..]) == Slopes(samples)
    {
      assert samples[left..][1..] == samples[left + 1..];
      AppendAssoc(slopes, SlopesFrom(samples[left], samples[left + 1..]), Slopes(samples[left + 1..]));
      slopes := CollectFrom(samples, left, slopes);
      left := left + 1;
    }
    assert samples[left..][1..] == [];
    assert slopes + [] == slopes;
    return Median(slopes);
  }

  // ---------------------------------------------------------------- sample order does not matter

  lemma {:induction false} PairSlopeSymmetric(a: Sample, b: Sample)
    ensures PairSlope(a, b) == PairSlope(b, a)
  {
    if a.elapsedSeconds != b.elapsedSeconds {
      var y, t := b.rssBytes - a.rssBytes, b.elapsedSeconds - a.elapsedSeconds;
      assert y / t == (-y) / (-t);
    }
  }

  function PairBag(a: Sample, b: Sample): multiset<real> { multiset(PairSlope(a, b)) }

  lemma {:induction false} BagFromSlopes(start: Sample, ends: seq<Sample>)
    ensures multiset(SlopesFrom(start, ends)) == BagFrom(PairBag, start, ends)
  {
    if ends != [] { BagFromSlopes(start, ends[1..]); }
  }

  lemma {:induction false} BagOfSlopes(samples: seq<Sample>)
    ensures multiset(Slopes(samples)) == Bag(PairBag, samples)
  {
    if samples != [] {
      BagOfSlopes(samples[1..]);
      BagFromSlopes(samples[0], samples[1..]);
    }
  }

  /** The slope does not depend on the order in which samples were taken down. */
  lemma {:induction false} TheilSenPermuted(xs: seq<Sample>, ys: seq<Sample>)
    requires multiset(xs) == multiset(ys)
    ensures TheilSen(xs) == TheilSen(ys)
  {
    SameMultisetSameSize(xs, ys);
    forall a, b ensures PairBag(a, b) == PairBag(b, a) { PairSlopeSymmetric(a, b); }
    BagPermuted(PairBag, xs, ys);
    BagOfSlopes(xs);
    BagOfSlopes(ys);
    MedianPermuted(Slopes(xs), Slopes(ys));
  }

  // ---------------------------------------------------------------- adding a straight line

  function Tilted(s: Sample, a: real, b: real): Sample {
    Sample(s.elapsedSeconds, s.rssBytes + a + b * s.elapsedSeconds)
  }

  function TiltedAll(samples: seq<Sample>, a: real, b: real): (r: seq<Sample>)
    ensures |r| == |samples| && forall i :: 0 <= i < |r| ==> r[i] == Tilted(samples[i], a, b)
  {
    seq(|samples|, i requires 0 <= i < |samples| => Tilted(samples[i], a, b))
  }

  lemma {:induction false} TiltedSlope(s: Sample, e: Sample, a: real, b: real)
    requires s.elapsedSeconds != e.elapsedSeconds
    ensures Slope(Tilted(s, a, b), Tilted(e, a, b)) == Slope(s, e) + 3600.0 * b
  {
    var y, t := e.rssBytes - s.rssBytes, e.elapsedSeconds - s.elapsedSeconds;
    assert b * e.elapsedSeconds - b * s.elapsedSeconds == b * t;
    DivideLine(y, b, t);
  }

  lemma {:induction false} DivideLine(y: real, b: real, t: real)
    requires t != 0.0
    ensures (y + b * t) / t == y / t + b
  {
    var q := y / t;
    assert y + b * t == (q + b) * t;
  }

  lemma {:induction false} TiltedFrom(start: Sample, ends: seq<Sample>, a: real, b: real, shift: real -> real)
    requires forall x :: shift(x) == x + 3600.0 * b
    ensures SlopesFrom(Tilted(start, a, b), TiltedAll(ends, a, b)) == Map(shift, SlopesFrom(start, ends))
  {
    if ends != [] {
      TiltedFrom(start, ends[1..], a, b, shift);
      assert TiltedAll(ends, a, b)[1..] == TiltedAll(ends[1..], a, b);
      MapAppend(shift, PairSlope(start, ends[0]), SlopesFrom(start, ends[1..]));
      if start.elapsedSeconds != ends[0].elapsedSeconds { TiltedSlope(start, ends[0], a, b); }
    }
  }

  lemma {:induction false} TiltedSlopes(samples: seq<Sample>, a: real, b: real, shift: real -> real)
    requires forall x :: shift(x) == x + 3600.0 * b
    ensures Slopes(TiltedAll(samples, a, b)) == Map(shift, Slopes(samples))
  {
    if samples != [] {
      TiltedSlopes(samples[1..], a, b, shift);
      TiltedFrom(samples[0], samples[1..], a, b, shift);
      MapAppend(shift, SlopesFrom(samples[0], samples[1..]), Slopes(samples[1..]));
      assert TiltedAll(samples, a, b)[1..] == TiltedAll(samples[1..], a, b);
    }
  }

  lemma {:induction false} MedianShift(values: seq<real>, c: real, shift: real -> real)
    requires forall x :: shift(x) == x + c
    ensures Median(Map(shift, values)) ==
      match Median(values) case None => None case Some(m) => Some(m + c)
  {
    SortShift(values, c, shift);
    if values != [] { MiddleShift(SortReals(values), c, shift); }
  }

  lemma {:induction false} SortShift(values: seq<real>, c: real, shift: real -> real)
    requires forall x :: shift(x) == x + c
    ensures SortReals(Map(shift, values)) == Map(shift, SortReals(values))
  {
    forall a, b | a in values && b in values ensures RealLe(shift(a), shift(b)) <==> RealLe(a, b) {}
    SortMap(values, shift, RealLe, RealLe);
  }

  lemma MiddleShift(sorted: seq<real>, c: real, shift: real -> real)
    requires sorted != [] && forall x :: shift(x) == x + c
    ensures Middle(Map(shift, sorted)) == Middle(sorted) + c
  {}

  /** Adding `a + b * t` to every reading adds exactly `3600 * b` to the slope. */
  lemma {:induction false} TheilSenTilted(samples: seq<Sample>, a: real, b: real)
    ensures TheilSen(TiltedAll(samples, a, b)) ==
      match TheilSen(samples) case None => None case Some(m) => Some(m + 3600.0 * b)
  {
    TheilSenIsMedian(samples);
    TheilSenIsMedian(TiltedAll(samples, a, b));
    var shift := (x: real) => x + 3600.0 * b;
    TiltedSlopes(samples, a, b, shift);
    MedianShift(Slopes(samples), 3600.0 * b, shift);
  }

  // ---------------------------------------------------------------- a majority decides

  lemma {:induction false} CountAbsent(values: seq<real>, from: nat, to: nat, c: real)
    requires from <= to <= |values|
    requires forall i :: from <= i < to ==> values[i] != c
    ensures multiset(values)[c] <= |values| - (to - from)
  {
    assert values == values[..from] + values[from..to] + values[to..];
    assert c !in values[from..to];
    assert multiset(values[..from])[c] <= |multiset(values[..from])|;
    assert multiset(values[to..])[c] <= |multiset(values[to..])|;
  }

  /** If more than half of the values are `c`, the median is `c`. */
  lemma {:induction false} MedianMajority(values: seq<real>, c: real)
    requires 2 * multiset(values)[c] > |values|
    ensures Median(values) == Some(c)
  {
    SortRealsSorts(values);
    var sorted := SortReals(values);
    var n, middle := |sorted|, |sorted| / 2;
    assert multiset(sorted)[c] <= |multiset(sorted)| == n;
    MajorityAt(sorted, middle, c);
    if n % 2 == 0 { MajorityAt(sorted, middle - 1, c); }
  }

  lemma {:induction false} MajorityAt(sorted: seq<real>, k: nat, c: real)
    requires Ascending(sorted)
    requires 2 * multiset(sorted)[c] > |sorted|
    requires k < |sorted| && 2 * k <= |sorted| <= 2 * k + 2
    ensures sorted[k] == c
  {
    if sorted[k] < c {
      CountAbsent(sorted, 0, k + 1, c);
    } else if sorted[k] > c {
      CountAbsent(sorted, k, |sorted|, c);
    }
  }

  /** Theil-Sen breaks down only at half: a majority of pairs on one slope fixes the answer. */
  lemma {:induction false} TheilSenMajority(samples: seq<Sample>, slope: real)
    requires 2 * multiset(Slopes(samples))[slope] > |Slopes(samples)|
    ensures TheilSen(samples) == Some(slope)
  {
    TheilSenIsMedian(samples);
    MedianMajority(Slopes(samples), slope);
  }

  // ---------------------------------------------------------------- quantiles

  function InterpolatedQuantile(values: seq<real>, fraction: real): Option<real> {
    if values == [] || fraction < 0.0 || fraction > 1.0 then None
    else
      var sorted := SortReals(values);
      Some(Interpolate(sorted, Position(|sorted|, fraction)))
  }

  function Position(n: nat, fraction: real): (position: real)
    requires n > 0 && 0.0 <= fraction <= 1.0
    ensures 0.0 <= position <= (n - 1) as real
  {
    PartOf((n - 1) as real, fraction);
    (n - 1) as real * fraction
  }

  lemma {:induction false} PositionMonotone(n: nat, f: real, g: real)
    requires n > 0 && 0.0 <= f <= g <= 1.0
    ensures Position(n, f) <= Position(n, g)
  {
    Scale((n - 1) as real, f, g);
  }

  function Ceil(x: real): int { if x.Floor as real == x then x.Floor else x.Floor + 1 }

  /** The value at a real position between two neighbours. */
  function Interpolate(sorted: seq<real>, position: real): real
    requires sorted != [] && 0.0 <= position <= (|sorted| - 1) as real
  {
    var lower, upper := position.Floor, Ceil(position);
    Along(sorted[lower], sorted[upper], position - lower as real)
  }

  function Along(low: real, high: real, weight: real): (r: real)
    ensures weight == 0.0 ==> r == low
  {
    low + (high - low) * weight
  }

  lemma {:induction false} AlongMonotone(low: real, high: real, v: real, w: real)
    requires low <= high && v <= w
    ensures Along(low, high, v) <= Along(low, high, w)
  {
    Scale(high - low, v, w);
  }

  lemma {:induction false} Scale(p: real, f: real, g: real)
    requires p >= 0.0 && f <= g
    ensures p * f <= p * g
  {
    assert p * (g - f) >= 0.0;
    assert p * (g - f) == p * g - p * f;
  }

  lemma {:induction false} PartOf(p: real, f: real)
    requires p >= 0.0 && 0.0 <= f <= 1.0
    ensures 0.0 <= p * f <= p
  {
    assert p * (1.0 - f) >= 0.0;
    assert p * (1.0 - f) == p - p * f;
  }

  lemma {:induction false} InterpolateBetween(sorted: seq<real>, position: real)
    requires sorted != [] && 0.0 <= position <= (|sorted| - 1) as real
    requires Ascending(sorted)
    ensures sorted[position.Floor] <= Interpolate(sorted, position) <= sorted[Ceil(position)]
  {
    var low, high := sorted[position.Floor], sorted[Ceil(position)];
    AlongMonotone(low, high, 0.0, position - position.Floor as real);
    AlongMonotone(low, high, position - position.Floor as real, 1.0);
  }

  lemma {:induction false} InterpolateMonotone(sorted: seq<real>, p: real, q: real)
    requires sorted != [] && 0.0 <= p <= q <= (|sorted| - 1) as real
    requires Ascending(sorted)
    ensures Interpolate(sorted, p) <= Interpolate(sorted, q)
  {
    InterpolateBetween(sorted, p);
    InterpolateBetween(sorted, q);
    if p.Floor < q.Floor {
      assert Ceil(p) <= q.Floor;
    } else if p != q {
      var lower := p.Floor;
      assert Ceil(q) == lower + 1;
      if p != lower as real {
        assert Ceil(p) == lower + 1;
        AlongMonotone(sorted[lower], sorted[lower + 1], p - lower as real, q - lower as real);
      }
    }
  }

  /** A larger fraction never gives a smaller quantile. */
  lemma {:induction false} QuantileMonotone(values: seq<real>, f: real, g: real)
    requires values != [] && 0.0 <= f <= g <= 1.0
    ensures InterpolatedQuantile(values, f).value <= InterpolatedQuantile(values, g).value
  {
    SortRealsSorts(values);
    var sorted := SortReals(values);
    PositionMonotone(|sorted|, f, g);
    InterpolateMonotone(sorted, Position(|sorted|, f), Position(|sorted|, g));
  }

  /** The half quantile is the median. */
  lemma {:induction false} QuantileMedian(values: seq<real>)
    ensures InterpolatedQuantile(values, 0.5) == Median(values)
  {
    if values != [] { InterpolateMiddle(SortReals(values)); }
  }

  lemma {:induction false} InterpolateMiddle(sorted: seq<real>)
    requires sorted != []
    ensures Interpolate(sorted, Position(|sorted|, 0.5)) == Middle(sorted)
  {
    var middle, position := |sorted| / 2, Position(|sorted|, 0.5);
    if |sorted| % 2 == 1 {
      assert position == middle as real;
      assert position.Floor == middle && Ceil(position) == middle;
    } else {
      assert position == (middle - 1) as real + 0.5;
      assert position.Floor == middle - 1 && Ceil(position) == middle;
      assert Along(sorted[middle - 1], sorted[middle], 0.5) == (sorted[middle - 1] + sorted[middle]) / 2.0;
    }
  }

  /** The nearest-rank percentile. */
  function Percentile(values: seq<real>, fraction: real): Option<real> {
    if values == [] then None
    else
      var sorted := SortReals(values);
      Some(sorted[Rank(|sorted|, fraction)])
  }

  function Rank(n: nat, fraction: real): (index: nat)
    requires n > 0
    ensures index < n
  {
    var wanted := Ceil(Share(n, fraction)) - 1;
    if wanted < 0 then 0 else if wanted > n - 1 then n - 1 else wanted
  }

  function Share(n: nat, fraction: real): real { fraction * n as real }

  /** How many values the percentile has to cover: the share, but at least one value and at most all of them. */
  function Target(n: nat, fraction: real): real {
    var share := Share(n, fraction);
    if share < 1.0 then 1.0 else if share > n as real then n as real else share
  }

  lemma {:induction false} RankCovers(n: nat, fraction: real)
    requires n > 0
    ensures Rank(n, fraction) as real < Target(n, fraction) <= (Rank(n, fraction) + 1) as real
  {
    hide Share;
    var share := Share(n, fraction);
    if 1.0 <= share <= n as real { assert 0 < Ceil(share) <= n; }
  }

  function CountAtMost(values: seq<real>, limit: real): nat {
    if values == [] then 0 else (if values[0] <= limit then 1 else 0) + CountAtMost(values[1..], limit)
  }

  lemma {:induction false} CountWithout(values: seq<real>, k: nat, limit: real)
    requires k < |values|
    ensures CountAtMost(values, limit) == (if values[k] <= limit then 1 else 0) + CountAtMost(Without(values, k), limit)
  {
    if k == 0 {
      assert Without(values, 0) == values[1..];
    } else {
      CountWithout(values[1..], k - 1, limit);
      assert Without(values, k)[0] == values[0] && Without(values, k)[1..] == Without(values[1..], k - 1);
    }
  }

  lemma {:induction false} CountPermuted(xs: seq<real>, ys: seq<real>, limit: real)
    requires multiset(xs) == multiset(ys)
    ensures CountAtMost(xs, limit) == CountAtMost(ys, limit)
  {
    SameMultisetSameSize(xs, ys);
    if xs != [] {
      assert xs[0] in ys;
      var k: nat :| k < |ys| && ys[k] == xs[0];
      DropMatched(xs, ys, k);
      CountPermuted(xs[1..], Without(ys, k), limit);
      CountWithout(ys, k, limit);
    }
  }

  lemma {:induction false} CountSorted(sorted: seq<real>, k: nat, limit: real)
    requires k <= |sorted| && Ascending(sorted)
    ensures k > 0 && sorted[k - 1] <= limit ==> CountAtMost(sorted, limit) >= k
    ensures k < |sorted| && limit < sorted[k] ==> CountAtMost(sorted, limit) <= k
  {
    if sorted != [] {
      if k == 0 {
        if limit < sorted[0] { CountSorted(sorted[1..], 0, limit); }
      } else {
        CountSorted(sorted[1..], k - 1, limit);
      }
    }
  }

  /**
   * For every fraction, the percentile is the smallest sample that covers the target: at least that many values are
   * no larger, and any smaller limit leaves fewer. So a fraction of 0 or less gives the minimum and one of 1 or more
   * the maximum; only an empty list has no percentile.
   */
  lemma {:induction false} PercentileCovers(values: seq<real>, fraction: real)
    ensures Percentile(values, fraction).None? <==> values == []
    ensures values != [] ==>
      var p := Percentile(values, fraction).value;
      && p in values
      && CountAtMost(values, p) as real >= Target(|values|, fraction)
      && forall limit :: limit < p ==> (CountAtMost(values, limit) as real) < Target(|values|, fraction)
  {
    hide Share, Target, Rank, CountAtMost;
    if values != [] {
      SortRealsSorts(values);
      var sorted := SortReals(values);
      var rank := Rank(|sorted|, fraction);
      var p := sorted[rank];
      RankCovers(|sorted|, fraction);
      CountSorted(sorted, rank + 1, p);
      CountPermuted(values, sorted, p);
      assert p in multiset(sorted);
      forall limit | limit < p ensures (CountAtMost(values, limit) as real) < Target(|values|, fraction) {
        CountSorted(sorted, rank, limit);
        CountPermuted(values, sorted, limit);
      }
    }
  }

  /** Inside (0, 1] the target is the share itself, as far as a count of values can tell. */
  lemma {:induction false} TargetIsShare(n: nat, fraction: real, count: nat)
    requires n > 0 && 0.0 < fraction <= 1.0
    ensures count as real >= Target(n, fraction) <==> count as real >= Share(n, fraction)
  {
    PartOf(n as real, fraction);
    if count > 0 { assert count as real >= 1.0; }
  }

  // ---------------------------------------------------------------- the sustained window

  function Since(samples: seq<Sample>, start: real): seq<Sample> {
    if samples == [] then []
    else (if samples[0].elapsedSeconds >= start then [samples[0]] else []) + Since(samples[1..], start)
  }

  function SustainedWindow(samples: seq<Sample>, warmup: real, window: real): Option<real> {
    if samples == [] then None
    else
      var latest := samples[|samples| - 1].elapsedSeconds;
      if latest < warmup + window then None else TheilSen(Since(samples, latest - window))
  }

  ghost predicate OnLine(samples: seq<Sample>, a: real, b: real) {
    forall i :: 0 <= i < |samples| ==> samples[i].rssBytes == LineAt(a, b, samples[i].elapsedSeconds)
  }

  function LineAt(a: real, b: real, t: real): real { a + b * t }

  lemma {:induction false} LineSlope(s: Sample, e: Sample, a: real, b: real)
    requires s.elapsedSeconds != e.elapsedSeconds
    requires s.rssBytes == LineAt(a, b, s.elapsedSeconds) && e.rssBytes == LineAt(a, b, e.elapsedSeconds)
    ensures Slope(s, e) == 3600.0 * b
  {
    var t := e.elapsedSeconds - s.elapsedSeconds;
    assert e.rssBytes - s.rssBytes == 0.0 + b * t;
    DivideLine(0.0, b, t);
  }

  lemma {:induction false} LineSlopesFrom(start: Sample, ends: seq<Sample>, a: real, b: real)
    requires OnLine(ends, a, b) && start.rssBytes == LineAt(a, b, start.elapsedSeconds)
    ensures forall i :: 0 <= i < |SlopesFrom(start, ends)| ==> SlopesFrom(start, ends)[i] == 3600.0 * b
  {
    if ends != [] {
      LineSlopesFrom(start, ends[1..], a, b);
      if start.elapsedSeconds != ends[0].elapsedSeconds { LineSlope(start, ends[0], a, b); }
    }
  }

  lemma {:induction false} LineSlopes(samples: seq<Sample>, a: real, b: real)
    requires OnLine(samples, a, b)
    ensures forall i :: 0 <= i < |Slopes(samples)| ==> Slopes(samples)[i] == 3600.0 * b
  {
    if samples != [] {
      LineSlopes(samples[1..], a, b);
      LineSlopesFrom(samples[0], samples[1..], a, b);
    }
  }

  lemma {:induction false} AllEqualCount(values: seq<real>, c: real)
    requires forall i :: 0 <= i < |values| ==> values[i] == c
    ensures multiset(values)[c] == |values|
  {
    if values != [] {
      AllEqualCount(values[1..], c);
      assert values == [values[0]] + values[1..];
    }
  }

  lemma {:induction false} MedianAllEqual(values: seq<real>, c: real)
    requires forall i :: 0 <= i < |values| ==> values[i] == c
    ensures Median(values) == if values == [] then None else Some(c)
  {
    AllEqualCount(values, c);
    if values != [] { MedianMajority(values, c); }
  }

  function WindowStart(samples: seq<Sample>, window: real): real
    requires samples != []
  {
    samples[|samples| - 1].elapsedSeconds - window
  }

  lemma {:induction false} LineTheilSen(samples: seq<Sample>, a: real, b: real)
    requires OnLine(samples, a, b)
    ensures TheilSen(samples) == if Slopes(samples) == [] then None else Some(3600.0 * b)
  {
    LineSlopes(samples, a, b);
    TheilSenIsMedian(samples);
    MedianAllEqual(Slopes(samples), 3600.0 * b);
  }

  /**
   * Whatever happened before the window, a leak that is linear inside it is measured exactly; the gate
   * answers nothing only before the window is full or when it holds no two distinct times.
   */
  lemma {:induction false} SustainedLeak(samples: seq<Sample>, warmup: real, window: real, a: real, b: real)
    requires samples != [] && OnLine(Since(samples, WindowStart(samples, window)), a, b)
    ensures SustainedWindow(samples, warmup, window) ==
      if WindowStart(samples, window) < warmup || Slopes(Since(samples, WindowStart(samples, window))) == [] then None
      else Some(3600.0 * b)
  {
    hide Since, Slopes, TheilSen, OnLine;
    LineTheilSen(Since(samples, WindowStart(samples, window)), a, b);
  }
}
