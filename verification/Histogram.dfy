/** The histogram of reordering distances: a ring of the most recent samples and the bucket counts
    kept beside it.  Probabilities are exact rationals. */
module Histogram {
  import opened Modulo
  import opened Options

  function Clamp(value: nat, numBuckets: nat): nat
    requires numBuckets > 0
  {
    if value <= numBuckets - 1 then value else numBuckets - 1
  }

  /** The most recent `capacity` of all samples ever added. */
  function Window(samples: seq<nat>, capacity: nat): seq<nat> {
    if |samples| <= capacity then samples else samples[|samples| - capacity..]
  }

  /** How many samples of `w` are below `n`. */
  function Below(w: seq<nat>, n: nat): nat {
    if w == [] then 0 else Below(w[..|w| - 1], n) + if w[|w| - 1] < n then 1 else 0
  }

  /** At least the fraction `p` of the samples is below `n`. */
  predicate Covers(w: seq<nat>, p: real, n: nat) {
    Below(w, n) as real >= p * |w| as real
  }

  /** The least n from `from` on that covers `p`, or the number of buckets. */
  function QuantileFrom(w: seq<nat>, p: real, numBuckets: nat, from: nat): (n: nat)
    requires from <= numBuckets
    ensures from <= n <= numBuckets
    decreases |w|, numBuckets - from
  {
    if from == numBuckets || Covers(w, p, from) then from else QuantileFrom(w, p, numBuckets, from + 1)
  }

  function Quantile(w: seq<nat>, p: real, numBuckets: nat): nat {
    QuantileFrom(w, p, numBuckets, 0)
  }

  lemma {:induction false} BelowSplit(w: seq<nat>, n: nat)
    ensures Below(w, n + 1) == Below(w, n) + multiset(w)[n]
  {
    if w != [] {
      BelowSplit(w[..|w| - 1], n);
      assert w == w[..|w| - 1] + [w[|w| - 1]];
    }
  }

  lemma {:induction false} BelowAll(w: seq<nat>, n: nat)
    requires forall i :: 0 <= i < |w| ==> w[i] < n
    ensures Below(w, n) == |w|
  {
    if w != [] {
      BelowAll(w[..|w| - 1], n);
    }
  }

  lemma {:induction false} BelowZero(w: seq<nat>)
    ensures Below(w, 0) == 0
  {
    if w != [] {
      BelowZero(w[..|w| - 1]);
    }
  }

  lemma {:induction false} QuantileFromIsLeast(w: seq<nat>, p: real, numBuckets: nat, from: nat)
    requires from <= numBuckets && Covers(w, p, numBuckets)
    ensures var n := QuantileFrom(w, p, numBuckets, from);
            Covers(w, p, n) && forall m :: from <= m < n ==> !Covers(w, p, m)
    decreases |w|, numBuckets - from
  {
    if from < numBuckets && !Covers(w, p, from) {
      QuantileFromIsLeast(w, p, numBuckets, from + 1);
    }
  }

  /** For probabilities up to 1 the quantile is the least N with at least that fraction of the
      samples below N; with any samples and a positive probability it is at least 1. */
  lemma QuantileIsLeast(w: seq<nat>, p: real, numBuckets: nat)
    requires p <= 1.0 && forall i :: 0 <= i < |w| ==> w[i] < numBuckets
    ensures var n := Quantile(w, p, numBuckets);
            Covers(w, p, n) && (forall m :: 0 <= m < n ==> !Covers(w, p, m))
    ensures w != [] && p > 0.0 ==> Quantile(w, p, numBuckets) > 0
  {
    BelowAll(w, numBuckets);
    assert p * |w| as real <= |w| as real;
    QuantileFromIsLeast(w, p, numBuckets, 0);
    BelowZero(w);
  }

  // ----- what the clamping costs

  function Clamped(distances: seq<nat>, numBuckets: nat): (w: seq<nat>)
    requires numBuckets > 0
    ensures |w| == |distances|
  {
    seq(|distances|, i requires 0 <= i < |distances| => Clamp(distances[i], numBuckets))
  }

  lemma WindowClamped(distances: seq<nat>, capacity: nat, numBuckets: nat)
    requires numBuckets > 0
    ensures Window(Clamped(distances, numBuckets), capacity) == Clamped(Window(distances, capacity), numBuckets)
  {
  }

  /** Up to the last bucket clamped and true distances count alike. */
  lemma {:induction false} ClampedBelow(distances: seq<nat>, numBuckets: nat, n: nat)
    requires n < numBuckets
    ensures Below(Clamped(distances, numBuckets), n) == Below(distances, n)
    decreases |distances|
  {
    if distances != [] {
      var k := |distances| - 1;
      ClampedBelow(distances[..k], numBuckets, n);
      assert Clamped(distances, numBuckets)[..k] == Clamped(distances[..k], numBuckets);
    }
  }

  lemma {:induction false} BelowMonotone(w: seq<nat>, m: nat, n: nat)
    requires m <= n
    ensures Below(w, m) <= Below(w, n)
    decreases |w|
  {
    if w != [] {
      BelowMonotone(w[..|w| - 1], m, n);
    }
  }

  /** At least the fraction `p` of the distances is at most `n`. */
  predicate Within(distances: seq<nat>, p: real, n: nat) {
    Covers(distances, p, n + 1)
  }

  lemma WithinMonotone(distances: seq<nat>, p: real, m: nat, n: nat)
    requires m <= n
    ensures Covers(distances, p, m) ==> Covers(distances, p, n)
  {
    BelowMonotone(distances, m, n);
  }

  lemma ClampedCovers(distances: seq<nat>, p: real, numBuckets: nat, n: nat)
    requires n < numBuckets && Covers(Clamped(distances, numBuckets), p, n)
    ensures Within(distances, p, n) && Within(distances, p, numBuckets)
  {
    ClampedBelow(distances, numBuckets, n);
    WithinMonotone(distances, p, n, n + 1);
    WithinMonotone(distances, p, n, numBuckets + 1);
  }

  /** With true distances the fraction `p` arrives within the quantile N exactly if it arrives within the
      number of buckets at all: distances beyond are clamped into the last bucket. */
  lemma QuantileOfTrueDistances(distances: seq<nat>, p: real, numBuckets: nat)
    requires numBuckets > 0 && p <= 1.0
    ensures Within(distances, p, Quantile(Clamped(distances, numBuckets), p, numBuckets))
            <==> Within(distances, p, numBuckets)
  {
    var w := Clamped(distances, numBuckets);
    var n := Quantile(w, p, numBuckets);
    QuantileIsLeast(w, p, numBuckets);
    if n < numBuckets {
      ClampedCovers(distances, p, numBuckets, n);
    }
  }

  /** One packet 50 numbers late: the median is said to be 10, and no packet arrived within 10. */
  lemma FarSampleEscapes()
    ensures Quantile(Clamped([50], 10), 0.5, 10) == 10 && Below([50], 11) == 0 && !Within([50], 0.5, 10)
  {
    var w := Clamped([50], 10);
    assert w == [9] && [9][..0] == [] && [50][..0] == [];
    QuantileIsLeast(w, 0.5, 10);
    var n := Quantile(w, 0.5, 10);
    assert n < 10 ==> Below(w, n) == 0;
  }

  /** The part of the samples that is below `n`, as the loop of InverseCdf accumulates it. */
  function Share(w: seq<nat>, n: nat): real
    requires w != []
  {
    Below(w, n) as real / |w| as real
  }

  /** accumulated + count / total, where None is not a number: what zero divided by zero gives. */
  function PlusShare(accumulated: Option<real>, count: nat, total: nat): Option<real> {
    if accumulated.None? || total == 0 then None else Some(accumulated.value + count as real / total as real)
  }

  /** No comparison with what is not a number holds. */
  predicate LessThan(x: Option<real>, y: real) {
    x.Some? && x.value < y
  }

  lemma ShareCovers(w: seq<nat>, n: nat, p: real)
    requires w != []
    ensures Share(w, n) < p <==> !Covers(w, p, n)
  {
    Fractions(Below(w, n), 0, |w|, p);
  }

  lemma ShareGrows(w: seq<nat>, n: nat, count: nat)
    requires w != [] && count == multiset(w)[n]
    ensures Share(w, n) + count as real / |w| as real == Share(w, n + 1)
  {
    BelowSplit(w, n);
    Fractions(Below(w, n), count, |w|, 0.0);
  }

  lemma Fractions(a: nat, b: nat, n: nat, p: real)
    requires n > 0
    ensures a as real / n as real + b as real / n as real == (a + b) as real / n as real
    ensures a as real / n as real < p <==> (a as real) < p * n as real
  {
  }

  /** Ring position `i` holds the latest sample whose index is `i` modulo the capacity. */
  ghost predicate IsRing(values: seq<nat>, samples: seq<nat>, capacity: nat)
    requires capacity > 0
  {
    && |values| == (if |samples| <= capacity then |samples| else capacity)
    && forall k :: 0 <= k < |samples| && |samples| - capacity <= k ==> Holds(values, samples, capacity, k)
  }

  predicate Holds(values: seq<nat>, samples: seq<nat>, capacity: nat, k: nat)
    requires capacity > 0 && k < |samples|
  {
    k % capacity < |values| && values[k % capacity] == samples[k]
  }

  lemma SlideWindow(samples: seq<nat>, capacity: nat, x: nat)
    requires capacity > 0
    ensures var w, w' := Window(samples, capacity), Window(samples + [x], capacity);
            if |samples| < capacity then w' == w + [x] else w != [] && w' == w[1..] + [x]
  {
  }

  /** Sliding the window takes its oldest sample out of the counts and puts the new one in. */
  lemma SlideCounts(samples: seq<nat>, capacity: nat, x: nat)
    requires capacity > 0
    ensures var w, w', full := Window(samples, capacity), Window(samples + [x], capacity), |samples| >= capacity;
            (full ==> w != [] && multiset(w)[w[0]] > 0) &&
            forall b: nat ::
              multiset(w')[b] == multiset(w)[b] - (if full && b == w[0] then 1 else 0) + if b == x then 1 else 0
  {
    var w := Window(samples, capacity);
    SlideWindow(samples, capacity, x);
    if |samples| >= capacity {
      assert w == [w[0]] + w[1..];
    }
  }

  /** The write cursor stands on the oldest sample once the ring is full, else just past the end. */
  lemma Cursor(values: seq<nat>, samples: seq<nat>, capacity: nat)
    requires capacity > 0 && IsRing(values, samples, capacity)
    ensures var index := |samples| % capacity;
            if |samples| < capacity then index == |values|
            else |values| == capacity && index < |values| && values[index] == Window(samples, capacity)[0]
  {
    if |samples| < capacity {
      SmallModulo(|samples|, capacity);
    } else {
      var oldest := |samples| - capacity;
      OneRoundLater(oldest, capacity);
      assert Holds(values, samples, capacity, oldest);
    }
  }

  lemma RingAdd(values: seq<nat>, samples: seq<nat>, capacity: nat, x: nat)
    requires capacity > 0 && IsRing(values, samples, capacity)
    ensures var index := |samples| % capacity;
            IsRing(if index < |values| then values[index := x] else values + [x], samples + [x], capacity)
  {
    Cursor(values, samples, capacity);
    var n, index := |samples|, |samples| % capacity;
    var values' := if index < |values| then values[index := x] else values + [x];
    forall k | 0 <= k < n + 1 && n + 1 - capacity <= k ensures Holds(values', samples + [x], capacity, k) {
      if k < n {
        assert Holds(values, samples, capacity, k);
        RingIndexes(k, n, capacity);
      }
    }
  }

  class Histogram {
    const capacity: nat
    const buckets: array<nat>
    var values: seq<nat>
    var index: nat
    /** Every sample ever added, clamped. */
    ghost var samples: seq<nat>

    ghost predicate Valid()
      reads this, buckets
    {
      && capacity > 0 && buckets.Length > 0
      && IsRing(values, samples, capacity)
      && index == |samples| % capacity
      && (forall i :: 0 <= i < |samples| ==> samples[i] < buckets.Length)
      && forall b :: 0 <= b < buckets.Length ==> buckets[b] == multiset(Window(samples, capacity))[b]
    }

    constructor (numBuckets: nat, maxNumPackets: nat)
      requires numBuckets > 0 && maxNumPackets > 0
      ensures Valid() && fresh(buckets) && samples == []
      ensures buckets.Length == numBuckets && capacity == maxNumPackets
    {
      capacity := maxNumPackets;
      buckets := new nat[numBuckets](_ => 0);
      values := [];
      index := 0;
      samples := [];
    }

    method Add(sample: nat)
      requires Valid()
      modifies this, buckets
      ensures Valid() && samples == old(samples) + [Clamp(sample, buckets.Length)]
    {
      var value := Clamp(sample, buckets.Length);
      Recount(value);
      Remember(value);
    }

    /** Takes the sample about to be overwritten, if any, out of its bucket and puts the new one in. */
    method Recount(value: nat)
      requires Valid() && value < buckets.Length
      modifies buckets
      ensures forall b :: 0 <= b < buckets.Length ==> buckets[b] == multiset(Window(samples + [value], capacity))[b]
    {
      SlideCounts(samples, capacity, value);
      Cursor(values, samples, capacity);
      if index < |values| {
        buckets[values[index]] := buckets[values[index]] - 1;
      }
      buckets[value] := buckets[value] + 1;
    }

    /** Writes the new sample over the oldest one, or appends it. */
    method Remember(value: nat)
      requires capacity > 0 && IsRing(values, samples, capacity) && index == |samples| % capacity
      modifies `values, `index, `samples
      ensures samples == old(samples) + [value]
      ensures IsRing(values, samples, capacity) && index == |samples| % capacity
    {
      Cursor(values, samples, capacity);
      RingAdd(values, samples, capacity, value);
      NextIndex(|samples|, capacity);
      if index < |values| {
        values := values[index := value];
      } else {
        values := values + [value];
      }
      index := (index + 1) % capacity;
      samples := samples + [value];
    }

    method InverseCdf(probability: real) returns (bucket: nat)
      requires Valid()
      ensures bucket == if NumValues() > 0 then Quantile(Window(samples, capacity), probability, buckets.Length)
                        else if probability > 0.0 then 1 else 0
    {
      ghost var w := Window(samples, capacity);
      bucket := 0;
      var accumulated := Some(0.0);
      if |values| > 0 {
        BelowZero(w);
        ShareCovers(w, 0, probability);
      }
      while LessThan(accumulated, probability) && bucket < buckets.Length
        invariant bucket <= buckets.Length
        invariant |values| > 0 ==> accumulated == Some(Share(w, bucket))
        invariant |values| > 0 ==> (Share(w, bucket) < probability <==> !Covers(w, probability, bucket))
        invariant |values| > 0 ==>
                    QuantileFrom(w, probability, buckets.Length, bucket) == Quantile(w, probability, buckets.Length)
        invariant |values| == 0 ==> if bucket == 0 then accumulated == Some(0.0)
                                    else bucket == 1 && accumulated == None && probability > 0.0
        decreases buckets.Length - bucket
      {
        if |values| > 0 {
          ShareGrows(w, bucket, buckets[bucket]);
          ShareCovers(w, bucket + 1, probability);
        }
        accumulated := PlusShare(accumulated, buckets[bucket], |values|);
        bucket := bucket + 1;
      }
    }

    function NumValues(): (n: nat)
      requires Valid()
      reads this, buckets
      ensures n == |Window(samples, capacity)|
    {
      |values|
    }
  }
}
