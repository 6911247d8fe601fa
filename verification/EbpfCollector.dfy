/** Reading a histogram map out to Prometheus (pkg/ebpf/collector.go). */
module EbpfCollector {
  import opened Bits
  import opened Common
  import opened Histogram
  import opened BpfLatency

  datatype Sample = Sample(key: HistKey, count: nat, sum: real, buckets: map<real, nat>)

  /** The bucket at a boundary of us microseconds against the latencies behind it. */
  ghost predicate HonestBucket(bucket: nat, lats: seq<Micros>, us: real) {
    HonestCount(bucket, lats, us) && bucket <= |lats|
  }

  /** An exported sum, in microseconds: never above the true total, and within 2*sqrt(2) of it while no
      latency passes 2^26 microseconds. */
  ghost predicate HonestSum(us: real, lats: seq<Micros>, sqrt2: real) {
    && us <= Total(lats) as real
    && (AllUpTo(lats, Pow2(MAX_SLOTS)) ==> Total(lats) as real <= 2.0 * sqrt2 * us)
  }

  /** One bucket for each boundary, each true of the elapsed times and honest about what was recorded of them; and
      cumulative. */
  ghost predicate HonestBuckets(buckets: map<real, nat>, ns: seq<nat>, promBuckets: seq<real>) {
    && buckets.Keys == (set b | b in promBuckets)
    && (forall b | b in promBuckets :: TrueBucket(buckets[b], ns, b))
    && (forall b | b in promBuckets :: HonestBucket(buckets[b], Rounded(ns), b * 1000000.0))
    && (forall b, c | b in promBuckets && c in promBuckets && b <= c :: buckets[b] <= buckets[c])
  }

  /** A whole exported histogram against the elapsed times measured under its key, in nanoseconds, and against the
      microseconds recorded of them. */
  ghost predicate Honest(s: Sample, ns: seq<nat>, promBuckets: seq<real>, sqrt2: real) {
    && s.count == |ns| > 0 && HonestBuckets(s.buckets, ns, promBuckets)
    && TrueSum(s.sum, ns, 2.0 * sqrt2) && HonestSum(s.sum * 1000000.0, Rounded(ns), sqrt2)
  }

  lemma SlotTotalIsCount(lats: seq<Micros>)
    ensures PrefixSum(SlotCounts(lats), MAX_SLOTS) == |lats|
  {
    PrefixCounts(lats, MAX_SLOTS);
    AllInSlots(lats);
  }

  lemma BucketIsHonest(ns: seq<nat>, b: real)
    ensures TrueBucket(PrefixSum(SlotCounts(Rounded(ns)), SlotsUnder(b, MAX_SLOTS)), ns, b)
    ensures HonestBucket(PrefixSum(SlotCounts(Rounded(ns)), SlotsUnder(b, MAX_SLOTS)), Rounded(ns), b * 1000000.0)
  {
    SlotTotalIsCount(Rounded(ns));
    BucketsOf(Rounded(ns), ns, SlotCounts(Rounded(ns)), b);
    BucketsCumulative(SlotCounts(Rounded(ns)), b, b);
  }

  lemma SumIsHonest(lats: seq<Micros>, sqrt2: real)
    requires sqrt2 > 0.0 && sqrt2 * sqrt2 == 2.0
    ensures HonestSum(WeightedSum(SlotCounts(lats), sqrt2, MAX_SLOTS) * 1000000.0, lats, sqrt2)
  {
    SumNeverAbove(lats, sqrt2);
    if AllUpTo(lats, Pow2(MAX_SLOTS)) {
      SumWithinFactor(lats, sqrt2);
    }
  }

  lemma BucketsAreHonest(buckets: map<real, nat>, ns: seq<nat>, slots: Slots, promBuckets: seq<real>)
    requires slots == SlotCounts(Rounded(ns)) && buckets.Keys == set b | b in promBuckets
    requires forall b | b in promBuckets :: buckets[b] == PrefixSum(slots, SlotsUnder(b, MAX_SLOTS))
    ensures HonestBuckets(buckets, ns, promBuckets)
  {
    forall b | b in promBuckets
      ensures TrueBucket(buckets[b], ns, b) && HonestBucket(buckets[b], Rounded(ns), b * 1000000.0)
    {
      BucketIsHonest(ns, b);
    }
    forall b, c | b in promBuckets && c in promBuckets && b <= c
      ensures buckets[b] <= buckets[c]
    {
      BucketsCumulative(slots, b, c);
    }
  }

  lemma ConversionIsHonest(s: Sample, ns: seq<nat>, slots: Slots, promBuckets: seq<real>, sqrt2: real)
    requires sqrt2 > 0.0 && sqrt2 * sqrt2 == 2.0 && ns != [] && slots == SlotCounts(Rounded(ns))
    requires s.count == PrefixSum(slots, MAX_SLOTS) && s.sum == WeightedSum(slots, sqrt2, MAX_SLOTS)
    requires s.buckets.Keys == set b | b in promBuckets
    requires forall b | b in promBuckets :: s.buckets[b] == PrefixSum(slots, SlotsUnder(b, MAX_SLOTS))
    ensures Honest(s, ns, promBuckets, sqrt2)
  {
    SlotTotalIsCount(Rounded(ns));
    SumIsHonest(Rounded(ns), sqrt2);
    SumInNanos(Rounded(ns), ns, sqrt2);
    BucketsAreHonest(s.buckets, ns, slots, promBuckets);
  }

  /** One map entry: nothing is exported for an empty histogram. */
  method Export(slotCeiling: array<real>, key: HistKey, slots: Slots, promBuckets: seq<real>, sqrt2: real,
                ghost ns: seq<nat>) returns (sample: Option<Sample>)
    requires sqrt2 > 0.0 && sqrt2 * sqrt2 == 2.0
    requires slotCeiling.Length == MAX_SLOTS
    requires forall i :: 0 <= i < MAX_SLOTS ==> slotCeiling[i] == Ceiling(i)
    requires slots == SlotCounts(Rounded(ns))
    ensures sample.None? <==> ns == []
    ensures sample.Some? ==> sample.value.key == key && Honest(sample.value, ns, promBuckets, sqrt2)
  {
    var count, sum, buckets := SlotsToConstHistogram(slotCeiling, slots, promBuckets, sqrt2);
    SlotTotalIsCount(Rounded(ns));
    if count == 0 {
      return None;
    }
    ConversionIsHonest(Sample(key, count, sum, buckets), ns, slots, promBuckets, sqrt2);
    return Some(Sample(key, count, sum, buckets));
  }

  // Walking the map

  /** An entry as the iterator delivers it. */
  datatype Entered = Entered(key: HistKey, slots: Slots)

  /** Entry k is exported: its operation is known and something was counted. */
  predicate Exported(entries: seq<Entered>, delays: seq<seq<nat>>, maxOp: nat, k: nat)
    requires |delays| == |entries| && k < |entries|
  {
    entries[k].key.op <= maxOp && delays[k] != []
  }

  /** The samples of a walk, in order: sample t stands for entry at[t] and is honest about its delays, and every
      entry to be exported has one. */
  ghost predicate Walked(samples: seq<Sample>, at: seq<nat>, entries: seq<Entered>, delays: seq<seq<nat>>, maxOp: nat,
                         promBuckets: seq<real>, sqrt2: real)
    requires |delays| == |entries|
  {
    && |at| == |samples| && (forall t | 0 <= t < |at| :: at[t] < |entries|)
    && (forall t, u | 0 <= t < u < |at| :: at[t] < at[u])
    && (forall t | 0 <= t < |at| ::
          && samples[t].key == entries[at[t]].key && Exported(entries, delays, maxOp, at[t])
          && Honest(samples[t], delays[at[t]], promBuckets, sqrt2))
    && (forall k | 0 <= k < |entries| && Exported(entries, delays, maxOp, k) :: k in at)
  }

  lemma WalkSkips(samples: seq<Sample>, at: seq<nat>, entries: seq<Entered>, delays: seq<seq<nat>>, i: nat, maxOp: nat,
                  promBuckets: seq<real>, sqrt2: real)
    requires |delays| == |entries| && i < |entries|
    requires Walked(samples, at, entries[..i], delays[..i], maxOp, promBuckets, sqrt2)
    requires !Exported(entries, delays, maxOp, i)
    ensures Walked(samples, at, entries[..i + 1], delays[..i + 1], maxOp, promBuckets, sqrt2)
  {
    forall k | 0 <= k < i + 1 && Exported(entries[..i + 1], delays[..i + 1], maxOp, k)
      ensures k in at
    {
      assert Exported(entries[..i], delays[..i], maxOp, k);
    }
  }

  lemma WalkExports(samples: seq<Sample>, at: seq<nat>, entries: seq<Entered>, delays: seq<seq<nat>>, i: nat,
                    maxOp: nat, promBuckets: seq<real>, sqrt2: real, s: Sample)
    requires |delays| == |entries| && i < |entries|
    requires Walked(samples, at, entries[..i], delays[..i], maxOp, promBuckets, sqrt2)
    requires Exported(entries, delays, maxOp, i) && s.key == entries[i].key && Honest(s, delays[i], promBuckets, sqrt2)
    ensures Walked(samples + [s], at + [i], entries[..i + 1], delays[..i + 1], maxOp, promBuckets, sqrt2)
  {
    forall t | 0 <= t < |at|
      ensures var k := at[t];
              && k < i && Exported(entries[..i + 1], delays[..i + 1], maxOp, k)
              && samples[t].key == entries[k].key && Honest(samples[t], delays[k], promBuckets, sqrt2)
    {
      assert Exported(entries[..i], delays[..i], maxOp, at[t]);
    }
    forall k | 0 <= k < i + 1 && Exported(entries[..i + 1], delays[..i + 1], maxOp, k)
      ensures k in at + [i]
    {
      if k < i {
        assert Exported(entries[..i], delays[..i], maxOp, k);
      }
    }
  }

  /** One pass over whatever the iterator delivers, an error of the iterator ending it like the end of the map:
      entries with an operation out of range or no events are skipped, every other entry is exported. */
  method CollectHists(entries: seq<Entered>, maxOp: nat, promBuckets: seq<real>, sqrt2: real,
                      ghost delays: seq<seq<nat>>) returns (samples: seq<Sample>, ghost at: seq<nat>)
    requires sqrt2 > 0.0 && sqrt2 * sqrt2 == 2.0
    requires |delays| == |entries|
    requires forall k | 0 <= k < |entries| :: entries[k].slots == SlotCounts(Rounded(delays[k]))
    ensures Walked(samples, at, entries, delays, maxOp, promBuckets, sqrt2)
  {
    var slotCeiling := InitSlotCeiling();
    samples, at := [], [];
    for i := 0 to |entries|
      invariant forall k :: 0 <= k < MAX_SLOTS ==> slotCeiling[k] == Ceiling(k)
      invariant Walked(samples, at, entries[..i], delays[..i], maxOp, promBuckets, sqrt2)
    {
      var key := entries[i].key;
      var sample := None;
      if key.op <= maxOp {
        sample := Export(slotCeiling, key, entries[i].slots, promBuckets, sqrt2, delays[i]);
      }
      if sample.Some? {
        WalkExports(samples, at, entries, delays, i, maxOp, promBuckets, sqrt2, sample.value);
        samples, at := samples + [sample.value], at + [i];
      } else {
        WalkSkips(samples, at, entries, delays, i, maxOp, promBuckets, sqrt2);
      }
    }
    assert entries[..|entries|] == entries && delays[..|delays|] == delays;
  }

  /** The iterator delivered every entry of a map once, in some order, with these delays behind the entries. */
  ghost predicate Still(entries: seq<Entered>, delays: seq<seq<nat>>, measured: map<HistKey, seq<nat>>) {
    && |delays| == |entries|
    && (forall k | 0 <= k < |entries| :: entries[k].key in measured && delays[k] == measured[entries[k].key])
    && (forall j, k | 0 <= j < k < |entries| :: entries[j].key != entries[k].key)
    && (forall hk | hk in measured :: exists k :: 0 <= k < |entries| && entries[k].key == hk)
  }

  lemma WalkHas(samples: seq<Sample>, at: seq<nat>, entries: seq<Entered>, delays: seq<seq<nat>>, maxOp: nat,
                promBuckets: seq<real>, sqrt2: real, measured: map<HistKey, seq<nat>>, hk: HistKey) returns (t: nat)
    requires Still(entries, delays, measured) && Walked(samples, at, entries, delays, maxOp, promBuckets, sqrt2)
    requires hk in measured && hk.op <= maxOp && measured[hk] != []
    ensures t < |samples| && samples[t].key == hk
  {
    var k :| 0 <= k < |entries| && entries[k].key == hk;
    assert Exported(entries, delays, maxOp, k);
    t :| 0 <= t < |at| && at[t] == k;
  }

  /** On a map that does not change meanwhile: one sample for each key with a known operation and something measured,
      and no other, each honest about what was measured, whatever the order of the walk. */
  lemma WalkCovers(samples: seq<Sample>, at: seq<nat>, entries: seq<Entered>, delays: seq<seq<nat>>, maxOp: nat,
                   promBuckets: seq<real>, sqrt2: real, measured: map<HistKey, seq<nat>>)
    requires Still(entries, delays, measured) && Walked(samples, at, entries, delays, maxOp, promBuckets, sqrt2)
    ensures forall hk :: hk in measured && hk.op <= maxOp && measured[hk] != [] <==>
              exists t :: 0 <= t < |samples| && samples[t].key == hk
    ensures forall t, u | 0 <= t < u < |samples| :: samples[t].key != samples[u].key
    ensures forall t | 0 <= t < |samples| ::
              samples[t].key in measured && Honest(samples[t], measured[samples[t].key], promBuckets, sqrt2)
  {
    forall hk | hk in measured && hk.op <= maxOp && measured[hk] != []
      ensures exists t :: 0 <= t < |samples| && samples[t].key == hk
    {
      var t := WalkHas(samples, at, entries, delays, maxOp, promBuckets, sqrt2, measured, hk);
    }
  }

  /** Entry k was read when the programs had got as far as `times[k]` events. */
  ghost predicate ReadAt<K>(entries: seq<Entered>, times: seq<nat>, events: seq<Event<K>>) {
    && |times| == |entries|
    && forall k | 0 <= k < |entries| ::
         && times[k] <= |events| && var hists := Replay(events[..times[k]]).0.hists;
         entries[k].key in hists && entries[k].slots == hists[entries[k].key]
  }

  /** The elapsed times behind each entry when it was read. */
  ghost function DelaysAt<K>(entries: seq<Entered>, times: seq<nat>, events: seq<Event<K>>): (delays: seq<seq<nat>>)
    requires ReadAt(entries, times, events)
    ensures |delays| == |entries|
  {
    seq(|entries|, k requires 0 <= k < |entries| => Delays(events[..times[k]], entries[k].key))
  }

  lemma ReadMatches<K>(entries: seq<Entered>, times: seq<nat>, events: seq<Event<K>>, k: nat)
    requires ReadAt(entries, times, events) && k < |entries|
    ensures entries[k].slots == SlotCounts(Rounded(DelaysAt(entries, times, events)[k]))
    ensures var run, hk := events[..times[k]], entries[k].key;
            ElapsedTimes(run, hk, Measured(run, hk), DelaysAt(entries, times, events)[k])
  {
    var run, hk := events[..times[k]], entries[k].key;
    EntryInNanos(run, hk);
    assert Recorded(Replay(run).1.latencies, hk) == Rounded(Delays(run, hk));
    LatenciesAreElapsed(run, hk);
  }

  /** While the programs go on running, with starts, completions and evictions between any two reads: each sample is
      honest about the elapsed times the entry had measured when it was read. */
  method CollectRun<K>(entries: seq<Entered>, maxOp: nat, promBuckets: seq<real>, sqrt2: real, ghost times: seq<nat>,
                       ghost events: seq<Event<K>>) returns (samples: seq<Sample>, ghost at: seq<nat>)
    requires sqrt2 > 0.0 && sqrt2 * sqrt2 == 2.0
    requires ReadAt(entries, times, events)
    ensures Walked(samples, at, entries, DelaysAt(entries, times, events), maxOp, promBuckets, sqrt2)
    ensures forall k | 0 <= k < |entries| :: var run, hk := events[..times[k]], entries[k].key;
              ElapsedTimes(run, hk, Measured(run, hk), DelaysAt(entries, times, events)[k])
  {
    ghost var delays := DelaysAt(entries, times, events);
    forall k | 0 <= k < |entries|
      ensures entries[k].slots == SlotCounts(Rounded(delays[k]))
      ensures var run, hk := events[..times[k]], entries[k].key; ElapsedTimes(run, hk, Measured(run, hk), delays[k])
    {
      ReadMatches(entries, times, events, k);
    }
    samples, at := CollectHists(entries, maxOp, promBuckets, sqrt2, delays);
  }
}
