/** Log2 slot histograms and their conversion to Prometheus buckets (pkg/ebpf/histogram.go).
    Floating point is modelled over reals; `sqrt2` stands for math.Sqrt2. */
module Histogram {
  import opened Bits

  const MAX_SLOTS: nat := 26
  const MICROS_PER_SECOND: real := 1000000.0

  /** A latency as recorded by the handlers, in whole microseconds, never zero. */
  type Micros = x: int | 1 <= x witness 1

  type Slots = s: seq<nat> | |s| == MAX_SLOTS witness
    [0, 0, 0, 0, 0, 0, 0, 0, 0, 0, 0, 0, 0, 0, 0, 0, 0, 0, 0, 0, 0, 0, 0, 0, 0, 0]

  const ZERO_HIST: Slots := [0, 0, 0, 0, 0, 0, 0, 0, 0, 0, 0, 0, 0, 0, 0, 0, 0, 0, 0, 0, 0, 0, 0, 0, 0, 0]

  /** The slot a latency is counted in: its floor logarithm, clamped to the last slot. */
  function SlotOf(us: Micros): (slot: nat)
    ensures slot < MAX_SLOTS
  {
    var k := FloorLog2(us);
    if k >= MAX_SLOTS then MAX_SLOTS - 1 else k
  }

  function Bump(s: Slots, i: nat): (r: Slots)
    requires i < MAX_SLOTS
  {
    s[i := s[i] + 1]
  }

  /** The slot array that counting these latencies one by one produces. */
  function SlotCounts(lats: seq<Micros>): (s: Slots) {
    if lats == [] then ZERO_HIST
    else Bump(SlotCounts(lats[..|lats| - 1]), SlotOf(lats[|lats| - 1]))
  }

  /** How many of the latencies are at most us. */
  function CountUpTo(lats: seq<int>, us: real): (n: nat) {
    if lats == [] then 0
    else CountUpTo(lats[..|lats| - 1], us) + if lats[|lats| - 1] as real <= us then 1 else 0
  }

  /** How many of the latencies are below us. */
  function CountBelow(lats: seq<int>, us: real): (n: nat) {
    if lats == [] then 0
    else CountBelow(lats[..|lats| - 1], us) + if (lats[|lats| - 1] as real) < us then 1 else 0
  }

  /** How many of the latencies are in one of the first k slots. */
  function CountInSlots(lats: seq<Micros>, k: nat): (n: nat) {
    if lats == [] then 0
    else CountInSlots(lats[..|lats| - 1], k) + if SlotOf(lats[|lats| - 1]) < k then 1 else 0
  }

  function Total(lats: seq<int>): (t: int) {
    if lats == [] then 0 else Total(lats[..|lats| - 1]) + lats[|lats| - 1]
  }

  function PrefixSum(s: seq<nat>, n: nat): (t: nat)
    requires n <= |s|
  {
    if n == 0 then 0 else PrefixSum(s, n - 1) + s[n - 1]
  }

  /** slotCeiling[i], in seconds. */
  function Ceiling(i: nat): (c: real) {
    Pow2(i) as real / MICROS_PER_SECOND
  }

  /** x doubled n times. */
  function Doubled(x: real, n: nat): (r: real) {
    if n == 0 then x else 2.0 * Doubled(x, n - 1)
  }

  /** Representative latency of slot i, in microseconds. */
  function Midpoint(i: nat, sqrt2: real): (m: real) {
    if i == 0 then 0.5 else Doubled(sqrt2, i - 1)
  }

  lemma {:induction false} DoubledIsProduct(x: real, n: nat)
    ensures Doubled(x, n) == Pow2(n) as real * x
  {
    if n > 0 {
      DoubledIsProduct(x, n - 1);
    }
  }

  /** Slot 0 stands for half a microsecond, every other slot for the geometric mean of 2^(i-1) and 2^i. */
  lemma MidpointIsGeometric(i: nat, s: real)
    requires s > 0.0 && s * s == 2.0
    ensures i == 0 ==> Midpoint(i, s) == 0.5
    ensures i > 0 ==>
              Midpoint(i, s) > 0.0 && Midpoint(i, s) * Midpoint(i, s) == Pow2(i - 1) as real * Pow2(i) as real
  {
    if i > 0 {
      var p := Pow2(i - 1) as real;
      DoubledIsProduct(s, i - 1);
      assert (p * s) * (p * s) == p * p * (s * s);
      assert Pow2(i) as real == 2.0 * p;
    }
  }

  /** What slot i adds to the exported sum, in seconds, for each event counted in it. */
  function Weight(i: nat, sqrt2: real): (w: real) {
    Midpoint(i, sqrt2) / MICROS_PER_SECOND
  }

  /** w added c times. */
  function Repeat(c: nat, w: real): (t: real) {
    if c == 0 then 0.0 else Repeat(c - 1, w) + w
  }

  function WeightedSum(s: seq<nat>, sqrt2: real, n: nat): (t: real)
    requires n <= |s|
  {
    if n == 0 then 0.0 else WeightedSum(s, sqrt2, n - 1) + Repeat(s[n - 1], Weight(n - 1, sqrt2))
  }

  /** How many leading slots fall under boundary b: one past the last i < n with Ceiling(i) <= b. */
  function SlotsUnder(b: real, n: nat): (k: nat)
    ensures k <= n
  {
    if n == 0 then 0 else if Ceiling(n - 1) <= b then n else SlotsUnder(b, n - 1)
  }

  method InitSlotCeiling() returns (slotCeiling: array<real>)
    ensures fresh(slotCeiling) && slotCeiling.Length == MAX_SLOTS
    ensures forall i :: 0 <= i < MAX_SLOTS ==> slotCeiling[i] == Ceiling(i)
  {
    slotCeiling := new real[MAX_SLOTS];
    for i := 0 to MAX_SLOTS
      invariant forall j :: 0 <= j < i ==> slotCeiling[j] == Ceiling(j)
    {
      slotCeiling[i] := Pow2(i) as real / 1000000.0;
    }
  }

  method MidpointOf(i: nat, sqrt2: real) returns (midpointUS: real)
    ensures midpointUS == Midpoint(i, sqrt2)
  {
    if i == 0 {
      midpointUS := 0.5;
    } else {
      DoubledIsProduct(sqrt2, i - 1);
      midpointUS := Pow2(i - 1) as real * sqrt2;
    }
  }

  lemma {:induction false} RepeatIsProduct(c: nat, w: real)
    ensures Repeat(c, w) == c as real * w
  {
    if c > 0 {
      RepeatIsProduct(c - 1, w);
    }
  }

  /** The first loop: count, running totals and sum. */
  method Accumulate(slots: Slots, sqrt2: real) returns (count: nat, sum: real, runningTotal: array<nat>)
    ensures fresh(runningTotal) && runningTotal.Length == MAX_SLOTS
    ensures count == PrefixSum(slots, MAX_SLOTS)
    ensures sum == WeightedSum(slots, sqrt2, MAX_SLOTS)
    ensures forall j :: 0 <= j < MAX_SLOTS ==> runningTotal[j] == PrefixSum(slots, j + 1)
  {
    runningTotal := new nat[MAX_SLOTS];
    var cumulative := 0;
    count, sum := 0, 0.0;
    for i := 0 to MAX_SLOTS
      invariant cumulative == count == PrefixSum(slots, i)
      invariant sum == WeightedSum(slots, sqrt2, i)
      invariant forall j :: 0 <= j < i ==> runningTotal[j] == PrefixSum(slots, j + 1)
    {
      cumulative := cumulative + slots[i];
      count := count + slots[i];
      runningTotal[i] := cumulative;
      var midpointUS := MidpointOf(i, sqrt2);
      RepeatIsProduct(slots[i], midpointUS / 1000000.0);
      sum := sum + slots[i] as real * (midpointUS / 1000000.0);
    }
  }

  /** The inner loop: the last slot whose ceiling is at most the boundary, -1 if there is none. */
  method LastSlotUnder(slotCeiling: array<real>, b: real) returns (slot: int)
    requires slotCeiling.Length == MAX_SLOTS
    requires forall i :: 0 <= i < MAX_SLOTS ==> slotCeiling[i] == Ceiling(i)
    ensures -1 <= slot < MAX_SLOTS && slot + 1 == SlotsUnder(b, MAX_SLOTS)
  {
    slot := -1;
    for i := 0 to MAX_SLOTS
      invariant -1 <= slot < i && slot + 1 == SlotsUnder(b, i)
    {
      if slotCeiling[i] <= b {
        slot := i;
      }
    }
  }

  method SlotsToConstHistogram(slotCeiling: array<real>, slots: Slots, promBuckets: seq<real>, sqrt2: real)
    returns (count: nat, sum: real, buckets: map<real, nat>)
    requires slotCeiling.Length == MAX_SLOTS
    requires forall i :: 0 <= i < MAX_SLOTS ==> slotCeiling[i] == Ceiling(i)
    ensures count == PrefixSum(slots, MAX_SLOTS)
    ensures sum == WeightedSum(slots, sqrt2, MAX_SLOTS)
    ensures buckets.Keys == set b | b in promBuckets
    ensures forall b | b in promBuckets :: buckets[b] == PrefixSum(slots, SlotsUnder(b, MAX_SLOTS))
  {
    var runningTotal;
    count, sum, runningTotal := Accumulate(slots, sqrt2);
    buckets := map[];
    for k := 0 to |promBuckets|
      invariant forall j :: 0 <= j < MAX_SLOTS ==> runningTotal[j] == PrefixSum(slots, j + 1)
      invariant buckets.Keys == set b | b in promBuckets[..k]
      invariant forall b | b in promBuckets[..k] :: buckets[b] == PrefixSum(slots, SlotsUnder(b, MAX_SLOTS))
    {
      var b := promBuckets[k];
      var slot := LastSlotUnder(slotCeiling, b);
      buckets := buckets[b := if slot >= 0 then runningTotal[slot] else 0];
      assert promBuckets[..k + 1] == promBuckets[..k] + [b];
    }
    assert promBuckets[..|promBuckets|] == promBuckets;
  }

  // Counting

  lemma {:induction false} PrefixSumBump(s: Slots, i: nat, n: nat)
    requires i < MAX_SLOTS && n <= MAX_SLOTS
    ensures PrefixSum(Bump(s, i), n) == PrefixSum(s, n) + if i < n then 1 else 0
  {
    if n > 0 {
      PrefixSumBump(s, i, n - 1);
    }
  }

  lemma {:induction false} PrefixSumZero(n: nat)
    requires n <= MAX_SLOTS
    ensures PrefixSum(ZERO_HIST, n) == 0
  {
    if n > 0 {
      PrefixSumZero(n - 1);
    }
  }

  lemma {:induction false} PrefixSumMonotone(s: seq<nat>, m: nat, n: nat)
    requires m <= n <= |s|
    ensures PrefixSum(s, m) <= PrefixSum(s, n)
  {
    if m < n {
      PrefixSumMonotone(s, m, n - 1);
    }
  }

  /** The first n slots hold exactly the latencies whose slot is below n. */
  lemma {:induction false} PrefixCounts(lats: seq<Micros>, n: nat)
    requires n <= MAX_SLOTS
    ensures PrefixSum(SlotCounts(lats), n) == CountInSlots(lats, n)
  {
    if lats == [] {
      PrefixSumZero(n);
    } else {
      var init, last := lats[..|lats| - 1], lats[|lats| - 1];
      PrefixCounts(init, n);
      PrefixSumBump(SlotCounts(init), SlotOf(last), n);
    }
  }

  lemma {:induction false} AllInSlots(lats: seq<Micros>)
    ensures CountInSlots(lats, MAX_SLOTS) == |lats|
  {
    if lats != [] {
      AllInSlots(lats[..|lats| - 1]);
    }
  }

  lemma CeilingMicros(i: nat, b: real, us: real)
    requires us == b * MICROS_PER_SECOND
    ensures Ceiling(i) <= b <==> Pow2(i) as real <= us
  {
    var p := Pow2(i) as real;
    assert p / MICROS_PER_SECOND * MICROS_PER_SECOND == p;
  }

  lemma {:induction false} SlotsUnderBrackets(b: real, us: real, n: nat)
    requires us == b * MICROS_PER_SECOND
    ensures var k := SlotsUnder(b, n);
            && (k > 0 ==> Pow2(k - 1) as real <= us)
            && (k < n ==> us < Pow2(k) as real)
  {
    if n > 0 {
      CeilingMicros(n - 1, b, us);
      SlotsUnderBrackets(b, us, n - 1);
    }
  }

  lemma SlotBelow(l: Micros, n: nat)
    requires n < MAX_SLOTS
    ensures SlotOf(l) < n <==> l < Pow2(n)
  {
    FloorLog2Bounds(l);
    if FloorLog2(l) < n {
      Pow2Monotone(FloorLog2(l) + 1, n);
    } else {
      Pow2Monotone(n, FloorLog2(l));
    }
  }

  /** Below the clamped slot, the first n slots hold exactly the latencies below 2^n. */
  lemma {:induction false} SlotsExact(lats: seq<Micros>, n: nat)
    requires n < MAX_SLOTS
    ensures CountInSlots(lats, n) == CountBelow(lats, Pow2(n) as real)
  {
    if lats != [] {
      SlotsExact(lats[..|lats| - 1], n);
      SlotBelow(lats[|lats| - 1], n);
    }
  }

  lemma {:induction false} CountsOrdered(lats: seq<int>, x: real, y: real, z: real)
    requires x < y <= z
    ensures CountUpTo(lats, x) <= CountBelow(lats, y) <= CountBelow(lats, z)
  {
    if lats != [] {
      CountsOrdered(lats[..|lats| - 1], x, y, z);
    }
  }

  lemma {:induction false} NoneBelowOne(lats: seq<Micros>)
    ensures CountBelow(lats, 1.0) == 0
  {
    if lats != [] {
      NoneBelowOne(lats[..|lats| - 1]);
    }
  }

  lemma {:induction false} CountUpToAll(lats: seq<int>, us: real)
    ensures CountUpTo(lats, us) <= |lats|
  {
    if lats != [] {
      CountUpToAll(lats[..|lats| - 1], us);
    }
  }

  /** What a bucket says about the latencies behind it: it covers every latency <= us and, below the clamped
      slot, none that reaches 2us. */
  ghost predicate HonestCount(bucket: nat, lats: seq<Micros>, us: real) {
    && CountUpTo(lats, us) <= bucket
    && (us < Pow2(25) as real ==> bucket <= CountBelow(lats, 2.0 * us))
    && (us >= Pow2(25) as real ==> bucket == |lats|)
  }

  /** The exact value of an exported bucket: the latencies below the least power of two above its boundary, and
      all of them once the boundary has reached the last slot. */
  lemma BucketExact(lats: seq<Micros>, b: real, us: real)
    requires us == b * MICROS_PER_SECOND
    ensures var n := SlotsUnder(b, MAX_SLOTS);
            && n <= MAX_SLOTS && (n > 0 ==> Pow2(n - 1) as real <= us) && (n < MAX_SLOTS ==> us < Pow2(n) as real)
            && PrefixSum(SlotCounts(lats), n) == if n < MAX_SLOTS then CountBelow(lats, Pow2(n) as real) else |lats|
  {
    var n := SlotsUnder(b, MAX_SLOTS);
    SlotsUnderBrackets(b, us, MAX_SLOTS);
    PrefixCounts(lats, n);
    if n < MAX_SLOTS {
      SlotsExact(lats, n);
    } else {
      AllInSlots(lats);
    }
  }

  lemma NextPower(us: real, n: nat)
    requires 0 < n < MAX_SLOTS && Pow2(n - 1) as real <= us < Pow2(n) as real
    ensures Pow2(n) as real <= 2.0 * us && us < Pow2(25) as real
  {
    assert Pow2(n) == 2 * Pow2(n - 1);
    Pow2Monotone(n, 25);
  }

  lemma EmptyIsHonest(lats: seq<Micros>, us: real)
    requires us < 1.0
    ensures HonestCount(CountBelow(lats, 1.0), lats, us)
  {
    Pow2Monotone(0, 25);
    NoneBelowOne(lats);
    CountsOrdered(lats, us, 1.0, 1.0);
  }

  lemma ExactIsHonest(lats: seq<Micros>, us: real, n: nat)
    requires n < MAX_SLOTS && us < Pow2(n) as real && (n > 0 ==> Pow2(n - 1) as real <= us)
    ensures HonestCount(CountBelow(lats, Pow2(n) as real), lats, us)
  {
    if n == 0 {
      EmptyIsHonest(lats, us);
    } else {
      NextPower(us, n);
      CountsOrdered(lats, us, Pow2(n) as real, 2.0 * us);
    }
  }

  /** From the boundary of an exported bucket to the latencies behind it. */
  lemma BucketBounds(lats: seq<Micros>, b: real, us: real)
    requires us == b * MICROS_PER_SECOND
    ensures HonestCount(PrefixSum(SlotCounts(lats), SlotsUnder(b, MAX_SLOTS)), lats, us)
  {
    var n := SlotsUnder(b, MAX_SLOTS);
    BucketExact(lats, b, us);
    if n < MAX_SLOTS {
      ExactIsHonest(lats, us, n);
    } else {
      CountUpToAll(lats, us);
    }
  }

  /** Exported buckets are cumulative: they grow with the boundary and never pass the count. */
  lemma BucketsCumulative(s: Slots, b: real, c: real)
    requires b <= c
    ensures PrefixSum(s, SlotsUnder(b, MAX_SLOTS)) <= PrefixSum(s, SlotsUnder(c, MAX_SLOTS)) <= PrefixSum(s, MAX_SLOTS)
  {
    var m, n := SlotsUnder(b, MAX_SLOTS), SlotsUnder(c, MAX_SLOTS);
    SlotsUnderBrackets(b, b * MICROS_PER_SECOND, MAX_SLOTS);
    SlotsUnderBrackets(c, c * MICROS_PER_SECOND, MAX_SLOTS);
    if n < m {
      Pow2Monotone(n, m - 1);
    }
    PrefixSumMonotone(s, m, n);
    PrefixSumMonotone(s, n, MAX_SLOTS);
  }

  // The estimated sum

  lemma {:induction false} WeightedSumBump(s: Slots, sqrt2: real, i: nat, n: nat)
    requires i < MAX_SLOTS && n <= MAX_SLOTS
    ensures WeightedSum(Bump(s, i), sqrt2, n)
         == WeightedSum(s, sqrt2, n) + if i < n then Weight(i, sqrt2) else 0.0
  {
    if n > 0 {
      WeightedSumBump(s, sqrt2, i, n - 1);
    }
  }

  lemma {:induction false} WeightedSumZero(sqrt2: real, n: nat)
    requires n <= MAX_SLOTS
    ensures WeightedSum(ZERO_HIST, sqrt2, n) == 0.0
  {
    if n > 0 {
      WeightedSumZero(sqrt2, n - 1);
    }
  }

  lemma Sqrt2Range(s: real)
    requires s > 0.0 && s * s == 2.0
    ensures 1.0 < s < 2.0
  {
    assert s >= 2.0 ==> s * s >= 2.0 * s;
    assert s <= 1.0 ==> s * s <= 1.0 * s;
  }

  /** Slot i starts at 2^i and, for latencies up to 2^26, ends at 2^(i+1). */
  lemma SlotRange(l: Micros)
    ensures Pow2(SlotOf(l)) <= l
    ensures l <= Pow2(MAX_SLOTS) ==> l <= 2 * Pow2(SlotOf(l))
  {
    FloorLog2Bounds(l);
    Pow2Monotone(SlotOf(l), FloorLog2(l));
  }

  /** A representative for each slot, in microseconds. */
  type Representatives = m: seq<real> | |m| == MAX_SLOTS witness
    [0.0, 0.0, 0.0, 0.0, 0.0, 0.0, 0.0, 0.0, 0.0, 0.0, 0.0, 0.0, 0.0,
     0.0, 0.0, 0.0, 0.0, 0.0, 0.0, 0.0, 0.0, 0.0, 0.0, 0.0, 0.0, 0.0]

  /** Total of the representatives of these latencies. */
  function Estimate(lats: seq<Micros>, mid: Representatives): (t: real) {
    if lats == [] then 0.0 else Estimate(lats[..|lats| - 1], mid) + mid[SlotOf(lats[|lats| - 1])]
  }

  function Midpoints(sqrt2: real): (m: Representatives)
    ensures forall i :: 0 <= i < MAX_SLOTS ==> m[i] == Midpoint(i, sqrt2)
  {
    seq(MAX_SLOTS, i requires 0 <= i < MAX_SLOTS => Midpoint(i, sqrt2))
  }

  /** The exported sum, in microseconds. */
  function ExportedMicros(slots: Slots, sqrt2: real): (t: real) {
    WeightedSum(slots, sqrt2, |slots|) * MICROS_PER_SECOND
  }

  /** The exported sum, in seconds, is that of the representatives of all latencies. */
  lemma {:induction false} SumIsEstimate(lats: seq<Micros>, s: real)
    ensures ExportedMicros(SlotCounts(lats), s) == Estimate(lats, Midpoints(s))
    ensures WeightedSum(SlotCounts(lats), s, 26) * 1000000.0 == Estimate(lats, Midpoints(s))
  {
    if lats == [] {
      WeightedSumZero(s, MAX_SLOTS);
    } else {
      var init, last := lats[..|lats| - 1], lats[|lats| - 1];
      SumIsEstimate(init, s);
      WeightedSumBump(SlotCounts(init), s, SlotOf(last), MAX_SLOTS);
    }
  }

  lemma RepresentativeBelow(l: Micros, mid: Representatives)
    requires forall i :: 0 <= i < MAX_SLOTS ==> mid[i] <= Pow2(i) as real
    ensures mid[SlotOf(l)] <= l as real
  {
    SlotRange(l);
  }

  lemma {:induction false} EstimateBelow(lats: seq<Micros>, mid: Representatives)
    requires forall i :: 0 <= i < MAX_SLOTS ==> mid[i] <= Pow2(i) as real
    ensures Estimate(lats, mid) <= Total(lats) as real
  {
    if lats != [] {
      var init, last := lats[..|lats| - 1], lats[|lats| - 1];
      EstimateBelow(init, mid);
      RepresentativeBelow(last, mid);
    }
  }

  /** y is x scaled by c. */
  predicate Scaled(c: real, x: real, y: real) {
    y == c * x
  }

  lemma ScaledAdds(c: real, x: real, y: real, x': real, y': real)
    requires Scaled(c, x, y) && Scaled(c, x', y')
    ensures Scaled(c, x + x', y + y')
  {
  }

  lemma {:induction false} EstimateScales(lats: seq<Micros>, c: real, mid: Representatives, top: Representatives)
    requires forall i :: 0 <= i < MAX_SLOTS ==> Scaled(c, mid[i], top[i])
    ensures Scaled(c, Estimate(lats, mid), Estimate(lats, top))
  {
    if lats != [] {
      var init, i := lats[..|lats| - 1], SlotOf(lats[|lats| - 1]);
      EstimateScales(init, c, mid, top);
      ScaledAdds(c, Estimate(init, mid), Estimate(init, top), mid[i], top[i]);
    }
  }

  /** t is at least every latency slot i holds up to the clamp. */
  predicate Reaches(i: nat, t: real) {
    t >= if i == 0 then 1.0 else 2.0 * Pow2(i) as real
  }

  lemma {:induction false} EstimateReaches(lats: seq<Micros>, top: Representatives)
    requires forall i :: 0 <= i < MAX_SLOTS ==> Reaches(i, top[i])
    requires forall l | l in lats :: l <= Pow2(MAX_SLOTS)
    ensures Total(lats) as real <= Estimate(lats, top)
  {
    if lats != [] {
      var init, last := lats[..|lats| - 1], lats[|lats| - 1];
      assert last in lats && forall l | l in init :: l in lats;
      EstimateReaches(init, top);
      SlotRange(last);
      SlotBelow(last, 1);
    }
  }

  /** 2*sqrt(2) times every representative: the upper end of each slot but the first. */
  function Tops(sqrt2: real): (m: Representatives)
    ensures forall i :: 0 <= i < MAX_SLOTS ==> m[i] == if i == 0 then sqrt2 else 2.0 * Pow2(i) as real
  {
    seq(MAX_SLOTS, i requires 0 <= i < MAX_SLOTS => if i == 0 then sqrt2 else 2.0 * Pow2(i) as real)
  }

  lemma {:induction false} DoubledBelow(x: real, n: nat)
    requires x < 2.0
    ensures Doubled(x, n) < 2.0 * Pow2(n) as real
  {
    if n > 0 {
      DoubledBelow(x, n - 1);
    }
  }

  lemma {:induction false} DoubledScales(c: real, x: real, n: nat)
    requires Scaled(c, x, 4.0)
    ensures Scaled(c, Doubled(x, n), 4.0 * Pow2(n) as real)
  {
    if n > 0 {
      DoubledScales(c, x, n - 1);
      ScaledAdds(c, Doubled(x, n - 1), 4.0 * Pow2(n - 1) as real, Doubled(x, n - 1), 4.0 * Pow2(n - 1) as real);
    }
  }

  lemma Sqrt2Scales(s: real)
    requires s > 0.0 && s * s == 2.0
    ensures Scaled(2.0 * s, s, 4.0) && Scaled(2.0 * s, 0.5, s)
  {
  }

  lemma MidpointsScale(s: real)
    requires s > 0.0 && s * s == 2.0
    ensures forall i :: 0 <= i < MAX_SLOTS ==> Midpoints(s)[i] <= Pow2(i) as real
    ensures forall i :: 0 <= i < MAX_SLOTS ==> Scaled(2.0 * s, Midpoints(s)[i], Tops(s)[i])
  {
    Sqrt2Range(s);
    Sqrt2Scales(s);
    forall i | 0 <= i < MAX_SLOTS
      ensures Midpoints(s)[i] <= Pow2(i) as real && Scaled(2.0 * s, Midpoints(s)[i], Tops(s)[i])
    {
      if i > 0 {
        DoubledBelow(s, i - 1);
        DoubledScales(2.0 * s, s, i - 1);
      }
    }
  }

  lemma SumScales(lats: seq<Micros>, s: real)
    requires s > 0.0 && s * s == 2.0
    ensures Scaled(2.0 * s, ExportedMicros(SlotCounts(lats), s), Estimate(lats, Tops(s)))
  {
    SumIsEstimate(lats, s);
    MidpointsScale(s);
    EstimateScales(lats, 2.0 * s, Midpoints(s), Tops(s));
  }

  /** The exported sum never exceeds the true total of recorded microseconds. */
  lemma SumNeverAbove(lats: seq<Micros>, s: real)
    requires s > 0.0 && s * s == 2.0
    ensures ExportedMicros(SlotCounts(lats), s) <= Total(lats) as real
  {
    SumIsEstimate(lats, s);
    MidpointsScale(s);
    EstimateBelow(lats, Midpoints(s));
  }

  lemma TopsReach(s: real)
    requires s > 0.0 && s * s == 2.0
    ensures forall i :: 0 <= i < MAX_SLOTS ==> Reaches(i, Tops(s)[i])
  {
    Sqrt2Range(s);
  }

  lemma FactorReach(lats: seq<Micros>, s: real)
    requires s > 0.0 && s * s == 2.0
    requires forall l | l in lats :: l <= Pow2(MAX_SLOTS)
    ensures Total(lats) as real <= Estimate(lats, Tops(s))
  {
    TopsReach(s);
    EstimateReaches(lats, Tops(s));
  }

  // How far the exported sum can fall short

  /** The true total is within 2*sqrt(2) of the exported sum. */
  predicate WithinFactor(lats: seq<Micros>, s: real) {
    Total(lats) as real <= 2.0 * s * ExportedMicros(SlotCounts(lats), s)
  }

  predicate AllUpTo(lats: seq<Micros>, t: nat) {
    forall l | l in lats :: l <= t
  }

  lemma FactorIsReach(lats: seq<Micros>, s: real)
    requires s > 0.0 && s * s == 2.0
    ensures WithinFactor(lats, s) <==> Total(lats) as real <= Estimate(lats, Tops(s))
  {
    SumScales(lats, s);
  }

  /** While no latency passes 2^26 microseconds the true total is within the factor. */
  lemma SumWithinFactor(lats: seq<Micros>, s: real)
    requires s > 0.0 && s * s == 2.0
    requires AllUpTo(lats, Pow2(MAX_SLOTS))
    ensures WithinFactor(lats, s)
  {
    FactorIsReach(lats, s);
    FactorReach(lats, s);
  }

  /** From 2^26 on every latency is in the last slot. */
  lemma PastTheClamp(l: Micros)
    requires l >= Pow2(MAX_SLOTS)
    ensures SlotOf(l) == MAX_SLOTS - 1
  {
    FloorLog2Unique(Pow2(MAX_SLOTS), MAX_SLOTS);
    FloorLog2Monotone(Pow2(MAX_SLOTS), l);
  }

  lemma SingleReach(l: Micros, s: real)
    requires s > 0.0 && s * s == 2.0
    ensures l as real <= Estimate([l], Tops(s)) <==> l <= Pow2(MAX_SLOTS)
  {
    assert [l][..0] == [];
    assert Estimate([l], Tops(s)) == Tops(s)[SlotOf(l)];
    assert Total([l]) == l;
    if l <= Pow2(MAX_SLOTS) {
      FactorReach([l], s);
    } else {
      PastTheClamp(l);
    }
  }

  /** A latency on its own loses the factor exactly when it is past 2^26. */
  lemma SingleFactor(l: Micros, s: real)
    requires s > 0.0 && s * s == 2.0
    ensures WithinFactor([l], s) <==> l <= Pow2(MAX_SLOTS)
  {
    FactorIsReach([l], s);
    SingleReach(l, s);
    assert [l][..0] == [] && Total([l]) == l;
  }

  /** The promise for every collection of latencies up to t. */
  ghost predicate FactorHoldsUpTo(t: nat, s: real) {
    forall lats | AllUpTo(lats, t) :: WithinFactor(lats, s)
  }

  /** 2^26 microseconds is the weakest bound: the factor holds for all latencies up to t if and only if
      t is at most that. */
  lemma FactorBoundExact(t: nat, s: real)
    requires s > 0.0 && s * s == 2.0
    ensures FactorHoldsUpTo(t, s) <==> t <= Pow2(MAX_SLOTS)
  {
    if t <= Pow2(MAX_SLOTS) {
      forall lats | AllUpTo(lats, t)
        ensures WithinFactor(lats, s)
      {
        SumWithinFactor(lats, s);
      }
    } else {
      SingleFactor(t, s);
      assert AllUpTo([t], t);
    }
  }

  /** The first latency past the bound breaks the promise. */
  lemma FactorLost(s: real)
    requires s > 0.0 && s * s == 2.0
    ensures !WithinFactor([Pow2(MAX_SLOTS) + 1], s)
  {
    SingleFactor(Pow2(MAX_SLOTS) + 1, s);
  }
}
