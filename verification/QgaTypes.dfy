/** Guest disk counters and the Little's Law derivation (pkg/qga/types.go). Rates are reals. */
module QgaTypes {
  import opened Bits

  datatype DiskCounters = DiskCounters(
    name: string,
    rdQueueLen: U64, wrQueueLen: U64,   // accumulated queue depth times 100 ns ticks
    rdOps: U64, wrOps: U64,             // accumulated operations
    timestamp100ns: U64)

  datatype DiskMetrics = DiskMetrics(
    name: string, rdLatSec: real, wrLatSec: real, rdIOPS: real, wrIOPS: real, elapsedSec: real)

  const TICKS: real := 10000000.0   // 100 ns ticks per second

  /** Wrapping uint64 subtraction. */
  function Sub64(a: U64, b: U64): (d: U64)
    ensures d == if b <= a then a - b else a - b + TWO_64
  {
    (a - b) % TWO_64
  }

  /** Ticks to seconds. */
  function Seconds(ticks: U64): (sec: real) {
    ticks as real / TICKS
  }

  /** Average latency over an interval, zero without operations. */
  function LatencyOf(queue: U64, ops: U64): (sec: real) {
    if ops > 0 then queue as real / ops as real / TICKS else 0.0
  }

  /** Operations per second over an interval, zero without operations. */
  function IopsOf(ops: U64, elapsed: real): (rate: real)
    requires elapsed != 0.0
  {
    if ops > 0 then ops as real / elapsed else 0.0
  }

  function ComputeMetrics(prev: DiskCounters, curr: DiskCounters): (m: DiskMetrics) {
    if curr.timestamp100ns <= prev.timestamp100ns then
      DiskMetrics(curr.name, 0.0, 0.0, 0.0, 0.0, 0.0)
    else
      var elapsed := Seconds(Sub64(curr.timestamp100ns, prev.timestamp100ns));
      var rdOps, wrOps := Sub64(curr.rdOps, prev.rdOps), Sub64(curr.wrOps, prev.wrOps);
      DiskMetrics(
        curr.name,
        LatencyOf(Sub64(curr.rdQueueLen, prev.rdQueueLen), rdOps),
        LatencyOf(Sub64(curr.wrQueueLen, prev.wrQueueLen), wrOps),
        IopsOf(rdOps, elapsed),
        IopsOf(wrOps, elapsed),
        elapsed)
  }

  datatype Direction = Read | Write

  function Ops(c: DiskCounters, d: Direction): (n: U64) {
    if d.Read? then c.rdOps else c.wrOps
  }

  function Queue(c: DiskCounters, d: Direction): (n: U64) {
    if d.Read? then c.rdQueueLen else c.wrQueueLen
  }

  function Iops(m: DiskMetrics, d: Direction): (r: real) {
    if d.Read? then m.rdIOPS else m.wrIOPS
  }

  function Latency(m: DiskMetrics, d: Direction): (r: real) {
    if d.Read? then m.rdLatSec else m.wrLatSec
  }

  /** Operations a published sample accounts for. */
  function Served(m: DiskMetrics, d: Direction): (n: real) {
    Iops(m, d) * m.elapsedSec
  }

  /** The queue depth a published sample shows. */
  function Depth(m: DiskMetrics, d: Direction): (r: real) {
    Iops(m, d) * Latency(m, d)
  }

  /** Queue depth times ticks, averaged over the ticks. */
  function MeanDepth(queue: U64, ticks: U64): (r: real)
    requires ticks > 0
  {
    queue as real / ticks as real
  }

  /** The guest's clock moved on between the two samples. */
  predicate Later(prev: DiskCounters, curr: DiskCounters) {
    prev.timestamp100ns < curr.timestamp100ns
  }

  lemma QuotientTimes(x: real, y: real)
    requires y > 0.0
    ensures x / y * y == x
  {
  }

  lemma CancelFactor(x: real, y: real, t: real)
    requires t > 0.0 && x * t == y * t
    ensures x == y
  {
  }

  lemma ProductOfRates(iops: real, lat: real, e: real, k: real, n: real, q: real, t: real, perOp: real)
    requires iops * e == n && lat * k == perOp && e * k == t && perOp * n == q && t > 0.0
    ensures iops * lat == q / t
  {
    calc {
      (iops * lat) * t;
      (iops * lat) * (e * k);
      (iops * e) * (lat * k);
      n * perOp;
      q;
    }
    QuotientTimes(q, t);
    assert (iops * lat) * t == (q / t) * t;
    CancelFactor(iops * lat, q / t, t);
  }

  /** Little's identity on bare numbers: (n / (t/k)) * (q/n/k) == q/t. */
  lemma LittleArithmetic(n: real, t: real, q: real, k: real, e: real, lat: real, iops: real)
    requires n > 0.0 && t > 0.0 && k > 0.0
    requires e == t / k && iops == n / e && lat == q / n / k
    ensures iops * lat == q / t
  {
    QuotientTimes(t, k);
    assert e > 0.0;
    QuotientTimes(n, e);
    QuotientTimes(q / n, k);
    QuotientTimes(q, n);
    assert iops * e == n && lat * k == q / n && e * k == t && (q / n) * n == q;
    ProductOfRates(iops, lat, e, k, n, q, t, q / n);
  }

  lemma RateIdentities(ops: U64, queue: U64, ticks: U64)
    requires ticks > 0
    ensures Seconds(ticks) > 0.0
    ensures IopsOf(ops, Seconds(ticks)) * Seconds(ticks) == ops as real
    ensures ops > 0 ==> IopsOf(ops, Seconds(ticks)) * LatencyOf(queue, ops) == queue as real / ticks as real
  {
    var e := Seconds(ticks);
    QuotientTimes(ops as real, e);
    if ops > 0 {
      LittleArithmetic(ops as real, ticks as real, queue as real, TICKS, e, LatencyOf(queue, ops), IopsOf(ops, e));
    }
  }

  lemma LittleRates(m: DiskMetrics, d: Direction, ops: U64, queue: U64, ticks: U64)
    requires ticks > 0 && ops > 0 && Seconds(ticks) > 0.0
    requires Iops(m, d) == IopsOf(ops, Seconds(ticks)) && Latency(m, d) == LatencyOf(queue, ops)
    ensures Depth(m, d) == MeanDepth(queue, ticks)
  {
    RateIdentities(ops, queue, ticks);
  }

  lemma ServedRates(m: DiskMetrics, d: Direction, ops: U64, ticks: U64)
    requires ticks > 0 && m.elapsedSec == Seconds(ticks) > 0.0 && Iops(m, d) == IopsOf(ops, Seconds(ticks))
    ensures Served(m, d) == ops as real
  {
    RateIdentities(ops, 0, ticks);
  }

  /** Once the clock has moved on, the metrics are functions of the wrapped differences. */
  lemma MetricsOf(prev: DiskCounters, curr: DiskCounters, d: Direction)
    requires Later(prev, curr)
    ensures Seconds(curr.timestamp100ns - prev.timestamp100ns) > 0.0
    ensures ComputeMetrics(prev, curr).elapsedSec == Seconds(curr.timestamp100ns - prev.timestamp100ns)
    ensures Iops(ComputeMetrics(prev, curr), d)
         == IopsOf(Sub64(Ops(curr, d), Ops(prev, d)), Seconds(curr.timestamp100ns - prev.timestamp100ns))
    ensures Latency(ComputeMetrics(prev, curr), d)
         == LatencyOf(Sub64(Queue(curr, d), Queue(prev, d)), Sub64(Ops(curr, d), Ops(prev, d)))
  {
  }

  /** Rates over `ticks` intervals of 100 ns: operations per second, and seconds of queue per operation; both zero
      without operations. */
  ghost predicate RatesFit(iops: real, lat: real, ops: nat, queue: nat, ticks: real) {
    && iops * ticks == ops as real * 10000000.0
    && (ops > 0 ==> lat * ops as real * 10000000.0 == queue as real)
    && (ops == 0 ==> iops == 0.0 && lat == 0.0)
  }

  lemma RatesOf(ops: U64, queue: U64, ticks: U64)
    requires ticks > 0 && Seconds(ticks) > 0.0
    ensures RatesFit(IopsOf(ops, Seconds(ticks)), LatencyOf(queue, ops), ops, queue, ticks as real)
  {
    var e, k, n, q := Seconds(ticks), 10000000.0, ops as real, queue as real;
    QuotientTimes(ticks as real, k);
    QuotientTimes(n, e);
    assert IopsOf(ops, e) * e == n;
    assert IopsOf(ops, e) * ticks as real == IopsOf(ops, e) * e * k;
    if ops > 0 {
      QuotientTimes(q, n);
      QuotientTimes(q / n, k);
      assert LatencyOf(queue, ops) * n * k == LatencyOf(queue, ops) * k * n;
    }
  }

  /** What the figures mean in seconds. A sample with a later clock covers the ticks that passed, and its rates are
      those of the counter differences modulo 2^64; any other sample is all zeros. */
  lemma MetricsInSeconds(prev: DiskCounters, curr: DiskCounters)
    ensures var m := ComputeMetrics(prev, curr);
            var ticks := (curr.timestamp100ns - prev.timestamp100ns) as real;
            && m.name == curr.name
            && (ticks <= 0.0 ==> m.elapsedSec == m.rdIOPS == m.rdLatSec == m.wrIOPS == m.wrLatSec == 0.0)
            && (ticks > 0.0 ==>
                  && m.elapsedSec * 10000000.0 == ticks
                  && RatesFit(m.rdIOPS, m.rdLatSec, (curr.rdOps - prev.rdOps) % 0x1_0000_0000_0000_0000,
                              (curr.rdQueueLen - prev.rdQueueLen) % 0x1_0000_0000_0000_0000, ticks)
                  && RatesFit(m.wrIOPS, m.wrLatSec, (curr.wrOps - prev.wrOps) % 0x1_0000_0000_0000_0000,
                              (curr.wrQueueLen - prev.wrQueueLen) % 0x1_0000_0000_0000_0000, ticks))
  {
    if Later(prev, curr) {
      var ticks := curr.timestamp100ns - prev.timestamp100ns;
      MetricsOf(prev, curr, Read);
      QuotientTimes(ticks as real, 10000000.0);
      RatesOf(Sub64(curr.rdOps, prev.rdOps), Sub64(curr.rdQueueLen, prev.rdQueueLen), ticks);
      RatesOf(Sub64(curr.wrOps, prev.wrOps), Sub64(curr.wrQueueLen, prev.wrQueueLen), ticks);
    }
  }

  /** IOPS times latency is the average queue depth of the interval. */
  lemma LittlesLaw(prev: DiskCounters, curr: DiskCounters, d: Direction)
    requires Later(prev, curr) && Ops(prev, d) != Ops(curr, d)
    ensures Depth(ComputeMetrics(prev, curr), d)
         == MeanDepth(Sub64(Queue(curr, d), Queue(prev, d)), curr.timestamp100ns - prev.timestamp100ns)
  {
    MetricsOf(prev, curr, d);
    LittleRates(ComputeMetrics(prev, curr), d, Sub64(Ops(curr, d), Ops(prev, d)),
                Sub64(Queue(curr, d), Queue(prev, d)), curr.timestamp100ns - prev.timestamp100ns);
  }

  /** IOPS times elapsed time is exactly the wrapped difference of the operation counter; without a later clock
      nothing is reported. */
  lemma OpsServed(prev: DiskCounters, curr: DiskCounters, d: Direction)
    ensures ComputeMetrics(prev, curr).elapsedSec > 0.0 <==> Later(prev, curr)
    ensures Later(prev, curr) ==>
              Served(ComputeMetrics(prev, curr), d) == Sub64(Ops(curr, d), Ops(prev, d)) as real
  {
    if Later(prev, curr) {
      MetricsOf(prev, curr, d);
      ServedRates(ComputeMetrics(prev, curr), d, Sub64(Ops(curr, d), Ops(prev, d)),
                  curr.timestamp100ns - prev.timestamp100ns);
    }
  }

  const TWO_32: nat := 0x1_0000_0000

  lemma SameCount(x: real, m: nat, n: nat)
    requires x == m as real
    ensures x == n as real <==> m == n
  {
  }

  lemma WrapExactly(p: nat, n: nat, c: nat)
    requires p < TWO_32 && n < TWO_64 / 2 && c == (p + n) % TWO_32
    ensures Sub64(c, p) == n <==> p + n < TWO_32
  {
    var q := (p + n) / TWO_32;
    assert p + n == q * TWO_32 + c;
    assert q < TWO_32;
  }

  /** The guest's operation counters have 32 bits, the subtraction 64: the true number of operations is reported
      if and only if the counter did not wrap during the interval. */
  lemma OpsExactly(prev: DiskCounters, curr: DiskCounters, d: Direction, n: nat)
    requires Later(prev, curr) && Ops(prev, d) < TWO_32 && n < TWO_64 / 2
    requires Ops(curr, d) == (Ops(prev, d) + n) % TWO_32
    ensures Served(ComputeMetrics(prev, curr), d) == n as real <==> Ops(prev, d) + n < TWO_32
  {
    OpsServed(prev, curr, d);
    WrapExactly(Ops(prev, d), n, Ops(curr, d));
    SameCount(Served(ComputeMetrics(prev, curr), d), Sub64(Ops(curr, d), Ops(prev, d)), n);
  }

  /** Two operations that wrap the counter are reported as 2^64 - 2^32 + 2. */
  lemma WrappedCounter()
    ensures var prev, curr := DiskCounters("C:", 0, 0, TWO_32 - 1, 0, 1), DiskCounters("C:", 0, 0, 1, 0, 2);
            Served(ComputeMetrics(prev, curr), Read) == (TWO_64 - TWO_32 + 2) as real
  {
    OpsServed(DiskCounters("C:", 0, 0, TWO_32 - 1, 0, 1), DiskCounters("C:", 0, 0, 1, 0, 2), Read);
  }
}
