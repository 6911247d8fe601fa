/** Free memory from per-order block counts (pkg/cgroup/buddyinfo.go, pkg/cgroup/pagetypeinfo.go):
    64-bit wrapping sums against the exact ones. */
module FreeBytes {
  import opened Bits
  import opened Common

  const PAGE_SIZE: U64 := 4096
  const SATURATED: U64 := 100000

  function Add64(a: U64, b: U64): (r: U64) {
    (a + b) % TWO_64
  }

  function Mul64(a: U64, b: U64): (r: U64) {
    var p: nat := a * b;
    p % TWO_64
  }

  function Shl64(a: U64, n: nat): (r: U64) {
    var p: nat := a * Pow2(n);
    p % TWO_64
  }

  // The exact sums

  function BlockBytes(order: nat): (n: nat) {
    4096 * Pow2(order)
  }

  /** The bytes of `count` blocks. */
  function Bytes(count: nat, order: nat): (n: nat) {
    count * BlockBytes(order)
  }

  function CountAt(counts: seq<nat>, order: nat): (n: nat) {
    if order < |counts| then counts[order] else 0
  }

  /** Bytes in blocks of orders lo up to hi - 1. */
  function Sum(counts: seq<nat>, lo: nat, hi: nat): (n: nat) {
    if hi <= lo then 0 else Sum(counts, lo, hi - 1) + Bytes(CountAt(counts, hi - 1), hi - 1)
  }

  function AllOrders(counts: seq<nat>): (n: nat) {
    Sum(counts, 0, |counts|)
  }

  function OrderGe9(counts: seq<nat>): (n: nat) {
    Sum(counts, 9, |counts|)
  }

  /** The two figures kept for a zone, as 64-bit words. */
  datatype Free = Free(orderGe9: U64, allOrders: U64)

  function Wrapped(counts: seq<nat>): (f: Free) {
    Free(OrderGe9(counts) % TWO_64, AllOrders(counts) % TWO_64)
  }

  lemma Multiples(x: nat, k: nat)
    ensures (x + k * TWO_64) % TWO_64 == x % TWO_64
  {
  }

  lemma AddWraps(a: nat, b: nat)
    ensures Add64(a % TWO_64, b % TWO_64) == (a + b) % TWO_64
  {
    var qa, qb := a / TWO_64, b / TWO_64;
    assert a + b == a % TWO_64 + b % TWO_64 + (qa + qb) * TWO_64 by {
      assert a == qa * TWO_64 + a % TWO_64 && b == qb * TWO_64 + b % TWO_64;
    }
    Multiples(a % TWO_64 + b % TWO_64, qa + qb);
  }

  lemma MulWraps(a: U64, b: nat)
    ensures Mul64(a, b % TWO_64) == (a * b) % TWO_64
  {
    var q, r := b / TWO_64, b % TWO_64;
    assert a * b == a * r + (a * q) * TWO_64 by {
      assert b == q * TWO_64 + r;
    }
    Multiples(a * r, a * q);
  }

  lemma {:induction false} SumPads(counts: seq<nat>, lo: nat, hi: nat)
    requires |counts| <= hi
    ensures Sum(counts, lo, hi) == Sum(counts, lo, |counts|)
    decreases hi
  {
    if |counts| < hi && lo < hi {
      SumPads(counts, lo, hi - 1);
      assert Bytes(0, hi - 1) == 0;
    }
  }

  lemma {:induction false} SumSplits(counts: seq<nat>, mid: nat, hi: nat)
    requires mid <= hi
    ensures Sum(counts, 0, hi) == Sum(counts, 0, mid) + Sum(counts, mid, hi)
    decreases hi
  {
    if mid < hi {
      SumSplits(counts, mid, hi - 1);
    }
  }

  /** Order by order, u and v together have at most as many blocks as b. */
  ghost predicate Within(u: seq<nat>, v: seq<nat>, b: seq<nat>) {
    forall i: nat :: CountAt(u, i) + CountAt(v, i) <= CountAt(b, i)
  }

  lemma BytesWithin(x: nat, y: nat, z: nat, order: nat)
    requires x + y <= z
    ensures Bytes(x, order) + Bytes(y, order) <= Bytes(z, order)
  {
    var unit := BlockBytes(order);
    assert z * unit == x * unit + y * unit + (z - x - y) * unit;
  }

  lemma {:induction false} SumWithin(u: seq<nat>, v: seq<nat>, b: seq<nat>, lo: nat, hi: nat)
    requires Within(u, v, b)
    ensures Sum(u, lo, hi) + Sum(v, lo, hi) <= Sum(b, lo, hi)
    decreases hi
  {
    if lo < hi {
      SumWithin(u, v, b, lo, hi - 1);
      BytesWithin(CountAt(u, hi - 1), CountAt(v, hi - 1), CountAt(b, hi - 1), hi - 1);
    }
  }

  /** The figures of one row split into orders below 9 and from 9 on. */
  lemma GeNinePart(counts: seq<nat>, n: nat)
    requires |counts| <= n && 9 <= n
    ensures AllOrders(counts) == Sum(counts, 0, 9) + OrderGe9(counts)
    ensures AllOrders(counts) == Sum(counts, 0, n) && OrderGe9(counts) == Sum(counts, 9, n)
  {
    SumPads(counts, 0, n);
    SumPads(counts, 9, n);
    SumSplits(counts, 9, n);
  }

  /** Without overflow the bytes at order 9 and above are part of the bytes at all orders. */
  lemma GeNineWithin(counts: seq<nat>)
    requires AllOrders(counts) < TWO_64
    ensures Wrapped(counts).orderGe9 <= Wrapped(counts).allOrders
  {
    GeNinePart(counts, |counts| + 9);
  }

  // Movable memory: buddy minus what cannot be moved

  /** subtractExcludedBytes. */
  function Subtract(buddy: U64, excluded: U64): (r: U64)
    ensures r + (if excluded <= buddy then excluded else buddy) == buddy
  {
    if buddy <= excluded then 0 else buddy - excluded
  }

  datatype Excluded = Excluded(unmovable: Free, isolate: Free)

  const NOTHING := Excluded(Free(0, 0), Free(0, 0))

  function ExcludedGe9(e: Excluded): (n: U64) {
    Add64(e.unmovable.orderGe9, e.isolate.orderGe9)
  }

  function ExcludedAll(e: Excluded): (n: U64) {
    Add64(e.unmovable.allOrders, e.isolate.allOrders)
  }

  function Movable(buddy: Free, e: Excluded): (m: Free) {
    Free(Subtract(buddy.orderGe9, ExcludedGe9(e)), Subtract(buddy.allOrders, ExcludedAll(e)))
  }

  lemma Small(n: nat)
    requires n < TWO_64
    ensures n % TWO_64 == n
  {
  }

  /** No overflow: the figures are the sums themselves. */
  lemma NoWrap(b: seq<nat>, u: seq<nat>, v: seq<nat>)
    requires AllOrders(b) < TWO_64 && AllOrders(u) + AllOrders(v) < TWO_64
    ensures Wrapped(b).orderGe9 == OrderGe9(b) && Wrapped(b).allOrders == AllOrders(b)
    ensures ExcludedGe9(Excluded(Wrapped(u), Wrapped(v))) == OrderGe9(u) + OrderGe9(v)
    ensures ExcludedAll(Excluded(Wrapped(u), Wrapped(v))) == AllOrders(u) + AllOrders(v)
  {
    GeNinePart(b, |b| + 9);
    GeNinePart(u, |u| + 9);
    GeNinePart(v, |v| + 9);
    AddWraps(OrderGe9(u), OrderGe9(v));
    AddWraps(AllOrders(u), AllOrders(v));
    Small(OrderGe9(b));
    Small(AllOrders(b));
    Small(OrderGe9(u) + OrderGe9(v));
    Small(AllOrders(u) + AllOrders(v));
  }

  /** If no order has more excluded blocks than blocks, nothing is clamped: movable memory is exactly
      the difference, and in both figures the parts are ordered as they should be. */
  lemma MovableFits(b: seq<nat>, u: seq<nat>, v: seq<nat>)
    requires Within(u, v, b) && AllOrders(b) < TWO_64
    ensures var m := Movable(Wrapped(b), Excluded(Wrapped(u), Wrapped(v)));
            && m.allOrders == AllOrders(b) - AllOrders(u) - AllOrders(v)
            && m.orderGe9 == OrderGe9(b) - OrderGe9(u) - OrderGe9(v)
            && m.orderGe9 <= m.allOrders <= AllOrders(b)
  {
    var n := |b| + |u| + |v| + 9;
    GeNinePart(b, n);
    GeNinePart(u, n);
    GeNinePart(v, n);
    SumWithin(u, v, b, 0, 9);
    SumWithin(u, v, b, 9, n);
    NoWrap(b, u, v);
  }

  /** Without overflow, movable memory of order 9 and above stays within movable memory of all orders
      if and only if the large blocks are excluded altogether or the small ones are not over-excluded. */
  lemma MovableOrder(b: seq<nat>, u: seq<nat>, v: seq<nat>)
    requires AllOrders(b) < TWO_64 && AllOrders(u) + AllOrders(v) < TWO_64
    ensures var m := Movable(Wrapped(b), Excluded(Wrapped(u), Wrapped(v)));
            m.orderGe9 <= m.allOrders <==>
            OrderGe9(b) <= OrderGe9(u) + OrderGe9(v) || Sum(u, 0, 9) + Sum(v, 0, 9) <= Sum(b, 0, 9)
  {
    var n := |b| + |u| + |v| + 9;
    GeNinePart(b, n);
    GeNinePart(u, n);
    GeNinePart(v, n);
    NoWrap(b, u, v);
  }

  lemma {:induction false} NothingBelow(counts: seq<nat>, hi: nat)
    requires forall i | 0 <= i < hi :: CountAt(counts, i) == 0
    ensures Sum(counts, 0, hi) == 0
  {
    if hi > 0 {
      NothingBelow(counts, hi - 1);
    }
  }

  /** Two files read one after the other can break the order: one free block of order 9, then one
      unmovable page that buddyinfo did not show. */
  lemma MovableInverted()
    ensures var b, u := [0, 0, 0, 0, 0, 0, 0, 0, 0, 1], [1];
            var m := Movable(Wrapped(b), Excluded(Wrapped(u), Wrapped([])));
            m.orderGe9 > m.allOrders
  {
    var b, u := [0, 0, 0, 0, 0, 0, 0, 0, 0, 1], [1];
    NothingBelow(b, 9);
    assert Pow2(9) == 512 && Bytes(1, 9) == 512 * 4096;
    assert OrderGe9(b) == Sum(b, 9, 9) + Bytes(1, 9);
    assert AllOrders(b) == Sum(b, 0, 9) + Bytes(1, 9);
    assert Pow2(0) == 1 && Bytes(1, 0) == 4096;
    assert AllOrders(u) == Sum(u, 0, 0) + Bytes(1, 0) && OrderGe9(u) == 0;
  }

  // Reading counts

  predicate Digits(s: string) {
    forall i | 0 <= i < |s| :: '0' <= s[i] <= '9'
  }

  function Value(digits: string): (n: nat)
    requires Digits(digits)
  {
    if digits == "" then 0
    else 10 * Value(digits[..|digits| - 1]) + (digits[|digits| - 1] - '0') as nat
  }

  /** strconv.ParseUint(s, 10, 64). */
  function ParseUint(s: string): (n: Option<U64>) {
    if s != "" && Digits(s) && Value(s) < TWO_64 then Some(Value(s)) else None
  }

  /** parsePagetypePageCount: a saturated count is cut to a fixed one. */
  function ParsePages(s: string): (n: Option<U64>) {
    if s != "" && s[0] == '>' then Some(SATURATED) else ParseUint(s)
  }

  predicate Readable(counts: seq<string>, parse: string -> Option<U64>) {
    forall s | s in counts :: parse(s).Some?
  }

  function Counts(counts: seq<string>, parse: string -> Option<U64>): (n: seq<nat>)
    requires Readable(counts, parse)
  {
    seq(|counts|, i requires 0 <= i < |counts| => parse(counts[i]).value)
  }

  lemma {:induction false} SumPrefix(counts: seq<nat>, x: nat, lo: nat, hi: nat)
    requires hi <= |counts|
    ensures Sum(counts + [x], lo, hi) == Sum(counts, lo, hi)
  {
    if lo < hi {
      SumPrefix(counts, x, lo, hi - 1);
    }
  }

  /** What the loop body adds. */
  lemma NextOrder(counts: seq<nat>, x: U64)
    ensures var bytes := Mul64(x, Shl64(PAGE_SIZE, |counts|));
            && AllOrders(counts + [x]) % TWO_64 == Add64(AllOrders(counts) % TWO_64, bytes)
            && OrderGe9(counts + [x]) % TWO_64
               == if |counts| >= 9 then Add64(OrderGe9(counts) % TWO_64, bytes) else OrderGe9(counts) % TWO_64
  {
    MulWraps(x, BlockBytes(|counts|));
    SumPrefix(counts, x, 0, |counts|);
    SumPrefix(counts, x, 9, |counts|);
    AddWraps(AllOrders(counts), Bytes(x, |counts|));
    AddWraps(OrderGe9(counts), Bytes(x, |counts|));
  }

  /** The summing loop of buddyBytesFromCounts, and of the pagetypeinfo rows with its own parser: each
      figure is the exact sum modulo 2^64. */
  method SumCounts(counts: seq<string>, parse: string -> Option<U64>) returns (r: Option<Free>)
    ensures r.Some? <==> Readable(counts, parse)
    ensures r.Some? ==> r.value == Wrapped(Counts(counts, parse))
  {
    var orderGe9: U64, allOrders: U64 := 0, 0;
    ghost var done: seq<nat> := [];
    for order := 0 to |counts|
      invariant |done| == order && forall i | 0 <= i < order :: parse(counts[i]) == Some(done[i])
      invariant allOrders == AllOrders(done) % TWO_64 && orderGe9 == OrderGe9(done) % TWO_64
    {
      var blocks := parse(counts[order]);
      if blocks.None? {
        return None;
      }
      NextOrder(done, blocks.value);
      var bytes := Mul64(blocks.value, Shl64(PAGE_SIZE, order));
      allOrders := Add64(allOrders, bytes);
      if order >= 9 {
        orderGe9 := Add64(orderGe9, bytes);
      }
      done := done + [blocks.value];
    }
    assert done == Counts(counts, parse);
    return Some(Free(orderGe9, allOrders));
  }
}
