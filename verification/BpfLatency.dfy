/** The eBPF latency programs (bpf/block_latency.c, bpf/nfs_latency.c, bpf/nfs_kprobe_latency.c):
    a table of pending starts, a table of slot histograms, and handlers that each run as one
    atomic step. LRU eviction is a step of its own that may hit either table at any time. */
module BpfLatency {
  import opened Bits
  import opened Common
  import opened Histogram

  datatype HistKey = HistKey(dev: U32, op: nat)

  /** A pending start. The kprobe program also stores the histogram key; the others take it from the completion. */
  datatype Start = Start(ts: U64, hk: Option<HistKey>)

  /** The two BPF maps of one program. */
  datatype Maps<K(==)> = Maps(starts: map<K, Start>, hists: map<HistKey, Slots>)

  /** (__s64)(now - ts), the subtraction wrapping at 64 bits. */
  function SignedDelta(now: U64, ts: U64): (delta: int) {
    var d := (now - ts) % TWO_64;
    if d >= TWO_64 / 2 then d - TWO_64 else d
  }

  /** Nanoseconds to the recorded whole microseconds; under one microsecond counts as one. */
  function RecordedMicros(delta: nat): (us: Micros)
    ensures delta < 1000 ==> us == 1
    ensures delta >= 1000 ==> 1000 * us <= delta < 1000 * (us + 1)
  {
    if delta / 1000 == 0 then 1 else delta / 1000
  }

  /** Where a completion takes its histogram key from; None is an unclassified operation. */
  datatype Target = FromStart | Given(hk: Option<HistKey>)

  /** What happens around one program. `room` says whether a missing histogram entry could be created. Quiet is
      the entry or return of a traced function where no probe is attached: the program does not see it. */
  datatype Event<K> =
    | Store(key: K, start: Start)
    | EvictStart(key: K)
    | EvictHist(hk: HistKey)
    | Finish(key: K, now: U64, target: Target, room: bool)
    | Quiet(key: K, enter: bool)

  function KeyFor(start: Start, target: Target): (hk: Option<HistKey>) {
    if target.FromStart? then start.hk else target.hk
  }

  datatype Fate = NoStart | Negative | Unclassified | NoHist | Counted(hk: HistKey, us: Micros)

  function FateOf<K>(m: Maps<K>, e: Event<K>): (f: Fate)
    requires e.Finish?
  {
    if e.key !in m.starts then NoStart
    else
      var start := m.starts[e.key];
      var delta, hk := SignedDelta(e.now, start.ts), KeyFor(start, e.target);
      if delta < 0 then Negative
      else if hk.None? then Unclassified
      else if hk.value !in m.hists && !e.room then NoHist
      else Counted(hk.value, RecordedMicros(delta))
  }

  function Entry(hists: map<HistKey, Slots>, hk: HistKey): (s: Slots) {
    if hk in hists then hists[hk] else ZERO_HIST
  }

  function Step<K>(m: Maps<K>, e: Event<K>): (m': Maps<K>) {
    match e
    case Store(key, start) => m.(starts := m.starts[key := start])
    case EvictStart(key) => m.(starts := m.starts - {key})
    case EvictHist(hk) => m.(hists := m.hists - {hk})
    case Quiet(_, _) => m
    case Finish(key, _, _, _) =>
      var f := FateOf(m, e);
      Maps(m.starts - {key},
           if f.Counted? then m.hists[f.hk := Bump(Entry(m.hists, f.hk), SlotOf(f.us))] else m.hists)
  }

  /** What became of every start and every counted event, kept beside the maps. */
  datatype Ledger = Ledger(
    stored: nat, overwritten: nat, evicted: nat, consumed: nat,
    negative: nat, unclassified: nat, noHist: nat, counted: nat,
    discarded: nat,                         // counts lost with evicted histogram entries
    latencies: map<HistKey, seq<Micros>>)   // recorded since each live entry was created

  function SlotTotal(s: Slots): (t: nat) {
    PrefixSum(s, |s|)
  }

  /** The latencies recorded under a key. */
  function Recorded(latencies: map<HistKey, seq<Micros>>, hk: HistKey): (lats: seq<Micros>) {
    if hk in latencies then latencies[hk] else []
  }

  function Tally<K>(m: Maps<K>, l: Ledger, e: Event<K>): (l': Ledger) {
    match e
    case Store(key, _) =>
      l.(stored := l.stored + 1, overwritten := l.overwritten + if key in m.starts then 1 else 0)
    case EvictStart(key) => l.(evicted := l.evicted + if key in m.starts then 1 else 0)
    case Quiet(_, _) => l
    case EvictHist(hk) =>
      l.(discarded := l.discarded + SlotTotal(Entry(m.hists, hk)), latencies := l.latencies - {hk})
    case Finish(_, _, _, _) =>
      match FateOf(m, e)
      case NoStart => l
      case Negative => l.(consumed := l.consumed + 1, negative := l.negative + 1)
      case Unclassified => l.(consumed := l.consumed + 1, unclassified := l.unclassified + 1)
      case NoHist => l.(consumed := l.consumed + 1, noHist := l.noHist + 1)
      case Counted(hk, us) =>
        l.(consumed := l.consumed + 1, counted := l.counted + 1,
           latencies := l.latencies[hk := Recorded(l.latencies, hk) + [us]])
  }

  /** Maps and ledger after a whole run, from empty maps. */
  function Replay<K>(events: seq<Event<K>>): (r: (Maps<K>, Ledger)) {
    if events == [] then (Maps(map[], map[]), Ledger(0, 0, 0, 0, 0, 0, 0, 0, 0, map[]))
    else
      var (m, l) := Replay(events[..|events| - 1]);
      var e := events[|events| - 1];
      (Step(m, e), Tally(m, l, e))
  }

  // Totals over the histogram map

  ghost function Pick(h: map<HistKey, Slots>): (k: HistKey)
    requires h != map[]
    ensures k in h
  {
    var k :| k in h;
    k
  }

  lemma RemovalShrinks(h: map<HistKey, Slots>, k: HistKey)
    requires k in h
    ensures |h - {k}| < |h|
  {
    assert (h - {k}).Keys == h.Keys - {k};
    assert |(h - {k}).Keys| == |h.Keys| - 1;
  }

  /** Sum of every slot of every live histogram. */
  ghost function TotalSlots(h: map<HistKey, Slots>): (t: nat)
    decreases |h|
  {
    if h == map[] then 0
    else
      var k := Pick(h);
      RemovalShrinks(h, k);
      SlotTotal(h[k]) + TotalSlots(h - {k})
  }

  /** Any entry can be split off the total. */
  lemma {:induction false} TotalSplit(h: map<HistKey, Slots>, k: HistKey)
    requires k in h
    ensures TotalSlots(h) == SlotTotal(h[k]) + TotalSlots(h - {k})
    decreases |h|
  {
    var p := Pick(h);
    if p != k {
      RemovalShrinks(h, p);
      RemovalShrinks(h, k);
      TotalSplit(h - {p}, k);
      TotalSplit(h - {k}, p);
      assert h - {p} - {k} == h - {k} - {p};
    }
  }

  lemma TotalBump(h: map<HistKey, Slots>, hk: HistKey, slot: nat)
    requires slot < MAX_SLOTS
    ensures TotalSlots(h[hk := Bump(Entry(h, hk), slot)]) == TotalSlots(h) + 1
  {
    var h' := h[hk := Bump(Entry(h, hk), slot)];
    PrefixSumBump(Entry(h, hk), slot, MAX_SLOTS);
    PrefixSumZero(MAX_SLOTS);
    TotalSplit(h', hk);
    if hk in h {
      TotalSplit(h, hk);
      assert h' - {hk} == h - {hk};
    } else {
      assert h' - {hk} == h;
    }
  }

  lemma TotalEvict(h: map<HistKey, Slots>, hk: HistKey)
    ensures TotalSlots(h) == TotalSlots(h - {hk}) + SlotTotal(Entry(h, hk))
  {
    if hk in h {
      TotalSplit(h, hk);
    } else {
      assert h - {hk} == h;
      PrefixSumZero(MAX_SLOTS);
    }
  }

  // Whole-run theorems

  /** Each histogram holds the slot counts of its latencies. */
  ghost predicate HistsMatch(hists: map<HistKey, Slots>, latencies: map<HistKey, seq<Micros>>) {
    hists.Keys == latencies.Keys && forall hk | hk in hists :: hists[hk] == SlotCounts(latencies[hk])
  }

  /** The histogram half of Balanced. */
  ghost predicate HistsBalanced(hists: map<HistKey, Slots>, l: Ledger) {
    l.counted == TotalSlots(hists) + l.discarded && HistsMatch(hists, l.latencies)
  }

  /** Every stored start is accounted for exactly once, every counted event sits in exactly one
      live slot or went with an evicted entry, and each live histogram is exactly the slot array
      of the latencies recorded under its key. */
  ghost predicate Balanced<K>(m: Maps<K>, l: Ledger) {
    && l.stored == l.overwritten + l.evicted + |m.starts| + l.consumed
    && l.consumed == l.negative + l.unclassified + l.noHist + l.counted
    && HistsBalanced(m.hists, l)
  }

  lemma PutSize<K>(starts: map<K, Start>, key: K, start: Start)
    ensures |starts[key := start]| == |starts| + if key in starts then 0 else 1
  {
    assert starts[key := start].Keys == starts.Keys + {key};
    if key in starts {
      assert starts.Keys + {key} == starts.Keys;
    }
  }

  lemma RemoveSize<K>(starts: map<K, Start>, key: K)
    ensures |starts - {key}| + (if key in starts then 1 else 0) == |starts|
  {
    assert (starts - {key}).Keys == starts.Keys - {key};
    if key !in starts {
      assert starts - {key} == starts;
    }
  }

  lemma BumpedEntry(lats: seq<Micros>, us: Micros)
    ensures SlotCounts(lats + [us]) == Bump(SlotCounts(lats), SlotOf(us))
  {
    assert (lats + [us])[..|lats|] == lats;
  }

  lemma EntryMatches(hists: map<HistKey, Slots>, latencies: map<HistKey, seq<Micros>>, hk: HistKey)
    requires HistsMatch(hists, latencies)
    ensures Entry(hists, hk) == SlotCounts(Recorded(latencies, hk))
  {
    assert hk in hists <==> hk in latencies.Keys;
  }

  /** Counting one more latency. */
  lemma MatchStep(hists: map<HistKey, Slots>, latencies: map<HistKey, seq<Micros>>, hk: HistKey, us: Micros,
                  bumped: Slots, lats: seq<Micros>)
    requires HistsMatch(hists, latencies) && bumped == SlotCounts(lats)
    ensures HistsMatch(hists[hk := bumped], latencies[hk := lats])
  {
  }

  lemma CountedStep(hists: map<HistKey, Slots>, l: Ledger, hk: HistKey, us: Micros, l': Ledger)
    requires HistsBalanced(hists, l)
    requires l'.counted == l.counted + 1 && l'.discarded == l.discarded
    requires l'.latencies == l.latencies[hk := Recorded(l.latencies, hk) + [us]]
    ensures HistsBalanced(hists[hk := Bump(Entry(hists, hk), SlotOf(us))], l')
  {
    TotalBump(hists, hk, SlotOf(us));
    EntryMatches(hists, l.latencies, hk);
    BumpedEntry(Recorded(l.latencies, hk), us);
    MatchStep(hists, l.latencies, hk, us, Bump(Entry(hists, hk), SlotOf(us)), Recorded(l.latencies, hk) + [us]);
  }

  lemma EvictStep(hists: map<HistKey, Slots>, l: Ledger, hk: HistKey, l': Ledger)
    requires HistsBalanced(hists, l)
    requires l'.counted == l.counted && l'.discarded == l.discarded + SlotTotal(Entry(hists, hk))
    requires l'.latencies == l.latencies - {hk}
    ensures HistsBalanced(hists - {hk}, l')
  {
    TotalEvict(hists, hk);
  }

  lemma CountedFinish<K>(m: Maps<K>, l: Ledger, e: Event<K>)
    requires Balanced(m, l) && e.Finish? && FateOf(m, e).Counted?
    ensures HistsBalanced(Step(m, e).hists, Tally(m, l, e))
  {
    var f := FateOf(m, e);
    CountedStep(m.hists, l, f.hk, f.us, Tally(m, l, e));
  }

  lemma FinishStep<K>(m: Maps<K>, l: Ledger, e: Event<K>)
    requires Balanced(m, l) && e.Finish?
    ensures Balanced(Step(m, e), Tally(m, l, e))
  {
    RemoveSize(m.starts, e.key);
    if FateOf(m, e).Counted? {
      CountedFinish(m, l, e);
    }
  }

  lemma BalancedStep<K>(m: Maps<K>, l: Ledger, e: Event<K>)
    requires Balanced(m, l)
    ensures Balanced(Step(m, e), Tally(m, l, e))
  {
    match e
    case Store(key, start) => PutSize(m.starts, key, start);
    case EvictStart(key) => RemoveSize(m.starts, key);
    case EvictHist(hk) => EvictStep(m.hists, l, hk, Tally(m, l, e));
    case Finish(_, _, _, _) => FinishStep(m, l, e);
    case Quiet(_, _) =>
  }

  /** Conservation over every run of start, completion and eviction steps. */
  lemma {:induction false} Conservation<K>(events: seq<Event<K>>)
    ensures Balanced(Replay(events).0, Replay(events).1)
    ensures TotalSlots(Replay(events).0.hists) <= Replay(events).1.stored
  {
    if events != [] {
      Conservation(events[..|events| - 1]);
      var (m, l) := Replay(events[..|events| - 1]);
      BalancedStep(m, l, events[|events| - 1]);
    }
  }

  /** From h to h' one slot of one entry went up by one, the entry being created if need be. */
  ghost predicate OneMore(h: map<HistKey, Slots>, h': map<HistKey, Slots>, hk: HistKey, slot: nat) {
    && hk in h'
    && (forall k | k != hk :: (k in h' <==> k in h) && Entry(h', k) == Entry(h, k))
    && (forall i | 0 <= i < MAX_SLOTS :: h'[hk][i] == Entry(h, hk)[i] + if i == slot then 1 else 0)
  }

  /** A completion takes its own start and nothing else. It counts exactly if it has a start that its clock is
      not behind, a classified operation and an entry that exists or can be created; then it adds one to exactly
      one slot, the one of its latency, under its own key. */
  lemma FinishTouchesOneSlot<K>(m: Maps<K>, e: Event<K>)
    requires e.Finish?
    ensures var m', f := Step(m, e), FateOf(m, e);
            && m'.starts == m.starts - {e.key}
            && (f.Counted? <==>
                  && e.key in m.starts && SignedDelta(e.now, m.starts[e.key].ts) >= 0
                  && var hk := (if e.target.FromStart? then m.starts[e.key].hk else e.target.hk);
                     hk.Some? && (hk.value in m.hists || e.room))
            && (!f.Counted? ==> m'.hists == m.hists)
            && (f.Counted? ==>
                  && Some(f.hk) == (if e.target.FromStart? then m.starts[e.key].hk else e.target.hk)
                  && f.us == RecordedMicros(SignedDelta(e.now, m.starts[e.key].ts))
                  && OneMore(m.hists, m'.hists, f.hk, SlotOf(f.us)))
            && TotalSlots(m'.hists) == TotalSlots(m.hists) + if f.Counted? then 1 else 0
  {
    var f := FateOf(m, e);
    if e.key !in m.starts {
      assert m.starts - {e.key} == m.starts;
    }
    if f.Counted? {
      TotalBump(m.hists, f.hk, SlotOf(f.us));
    }
  }

  // Which start a recorded latency belongs to

  predicate Touches<K(==)>(e: Event<K>, key: K) {
    (e.Store? || e.EvictStart? || e.Finish?) && e.key == key
  }

  /** Event i stored a start for the key, and no event since has touched it. */
  ghost predicate PendingSince<K>(events: seq<Event<K>>, i: nat, key: K) {
    && i < |events| && events[i].Store? && events[i].key == key
    && forall j | i < j < |events| :: !Touches(events[j], key)
  }

  /** Where the pending start of a key was stored. */
  ghost function StoredAt<K>(events: seq<Event<K>>, key: K): (i: nat)
    requires key in Replay(events).0.starts
    ensures PendingSince(events, i, key) && Replay(events).0.starts[key] == events[i].start
  {
    if Touches(events[|events| - 1], key) then |events| - 1 else StoredAt(events[..|events| - 1], key)
  }

  /** A start is pending exactly if it was stored and its key not touched since. */
  lemma {:induction false} PendingExactly<K>(events: seq<Event<K>>, i: nat, key: K)
    requires PendingSince(events, i, key)
    ensures key in Replay(events).0.starts && Replay(events).0.starts[key] == events[i].start
  {
    var n := |events| - 1;
    if i < n {
      assert forall j | i < j < n :: events[..n][j] == events[j];
      PendingExactly(events[..n], i, key);
      assert !Touches(events[n], key);
    }
  }

  /** Completion j consumes start i: same key, nothing touching it in between. */
  ghost predicate Paired<K>(events: seq<Event<K>>, i: nat, j: nat) {
    j < |events| && events[j].Finish? && PendingSince(events[..j], i, events[j].key)
  }

  lemma PairFacts<K>(events: seq<Event<K>>, i: nat, j: nat)
    requires Paired(events, i, j)
    ensures i < j && events[i].Store? && events[i].key == events[j].key
    ensures forall k | i < k < j :: !Touches(events[k], events[j].key)
  {
    assert forall k | 0 <= k < j :: events[..j][k] == events[k];
  }

  /** A start is consumed by at most one completion, and a completion consumes at most one start. */
  lemma PairsUnique<K>(events: seq<Event<K>>, i: nat, j: nat, i': nat, j': nat)
    requires Paired(events, i, j) && Paired(events, i', j')
    ensures i == i' <==> j == j'
  {
    PairFacts(events, i, j);
    PairFacts(events, i', j');
  }

  /** Completion j counts under hk: its start is classified so, its clock not behind, its entry there or created. */
  ghost predicate CountsUnder<K>(events: seq<Event<K>>, i: nat, j: nat, hk: HistKey) {
    && Paired(events, i, j)
    && SignedDelta(events[j].now, events[i].start.ts) >= 0
    && KeyFor(events[i].start, events[j].target) == Some(hk)
    && (hk in Replay(events[..j]).0.hists || events[j].room)
  }

  predicate CountedAs<K>(m: Maps<K>, e: Event<K>, hk: HistKey)
    requires e.Finish?
    ensures CountedAs(m, e, hk) ==> e.key in m.starts
  {
    var f := FateOf(m, e);
    f.Counted? && f.hk == hk
  }

  /** How long each event counted under the live entry of hk took, in nanoseconds. */
  ghost function Delays<K>(events: seq<Event<K>>, hk: HistKey): (ns: seq<nat>) {
    if events == [] then []
    else
      var before, e := events[..|events| - 1], events[|events| - 1];
      var m := Replay(before).0;
      if e == EvictHist(hk) then []
      else if e.Finish? && CountedAs(m, e, hk) then Delays(before, hk) + [SignedDelta(e.now, m.starts[e.key].ts)]
      else Delays(before, hk)
  }

  /** What the live entry of hk has measured: start and completion of every event counted since it was created. */
  ghost function Measured<K>(events: seq<Event<K>>, hk: HistKey): (pairs: seq<(nat, nat)>) {
    if events == [] then []
    else
      var before, e := events[..|events| - 1], events[|events| - 1];
      if e == EvictHist(hk) then []
      else if e.Finish? && CountedAs(Replay(before).0, e, hk) then
        Measured(before, hk) + [(StoredAt(before, e.key), |events| - 1)]
      else Measured(before, hk)
  }

  lemma CountsUnderPrefix<K>(events: seq<Event<K>>, n: nat, i: nat, j: nat, hk: HistKey)
    requires j < n <= |events|
    ensures CountsUnder(events[..n], i, j, hk) <==> CountsUnder(events, i, j, hk)
  {
    assert events[..n][..j] == events[..j];
    if i < j {
      assert events[..n][i] == events[i];
    }
  }

  /** A completion counts under hk exactly if it is paired with such a start. */
  lemma CountsExactly<K>(events: seq<Event<K>>, i: nat, hk: HistKey)
    requires events != [] && events[|events| - 1].Finish?
    ensures var n := |events| - 1;
            CountsUnder(events, i, n, hk) <==>
            CountedAs(Replay(events[..n]).0, events[n], hk) && i == StoredAt(events[..n], events[n].key)
  {
    var n := |events| - 1;
    var before, key := events[..n], events[n].key;
    if Paired(events, i, n) {
      PendingExactly(before, i, key);
    }
    if key in Replay(before).0.starts {
      var at := StoredAt(before, key);
      assert Paired(events, at, n) && events[at] == before[at];
      if Paired(events, i, n) {
        PairsUnique(events, i, n, at, n);
      }
    }
  }

  /** These are the elapsed times of these pairs of start and completion, each counting under hk. */
  ghost predicate ElapsedTimes<K>(events: seq<Event<K>>, hk: HistKey, pairs: seq<(nat, nat)>, ns: seq<nat>) {
    && |pairs| == |ns|
    && forall k | 0 <= k < |pairs| ::
         && CountsUnder(events, pairs[k].0, pairs[k].1, hk)
         && ns[k] == SignedDelta(events[pairs[k].1].now, events[pairs[k].0].start.ts)
  }

  /** The recorded microseconds of these elapsed times. */
  ghost predicate InMicros(lats: seq<Micros>, ns: seq<nat>) {
    |lats| == |ns| && forall k | 0 <= k < |ns| :: lats[k] == RecordedMicros(ns[k])
  }

  /** What the handlers record of these elapsed times. */
  function Rounded(ns: seq<nat>): (lats: seq<Micros>)
    ensures InMicros(lats, ns)
  {
    seq(|ns|, k requires 0 <= k < |ns| => RecordedMicros(ns[k]))
  }

  lemma {:induction false} DelaysRecorded<K>(events: seq<Event<K>>, hk: HistKey)
    ensures InMicros(Recorded(Replay(events).1.latencies, hk), Delays(events, hk))
  {
    if events != [] {
      DelaysRecorded(events[..|events| - 1], hk);
    }
  }

  /** Each recorded latency is the elapsed time of its own pair of start and completion. */
  lemma {:induction false} LatenciesAreElapsed<K>(events: seq<Event<K>>, hk: HistKey)
    ensures ElapsedTimes(events, hk, Measured(events, hk), Delays(events, hk))
  {
    if events != [] {
      var n := |events| - 1;
      LatenciesAreElapsed(events[..n], hk);
      forall k | 0 <= k < |Measured(events[..n], hk)|
        ensures var p := Measured(events[..n], hk)[k];
                && CountsUnder(events, p.0, p.1, hk)
                && Delays(events[..n], hk)[k] == SignedDelta(events[p.1].now, events[p.0].start.ts)
      {
        var p := Measured(events[..n], hk)[k];
        CountsUnderPrefix(events, n, p.0, p.1, hk);
        assert events[..n][p.0] == events[p.0] && events[..n][p.1] == events[p.1];
      }
      if events[n].Finish? && CountedAs(Replay(events[..n]).0, events[n], hk) {
        CountsExactly(events, StoredAt(events[..n], events[n].key), hk);
      }
    }
  }

  /** And every completion that counts is there, until its entry is evicted. */
  lemma {:induction false} MeasuredExactly<K>(events: seq<Event<K>>, hk: HistKey, i: nat, j: nat)
    ensures (i, j) in Measured(events, hk) <==>
            j < |events| && CountsUnder(events, i, j, hk) && forall k | j < k < |events| :: events[k] != EvictHist(hk)
  {
    if events != [] {
      var n := |events| - 1;
      MeasuredExactly(events[..n], hk, i, j);
      if j < n {
        CountsUnderPrefix(events, n, i, j, hk);
        assert forall k | j < k < n :: events[..n][k] == events[k];
      } else if j == n && events[n].Finish? {
        CountsExactly(events, i, hk);
      }
    }
  }

  /** The wrapped difference is the true one whenever the clock readings are within 2^63 ns,
      so a completion is dropped as negative exactly when its clock reads earlier than its start. */
  lemma DeltaIsElapsed(now: U64, ts: U64)
    requires -0x8000_0000_0000_0000 <= now - ts < 0x8000_0000_0000_0000
    ensures SignedDelta(now, ts) == now - ts
  {
  }

  /** While the clock readings of a pair are within 2^63 ns, it is dropped if the completion reads earlier than
      the start, and else what counts is their plain difference in nanoseconds: as one microsecond if it is under
      that, and else rounded down to whole microseconds. */
  lemma ElapsedIsDifference<K>(events: seq<Event<K>>, hk: HistKey, k: nat)
    requires k < |Measured(events, hk)|
    ensures var (i, j) := Measured(events, hk)[k];
            && i < j < |events| && events[i].Store? && events[j].Finish? && k < |Delays(events, hk)|
            && k < |Recorded(Replay(events).1.latencies, hk)|
            && var elapsed, us := events[j].now - events[i].start.ts, Recorded(Replay(events).1.latencies, hk)[k];
               -0x8000_0000_0000_0000 <= elapsed < 0x8000_0000_0000_0000 ==>
                 && elapsed == Delays(events, hk)[k] >= 0
                 && if elapsed < 1000 then us == 1 else 1000 * us <= elapsed < 1000 * (us + 1)
  {
    var (i, j) := Measured(events, hk)[k];
    LatenciesAreElapsed(events, hk);
    DelaysRecorded(events, hk);
    assert CountsUnder(events, i, j, hk);
    PairFacts(events, i, j);
    if -0x8000_0000_0000_0000 <= events[j].now - events[i].start.ts < 0x8000_0000_0000_0000 {
      DeltaIsElapsed(events[j].now, events[i].start.ts);
    }
  }

  // Calls of a thread

  /** A traced function is entered on the thread, probed or not. */
  predicate Enters<K(==)>(e: Event<K>, thread: K) {
    (e.Store? || (e.Quiet? && e.enter)) && e.key == thread
  }

  predicate Leaves<K(==)>(e: Event<K>, thread: K) {
    (e.Finish? || (e.Quiet? && !e.enter)) && e.key == thread
  }

  /** The calls of a thread that have been entered and not left yet, the innermost last, `calls` naming the call
      each event belongs to. */
  function OpenCalls<K(==)>(events: seq<Event<K>>, calls: seq<nat>, thread: K, n: nat): (open: seq<nat>)
    requires |calls| == |events| && n <= |events|
  {
    if n == 0 then []
    else
      var early, e := OpenCalls(events, calls, thread, n - 1), events[n - 1];
      if Enters(e, thread) then early + [calls[n - 1]]
      else if Leaves(e, thread) && early != [] then early[..|early| - 1]
      else early
  }

  /** Event k enters call calls[k], or leaves it. */
  predicate Enter<K>(events: seq<Event<K>>, k: int) {
    0 <= k < |events| && (events[k].Store? || (events[k].Quiet? && events[k].enter))
  }

  predicate Leave<K>(events: seq<Event<K>>, k: int) {
    0 <= k < |events| && (events[k].Finish? || (events[k].Quiet? && !events[k].enter))
  }

  /** A thread leaves the call it is in before any call around it, as far as it entered one since the record began;
      and every call is entered at most once, and left at most once, after that. */
  ghost predicate WellNested<K>(events: seq<Event<K>>, calls: seq<nat>) {
    && |calls| == |events|
    && (forall j | Leave(events, j) ::
          var open := OpenCalls(events, calls, events[j].key, j);
          open != [] ==> open[|open| - 1] == calls[j])
    && (forall i, k | Enter(events, i) && Enter(events, k) && i != k :: calls[i] != calls[k])
    && (forall i, k | Leave(events, i) && Leave(events, k) && i != k :: calls[i] != calls[k])
    && (forall i, k | Enter(events, i) && Leave(events, k) && calls[i] == calls[k] :: i < k)
  }

  predicate ProbedEnd<K(==)>(e: Event<K>, thread: K, enter: bool) {
    (if enter then e.Store? else e.Finish?) && e.key == thread
  }

  /** One end of the call of event k is probed, and this end is not. */
  ghost predicate HalfProbed<K>(events: seq<Event<K>>, calls: seq<nat>, k: nat)
    requires |calls| == |events| && k < |events|
  {
    events[k].Quiet? &&
    exists m :: 0 <= m < |events| && calls[m] == calls[k] && ProbedEnd(events[m], events[k].key, !events[k].enter)
  }

  /** Call x was entered on the thread between events m and n. */
  ghost predicate EnteredBetween<K>(events: seq<Event<K>>, calls: seq<nat>, thread: K, m: nat, n: nat, x: nat)
    requires |calls| == |events|
  {
    exists e :: m < e < n && e < |events| && Enters(events[e], thread) && calls[e] == x
  }

  /** Everything open above the given height was entered between events m and n. */
  ghost predicate NewAbove<K>(events: seq<Event<K>>, calls: seq<nat>, thread: K, m: nat, n: nat, open: seq<nat>,
                              height: nat)
    requires |calls| == |events|
  {
    forall t | height <= t < |open| :: EnteredBetween(events, calls, thread, m, n, open[t])
  }

  lemma NewAboveStep<K>(events: seq<Event<K>>, calls: seq<nat>, thread: K, m: nat, n: nat, height: nat)
    requires |calls| == |events| && m < n < |events|
    requires NewAbove(events, calls, thread, m, n, OpenCalls(events, calls, thread, n), height)
    ensures NewAbove(events, calls, thread, m, n + 1, OpenCalls(events, calls, thread, n + 1), height)
  {
    var early, open := OpenCalls(events, calls, thread, n), OpenCalls(events, calls, thread, n + 1);
    forall t | height <= t < |open|
      ensures EnteredBetween(events, calls, thread, m, n + 1, open[t])
    {
      if t < |early| {
        assert open[t] == early[t];
        var e :| m < e < n && e < |events| && Enters(events[e], thread) && calls[e] == early[t];
      } else {
        assert Enters(events[n], thread) && calls[n] == open[t];
      }
    }
  }

  /** While a call is open, what is open within it is above it, and was entered since. */
  lemma {:induction false} OpenOver<K>(events: seq<Event<K>>, calls: seq<nat>, thread: K, m: nat, n: nat)
    requires WellNested(events, calls) && m < n <= |events| && Enters(events[m], thread)
    requires forall k | m < k < n && Leaves(events[k], thread) :: calls[k] != calls[m]
    ensures var open, base := OpenCalls(events, calls, thread, n), OpenCalls(events, calls, thread, m + 1);
            && base != [] && base[|base| - 1] == calls[m] && base <= open
            && NewAbove(events, calls, thread, m, n, open, |base|)
  {
    if m + 1 < n {
      var base := OpenCalls(events, calls, thread, m + 1);
      OpenOver(events, calls, thread, m, n - 1);
      assert Leaves(events[n - 1], thread) ==> Leave(events, n - 1);
      NewAboveStep(events, calls, thread, m, n - 1, |base|);
    }
  }

  /** The innermost call at event j is the one of event i, or was entered in between. */
  lemma Innermost<K>(events: seq<Event<K>>, calls: seq<nat>, i: nat, j: nat)
    requires WellNested(events, calls) && i < j < |events| && Leave(events, j) && Enters(events[i], events[j].key)
    requires forall k | i < k < j && Leaves(events[k], events[j].key) :: calls[k] != calls[i]
    ensures calls[j] == calls[i] || EnteredBetween(events, calls, events[j].key, i, j, calls[j])
  {
    var open := OpenCalls(events, calls, events[j].key, j);
    OpenOver(events, calls, events[j].key, i, j);
    assert open[|open| - 1] == calls[j];
  }

  /** Nothing half probed on the thread between events i and j. */
  ghost predicate WholeBetween<K>(events: seq<Event<K>>, calls: seq<nat>, i: nat, j: nat)
    requires |calls| == |events| && j < |events| && !events[j].EvictHist?
  {
    forall k | i < k < j && events[k].Quiet? && events[k].key == events[j].key :: !HalfProbed(events, calls, k)
  }

  /** A pair that joins two calls has a half-probed one in between. */
  lemma MixedIsHalf<K>(events: seq<Event<K>>, calls: seq<nat>, i: nat, j: nat) returns (k: nat)
    requires WellNested(events, calls) && Paired(events, i, j) && i < j && calls[i] != calls[j]
    ensures i < k < j && events[k].Quiet? && events[k].key == events[j].key && HalfProbed(events, calls, k)
  {
    var thread := events[j].key;
    PairFacts(events, i, j);
    if k' :| i < k' < j && Leaves(events[k'], thread) && calls[k'] == calls[i] {
      assert !Touches(events[k'], thread) && ProbedEnd(events[i], thread, true);
      k := k';
    } else {
      Innermost(events, calls, i, j);
      k :| i < k < j && k < |events| && Enters(events[k], thread) && calls[k] == calls[j];
      assert !Touches(events[k], thread) && ProbedEnd(events[j], thread, false);
    }
  }

  lemma JoinIsWhole<K>(events: seq<Event<K>>, calls: seq<nat>, i: nat, j: nat, k: nat)
    requires WellNested(events, calls) && Paired(events, i, j) && i < k < j && events[k].Quiet?
    requires events[k].key == events[j].key && calls[i] == calls[j]
    ensures !HalfProbed(events, calls, k)
  {
    var thread := events[j].key;
    PairFacts(events, i, j);
    assert Leave(events, j) && Enter(events, i);
    if HalfProbed(events, calls, k) {
      var m :| 0 <= m < |events| && calls[m] == calls[k] && ProbedEnd(events[m], thread, !events[k].enter);
      assert i < m < j ==> !Touches(events[m], thread);
      if events[k].enter {
        assert Enter(events, k) && Leave(events, m);
        Innermost(events, calls, k, j);
      } else {
        assert Leave(events, k) && Enter(events, m);
        Innermost(events, calls, i, k);
      }
      assert false;
    }
  }

  /** However calls nest on a thread, a start is consumed by the return of its own call if and only if no call is
      half probed in between: the return probe shared by all functions then measures one call. */
  lemma LatencyOfOneCall<K>(events: seq<Event<K>>, calls: seq<nat>, i: nat, j: nat)
    requires WellNested(events, calls) && Paired(events, i, j)
    ensures i < j && (calls[i] == calls[j] <==> WholeBetween(events, calls, i, j))
  {
    PairFacts(events, i, j);
    if calls[i] != calls[j] {
      var k := MixedIsHalf(events, calls, i, j);
    } else {
      forall k | i < k < j && events[k].Quiet? && events[k].key == events[j].key
        ensures !HalfProbed(events, calls, k)
      {
        JoinIsWhole(events, calls, i, j, k);
      }
    }
  }

  /** With the entry of an inner call probed and its return not, the return of the outer call consumes the start of
      the inner one. */
  lemma HalfProbedMixes(start: Start, now: U64)
    ensures var events := [Store(0, start), Store(0, start), Quiet(0, false), Finish(0, now, FromStart, true)];
            var calls := [1, 2, 2, 1];
            WellNested(events, calls) && Paired(events, 1, 3) && calls[1] != calls[3]
  {
    var events := [Store(0, start), Store(0, start), Quiet(0, false), Finish(0, now, FromStart, true)];
    var calls := [1, 2, 2, 1];
    assert OpenCalls(events, calls, 0, 1) == [1];
    assert OpenCalls(events, calls, 0, 2) == [1, 2];
    assert OpenCalls(events, calls, 0, 3) == [1];
    assert events[..3] == [Store(0, start), Store(0, start), Quiet(0, false)];
  }

  /** But only innermost calls are measured: without half-probed calls, if another traced call was entered within a
      call on the same thread, the return of the outer one consumes no start at all. */
  lemma OuterCallUnmeasured<K>(events: seq<Event<K>>, calls: seq<nat>, i: nat, inner: nat, j: nat, i': nat)
    requires WellNested(events, calls) && i < inner < j < |events| && events[j].Finish?
    requires forall k | 0 <= k < |events| :: !HalfProbed(events, calls, k)
    requires events[i].Store? && calls[i] == calls[j] && events[inner].Store? && events[inner].key == events[j].key
    ensures !Paired(events, i', j)
  {
    if Paired(events, i', j) {
      LatencyOfOneCall(events, calls, i', j);
      PairFacts(events, i', j);
      assert Enter(events, i) && Enter(events, i');
      assert Touches(events[inner], events[j].key);
      assert false;
    }
  }

  // In nanoseconds

  /** From two microseconds on, being below a whole number of microseconds is the same before and after rounding. */
  lemma {:induction false} CountsInNanos(lats: seq<Micros>, ns: seq<nat>, p: nat)
    requires InMicros(lats, ns) && p >= 2
    ensures CountBelow(lats, p as real) == CountBelow(ns, 1000.0 * p as real)
  {
    if ns != [] {
      var n := |ns| - 1;
      assert forall k | 0 <= k < n :: lats[..n][k] == lats[k] && ns[..n][k] == ns[k];
      CountsInNanos(lats[..n], ns[..n], p);
      assert lats[n] < p <==> ns[n] < 1000 * p;
    }
  }

  /** A bucket at b seconds against the nanoseconds behind it. It covers every event that took up to b, once b is at
      least a microsecond; while b is below 33.554432 seconds, none that took 2b or more; and from there on all. */
  ghost predicate TrueBucket(bucket: nat, ns: seq<nat>, b: real) {
    && bucket <= |ns| && (b < 0.000001 ==> bucket == 0)
    && (b >= 0.000001 ==> CountUpTo(ns, b * 1000000000.0) <= bucket)
    && (b < 33.554432 ==> bucket <= CountBelow(ns, 2.0 * b * 1000000000.0))
    && (b >= 33.554432 ==> bucket == |ns|)
  }

  /** No event took longer than the 2^26 microseconds that the last slot is good for. */
  predicate Unclamped(ns: seq<nat>) {
    forall n | n in ns :: n < 67_108_865_000
  }

  /** An exported sum in seconds against the nanoseconds behind it: at most a microsecond an event above their
      total, and within the factor and as much below it while no event is past the last slot. */
  ghost predicate TrueSum(sum: real, ns: seq<nat>, factor: real) {
    && sum * 1000000000.0 <= (Total(ns) + 1000 * |ns|) as real
    && (Unclamped(ns) ==> Total(ns) as real <= factor * sum * 1000000000.0 + (1000 * |ns|) as real)
  }

  lemma {:induction false} CountBelowAll(lats: seq<int>, us: real)
    ensures CountBelow(lats, us) <= |lats|
  {
    if lats != [] {
      CountBelowAll(lats[..|lats| - 1], us);
    }
  }

  lemma PowersHere()
    ensures Pow2(25) == 33_554_432 && Pow2(26) == 67_108_864
  {
    assert Pow2(5) == 32 && Pow2(10) == 1024 && Pow2(15) == 32768 && Pow2(20) == 1048576;
  }

  /** A bucket that holds exactly what took less than p microseconds, p being the next power of two. */
  lemma CountIsTrue(ns: seq<nat>, b: real, p: real)
    requires b * 1000000.0 < p <= 2.0 * b * 1000000.0 && p <= 33554432.0 && b >= 0.000001
    ensures TrueBucket(CountBelow(ns, 1000.0 * p), ns, b)
  {
    CountsOrdered(ns, b * 1000000000.0, 1000.0 * p, 2.0 * b * 1000000000.0);
    CountBelowAll(ns, 1000.0 * p);
  }

  lemma NextPowerIsTrue(lats: seq<Micros>, ns: seq<nat>, b: real, n: nat)
    requires InMicros(lats, ns) && 0 < n < MAX_SLOTS
    requires Pow2(n - 1) as real <= b * MICROS_PER_SECOND < Pow2(n) as real
    ensures TrueBucket(CountBelow(lats, Pow2(n) as real), ns, b)
  {
    PowersHere();
    Pow2Monotone(1, n);
    Pow2Monotone(0, n - 1);
    Pow2Monotone(n, 25);
    NextPower(b * MICROS_PER_SECOND, n);
    CountsInNanos(lats, ns, Pow2(n));
    CountIsTrue(ns, b, Pow2(n) as real);
  }

  lemma BucketInNanos(lats: seq<Micros>, ns: seq<nat>, b: real)
    requires InMicros(lats, ns)
    ensures TrueBucket(PrefixSum(SlotCounts(lats), SlotsUnder(b, MAX_SLOTS)), ns, b)
  {
    var n := SlotsUnder(b, MAX_SLOTS);
    BucketExact(lats, b, b * MICROS_PER_SECOND);
    if n == 0 {
      NoneBelowOne(lats);
    } else if n < MAX_SLOTS {
      NextPowerIsTrue(lats, ns, b, n);
    } else {
      PowersHere();
      CountUpToAll(ns, b * 1000000000.0);
    }
  }

  lemma {:induction false} TotalInNanos(lats: seq<Micros>, ns: seq<nat>)
    requires InMicros(lats, ns)
    ensures 1000 * Total(lats) <= Total(ns) + 1000 * |ns|
    ensures Total(ns) <= 1000 * Total(lats) + 1000 * |ns|
  {
    if ns != [] {
      var n := |ns| - 1;
      assert forall k | 0 <= k < n :: lats[..n][k] == lats[k] && ns[..n][k] == ns[k];
      TotalInNanos(lats[..n], ns[..n]);
    }
  }

  /** The same bounds on bare numbers: sum in seconds, us and ns the totals, n the events. */
  lemma SumArithmetic(sum: real, us: int, ns: int, n: nat, c: real)
    requires 1000 * us <= ns + 1000 * n && ns <= 1000 * us + 1000 * n && sum * MICROS_PER_SECOND <= us as real
    ensures sum * 1000000000.0 <= (ns + 1000 * n) as real
    ensures us as real <= c * (sum * MICROS_PER_SECOND) ==> ns as real <= c * sum * 1000000000.0 + (1000 * n) as real
  {
    var x := c * sum;
    assert c * (sum * MICROS_PER_SECOND) == x * 1000000.0;
  }

  lemma UnderTheClamp(lats: seq<Micros>, ns: seq<nat>)
    requires InMicros(lats, ns) && Unclamped(ns)
    ensures AllUpTo(lats, Pow2(MAX_SLOTS))
  {
    PowersHere();
    forall l | l in lats
      ensures l <= Pow2(MAX_SLOTS)
    {
      var k :| 0 <= k < |lats| && lats[k] == l;
      assert ns[k] in ns;
    }
  }

  lemma SumIsTrue(sum: real, lats: seq<Micros>, ns: seq<nat>, factor: real)
    requires InMicros(lats, ns) && sum * MICROS_PER_SECOND <= Total(lats) as real
    requires Unclamped(ns) ==> Total(lats) as real <= factor * (sum * MICROS_PER_SECOND)
    ensures TrueSum(sum, ns, factor)
  {
    TotalInNanos(lats, ns);
    SumArithmetic(sum, Total(lats), Total(ns), |ns|, factor);
  }

  lemma SumInNanos(lats: seq<Micros>, ns: seq<nat>, sqrt2: real)
    requires InMicros(lats, ns) && sqrt2 > 0.0 && sqrt2 * sqrt2 == 2.0
    ensures TrueSum(WeightedSum(SlotCounts(lats), sqrt2, MAX_SLOTS), ns, 2.0 * sqrt2)
  {
    SumNeverAbove(lats, sqrt2);
    if Unclamped(ns) {
      UnderTheClamp(lats, ns);
      SumWithinFactor(lats, sqrt2);
    }
    SumIsTrue(WeightedSum(SlotCounts(lats), sqrt2, MAX_SLOTS), lats, ns, 2.0 * sqrt2);
  }

  /** A live entry holds the slot counts of what it recorded, which are its elapsed times in microseconds. */
  lemma EntryInNanos<K>(events: seq<Event<K>>, hk: HistKey)
    requires hk in Replay(events).0.hists
    ensures Replay(events).0.hists[hk] == SlotCounts(Recorded(Replay(events).1.latencies, hk))
    ensures InMicros(Recorded(Replay(events).1.latencies, hk), Delays(events, hk))
  {
    DelaysRecorded(events, hk);
    Conservation(events);
    EntryMatches(Replay(events).0.hists, Replay(events).1.latencies, hk);
  }

  lemma BucketsOf(lats: seq<Micros>, ns: seq<nat>, slots: Slots, b: real)
    requires InMicros(lats, ns) && slots == SlotCounts(lats)
    ensures TrueBucket(PrefixSum(slots, SlotsUnder(b, MAX_SLOTS)), ns, b)
    ensures HonestCount(PrefixSum(slots, SlotsUnder(b, MAX_SLOTS)), lats, b * 1000000.0)
  {
    BucketInNanos(lats, ns, b);
    BucketBounds(lats, b, b * 1000000.0);
  }

  /** From any run to the exported bucket: with the elapsed times of the pairs measured by a live entry, it
      covers every one up to the boundary and, below 2^25 microseconds, none that reaches twice it. */
  lemma ExportedBucket<K>(events: seq<Event<K>>, hk: HistKey, b: real)
    requires hk in Replay(events).0.hists
    ensures var bucket := PrefixSum(Replay(events).0.hists[hk], SlotsUnder(b, MAX_SLOTS));
            && ElapsedTimes(events, hk, Measured(events, hk), Delays(events, hk))
            && TrueBucket(bucket, Delays(events, hk), b)
            && HonestCount(bucket, Recorded(Replay(events).1.latencies, hk), b * 1000000.0)
  {
    EntryInNanos(events, hk);
    BucketsOf(Recorded(Replay(events).1.latencies, hk), Delays(events, hk), Replay(events).0.hists[hk], b);
    LatenciesAreElapsed(events, hk);
  }

  // The programs

  /** The maps as the handlers change them. */
  class LatencyMaps<K(==)> {
    var starts: map<K, Start>
    var hists: map<HistKey, Slots>

    ghost function View(): (m: Maps<K>)
      reads this
    {
      Maps(starts, hists)
    }

    constructor ()
      ensures View() == Maps(map[], map[])
    {
      starts, hists := map[], map[];
    }

    /** bpf_map_update_elem on the start map. */
    method Put(key: K, start: Start)
      modifies this
      ensures View() == Step(old(View()), Store(key, start))
    {
      starts := starts[key := start];
    }

    method Evict(key: Option<K>, hk: Option<HistKey>)
      modifies this
      ensures key.None? && hk.None? ==> View() == old(View())
      ensures key.Some? && hk.None? ==> View() == Step(old(View()), EvictStart(key.value))
      ensures key.None? && hk.Some? ==> View() == Step(old(View()), EvictHist(hk.value))
    {
      if key.Some? {
        starts := starts - {key.value};
      }
      if hk.Some? {
        hists := hists - {hk.value};
      }
    }

    /** Find or create the histogram entry and count one latency in it. */
    method CountLatency(hk: HistKey, delta: Micros, room: bool)
      requires delta < TWO_64
      modifies this`hists
      ensures hists == if hk in old(hists) || room then old(hists)[hk := Bump(Entry(old(hists), hk), SlotOf(delta))]
                       else old(hists)
    {
      if hk !in hists {
        if !room {
          return;
        }
        hists := hists[hk := ZERO_HIST];
      }
      var slot := Log2l(delta);
      if slot >= MAX_SLOTS {
        slot := MAX_SLOTS - 1;
      }
      hists := hists[hk := hists[hk][slot := hists[hk][slot] + 1]];
    }

    /** The common tail of every completion handler, after a successful start lookup. */
    method Complete(key: K, now: U64, target: Target, room: bool)
      requires key in starts
      modifies this
      ensures View() == Step(old(View()), Finish(key, now, target, room))
    {
      var delta, hk := SignedDelta(now, starts[key].ts), KeyFor(starts[key], target);
      starts := starts - {key};
      if delta < 0 {
        return;
      }
      delta := delta / 1000;
      if delta == 0 {
        delta := 1;
      }
      if hk.None? {
        return;
      }
      CountLatency(hk.value, delta, room);
    }
  }

  const OP_UNKNOWN: nat := 0xff

  function ClassifyOp(rwbs: char): (op: nat)
    ensures rwbs in "RWDF" ==> op < 4 && "RWDF"[op] == rwbs
    ensures rwbs !in "RWDF" ==> op == 0xff
  {
    match rwbs
    case 'R' => 0
    case 'W' => 1
    case 'D' => 2
    case 'F' => 3
    case _ => 0xff
  }

  datatype ReqKey = ReqKey(dev: U32, sector: U64)

  function BlockHistKey(dev: U32, rwbs: char): (hk: Option<HistKey>)
    ensures hk.Some? <==> rwbs in "RWDF"
    ensures hk.Some? ==> hk.value.dev == dev && hk.value.op < 4 && "RWDF"[hk.value.op] == rwbs
  {
    if ClassifyOp(rwbs) == OP_UNKNOWN then None else Some(HistKey(dev, ClassifyOp(rwbs)))
  }

  /** tracepoint block_rq_issue */
  method BlockRqIssue(m: LatencyMaps<ReqKey>, dev: U32, sector: U64, rwbs: char, now: U64)
    modifies m
    ensures m.View() == if rwbs in "RWDF" then Step(old(m.View()), Store(ReqKey(dev, sector), Start(now, None)))
                        else old(m.View())
  {
    if ClassifyOp(rwbs) == 0xff {
      return;
    }
    m.Put(ReqKey(dev, sector), Start(now, None));
  }

  /** tracepoint block_rq_complete: the histogram key takes its operation from the completion. */
  method BlockRqComplete(m: LatencyMaps<ReqKey>, dev: U32, sector: U64, rwbs: char, now: U64, room: bool)
    modifies m
    ensures var before, rk := old(m.View()), ReqKey(dev, sector);
            m.View() == if rk !in before.starts then before
                        else Step(before, Finish(rk, now, Given(BlockHistKey(dev, rwbs)), room))
  {
    var rk := ReqKey(dev, sector);
    if rk !in m.starts {
      return;
    }
    m.Complete(rk, now, Given(BlockHistKey(dev, rwbs)), room);
  }

  datatype NfsReqKey = NfsReqKey(dev: U32, count: U32, offset: U64, op: nat)

  /** raw_tracepoint nfs_initiate_read (op 0) and nfs_initiate_write (op 1) */
  method NfsInitiate(m: LatencyMaps<NfsReqKey>, dev: U32, count: U32, offset: U64, op: nat, now: U64)
    modifies m
    ensures m.View() == Step(old(m.View()), Store(NfsReqKey(dev, count, offset, op), Start(now, None)))
  {
    m.Put(NfsReqKey(dev, count, offset, op), Start(now, None));
  }

  /** raw_tracepoint nfs_readpage_done (op 0) and nfs_writeback_done (op 1) */
  method NfsDone(m: LatencyMaps<NfsReqKey>, dev: U32, count: U32, offset: U64, op: nat, now: U64, room: bool)
    modifies m
    ensures var before, nk := old(m.View()), NfsReqKey(dev, count, offset, op);
            m.View() == if nk !in before.starts then before
                        else Step(before, Finish(nk, now, Given(Some(HistKey(dev, op))), room))
  {
    var nk := NfsReqKey(dev, count, offset, op);
    if nk !in m.starts {
      return;
    }
    m.Complete(nk, now, Given(Some(HistKey(dev, op))), room);
  }

  /** record_start, called by each entry kprobe: one pending start per thread. */
  method RecordStart(m: LatencyMaps<U64>, pidTgid: U64, dev: U32, op: nat, now: U64)
    modifies m
    ensures m.View() == Step(old(m.View()), Store(pidTgid, Start(now, Some(HistKey(dev, op)))))
  {
    m.Put(pidTgid, Start(now, Some(HistKey(dev, op))));
  }

  /** The return probe shared by all traced functions: the key comes from the stored start. */
  method KretprobeNfsVfs(m: LatencyMaps<U64>, pidTgid: U64, now: U64, room: bool)
    modifies m
    ensures var before := old(m.View());
            m.View() == if pidTgid !in before.starts then before
                        else Step(before, Finish(pidTgid, now, FromStart, room))
  {
    if pidTgid !in m.starts {
      return;
    }
    m.Complete(pidTgid, now, FromStart, room);
  }
}
