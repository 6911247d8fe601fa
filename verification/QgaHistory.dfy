/** One guest-agent connection as a function of what happened on it (pkg/qga/collector.go):
    retry counting, the passive fallback, and the snapshot successive scrapes are diffed against. */
module QgaHistory {
  import opened Bits
  import opened Common
  import opened QgaTypes

  type Snapshot = map<string, DiskCounters>

  /** What a scrape that leaves the connection usable did. */
  datatype Event = Success(snap: Snapshot) | SoftFailure | Blacklisted

  datatype Progress = Progress(retryCount: nat, passive: bool, prevSnapshot: Option<Snapshot>)

  const CONNECTED := Progress(0, false, None)

  function After(p: Progress, e: Event, maxRetries: int): (p': Progress) {
    match e
    case Success(snap) => Progress(0, false, Some(snap))
    case Blacklisted => p.(passive := true, prevSnapshot := None)
    case SoftFailure =>
      if p.retryCount + 1 < maxRetries then p.(retryCount := p.retryCount + 1)
      else Progress(p.retryCount + 1, true, None)
  }

  /** After the first n events. */
  function ReplayTo(h: seq<Event>, n: nat, maxRetries: int): (p: Progress)
    requires n <= |h|
  {
    if n == 0 then CONNECTED else After(ReplayTo(h, n - 1, maxRetries), h[n - 1], maxRetries)
  }

  function Replay(h: seq<Event>, maxRetries: int): (p: Progress) {
    ReplayTo(h, |h|, maxRetries)
  }

  lemma {:induction false} ReplayPrefix(h: seq<Event>, m: nat, n: nat, maxRetries: int)
    requires m <= n <= |h|
    ensures ReplayTo(h[..n], m, maxRetries) == ReplayTo(h, m, maxRetries)
  {
    if m > 0 {
      ReplayPrefix(h, m - 1, n, maxRetries);
    }
  }

  lemma ReplayStep(h: seq<Event>, maxRetries: int)
    requires h != []
    ensures Replay(h, maxRetries) == After(Replay(h[..|h| - 1], maxRetries), h[|h| - 1], maxRetries)
  {
    ReplayPrefix(h, |h| - 1, |h| - 1, maxRetries);
  }

  lemma ReplayAfter(h: seq<Event>, e: Event, maxRetries: int)
    ensures Replay(h + [e], maxRetries) == After(Replay(h, maxRetries), e, maxRetries)
  {
    assert (h + [e])[..|h|] == h;
    ReplayStep(h + [e], maxRetries);
  }

  /** Everything after the last success. */
  function SinceSuccess(h: seq<Event>): (tail: seq<Event>)
    ensures forall e | e in tail :: !e.Success?
  {
    if h == [] || h[|h| - 1].Success? then [] else SinceSuccess(h[..|h| - 1]) + [h[|h| - 1]]
  }

  function SoftFailures(h: seq<Event>): (n: nat) {
    if h == [] then 0 else SoftFailures(h[..|h| - 1]) + if h[|h| - 1].SoftFailure? then 1 else 0
  }

  function LastSuccess(h: seq<Event>): (s: Option<Snapshot>) {
    if h == [] then None else if h[|h| - 1].Success? then Some(h[|h| - 1].snap) else LastSuccess(h[..|h| - 1])
  }

  function Threshold(maxRetries: int): (n: nat)
    ensures n >= 1
  {
    if maxRetries < 1 then 1 else maxRetries
  }

  lemma TailStep(tail: seq<Event>, last: Event)
    ensures SoftFailures(tail + [last]) == SoftFailures(tail) + if last.SoftFailure? then 1 else 0
    ensures Blacklisted in tail + [last] <==> Blacklisted in tail || last.Blacklisted?
  {
    assert (tail + [last])[..|tail|] == tail;
    assert last in tail + [last] && forall e | e in tail :: e in tail + [last];
  }

  /** The fields are exactly what the history says: the retry count is the number of soft failures
      since the last success, the VM is passive if and only if those include a blacklist error or
      at least the configured number of soft failures, and the stored snapshot is the last success
      unless the VM is passive. */
  lemma {:induction false} ReplayMeaning(h: seq<Event>, maxRetries: int)
    ensures var p, tail := Replay(h, maxRetries), SinceSuccess(h);
            && p.retryCount == SoftFailures(tail)
            && (p.passive <==> Blacklisted in tail || SoftFailures(tail) >= Threshold(maxRetries))
            && p.prevSnapshot == if p.passive then None else LastSuccess(h)
  {
    if h != [] {
      var init, last := h[..|h| - 1], h[|h| - 1];
      ReplayStep(h, maxRetries);
      ReplayMeaning(init, maxRetries);
      if !last.Success? {
        TailStep(SinceSuccess(init), last);
      }
    }
  }

  // Published metrics

  /** What a successful scrape publishes: one entry per disk seen in both snapshots on which time advanced. */
  function Disks(prev: Snapshot, curr: Snapshot): (disks: map<string, DiskMetrics>) {
    map name | name in curr && name in prev && ComputeMetrics(prev[name], curr[name]).elapsedSec > 0.0
      :: ComputeMetrics(prev[name], curr[name])
  }

  /** What event h[i] publishes, given what came before it. */
  function Published(h: seq<Event>, i: nat, maxRetries: int): (disks: map<string, DiskMetrics>)
    requires i < |h|
  {
    var p := Replay(h[..i], maxRetries);
    if h[i].Success? && p.prevSnapshot.Some? then Disks(p.prevSnapshot.value, h[i].snap) else map[]
  }

  /** Operations accounted for by everything published about one disk: the sum of IOPS times elapsed time. */
  function PublishedOps(h: seq<Event>, maxRetries: int, disk: string, d: Direction): (t: real) {
    if h == [] then 0.0
    else
      var disks := Published(h, |h| - 1, maxRetries);
      PublishedOps(h[..|h| - 1], maxRetries, disk, d)
      + if disk in disks then Served(disks[disk], d) else 0.0
  }

  // Published operations against the guest's counter

  predicate Lists(e: Event, disk: string) {
    e.Success? && disk in e.snap
  }

  /** The counters of the last success that lists the disk. */
  function LastListing(h: seq<Event>, disk: string): (c: Option<DiskCounters>) {
    if h == [] then None
    else if Lists(h[|h| - 1], disk) then Some(h[|h| - 1].snap[disk]) else LastListing(h[..|h| - 1], disk)
  }

  function FirstListing(h: seq<Event>, disk: string): (c: Option<DiskCounters>)
    ensures c.Some? <==> LastListing(h, disk).Some?
  {
    if h == [] then None
    else
      var early := FirstListing(h[..|h| - 1], disk);
      if early.None? && Lists(h[|h| - 1], disk) then Some(h[|h| - 1].snap[disk]) else early
  }

  /** Growth of the operation counter from the first success that lists the disk to the last. */
  function Growth(h: seq<Event>, disk: string, d: Direction): (n: int) {
    var first, last := FirstListing(h, disk), LastListing(h, disk);
    if last.Some? then Ops(last.value, d) - Ops(first.value, d) else 0
  }

  /** What the last event says the counter did since the listing before it. */
  function Delta(h: seq<Event>, disk: string, d: Direction): (n: int)
    requires h != []
  {
    var init, last := h[..|h| - 1], h[|h| - 1];
    var prev := LastListing(init, disk);
    if Lists(last, disk) && prev.Some? then Ops(last.snap[disk], d) - Ops(prev.value, d) else 0
  }

  /** The last event publishes the disk. */
  predicate Shown(h: seq<Event>, maxRetries: int, disk: string)
    requires h != []
  {
    disk in Published(h, |h| - 1, maxRetries)
  }

  /** The operations no published rate accounts for. */
  function Missed(h: seq<Event>, maxRetries: int, disk: string, d: Direction): (n: int) {
    if h == [] then 0
    else Missed(h[..|h| - 1], maxRetries, disk, d) + if Shown(h, maxRetries, disk) then 0 else Delta(h, disk, d)
  }

  /** How often a published rate was computed from a counter that had gone back. */
  function Wraps(h: seq<Event>, maxRetries: int, disk: string, d: Direction): (n: nat) {
    if h == [] then 0
    else
      Wraps(h[..|h| - 1], maxRetries, disk, d)
      + if Shown(h, maxRetries, disk) && Delta(h, disk, d) < 0 then 1 else 0
  }

  lemma {:induction false} LastSuccessLists(h: seq<Event>, disk: string)
    requires LastSuccess(h).Some? && disk in LastSuccess(h).value
    ensures LastListing(h, disk) == Some(LastSuccess(h).value[disk])
  {
    if !h[|h| - 1].Success? {
      LastSuccessLists(h[..|h| - 1], disk);
    }
  }

  /** A success publishes a disk exactly if the success before it lists the disk too, the VM has not been passive
      in between, and the guest's clock has moved on. */
  lemma ShownExactly(h: seq<Event>, maxRetries: int, disk: string)
    requires h != []
    ensures var init, last := h[..|h| - 1], h[|h| - 1];
            var prev := LastSuccess(init);
            Shown(h, maxRetries, disk) <==>
              && Lists(last, disk) && prev.Some? && disk in prev.value && !Replay(init, maxRetries).passive
              && Later(prev.value[disk], last.snap[disk])
  {
    var init, last := h[..|h| - 1], h[|h| - 1];
    ReplayMeaning(init, maxRetries);
    if Lists(last, disk) && LastSuccess(init).Some? && disk in LastSuccess(init).value {
      OpsServed(LastSuccess(init).value[disk], last.snap[disk], Read);
    }
  }

  /** What one more event adds to the published operations. */
  lemma PublishStep(h: seq<Event>, maxRetries: int, disk: string, d: Direction)
    requires h != []
    ensures PublishedOps(h, maxRetries, disk, d) == PublishedOps(h[..|h| - 1], maxRetries, disk, d)
              + if !Shown(h, maxRetries, disk) then 0.0
                else (Delta(h, disk, d) + if Delta(h, disk, d) < 0 then TWO_64 else 0) as real
  {
    var init, last := h[..|h| - 1], h[|h| - 1];
    ShownExactly(h, maxRetries, disk);
    if Shown(h, maxRetries, disk) {
      ReplayMeaning(init, maxRetries);
      LastSuccessLists(init, disk);
      OpsServed(LastSuccess(init).value[disk], last.snap[disk], d);
    }
  }

  lemma GrowthStep(h: seq<Event>, disk: string, d: Direction)
    requires h != []
    ensures Growth(h, disk, d) == Growth(h[..|h| - 1], disk, d) + Delta(h, disk, d)
  {
  }

  /** Over every history, published IOPS times elapsed time and what was missed add up to exactly the growth of
      the operation counter, plus 2^64 for each time it went back between two samples that were compared. */
  lemma {:induction false} PublishedOpsTelescope(h: seq<Event>, maxRetries: int, disk: string, d: Direction)
    ensures PublishedOps(h, maxRetries, disk, d) + Missed(h, maxRetries, disk, d) as real
         == (Growth(h, disk, d) + TWO_64 * Wraps(h, maxRetries, disk, d)) as real
  {
    if h != [] {
      PublishedOpsTelescope(h[..|h| - 1], maxRetries, disk, d);
      GrowthStep(h, disk, d);
      PublishStep(h, maxRetries, disk, d);
    }
  }

  /** Nothing of the growth is lost, and nothing added. */
  predicate Accounted(h: seq<Event>, maxRetries: int, disk: string, d: Direction) {
    PublishedOps(h, maxRetries, disk, d) == Growth(h, disk, d) as real
  }

  /** The counter never goes back from one success that lists the disk to a later one. */
  predicate Forward(h: seq<Event>, disk: string, d: Direction) {
    forall i, j | 0 <= i < j < |h| && Lists(h[i], disk) && Lists(h[j], disk) ::
      Ops(h[i].snap[disk], d) <= Ops(h[j].snap[disk], d)
  }

  lemma {:induction false} LastListingAt(h: seq<Event>, disk: string)
    requires LastListing(h, disk).Some?
    ensures exists i :: 0 <= i < |h| && Lists(h[i], disk) && h[i].snap[disk] == LastListing(h, disk).value
  {
    var n := |h| - 1;
    if !Lists(h[n], disk) {
      LastListingAt(h[..n], disk);
      var i :| 0 <= i < n && Lists(h[..n][i], disk) && h[..n][i].snap[disk] == LastListing(h[..n], disk).value;
      assert h[i] == h[..n][i];
    }
  }

  lemma ForwardDelta(h: seq<Event>, disk: string, d: Direction)
    requires h != [] && Forward(h, disk, d)
    ensures Delta(h, disk, d) >= 0
  {
    var n := |h| - 1;
    if LastListing(h[..n], disk).Some? {
      LastListingAt(h[..n], disk);
      var i :| 0 <= i < n && Lists(h[..n][i], disk) && h[..n][i].snap[disk] == LastListing(h[..n], disk).value;
      assert h[i] == h[..n][i];
    }
  }

  lemma ForwardPrefix(h: seq<Event>, n: nat, disk: string, d: Direction)
    requires Forward(h, disk, d) && n <= |h|
    ensures Forward(h[..n], disk, d)
  {
    assert forall i | 0 <= i < n :: h[..n][i] == h[i];
  }

  /** Event i finds that the disk was busy since its last listing, and does not publish it. */
  ghost predicate BusyGap(h: seq<Event>, i: nat, maxRetries: int, disk: string, d: Direction)
    requires i < |h|
  {
    Delta(h[..i + 1], disk, d) > 0 && !Shown(h[..i + 1], maxRetries, disk)
  }

  ghost predicate NoBusyGap(h: seq<Event>, maxRetries: int, disk: string, d: Direction) {
    forall i | 0 <= i < |h| :: !BusyGap(h, i, maxRetries, disk, d)
  }

  lemma NoBusyGapStep(h: seq<Event>, maxRetries: int, disk: string, d: Direction)
    requires h != []
    ensures NoBusyGap(h, maxRetries, disk, d) <==>
              && NoBusyGap(h[..|h| - 1], maxRetries, disk, d)
              && (Shown(h, maxRetries, disk) || Delta(h, disk, d) <= 0)
  {
    var n := |h| - 1;
    forall i | 0 <= i < n
      ensures BusyGap(h[..n], i, maxRetries, disk, d) <==> BusyGap(h, i, maxRetries, disk, d)
    {
      assert h[..n][..i + 1] == h[..i + 1];
    }
    assert h[..n + 1] == h;
    assert BusyGap(h, n, maxRetries, disk, d) <==> !(Shown(h, maxRetries, disk) || Delta(h, disk, d) <= 0);
  }

  lemma {:induction false} MissedWhen(h: seq<Event>, maxRetries: int, disk: string, d: Direction)
    requires Forward(h, disk, d)
    ensures Missed(h, maxRetries, disk, d) >= 0 && Wraps(h, maxRetries, disk, d) == 0
    ensures Missed(h, maxRetries, disk, d) == 0 <==> NoBusyGap(h, maxRetries, disk, d)
  {
    if h != [] {
      ForwardPrefix(h, |h| - 1, disk, d);
      MissedWhen(h[..|h| - 1], maxRetries, disk, d);
      ForwardDelta(h, disk, d);
      NoBusyGapStep(h, maxRetries, disk, d);
    }
  }

  /** The published rates account for the whole growth, neither less nor more, exactly if what was missed makes up
      for the wraps. While the counter does not go back that is: if and only if every success that finds the disk
      busy publishes it. */
  lemma CompleteExactly(h: seq<Event>, maxRetries: int, disk: string, d: Direction)
    ensures Accounted(h, maxRetries, disk, d) <==>
              Missed(h, maxRetries, disk, d) == TWO_64 * Wraps(h, maxRetries, disk, d)
    ensures Forward(h, disk, d) ==>
              && (Accounted(h, maxRetries, disk, d) <==> NoBusyGap(h, maxRetries, disk, d))
              && PublishedOps(h, maxRetries, disk, d) <= Growth(h, disk, d) as real
  {
    PublishedOpsTelescope(h, maxRetries, disk, d);
    if Forward(h, disk, d) {
      MissedWhen(h, maxRetries, disk, d);
    }
  }

  /** The guest's counters have 32 bits. */
  predicate Narrow(h: seq<Event>, disk: string, d: Direction) {
    forall i | 0 <= i < |h| && Lists(h[i], disk) :: Ops(h[i].snap[disk], d) < TWO_32
  }

  lemma {:induction false} NarrowBound(h: seq<Event>, maxRetries: int, disk: string, d: Direction)
    requires Narrow(h, disk, d)
    ensures LastListing(h, disk).Some? ==> Ops(LastListing(h, disk).value, d) < TWO_32
    ensures Missed(h, maxRetries, disk, d) <= |h| * TWO_32
  {
    if h != [] {
      assert forall i | 0 <= i < |h| - 1 :: h[..|h| - 1][i] == h[i];
      NarrowBound(h[..|h| - 1], maxRetries, disk, d);
    }
  }

  /** With such a counter one wrap between two compared samples is enough: nothing missed makes up for it. */
  lemma WrapUnaccounted(h: seq<Event>, maxRetries: int, disk: string, d: Direction)
    requires Narrow(h, disk, d) && |h| < TWO_32 && Wraps(h, maxRetries, disk, d) > 0
    ensures !Accounted(h, maxRetries, disk, d)
  {
    CompleteExactly(h, maxRetries, disk, d);
    NarrowBound(h, maxRetries, disk, d);
  }

  /** A success that lists one disk, with this many reads at this time. */
  function Saw(disk: string, ops: U64, time: U64): (e: Event) {
    Success(map[disk := DiskCounters(disk, 0, 0, ops, 0, time)])
  }

  lemma Unshown(h: seq<Event>, maxRetries: int)
    requires |h| == 3 && h[0] == Saw("C:", 0, 1) && h[2] == Saw("C:", 7, 2)
    requires !Lists(h[1], "C:") && !Shown(h, maxRetries, "C:")
    ensures Growth(h, "C:", Read) == 7 && PublishedOps(h, maxRetries, "C:", Read) == 0.0
  {
    var one, two := h[..1], h[..2];
    assert h[..2] == two && two[..1] == one && one[..0] == [];
    ShownExactly(one, maxRetries, "C:");
    ShownExactly(two, maxRetries, "C:");
    PublishStep(one, maxRetries, "C:", Read);
    PublishStep(two, maxRetries, "C:", Read);
    PublishStep(h, maxRetries, "C:", Read);
    assert LastListing(one, "C:") == FirstListing(one, "C:") == Some(DiskCounters("C:", 0, 0, 0, 0, 1));
    assert LastListing(two, "C:") == FirstListing(two, "C:") == Some(DiskCounters("C:", 0, 0, 0, 0, 1));
  }

  /** A blacklist error between two successes loses the operations between them. */
  lemma OperationsLost(maxRetries: int)
    ensures var h := [Saw("C:", 0, 1), Blacklisted, Saw("C:", 7, 2)];
            Growth(h, "C:", Read) == 7 && PublishedOps(h, maxRetries, "C:", Read) == 0.0
  {
    var h := [Saw("C:", 0, 1), Blacklisted, Saw("C:", 7, 2)];
    assert h[..2] == [Saw("C:", 0, 1), Blacklisted];
    ReplayStep(h[..2], maxRetries);
    ShownExactly(h, maxRetries, "C:");
    Unshown(h, maxRetries);
  }

  /** So does a success that does not list the disk, without the VM ever being passive. */
  lemma UnlistedLost(maxRetries: int)
    ensures var h := [Saw("C:", 0, 1), Saw("D:", 0, 1), Saw("C:", 7, 2)];
            && Growth(h, "C:", Read) == 7 && PublishedOps(h, maxRetries, "C:", Read) == 0.0
            && forall n | 0 <= n <= |h| :: !ReplayTo(h, n, maxRetries).passive
  {
    var h := [Saw("C:", 0, 1), Saw("D:", 0, 1), Saw("C:", 7, 2)];
    assert h[..2] == [Saw("C:", 0, 1), Saw("D:", 0, 1)];
    assert "C:" !in h[1].snap;
    ShownExactly(h, maxRetries, "C:");
    Unshown(h, maxRetries);
    assert ReplayTo(h, 1, maxRetries) == After(CONNECTED, h[0], maxRetries);
    assert ReplayTo(h, 2, maxRetries) == After(ReplayTo(h, 1, maxRetries), h[1], maxRetries);
    assert ReplayTo(h, 3, maxRetries) == After(ReplayTo(h, 2, maxRetries), h[2], maxRetries);
  }
}
