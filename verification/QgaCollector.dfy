/** The guest-agent poller (pkg/qga/collector.go). CRI lookups, dialling, scrape replies, clock
    readings and the order in which goroutines finish are inputs or left to chance. */
module QgaCollector {
  import opened Bits
  import opened Common
  import opened QgaTypes
  import opened QgaHistory
  import QgaClient

  type DiskMap = map<int, string>
  type ScrapeError = QgaClient.ScrapeError

  const PASSIVE_CYCLE_FACTOR: int := 60

  /** passiveInterval, in nanoseconds: sixty poll intervals, or an hour without one. */
  function PassiveInterval(pollInterval: int): (d: int)
    ensures pollInterval > 0 ==> d == 60 * pollInterval
    ensures pollInterval <= 0 ==> d == 3_600_000_000_000
  {
    if pollInterval > 0 then PASSIVE_CYCLE_FACTOR * pollInterval else 3600 * QgaClient.SECOND
  }

  // Snapshots

  /** currSnapshot: by name, later rows winning. */
  function SnapshotOf(counters: seq<DiskCounters>): (s: Snapshot) {
    if counters == [] then map[]
    else SnapshotOf(counters[..|counters| - 1])[counters[|counters| - 1].name := counters[|counters| - 1]]
  }

  /** Row i is the last one of its disk. */
  predicate LastRowOf(counters: seq<DiskCounters>, i: nat, name: string) {
    i < |counters| && counters[i].name == name && forall j | i < j < |counters| :: counters[j].name != name
  }

  /** A disk is in the snapshot exactly if it has a row, with the counters of its last one. */
  lemma {:induction false} SnapshotMeaning(counters: seq<DiskCounters>, name: string)
    ensures name in SnapshotOf(counters) <==> exists i: nat :: LastRowOf(counters, i, name)
    ensures forall i: nat | LastRowOf(counters, i, name) ::
              name in SnapshotOf(counters) && SnapshotOf(counters)[name] == counters[i]
  {
    if counters != [] {
      var n := |counters| - 1;
      SnapshotMeaning(counters[..n], name);
      if counters[n].name == name {
        assert LastRowOf(counters, n, name);
      } else {
        assert forall i: nat :: LastRowOf(counters, i, name) <==> LastRowOf(counters[..n], i, name);
      }
    }
  }

  /** currSnapshot, built row by row. */
  method BuildSnapshot(counters: seq<DiskCounters>) returns (snap: Snapshot)
    ensures snap == SnapshotOf(counters)
  {
    snap := map[];
    for i := 0 to |counters|
      invariant snap == SnapshotOf(counters[..i])
    {
      assert counters[..i + 1][..i] == counters[..i];
      snap := snap[counters[i].name := counters[i]];
    }
    assert counters[..|counters|] == counters;
  }

  /** The diff loop, over the disks in whatever order the map yields them. */
  method DiffSnapshots(prev: Snapshot, curr: Snapshot) returns (disks: map<string, DiskMetrics>)
    ensures disks == Disks(prev, curr)
  {
    disks := map[];
    var todo := curr.Keys;
    while todo != {}
      invariant todo <= curr.Keys
      invariant forall name :: name in disks <==> name in Disks(prev, curr) && name !in todo
      invariant forall name | name in disks :: disks[name] == Disks(prev, curr)[name]
      decreases todo
    {
      var name :| name in todo;
      todo := todo - {name};
      if name in prev {
        var m := ComputeMetrics(prev[name], curr[name]);
        if m.elapsedSec > 0.0 {
          disks := disks[name := m];
        }
      }
    }
  }

  // What a scrape means for its VM

  /** How the guest answers one scrape, and whether a callback closes the client meanwhile. */
  datatype Scrape =
    | Fails(err: ScrapeError, clientDies: bool)
    | Answers(counters: seq<DiskCounters>, diskMap: Option<DiskMap>, clientDies: bool)

  predicate IsDeadClient(err: ScrapeError) {
    err.ClientClosed? || err.DeadlineExceeded? || err.ContextCanceled?
  }

  /** What a scrape means for a live connection; None when the connection has to go. */
  function EventOf(s: Scrape): (e: Option<Event>) {
    match s
    case Answers(counters, _, _) => Some(Success(SnapshotOf(counters)))
    case Fails(err, dies) =>
      if err.CommandBlacklisted? then Some(Blacklisted)
      else if IsDeadClient(err) || dies then None
      else Some(SoftFailure)
  }

  /** What a successful scrape publishes on a connection with history h. */
  function NewDisks(h: seq<Event>, s: Scrape, maxRetries: int): (disks: map<string, DiskMetrics>)
    requires s.Answers?
  {
    Published(h + [Success(SnapshotOf(s.counters))], |h|, maxRetries)
  }

  /** Everything a scrape means for its VM: what it adds to the history (None if the connection has to
      go), and what it publishes (None if it fails). It depends on the VM's own reply and history alone. */
  datatype Plan = Plan(event: Option<Event>, disks: Option<map<string, DiskMetrics>>)

  function PlanOf(s: Scrape, h: seq<Event>, maxRetries: int): (p: Plan) {
    Plan(EventOf(s), if s.Answers? then Some(NewDisks(h, s, maxRetries)) else None)
  }

  type Results = map<string, map<string, DiskMetrics>>
  type Plans = map<string, Plan>
  type Histories = map<string, seq<Event>>

  ghost function PlansFor(ids: set<string>, scrapes: string -> Scrape, was: Histories, maxRetries: int): (plans: Plans)
    requires ids <= was.Keys
    ensures plans.Keys == ids
  {
    map id | id in ids :: PlanOf(scrapes(id), was[id], maxRetries)
  }

  /** A poll publishes something for a VM only if the same connection had a success before and has not
      fallen back to passive since, and then it is the difference to that very success. */
  lemma ResultNeedsBaseline(s: Scrape, h: seq<Event>, maxRetries: int)
    requires s.Answers? && PlanOf(s, h, maxRetries).disks != Some(map[])
    ensures LastSuccess(h).Some? && !(Blacklisted in SinceSuccess(h))
            && SoftFailures(SinceSuccess(h)) < Threshold(maxRetries)
    ensures PlanOf(s, h, maxRetries).disks == Some(Disks(LastSuccess(h).value, SnapshotOf(s.counters)))
  {
    ReplayMeaning(h, maxRetries);
    var all := h + [Success(SnapshotOf(s.counters))];
    assert all[..|h|] == h;
  }

  /** The histories with one more event for id; without id if there is none. */
  ghost function Applied(h: Histories, id: string, e: Option<Event>): (h': Histories)
    requires id in h
  {
    if e.None? then h - {id} else h[id := h[id] + [e.value]]
  }

  /** The histories once the scrapes of the VMs in `done` are over. */
  ghost function Expected(was: Histories, done: set<string>, plans: Plans): (h: Histories)
    requires done <= plans.Keys
  {
    map id | id in was && !(id in done && plans[id].event.None?) ::
      if id in done then was[id] + [plans[id].event.value] else was[id]
  }

  lemma ExpectedNone(was: Histories, plans: Plans)
    ensures Expected(was, {}, plans) == was
  {
  }

  lemma ExpectedStep(was: Histories, done: set<string>, plans: Plans, id: string)
    requires done <= plans.Keys && id in plans && id in was && id !in done
    ensures id in Expected(was, done, plans) && Expected(was, done, plans)[id] == was[id]
    ensures Applied(Expected(was, done, plans), id, plans[id].event) == Expected(was, done + {id}, plans)
  {
  }

  // Targets

  datatype Target = Target(containerID: string, dials: bool)

  /** activeIDs */
  function ActiveIds(targets: seq<Target>): (ids: set<string>) {
    set t | t in targets :: t.containerID
  }

  /** Containers that can be dialled. */
  function Dialling(targets: seq<Target>): (ids: set<string>)
    ensures ids <= ActiveIds(targets)
  {
    set t | t in targets && t.dials :: t.containerID
  }

  lemma DiallingStep(targets: seq<Target>, i: nat)
    requires i < |targets|
    ensures Dialling(targets[..i + 1])
         == Dialling(targets[..i]) + if targets[i].dials then {targets[i].containerID} else {}
  {
    assert targets[..i + 1] == targets[..i] + [targets[i]];
  }

  /** The histories a poll works on: of every connection still active, and an empty one for each new dial. */
  ghost function Worked(before: Histories, targets: seq<Target>): (was: Histories) {
    map id | id in before.Keys * ActiveIds(targets) + Dialling(targets) :: if id in before then before[id] else []
  }

  // How a poll sorts its VMs

  /** The connections that are passive by their history. */
  ghost function PassiveIn(was: Histories, maxRetries: int): (ids: set<string>) {
    set id | id in was && Replay(was[id], maxRetries).passive
  }

  /** The VMs looked at so far: dropped as dead, passed over, or due; and whether a passive one is due. */
  datatype Sorting = Sorting(dead: set<string>, skipped: set<string>, due: set<string>, probed: bool)

  datatype Verdict = IsDead | IsSkipped | IsDue(passive: bool)

  /** What the poll decides for one VM. */
  function VerdictOf(dead: bool, passive: bool, passiveDue: bool): (v: Verdict) {
    if dead then IsDead else if passive && !passiveDue then IsSkipped else IsDue(passive)
  }

  function Sort(s: Sorting, id: string, v: Verdict): (s': Sorting) {
    match v
    case IsDead => s.(dead := s.dead + {id})
    case IsSkipped => s.(skipped := s.skipped + {id})
    case IsDue(passive) => s.(due := s.due + {id}, probed := s.probed || passive)
  }

  /** The VMs `ids` are sorted as their state and the schedule say. */
  ghost predicate Sorted(ids: set<string>, s: Sorting, passiveDue: bool, passiveIds: set<string>, gone: set<string>) {
    && (forall id :: id in s.dead <==> id in ids && id in gone)
    && (forall id :: id in s.skipped <==> id in ids && id !in gone && id in passiveIds && !passiveDue)
    && (forall id :: id in s.due <==> id in ids && id !in gone && !(id in passiveIds && !passiveDue))
    && (s.probed <==> exists id :: id in s.due && id in passiveIds)
  }

  lemma SortedStep(ids: set<string>, s: Sorting, passiveDue: bool, passiveIds: set<string>, gone: set<string>,
                   id: string)
    requires Sorted(ids, s, passiveDue, passiveIds, gone) && id !in ids
    ensures Sorted(ids + {id}, Sort(s, id, VerdictOf(id in gone, id in passiveIds, passiveDue)), passiveDue,
                   passiveIds, gone)
  {
  }

  lemma MinusMore<T>(m: map<string, T>, s: set<string>, id: string)
    ensures m - s - {id} == m - (s + {id})
  {
  }

  lemma OneLess(all: set<string>, todo: set<string>, id: string)
    requires id in todo && todo <= all
    ensures all - (todo - {id}) == all - todo + {id} && id !in all - todo
  {
  }

  lemma NothingSorted(was: Histories, gone: set<string>, s: Sorting, passiveDue: bool, passiveIds: set<string>)
    requires s == Sorting({}, {}, {}, false)
    ensures was - s.dead == was && gone - (was.Keys - was.Keys) == gone
    ensures Sorted(was.Keys - was.Keys, s, passiveDue, passiveIds, gone)
  {
  }

  /** One more VM looked at, against the histories and dead VMs still to come. */
  lemma SortedNext(was: Histories, s: Sorting, passiveDue: bool, gone: set<string>, done: set<string>, id: string,
                   v: Verdict, maxRetries: int)
    requires Sorted(done, s, passiveDue, PassiveIn(was, maxRetries), gone) && id !in done && s.dead <= done && id in was
    requires v == VerdictOf(id in gone - done, Replay((was - s.dead)[id], maxRetries).passive, passiveDue)
    ensures Sorted(done + {id}, Sort(s, id, v), passiveDue, PassiveIn(was, maxRetries), gone)
    ensures was - Sort(s, id, v).dead == (if v.IsDead? then was - s.dead - {id} else was - s.dead)
    ensures gone - (done + {id}) == gone - done - {id} && Sort(s, id, v).dead <= done + {id}
  {
    SortedStep(done, s, passiveDue, PassiveIn(was, maxRetries), gone, id);
    MinusMore(was, s.dead, id);
  }

  lemma SortedParts(ids: set<string>, s: Sorting, passiveDue: bool, passiveIds: set<string>, gone: set<string>)
    requires Sorted(ids, s, passiveDue, passiveIds, gone)
    ensures s.due <= ids - s.dead && (s.probed ==> passiveDue)
  {
  }

  /** What one poll did with the VMs in its snapshot. */
  datatype Report = Report(sorting: Sorting, failed: set<string>, succeeded: set<string>, errors: nat) {
    /** Every VM that was due failed or succeeded; dead and failed ones count as errors, once each. */
    ghost predicate AddsUp() {
      && (forall id :: id in sorting.due <==> id in failed || id in succeeded)
      && (forall id :: !(id in failed && id in succeeded))
      && errors == |sorting.dead| + |failed|
    }

    /** Exactly one result for each VM that succeeded with something to publish, and what it is. */
    ghost predicate Publishes(published: Results, plans: Plans) {
      && sorting.due <= plans.Keys && succeeded <= plans.Keys
      && (forall id :: id in failed <==> id in sorting.due && plans[id].disks.None?)
      && (forall id :: id in published <==> id in succeeded && plans[id].disks != Some(map[]))
      && (forall id | id in published :: plans[id].disks == Some(published[id]))
    }
  }

  /** The scraping half of a poll on VMs with histories `was`, those in `gone` being dead: four groups; what
      is counted and published; and each survivor's history grown by its own event. */
  ghost predicate Scraped(was: Histories, gone: set<string>, passiveDue: bool, scrapes: string -> Scrape,
                          report: Report, plans: Plans, published: Results,
                          after: Histories, maxRetries: int) {
    && Sorted(was.Keys, report.sorting, passiveDue, PassiveIn(was, maxRetries), gone)
    && report.sorting.due <= was.Keys && plans == PlansFor(report.sorting.due, scrapes, was, maxRetries)
    && report.AddsUp() && report.Publishes(published, plans)
    && after == Expected(was - report.sorting.dead, report.sorting.due, plans)
  }

  /** What is due was not dropped. */
  lemma PlansAfterDrop(due: set<string>, dead: set<string>, scrapes: string -> Scrape, was: Histories, maxRetries: int)
    requires due <= was.Keys - dead
    ensures due <= (was - dead).Keys
    ensures PlansFor(due, scrapes, was - dead, maxRetries) == PlansFor(due, scrapes, was, maxRetries)
  {
  }

  // Adding up

  /** What each finished scrape returned: the disks to publish, None for an error. */
  type Outcomes = map<string, Option<map<string, DiskMetrics>>>

  ghost predicate OutcomesFit(outcomes: Outcomes, done: set<string>, plans: Plans) {
    outcomes.Keys == done <= plans.Keys && forall id | id in done :: outcomes[id] == plans[id].disks
  }

  lemma OutcomesStep(outcomes: Outcomes, done: set<string>, plans: Plans, id: string)
    requires OutcomesFit(outcomes, done, plans) && id in plans
    ensures OutcomesFit(outcomes[id := plans[id].disks], done + {id}, plans)
  {
  }

  /** Each scraped VM failed or succeeded, and there is exactly one result for each that had something to publish. */
  ghost predicate Tallied(published: Results, failed: set<string>, succeeded: set<string>,
                          outcomes: Outcomes, done: set<string>) {
    && done <= outcomes.Keys
    && (forall id :: id in failed <==> id in done && outcomes[id].None?)
    && (forall id :: id in succeeded <==> id in done && outcomes[id].Some?)
    && (forall id :: id in published <==> id in done && outcomes[id].Some? && outcomes[id].value != map[])
    && (forall id | id in published :: outcomes[id] == Some(published[id]))
  }

  /** Adding up errors and results, in whatever order the outcomes come in. */
  method Tally(outcomes: Outcomes)
    returns (published: Results, failed: set<string>, succeeded: set<string>)
    ensures Tallied(published, failed, succeeded, outcomes, outcomes.Keys)
  {
    published, failed, succeeded := map[], {}, {};
    var todo := outcomes.Keys;
    while todo != {}
      invariant todo <= outcomes.Keys && Tallied(published, failed, succeeded, outcomes, outcomes.Keys - todo)
      decreases todo
    {
      var id :| id in todo;
      if outcomes[id].None? {
        failed := failed + {id};
      } else {
        succeeded := succeeded + {id};
        if outcomes[id].value != map[] {
          published := published[id := outcomes[id].value];
        }
      }
      todo := todo - {id};
    }
    assert outcomes.Keys - todo == outcomes.Keys;
  }

  /** The report of a poll from the outcomes of its scrapes. */
  method AddUp(s: Sorting, outcomes: Outcomes, ghost was: Histories, ghost gone: set<string>, ghost passiveDue: bool,
               ghost scrapes: string -> Scrape, ghost plans: Plans, ghost after: Histories, ghost maxRetries: int)
    returns (report: Report, published: Results)
    requires Sorted(was.Keys, s, passiveDue, PassiveIn(was, maxRetries), gone)
    requires s.due <= was.Keys && plans == PlansFor(s.due, scrapes, was, maxRetries)
    requires OutcomesFit(outcomes, s.due, plans) && after == Expected(was - s.dead, s.due, plans)
    ensures Scraped(was, gone, passiveDue, scrapes, report, plans, published, after, maxRetries) && report.sorting == s
  {
    var failed, succeeded;
    published, failed, succeeded := Tally(outcomes);
    report := Report(s, failed, succeeded, |s.dead| + |failed|);
  }

  // One poll, and polls one after another

  /** One poll's worth of surroundings: the running targets, the clock when passive VMs are checked and
      when the poll ends, and for each container how its scrape goes and when its error is handled. */
  datatype Input = Input(targets: seq<Target>, checkAt: int, endAt: int, scrapes: string -> Scrape,
                         markAt: string -> int)

  ghost predicate InOrder(input: Input, clock: int) {
    clock <= input.checkAt <= input.endAt && forall id :: input.checkAt <= input.markAt(id) <= input.endAt
  }

  ghost predicate Timeline(inputs: seq<Input>, clock: int) {
    inputs == [] || (InOrder(inputs[0], clock) && Timeline(inputs[1..], inputs[0].endAt))
  }

  /** Is a passive probe due at this reading of the clock? */
  predicate Due(lastPassiveAt: Option<int>, now: int, interval: int) {
    lastPassiveAt.Some? && now - lastPassiveAt.value >= interval
  }

  /** Scrapes handled between `from` and `to` set the schedule if it was not set, and never move it. */
  predicate Kept(before: Option<int>, after: Option<int>, from: int, to: int) {
    after == before || (before.None? && after.Some? && from <= after.value <= to)
  }

  lemma KeptOn(a: Option<int>, b: Option<int>, c: Option<int>, from: int, to: int, at: int)
    requires Kept(a, b, from, to) && Kept(b, c, at, at) && from <= at <= to
    ensures Kept(a, c, from, to)
  {
  }


  /** What a poller holds at a poll boundary: the history of each connection, which of them are dead, the
      passive schedule, every poll that probed passive VMs, and what it shows. */
  datatype Boundary = Boundary(histories: Histories, gone: set<string>, last: Option<int>, probes: seq<(int, int)>,
                               errors: nat, results: Results)

  /** Everything one poll did. */
  datatype Cycle = Cycle(input: Input, from: Boundary, was: Histories, gone: set<string>, plans: Plans, report: Report,
                         to: Boundary)

  /** Those of the VMs whose client is closed during their scrape. */
  ghost function Dying(ids: set<string>, scrapes: string -> Scrape): (dying: set<string>) {
    set id | id in ids && scrapes(id).clientDies
  }

  /** The schedule moves exactly if passive VMs were probed, and is set while anything is passive. */
  ghost predicate ScheduleOk(c: Cycle, maxRetries: int) {
    && c.input.checkAt <= c.input.endAt
    && c.to.probes == c.from.probes + (if c.report.sorting.probed then [(c.input.checkAt, c.input.endAt)] else [])
    && (c.report.sorting.probed ==> c.to.last == Some(c.input.endAt))
    && (!c.report.sorting.probed ==> Kept(c.from.last, c.to.last, c.input.checkAt, c.input.endAt))
    && (PassiveIn(c.to.histories, maxRetries) != {} ==> c.to.last.Some?)
    && (c.to.last.Some? ==> c.to.last.value <= c.input.endAt)
  }

  /** One poll: it works on every connection still active and every new dial, and scrapes what is due. What it
      leaves dead had its client closed in this very poll. */
  ghost predicate PollOk(c: Cycle, maxRetries: int, interval: int) {
    && c.was == Worked(c.from.histories, c.input.targets) && c.gone == c.from.gone * ActiveIds(c.input.targets)
    && Scraped(c.was, c.gone, Due(c.from.last, c.input.checkAt, interval), c.input.scrapes, c.report,
               c.plans, c.to.results, c.to.histories, maxRetries)
    && c.to.errors == c.from.errors + c.report.errors && c.to.gone <= Dying(c.report.sorting.due, c.input.scrapes)
    && ScheduleOk(c, maxRetries)
  }

  lemma CycleOk(c: Cycle, scraped: Option<int>, maxRetries: int, interval: int)
    requires c.was == Worked(c.from.histories, c.input.targets) && c.gone == c.from.gone * ActiveIds(c.input.targets)
    requires Scraped(c.was, c.gone, Due(c.from.last, c.input.checkAt, interval), c.input.scrapes, c.report,
                     c.plans, c.to.results, c.to.histories, maxRetries)
    requires c.to.errors == c.from.errors + c.report.errors && c.to.gone <= Dying(c.report.sorting.due, c.input.scrapes)
    requires c.input.checkAt <= c.input.endAt && Kept(c.from.last, scraped, c.input.checkAt, c.input.endAt)
    requires c.from.last.Some? ==> c.from.last.value <= c.input.endAt
    requires c.to.last == if c.report.sorting.probed then Some(c.input.endAt) else scraped
    requires c.to.probes == c.from.probes + if c.report.sorting.probed then [(c.input.checkAt, c.input.endAt)] else []
    requires PassiveIn(c.to.histories, maxRetries) != {} ==> scraped.Some?
    ensures PollOk(c, maxRetries, interval)
  {
  }

  /** A run: polls one after another, each starting from what the one before left. */
  ghost predicate RunOk(cycles: seq<Cycle>, maxRetries: int, interval: int) {
    cycles == [] ||
    (var n := |cycles| - 1;
     && RunOk(cycles[..n], maxRetries, interval) && PollOk(cycles[n], maxRetries, interval)
     && (n > 0 ==> cycles[n].from == cycles[n - 1].to))
  }

  lemma RunOkLast(all: seq<Cycle>, n: nat, maxRetries: int, interval: int)
    requires |all| == n + 1 && RunOk(all[..n], maxRetries, interval) && PollOk(all[n], maxRetries, interval)
    requires n > 0 ==> all[n].from == all[n - 1].to
    ensures RunOk(all, maxRetries, interval)
  {
  }

  lemma RunOkAdd(cycles: seq<Cycle>, c: Cycle, maxRetries: int, interval: int)
    requires RunOk(cycles, maxRetries, interval) && PollOk(c, maxRetries, interval)
    requires cycles != [] ==> c.from == cycles[|cycles| - 1].to
    ensures RunOk(cycles + [c], maxRetries, interval)
  {
    var all, n := cycles + [c], |cycles|;
    assert all[..n] == cycles && all[n] == c;
    RunOkLast(all, n, maxRetries, interval);
  }

  lemma {:induction false} RunOkAt(cycles: seq<Cycle>, k: nat, maxRetries: int, interval: int)
    requires RunOk(cycles, maxRetries, interval) && k < |cycles|
    ensures PollOk(cycles[k], maxRetries, interval)
    ensures k > 0 ==> cycles[k].from == cycles[k - 1].to
    decreases |cycles|
  {
    if k < |cycles| - 1 {
      RunOkAt(cycles[..|cycles| - 1], k, maxRetries, interval);
    }
  }

  /** The polls were made with these inputs and lead from one boundary to the other. */
  ghost predicate Leads(cycles: seq<Cycle>, inputs: seq<Input>, first: Boundary, last: Boundary) {
    && |cycles| == |inputs| && (forall k | 0 <= k < |cycles| :: cycles[k].input == inputs[k])
    && if cycles == [] then first == last else cycles[0].from == first && cycles[|cycles| - 1].to == last
  }

  lemma LeadsOn(cycles: seq<Cycle>, inputs: seq<Input>, i: nat, first: Boundary, now: Boundary, c: Cycle)
    requires i < |inputs| && Leads(cycles, inputs[..i], first, now) && c.input == inputs[i] && c.from == now
    ensures Leads(cycles + [c], inputs[..i + 1], first, c.to)
  {
  }

  lemma DeadAt(cycles: seq<Cycle>, k: nat, maxRetries: int, interval: int)
    requires RunOk(cycles, maxRetries, interval) && k < |cycles|
    ensures cycles[k].report.sorting.dead <= cycles[k].from.gone && (k > 0 ==> cycles[k].from == cycles[k - 1].to)
    ensures cycles[k].to.gone <= Dying(cycles[k].report.sorting.due, cycles[k].input.scrapes)
  {
    RunOkAt(cycles, k, maxRetries, interval);
    forall id | id in cycles[k].report.sorting.dead
      ensures id in cycles[k].from.gone
    {
      assert id in cycles[k].gone;
    }
  }

  lemma GoneFrom(c: Cycle, d: Cycle, id: string)
    requires d.from == c.to && id in d.from.gone && c.to.gone <= Dying(c.report.sorting.due, c.input.scrapes)
    ensures id in c.report.sorting.due && c.input.scrapes(id).clientDies
  {
  }

  /** A VM dropped as dead had its client closed during its scrape in the poll before: no live connection is
      ever dropped as dead. */
  lemma DeadWasDying(cycles: seq<Cycle>, k: nat, id: string, maxRetries: int, interval: int)
    requires RunOk(cycles, maxRetries, interval) && 0 < k < |cycles| && id in cycles[k].report.sorting.dead
    ensures id in cycles[k - 1].report.sorting.due && cycles[k - 1].input.scrapes(id).clientDies
  {
    DeadAt(cycles, k - 1, maxRetries, interval);
    DeadAt(cycles, k, maxRetries, interval);
    GoneFrom(cycles[k - 1], cycles[k], id);
  }

  /** What a poll does to the schedule. */
  ghost predicate Moves(c: Cycle, interval: int) {
    && c.input.checkAt <= c.input.endAt
    && c.to.probes == c.from.probes + (if c.report.sorting.probed then [(c.input.checkAt, c.input.endAt)] else [])
    && (c.report.sorting.probed ==> Due(c.from.last, c.input.checkAt, interval) && c.to.last == Some(c.input.endAt))
    && (!c.report.sorting.probed && c.from.last.Some? ==> c.to.last == c.from.last)
    && (!c.report.sorting.probed && c.from.last.None? && c.to.last.Some? ==>
          c.input.checkAt <= c.to.last.value <= c.input.endAt)
  }

  lemma PollMoves(c: Cycle, maxRetries: int, interval: int)
    requires PollOk(c, maxRetries, interval)
    ensures Moves(c, interval)
  {
    SortedParts(c.was.Keys, c.report.sorting, Due(c.from.last, c.input.checkAt, interval),
                PassiveIn(c.was, maxRetries), c.gone);
  }

  /** What the polls of a run do to the schedule, one after another. */
  ghost predicate Scheduling(cycles: seq<Cycle>, interval: int) {
    && (forall k | 0 <= k < |cycles| :: Moves(cycles[k], interval))
    && (forall k | 0 < k < |cycles| :: cycles[k].from == cycles[k - 1].to)
  }

  lemma RunSchedules(cycles: seq<Cycle>, maxRetries: int, interval: int)
    requires RunOk(cycles, maxRetries, interval)
    ensures Scheduling(cycles, interval)
  {
    forall k | 0 <= k < |cycles|
      ensures Moves(cycles[k], interval) && (k > 0 ==> cycles[k].from == cycles[k - 1].to)
    {
      RunOkAt(cycles, k, maxRetries, interval);
      PollMoves(cycles[k], maxRetries, interval);
    }
  }

  /** Once a poll has probed, the schedule never goes back before its end, and the probe stays on record. */
  lemma {:induction false} ScheduleAfter(cycles: seq<Cycle>, i: nat, j: nat, interval: int)
    requires Scheduling(cycles, interval) && interval > 0 && i <= j < |cycles| && cycles[i].report.sorting.probed
    ensures cycles[j].to.last.Some? && cycles[j].to.last.value >= cycles[i].input.endAt
    ensures (cycles[i].input.checkAt, cycles[i].input.endAt) in cycles[j].to.probes
    decreases j - i
  {
    assert Moves(cycles[j], interval);
    if i < j {
      ScheduleAfter(cycles, i, j - 1, interval);
    }
  }

  /** No flood: of two polls that probe passive VMs the later starts at least the passive interval after the
      earlier ended. */
  lemma ProbesSpaced(cycles: seq<Cycle>, i: nat, j: nat, interval: int)
    requires Scheduling(cycles, interval) && interval > 0 && i < j < |cycles|
    requires cycles[i].report.sorting.probed && cycles[j].report.sorting.probed
    ensures cycles[i].input.endAt + interval <= cycles[j].input.checkAt
  {
    ScheduleAfter(cycles, i, j - 1, interval);
    assert Moves(cycles[j], interval);
  }

  /** The poll scraped the VM or found it dead. */
  predicate Reached(c: Cycle, id: string) {
    id in c.report.sorting.due || id in c.report.sorting.dead
  }

  /** A passive VM the poll works on and neither scrapes nor drops. */
  predicate PassedOver(c: Cycle, id: string, maxRetries: int) {
    && id in c.from.histories && id in c.was && Replay(c.from.histories[id], maxRetries).passive && c.from.last.Some?
    && id !in c.report.sorting.due && id !in c.report.sorting.dead
  }

  /** It was not due, is passive still, and the schedule has not moved. */
  predicate Waits(c: Cycle, id: string, interval: int) {
    && !Due(c.from.last, c.input.checkAt, interval) && c.to.last == c.from.last
    && id in c.from.histories && id in c.to.histories && c.to.histories[id] == c.from.histories[id]
  }

  lemma PassedOverWaits(c: Cycle, id: string, maxRetries: int, interval: int)
    requires PollOk(c, maxRetries, interval) && PassedOver(c, id, maxRetries)
    ensures Waits(c, id, interval)
  {
    assert id in PassiveIn(c.was, maxRetries);
    SortedParts(c.was.Keys, c.report.sorting, Due(c.from.last, c.input.checkAt, interval),
                PassiveIn(c.was, maxRetries), c.gone);
  }

  lemma {:induction false} WaitFrom(cycles: seq<Cycle>, i: nat, j: nat, id: string, maxRetries: int, interval: int,
                                    last: int)
    requires i < j < |cycles| && forall k | i < k <= j :: cycles[k].from == cycles[k - 1].to
    requires id in cycles[i].to.histories && Replay(cycles[i].to.histories[id], maxRetries).passive
             && cycles[i].to.last == Some(last)
    requires forall k | i < k <= j :: id in cycles[k].was
    requires forall k | i < k <= j && PassedOver(cycles[k], id, maxRetries) :: Waits(cycles[k], id, interval)
    requires cycles[j].input.checkAt >= last + interval
    ensures exists k :: i < k <= j && Reached(cycles[k], id)
    decreases j - i
  {
    var c := cycles[i + 1];
    assert c.from == cycles[i + 1 - 1].to;
    if id !in c.report.sorting.due && id !in c.report.sorting.dead {
      assert PassedOver(c, id, maxRetries);
      WaitFrom(cycles, i + 1, j, id, maxRetries, interval, last);
    }
  }

  /** The wait of a passive VM is bounded: if it stays in the map, the first poll that starts the passive
      interval or more after it was found passive scrapes it or finds it dead, unless an earlier one did. */
  lemma BoundedWait(cycles: seq<Cycle>, i: nat, j: nat, id: string, maxRetries: int, interval: int)
    requires RunOk(cycles, maxRetries, interval) && i < j < |cycles|
    requires id in cycles[i].to.histories && Replay(cycles[i].to.histories[id], maxRetries).passive
    requires forall k | i < k <= j :: id in cycles[k].was
    requires cycles[j].input.checkAt >= cycles[i].input.endAt + interval
    ensures exists k :: i < k <= j && Reached(cycles[k], id)
  {
    RunOkAt(cycles, i, maxRetries, interval);
    assert id in PassiveIn(cycles[i].to.histories, maxRetries);
    forall k | i < k <= j
      ensures cycles[k].from == cycles[k - 1].to
      ensures PassedOver(cycles[k], id, maxRetries) ==> Waits(cycles[k], id, interval)
    {
      RunOkAt(cycles, k, maxRetries, interval);
      if PassedOver(cycles[k], id, maxRetries) {
        PassedOverWaits(cycles[k], id, maxRetries, interval);
      }
    }
    WaitFrom(cycles, i, j, id, maxRetries, interval, cycles[i].to.last.value);
  }

  /** A live passive VM is probed exactly if the schedule is due at that poll. */
  lemma ProbedExactly(c: Cycle, id: string, maxRetries: int, interval: int)
    requires PollOk(c, maxRetries, interval)
    requires id in c.was && id !in c.gone && Replay(c.was[id], maxRetries).passive
    ensures id in c.report.sorting.due <==> Due(c.from.last, c.input.checkAt, interval)
  {
    assert id in PassiveIn(c.was, maxRetries);
  }

  /** A VM found passive by poll c is probed by the next, at `at`, as the schedule it found there says. */
  ghost predicate FollowsSchedule(c: Cycle, due: bool, at: int, interval: int) {
    && (c.report.sorting.probed ==> (due <==> at >= c.input.endAt + interval))
    && (!c.report.sorting.probed && c.from.last.Some? ==> (due <==> at >= c.from.last.value + interval))
    && (!c.report.sorting.probed && c.from.last.None? && due ==> at >= c.input.checkAt + interval)
    && (!c.report.sorting.probed && c.from.last.None? && !due ==> at < c.input.endAt + interval)
  }

  lemma ScheduleFollowed(c: Cycle, due: bool, at: int, interval: int)
    requires Moves(c, interval) && c.to.last.Some? && (due <==> Due(c.to.last, at, interval))
    ensures FollowsSchedule(c, due, at, interval)
  {
  }

  /** The first probe of a VM that has just turned passive. It follows the schedule it found, which is not
      reset: with a schedule set long ago the very next poll probes it, and only with none set before does it
      wait for the interval. */
  lemma FirstProbe(c: Cycle, d: Cycle, id: string, maxRetries: int, interval: int)
    requires PollOk(c, maxRetries, interval) && PollOk(d, maxRetries, interval) && d.from == c.to
    requires id in c.to.histories && Replay(c.to.histories[id], maxRetries).passive && id in d.was && id !in d.gone
    ensures FollowsSchedule(c, id in d.report.sorting.due, d.input.checkAt, interval)
  {
    assert id in PassiveIn(c.to.histories, maxRetries);
    ProbedExactly(d, id, maxRetries, interval);
    PollMoves(c, maxRetries, interval);
    ScheduleFollowed(c, id in d.report.sorting.due, d.input.checkAt, interval);
  }

  // One poll, VM by VM

  /** The disks published for a VM, none being the same as no result. */
  function ResultFor(results: Results, id: string): (disks: map<string, DiskMetrics>) {
    if id in results then results[id] else map[]
  }

  lemma ResultOfPlan(report: Report, results: Results, plans: Plans, id: string)
    requires report.AddsUp() && report.Publishes(results, plans)
    ensures id !in report.sorting.due ==> id !in results
    ensures id in report.sorting.due ==>
              ResultFor(results, id) == if plans[id].disks.Some? then plans[id].disks.value else map[]
  {
  }

  /** A poll works on a container exactly if it already has a connection and is still a target, or is a target that
      can be dialled; a new connection starts afresh. */
  lemma WorksOn(c: Cycle, id: string, maxRetries: int, interval: int)
    requires PollOk(c, maxRetries, interval)
    ensures id in c.was <==>
              exists t :: t in c.input.targets && t.containerID == id && (t.dials || id in c.from.histories)
    ensures id in c.was ==> c.was[id] == if id in c.from.histories then c.from.histories[id] else []
  {
  }

  /** What a connection with the fields p and this scrape has left: None if it is no longer in the map. */
  ghost predicate LeftWith(p: Progress, s: Scrape, p': Option<Progress>, maxRetries: int) {
    match s
    case Answers(counters, _, _) => p' == Some(Progress(0, false, Some(SnapshotOf(counters))))
    case Fails(CommandBlacklisted, _) => p' == Some(Progress(p.retryCount, true, None))
    case Fails(OtherError, false) =>
      && p'.Some? && p'.value.retryCount == p.retryCount + 1
      && (p'.value.passive <==> p.passive || p.retryCount + 1 >= maxRetries)
      && p'.value.prevSnapshot == if p'.value.passive then None else p.prevSnapshot
    case Fails(_, _) => p' == None
  }

  /** The fields of a connection in the map. */
  ghost function FieldsOf(h: Histories, id: string, maxRetries: int): (p: Option<Progress>) {
    if id in h then Some(Replay(h[id], maxRetries)) else None
  }

  lemma EventLeaves(s: Scrape, h: seq<Event>, maxRetries: int)
    ensures LeftWith(Replay(h, maxRetries), s,
                     if EventOf(s).Some? then Some(Replay(h + [EventOf(s).value], maxRetries)) else None, maxRetries)
  {
    if EventOf(s).Some? {
      ReplayAfter(h, EventOf(s).value, maxRetries);
      ReplayMeaning(h, maxRetries);
    }
  }

  lemma PollSorts(c: Cycle, id: string, maxRetries: int, interval: int)
    requires PollOk(c, maxRetries, interval) && id in c.was
    ensures var probing := c.from.last.Some? && c.from.last.value + interval <= c.input.checkAt;
            && (id in c.report.sorting.dead <==> id in c.from.gone)
            && (id in c.report.sorting.due <==>
                  id !in c.from.gone && (Replay(c.was[id], maxRetries).passive ==> probing))
            && (id in c.report.failed <==> id in c.report.sorting.due && c.input.scrapes(id).Fails?)
  {
    assert id in PassiveIn(c.was, maxRetries) <==> Replay(c.was[id], maxRetries).passive;
  }

  /** What a poll does with each VM it works on. One whose client is closed is dropped. A passive one is left alone
      unless a probe was due. Every other is scraped, and what becomes of its fields is up to that scrape alone. */
  lemma PollLeaves(c: Cycle, id: string, maxRetries: int, interval: int)
    requires PollOk(c, maxRetries, interval) && id in c.was
    ensures var p, p' := Replay(c.was[id], maxRetries), FieldsOf(c.to.histories, id, maxRetries);
            var probing := c.from.last.Some? && c.from.last.value + interval <= c.input.checkAt;
            && (id in c.report.sorting.dead <==> id in c.from.gone)
            && (id in c.report.sorting.due <==> id !in c.from.gone && (p.passive ==> probing))
            && (id in c.report.failed <==> id in c.report.sorting.due && c.input.scrapes(id).Fails?)
            && if id in c.from.gone then p' == None && id !in c.to.results
               else if p.passive && !probing then p' == Some(p) && id !in c.to.results
               else LeftWith(p, c.input.scrapes(id), p', maxRetries)
  {
    PollSorts(c, id, maxRetries, interval);
    ResultOfPlan(c.report, c.to.results, c.plans, id);
    if id in c.report.sorting.due {
      EventLeaves(c.input.scrapes(id), c.was[id], maxRetries);
    }
  }

  lemma DisksOfPlan(s: Scrape, h: seq<Event>, disk: string, maxRetries: int)
    requires s.Answers?
    ensures var prev, curr := Replay(h, maxRetries).prevSnapshot, SnapshotOf(s.counters);
            && (disk in NewDisks(h, s, maxRetries) <==>
                  prev.Some? && disk in prev.value && disk in curr && Later(prev.value[disk], curr[disk]))
            && (disk in NewDisks(h, s, maxRetries) ==>
                  NewDisks(h, s, maxRetries)[disk] == ComputeMetrics(prev.value[disk], curr[disk]))
  {
    var prev, curr := Replay(h, maxRetries).prevSnapshot, SnapshotOf(s.counters);
    assert (h + [Success(curr)])[..|h|] == h;
    if prev.Some? && disk in prev.value && disk in curr {
      OpsServed(prev.value[disk], curr[disk], Read);
    }
  }

  /** What a poll shows of a disk: the difference between its last counters, kept from the last scrape that
      succeeded, and those of this scrape, if the guest's clock has moved on in between; otherwise nothing. */
  lemma PollShows(c: Cycle, id: string, disk: string, maxRetries: int, interval: int)
    requires PollOk(c, maxRetries, interval)
    ensures var s, prev := c.input.scrapes(id),
                           if id in c.was then Replay(c.was[id], maxRetries).prevSnapshot else None;
            if !(id in c.report.sorting.due && s.Answers? && prev.Some? && disk in prev.value
                 && disk in SnapshotOf(s.counters)
                 && prev.value[disk].timestamp100ns < SnapshotOf(s.counters)[disk].timestamp100ns)
            then disk !in ResultFor(c.to.results, id)
            else && disk in ResultFor(c.to.results, id)
                 && c.to.results[id][disk] == ComputeMetrics(prev.value[disk], SnapshotOf(s.counters)[disk])
  {
    ResultOfPlan(c.report, c.to.results, c.plans, id);
    if id in c.report.sorting.due && c.input.scrapes(id).Answers? {
      DisksOfPlan(c.input.scrapes(id), c.was[id], disk, maxRetries);
    }
  }

  // What a run publishes

  /** The operations a poll's results account for, on one disk of one VM. */
  function ShownOps(results: Results, id: string, disk: string, d: Direction): (n: real) {
    if id in results && disk in results[id] then Served(results[id][disk], d) else 0.0
  }

  /** What a poll did with a VM that stays in the map: nothing, or one more event, publishing what that event
      publishes. */
  ghost predicate Stayed(c: Cycle, id: string, maxRetries: int)
    requires id in c.was && id in c.to.histories
  {
    var h, h' := c.was[id], c.to.histories[id];
    if h' == h then id !in c.to.results
    else
      && |h'| == |h| + 1 && h <= h'
      && ResultFor(c.to.results, id) == Published(h', |h|, maxRetries)
  }

  lemma PlanPublishes(s: Scrape, h: seq<Event>, maxRetries: int)
    requires EventOf(s).Some?
    ensures var p, h' := PlanOf(s, h, maxRetries), h + [EventOf(s).value];
            Published(h', |h|, maxRetries) == if p.disks.Some? then p.disks.value else map[]
  {
    var h' := h + [EventOf(s).value];
    assert h'[..|h|] == h && h'[|h|] == EventOf(s).value;
  }

  lemma ExpectedAt(was: Histories, done: set<string>, plans: Plans, id: string)
    requires done <= plans.Keys && id in Expected(was, done, plans)
    ensures id in was && (id in done ==> plans[id].event.Some?)
    ensures Expected(was, done, plans)[id] == was[id] + if id in done then [plans[id].event.value] else []
  {
  }

  lemma StayedDue(c: Cycle, id: string, maxRetries: int)
    requires id in c.was && id in c.to.histories && EventOf(c.input.scrapes(id)).Some?
    requires c.to.histories[id] == c.was[id] + [EventOf(c.input.scrapes(id)).value]
    requires var p := PlanOf(c.input.scrapes(id), c.was[id], maxRetries);
             ResultFor(c.to.results, id) == if p.disks.Some? then p.disks.value else map[]
    ensures Stayed(c, id, maxRetries)
  {
    PlanPublishes(c.input.scrapes(id), c.was[id], maxRetries);
  }

  lemma PollStayed(c: Cycle, id: string, maxRetries: int, interval: int)
    requires PollOk(c, maxRetries, interval) && id in c.to.histories
    ensures id in c.was && Stayed(c, id, maxRetries)
  {
    var due := c.report.sorting.due;
    ResultOfPlan(c.report, c.to.results, c.plans, id);
    ExpectedAt(c.was - c.report.sorting.dead, due, c.plans, id);
    if id in due {
      StayedDue(c, id, maxRetries);
    }
  }

  lemma StayedShows(c: Cycle, id: string, disk: string, d: Direction, maxRetries: int)
    requires id in c.was && id in c.to.histories && Stayed(c, id, maxRetries)
    ensures PublishedOps(c.to.histories[id], maxRetries, disk, d)
         == PublishedOps(c.was[id], maxRetries, disk, d) + ShownOps(c.to.results, id, disk, d)
  {
    var h, h' := c.was[id], c.to.histories[id];
    if h' != h {
      assert h'[..|h|] == h;
    }
  }

  /** The operations shown by polls i to j - 1. */
  function RunShows(cycles: seq<Cycle>, i: nat, j: nat, id: string, disk: string, d: Direction): (n: real)
    requires i <= j <= |cycles|
  {
    if i == j then 0.0 else RunShows(cycles, i, j - 1, id, disk, d) + ShownOps(cycles[j - 1].to.results, id, disk, d)
  }

  /** A connection in the map after each of these polls is one and the same, and its history goes on. */
  ghost predicate StaysOver(cycles: seq<Cycle>, i: nat, j: nat, id: string, maxRetries: int)
    requires i < j <= |cycles|
  {
    && (forall k | i <= k < j ::
          id in cycles[k].was && id in cycles[k].to.histories && Stayed(cycles[k], id, maxRetries))
    && (forall k | i < k < j :: cycles[k].was[id] == cycles[k - 1].to.histories[id])
  }

  lemma RunStays(cycles: seq<Cycle>, i: nat, j: nat, id: string, maxRetries: int, interval: int)
    requires RunOk(cycles, maxRetries, interval) && i < j <= |cycles|
    requires forall k | i <= k < j :: id in cycles[k].to.histories
    ensures StaysOver(cycles, i, j, id, maxRetries)
  {
    forall k | i <= k < j
      ensures id in cycles[k].was && Stayed(cycles[k], id, maxRetries)
      ensures i < k ==> cycles[k].was[id] == cycles[k - 1].to.histories[id]
    {
      RunOkAt(cycles, k, maxRetries, interval);
      PollStayed(cycles[k], id, maxRetries, interval);
    }
  }

  lemma {:induction false} ShownOver(cycles: seq<Cycle>, i: nat, j: nat, id: string, disk: string, d: Direction,
                                     maxRetries: int)
    requires i < j <= |cycles| && StaysOver(cycles, i, j, id, maxRetries)
    ensures RunShows(cycles, i, j, id, disk, d)
         == PublishedOps(cycles[j - 1].to.histories[id], maxRetries, disk, d)
            - PublishedOps(cycles[i].was[id], maxRetries, disk, d)
  {
    StayedShows(cycles[j - 1], id, disk, d, maxRetries);
    if i < j - 1 {
      ShownOver(cycles, i, j - 1, id, disk, d, maxRetries);
    }
  }

  /** Over every run: what the polls show about a disk, from the first poll of a connection on, and what they miss
      add up to the growth of the guest's counter, plus 2^64 for each wrap. */
  lemma RunAccounts(cycles: seq<Cycle>, i: nat, j: nat, id: string, disk: string, d: Direction, maxRetries: int,
                    interval: int)
    requires RunOk(cycles, maxRetries, interval) && i < j <= |cycles|
    requires forall k | i <= k < j :: id in cycles[k].to.histories
    ensures id in cycles[i].was
    ensures cycles[i].was[id] == [] ==>
              var h := cycles[j - 1].to.histories[id];
              RunShows(cycles, i, j, id, disk, d) + Missed(h, maxRetries, disk, d) as real
              == (Growth(h, disk, d) + TWO_64 * Wraps(h, maxRetries, disk, d)) as real
  {
    RunStays(cycles, i, j, id, maxRetries, interval);
    ShownOver(cycles, i, j, id, disk, d, maxRetries);
    PublishedOpsTelescope(cycles[j - 1].to.histories[id], maxRetries, disk, d);
  }

  /** Any two polls in the list: the later one starts at least `interval` after the earlier one ended. */
  ghost predicate Spaced(probes: seq<(int, int)>, interval: int) {
    && (forall i | 0 <= i < |probes| :: probes[i].0 <= probes[i].1)
    && (forall i, j | 0 <= i < j < |probes| :: probes[i].1 + interval <= probes[j].0)
  }

  lemma SpacedAdd(probes: seq<(int, int)>, interval: int, p: (int, int))
    requires Spaced(probes, interval) && interval > 0 && p.0 <= p.1
    requires probes != [] ==> probes[|probes| - 1].1 + interval <= p.0
    ensures Spaced(probes + [p], interval)
  {
    forall i | 0 <= i < |probes|
      ensures probes[i].1 + interval <= p.0
    {
      if i < |probes| - 1 {
        assert probes[i].1 + interval <= probes[|probes| - 1].0;
      }
    }
  }

  /** The histories of these VMs only. */
  ghost function Restrict(h: Histories, ids: set<string>): (r: Histories) {
    map id | id in h && id in ids :: h[id]
  }

  /** The histories with an empty one for each of these VMs that is new. */
  ghost function Extend(h: Histories, ids: set<string>): (r: Histories) {
    map id | id in h.Keys + ids :: if id in h then h[id] else []
  }

  lemma RestrictStep(h: Histories, gone: set<string>, active: set<string>, todo: set<string>, id: string)
    requires id in todo
    ensures id !in active ==> Restrict(h, active + todo) - {id} == Restrict(h, active + (todo - {id}))
    ensures id !in active ==> gone * (active + todo) - {id} == gone * (active + (todo - {id}))
    ensures id in active ==> active + todo == active + (todo - {id})
  {
  }

  lemma RestrictAll(h: Histories, gone: set<string>, active: set<string>, all: set<string>)
    requires h.Keys <= all && gone <= all
    ensures Restrict(h, active + all) == h && gone * (active + all) == gone
  {
  }

  lemma WorkedOn(before: Histories, targets: seq<Target>)
    ensures Extend(Restrict(before, ActiveIds(targets)), Dialling(targets)) == Worked(before, targets)
  {
  }

  lemma ExtendOne(h: Histories, id: string)
    ensures Extend(h, {id}) == if id in h then h else h[id := []]
  {
  }

  lemma ExtendNone(h: Histories)
    ensures Extend(h, {}) == h
  {
  }

  lemma ExtendStep(h: Histories, ids: set<string>, t: Target)
    ensures Extend(Extend(h, ids), if t.containerID !in h.Keys && t.dials then {t.containerID} else {})
         == Extend(h, ids + if t.dials then {t.containerID} else {})
  {
  }

  lemma DialStep(h: Histories, targets: seq<Target>, i: nat)
    requires i < |targets|
    ensures var t := targets[i];
            Extend(Extend(h, Dialling(targets[..i])),
                   if t.containerID !in h.Keys && t.dials then {t.containerID} else {})
            == Extend(h, Dialling(targets[..i + 1]))
  {
    DiallingStep(targets, i);
    ExtendStep(h, Dialling(targets[..i]), targets[i]);
  }

  // The connections

  class VmState {
    const id: string            // container the connection was dialled for
    var clientClosed: bool      // client.Closed()
    var closed: bool
    var prevSnapshot: Option<Snapshot>
    var diskMap: Option<DiskMap>
    var retryCount: nat
    var passive: bool
    ghost var history: seq<Event>

    /** The fields are what the connection's history says they should be. */
    ghost predicate Fit(maxRetries: int)
      reads this`prevSnapshot, this`diskMap, this`retryCount, this`passive, this`history
    {
      && Progress(retryCount, passive, prevSnapshot) == Replay(history, maxRetries)
      && (passive ==> prevSnapshot.None? && diskMap.None?)
    }

    constructor (id: string, ghost maxRetries: int)
      ensures this.id == id && !closed && !clientClosed && !passive && history == [] && Fit(maxRetries)
    {
      this.id := id;
      clientClosed, closed, passive := false, false, false;
      prevSnapshot, diskMap, retryCount := None, None, 0;
      history := [];
    }

    predicate Dead()
      reads this`closed, this`clientClosed
    {
      closed || clientClosed
    }

    method Close()
      requires closed ==> clientClosed
      modifies this`closed, this`clientClosed
      ensures closed && clientClosed
    {
      if !closed {
        closed := true;
        clientClosed := true;
      }
    }
  }

  datatype ScrapeOutcome = ScrapeFailed(err: ScrapeError) | ScrapeOk(disks: map<string, DiskMetrics>)

  /** What scrapeVM returns for a live connection with history h. */
  function ResultOf(s: Scrape, h: seq<Event>, maxRetries: int): (out: ScrapeOutcome) {
    if s.Fails? then ScrapeFailed(s.err) else ScrapeOk(NewDisks(h, s, maxRetries))
  }

  /** The end of a successful scrapeVM: diff against the last snapshot, then replace it. */
  method TakeSnapshot(vs: VmState, curr: Snapshot, ghost maxRetries: int) returns (disks: map<string, DiskMetrics>)
    requires vs.Fit(maxRetries)
    modifies vs`prevSnapshot, vs`retryCount, vs`passive, vs`history
    ensures vs.Fit(maxRetries) && !vs.passive && vs.history == old(vs.history) + [Success(curr)]
    ensures vs.retryCount == 0 && vs.prevSnapshot == Some(curr)
    ensures disks == Published(vs.history, |old(vs.history)|, maxRetries)
  {
    disks := map[];
    if vs.prevSnapshot.Some? {
      disks := DiffSnapshots(vs.prevSnapshot.value, curr);
    }
    ghost var before := vs.history;
    vs.prevSnapshot, vs.retryCount, vs.passive := Some(curr), 0, false;
    vs.history := before + [Success(curr)];
    assert vs.history[..|before|] == before;
  }

  /** scrapeVM; an empty disk map stands for its nil result. */
  method ScrapeVM(vs: VmState, s: Scrape, ghost maxRetries: int) returns (out: ScrapeOutcome)
    requires vs.Fit(maxRetries)
    modifies vs`clientClosed, vs`prevSnapshot, vs`diskMap, vs`retryCount, vs`passive, vs`history
    ensures vs.Fit(maxRetries)
    ensures old(vs.Dead()) ==> unchanged(vs) && out == ScrapeFailed(QgaClient.ClientClosed)
    ensures !old(vs.Dead()) && s.Fails? ==>
              && out == ScrapeFailed(s.err) && vs.clientClosed == s.clientDies
              && unchanged(vs`prevSnapshot, vs`diskMap, vs`retryCount, vs`passive, vs`history)
    ensures !old(vs.Dead()) && s.Answers? ==>
              && !vs.passive && vs.retryCount == 0 && vs.prevSnapshot == Some(SnapshotOf(s.counters))
              && vs.history == old(vs.history) + [Success(SnapshotOf(s.counters))]
              && vs.clientClosed == (old(vs.diskMap).None? && s.clientDies)
              && vs.diskMap == (if old(vs.diskMap).Some? then old(vs.diskMap) else s.diskMap)
              && out == ScrapeOk(NewDisks(old(vs.history), s, maxRetries))
  {
    if vs.closed || vs.clientClosed {
      return ScrapeFailed(QgaClient.ClientClosed);
    }
    var needDiskMap := vs.diskMap.None?;
    if s.Fails? {
      vs.clientClosed := s.clientDies;
      return ScrapeFailed(s.err);
    }
    var curr := BuildSnapshot(s.counters);
    var disks := TakeSnapshot(vs, curr, maxRetries);
    if needDiskMap {
      vs.diskMap := s.diskMap;
      vs.clientClosed := s.clientDies;
    }
    return ScrapeOk(disks);
  }

  class Collector {
    const maxRetries: int
    const pollInterval: int
    var vms: map<string, VmState>
    var lastPassiveAt: Option<int>
    var scrapeErrors: nat
    var results: Results   // published disks by container, at most one entry per VM
    ghost var dialled: set<VmState>          // every connection ever opened
    ghost var probes: seq<(int, int)>        // start and end of every poll that probed passive VMs
    ghost var clock: int                     // latest clock reading

    /** No leaks: a connection is in the map under its own container, or closed. */
    ghost predicate NoLeaks()
      reads this`vms, this`dialled, dialled`closed, dialled`clientClosed
    {
      && (forall id | id in vms :: vms[id] in dialled && vms[id].id == id && !vms[id].closed)
      && (forall d | d in dialled && d.closed :: d.clientClosed)
      && (forall d | d in dialled && !d.closed :: d.id in vms && vms[d.id] == d)
    }

    /** Every connection's fields are what its history says. */
    ghost predicate AllFit()
      reads this`dialled, dialled`prevSnapshot, dialled`diskMap, dialled`retryCount, dialled`passive, dialled`history
    {
      forall d | d in dialled :: d.Fit(maxRetries)
    }

    ghost predicate Tracked()
      reads this`vms, this`dialled, dialled
    {
      NoLeaks() && AllFit()
    }

    /** Whenever something in the map is passive, the schedule has been set. */
    ghost predicate PassiveKnown()
      reads this`vms, this`lastPassiveAt, this`dialled, dialled`closed, dialled`clientClosed, dialled`passive
      requires NoLeaks()
    {
      forall id | id in vms && vms[id].passive :: lastPassiveAt.Some?
    }

    /** The passive schedule: set once anything is passive, and moved only by probing polls, each of
        which started at least the passive interval after the one before it ended. */
    ghost predicate Scheduled()
      reads this`lastPassiveAt, this`clock, this`probes
    {
      && (lastPassiveAt.Some? ==> lastPassiveAt.value <= clock)
      && (probes != [] ==> lastPassiveAt == Some(probes[|probes| - 1].1))
      && Spaced(probes, PassiveInterval(pollInterval))
    }

    ghost predicate Valid()
      reads this, dialled
    {
      Tracked() && PassiveKnown() && Scheduled()
    }

    constructor (maxRetries: int, pollInterval: int)
      ensures Valid() && vms == map[] && dialled == {} && probes == [] && lastPassiveAt == None
      ensures this.maxRetries == maxRetries && this.pollInterval == pollInterval
    {
      this.maxRetries, this.pollInterval := maxRetries, pollInterval;
      vms, lastPassiveAt, scrapeErrors, results := map[], None, 0, map[];
      dialled, probes, clock := {}, [], 0;
    }

    /** The history of every connection in the map. */
    ghost function Current(): (h: Histories)
      reads this`vms, this`dialled, dialled`closed, dialled`clientClosed, dialled`history
      requires NoLeaks()
      ensures h.Keys == vms.Keys
    {
      map id | id in vms :: vms[id].history
    }

    /** The connections in the map that are dead. */
    ghost function Gone(): (ids: set<string>)
      reads this`vms, this`dialled, dialled`closed, dialled`clientClosed
      requires NoLeaks()
      ensures ids <= vms.Keys
    {
      set id | id in vms && vms[id].Dead()
    }

    /** Pointwise, and so as maps and sets. */
    lemma CurrentIs(h: Histories, dead: set<string>)
      requires NoLeaks() && h.Keys == vms.Keys
      requires forall id | id in vms :: vms[id].history == h[id]
      requires forall id | id in vms :: id in dead <==> vms[id].Dead()
      requires dead <= vms.Keys
      ensures Current() == h && Gone() == dead
    {
    }

    lemma HistoriesAre(h: Histories)
      requires NoLeaks() && h.Keys == vms.Keys
      requires forall id | id in vms :: vms[id].history == h[id]
      ensures Current() == h
    {
    }

    lemma GoneWithin(bound: set<string>)
      requires NoLeaks() && forall id | id in vms && vms[id].Dead() :: id in bound
      ensures Gone() <= bound
    {
    }

    method DropVM(id: string, vs: VmState)
      requires Tracked() && vs in dialled && vs.id == id
      modifies this`vms, vs`closed, vs`clientClosed
      ensures Tracked() && vs.closed
      ensures vms == if id in old(vms) && old(vms[id]) == vs then old(vms) - {id} else old(vms)
    {
      vs.Close();
      if id in vms && vms[id] == vs {
        vms := vms - {id};
      }
    }

    /** dropVM of a connection that is in the map. */
    method DropMapped(id: string, vs: VmState)
      requires Tracked() && id in vms && vms[id] == vs
      modifies this`vms, vs`closed, vs`clientClosed
      ensures Tracked() && vs.closed && vms == old(vms) - {id}
      ensures Current() == old(Current()) - {id} && Gone() == old(Gone()) - {id}
    {
      DropVM(id, vs);
    }

    method RemoveDeparted(active: set<string>)
      requires Tracked()
      modifies this`vms, dialled`closed, dialled`clientClosed
      ensures Tracked() && vms.Keys == old(vms.Keys) * active
      ensures forall id | id in vms :: vms[id] == old(vms[id])
      ensures Current() == Restrict(old(Current()), active) && Gone() == old(Gone()) * active
    {
      var todo := vms.Keys;
      ghost var h, gone, was := Current(), Gone(), vms;
      RestrictAll(h, gone, active, todo);
      while todo != {}
        invariant Tracked() && todo <= vms.Keys
        invariant forall id | id in vms :: id in was && vms[id] == was[id]
        invariant Current() == Restrict(h, active + todo) && Gone() == gone * (active + todo)
        decreases todo
      {
        var id :| id in todo;
        RestrictStep(h, gone, active, todo, id);
        if id !in active {
          DropMapped(id, vms[id]);
        }
        todo := todo - {id};
      }
      assert active + todo == active;
    }

    /** Put a new connection in the map, or close it if its container already has one. */
    method Adopt(vs: VmState)
      requires Tracked() && PassiveKnown()
      requires vs !in dialled && vs.Fit(maxRetries) && !vs.closed && !vs.clientClosed && !vs.passive
      modifies this`vms, this`dialled, vs`closed, vs`clientClosed
      ensures Tracked() && PassiveKnown() && dialled == old(dialled) + {vs}
      ensures vms == if vs.id in old(vms) then old(vms) else old(vms)[vs.id := vs]
      ensures vs.id !in old(vms) ==> !vs.clientClosed
    {
      dialled := dialled + {vs};
      if vs.id !in vms {
        vms := vms[vs.id := vs];
      } else {
        vs.Close();
      }
    }

    method DialOne(t: Target, existing: set<string>)
      requires Tracked() && PassiveKnown()
      modifies this`vms, this`dialled
      ensures Tracked() && PassiveKnown() && old(dialled) <= dialled && fresh(dialled - old(dialled))
      ensures forall id | id in old(vms) :: id in vms && vms[id] == old(vms[id])
      ensures Current() == Extend(old(Current()), if t.containerID !in existing && t.dials then {t.containerID} else {})
      ensures Gone() == old(Gone())
    {
      if t.containerID in existing || !t.dials {
        ExtendNone(Current());
        return;
      }
      ghost var h, gone := Current(), Gone();
      var vs := new VmState(t.containerID, maxRetries);
      Adopt(vs);
      ExtendOne(h, t.containerID);
      CurrentIs(if t.containerID in h then h else h[t.containerID := []], gone);
    }

    method DialNew(targets: seq<Target>)
      requires Tracked() && PassiveKnown()
      modifies this`vms, this`dialled
      ensures Tracked() && PassiveKnown() && old(dialled) <= dialled && fresh(dialled - old(dialled))
      ensures forall id | id in old(vms) :: id in vms && vms[id] == old(vms[id])
      ensures Current() == Extend(old(Current()), Dialling(targets)) && Gone() == old(Gone())
    {
      var existing := vms.Keys;
      ghost var h, gone, was := Current(), Gone(), vms;
      ExtendNone(h);
      for i := 0 to |targets|
        invariant Tracked() && PassiveKnown() && old(dialled) <= dialled && fresh(dialled - old(dialled))
        invariant forall id | id in was :: id in vms && vms[id] == was[id]
        invariant Current() == Extend(h, Dialling(targets[..i])) && Gone() == gone
      {
        DialStep(h, targets, i);
        DialOne(targets[i], existing);
      }
      assert targets[..|targets|] == targets;
    }

    /** Reconcile the map with the running targets: a connection survives exactly if its container is
        still active; anything new starts fresh. */
    method Reconcile(targets: seq<Target>)
      requires Tracked() && PassiveKnown()
      modifies this`vms, this`dialled, dialled`closed, dialled`clientClosed
      ensures Tracked() && PassiveKnown() && old(dialled) <= dialled && fresh(dialled - old(dialled))
      ensures forall id | id in old(vms) && id in vms :: vms[id] == old(vms[id])
      ensures Current() == Worked(old(Current()), targets) && Gone() == old(Gone()) * ActiveIds(targets)
    {
      WorkedOn(Current(), targets);
      RemoveDeparted(ActiveIds(targets));
      DialNew(targets);
    }

    /** The poll's look at one VM: drop it if it is dead, pass over it, or have it scraped. */
    method Examine(id: string, vs: VmState, passiveDue: bool) returns (v: Verdict)
      requires Tracked() && PassiveKnown() && id in vms && vms[id] == vs
      modifies this`vms, vs`closed, vs`clientClosed
      ensures Tracked() && PassiveKnown() && vms == (if v.IsDead? then old(vms) - {id} else old(vms))
      ensures v == VerdictOf(id in old(Gone()), Replay(old(Current())[id], maxRetries).passive, passiveDue)
      ensures Current() == (if v.IsDead? then old(Current()) - {id} else old(Current()))
      ensures Gone() == old(Gone()) - {id}
    {
      assert vs.Fit(maxRetries);
      if vs.closed || vs.clientClosed {
        DropMapped(id, vs);
        return IsDead;
      }
      return if vs.passive && !passiveDue then IsSkipped else IsDue(vs.passive);
    }

    /** The first half of the poll's last loop: sort the snapshot into dead, passive and due. */
    method Dispatch(passiveDue: bool) returns (s: Sorting)
      requires Tracked() && PassiveKnown()
      modifies this`vms, dialled`closed, dialled`clientClosed
      ensures Tracked() && PassiveKnown() && Current() == old(Current()) - s.dead && Gone() == {}
      ensures Sorted(old(vms.Keys), s, passiveDue, PassiveIn(old(Current()), maxRetries), old(Gone()))
    {
      s := Sorting({}, {}, {}, false);
      ghost var was, gone := Current(), Gone();
      var snapshot := vms;
      var todo := snapshot.Keys;
      NothingSorted(was, gone, s, passiveDue, PassiveIn(was, maxRetries));
      while todo != {}
        invariant Tracked() && PassiveKnown() && todo <= was.Keys && s.dead <= was.Keys - todo
        invariant forall id | id in todo :: id in vms && id in snapshot && vms[id] == snapshot[id]
        invariant Current() == was - s.dead && Gone() == gone - (was.Keys - todo)
        invariant Sorted(was.Keys - todo, s, passiveDue, PassiveIn(was, maxRetries), gone)
        decreases todo
      {
        var id :| id in todo;
        OneLess(was.Keys, todo, id);
        var v := Examine(id, snapshot[id], passiveDue);
        SortedNext(was, s, passiveDue, gone, was.Keys - todo, id, v, maxRetries);
        s := Sort(s, id, v);
        todo := todo - {id};
      }
      assert was.Keys - todo == was.Keys;
    }

    method MarkPassive(vs: VmState, now: int)
      modifies vs`passive, vs`prevSnapshot, vs`diskMap, this`lastPassiveAt
      ensures vs.passive && vs.prevSnapshot == None && vs.diskMap == None
      ensures lastPassiveAt == if !old(vs.passive) && old(lastPassiveAt).None? then Some(now) else old(lastPassiveAt)
    {
      var already := vs.passive;
      vs.passive, vs.prevSnapshot, vs.diskMap := true, None, None;
      if already {
        return;
      }
      if lastPassiveAt.None? {
        lastPassiveAt := Some(now);
      }
    }

    /** A blacklist error or a soft failure: the connection stays, its history grows. */
    method NoteFailure(vs: VmState, blacklisted: bool, now: int)
      requires vs.Fit(maxRetries) && (vs.passive ==> lastPassiveAt.Some?)
      modifies vs`passive, vs`prevSnapshot, vs`diskMap, vs`retryCount, vs`history, this`lastPassiveAt
      ensures vs.Fit(maxRetries) && (vs.passive ==> lastPassiveAt.Some?)
      ensures vs.history == old(vs.history) + [if blacklisted then Blacklisted else SoftFailure]
      ensures vs.retryCount == old(vs.retryCount) + if blacklisted then 0 else 1
      ensures vs.passive <==> old(vs.passive) || blacklisted || vs.retryCount >= maxRetries
      ensures vs.passive ==> vs.prevSnapshot == None && vs.diskMap == None
      ensures !vs.passive ==> vs.prevSnapshot == old(vs.prevSnapshot) && vs.diskMap == old(vs.diskMap)
      ensures lastPassiveAt
           == if vs.passive && !old(vs.passive) && old(lastPassiveAt).None? then Some(now) else old(lastPassiveAt)
    {
      ghost var h, e := vs.history, if blacklisted then Blacklisted else SoftFailure;
      ReplayAfter(h, e, maxRetries);
      vs.history := h + [e];
      if !blacklisted {
        vs.retryCount := vs.retryCount + 1;
        if vs.retryCount < maxRetries {
          return;
        }
      }
      MarkPassive(vs, now);
    }

    /** A failure of a mapped connection that leaves it in the map. */
    method KeepFailed(id: string, vs: VmState, blacklisted: bool, now: int)
      requires Tracked() && PassiveKnown() && id in vms && vms[id] == vs
      modifies this`lastPassiveAt, vs`passive, vs`prevSnapshot, vs`diskMap, vs`retryCount, vs`history
      ensures Tracked() && PassiveKnown()
      ensures vs.retryCount == old(vs.retryCount) + if blacklisted then 0 else 1
      ensures vs.passive <==> old(vs.passive) || blacklisted || vs.retryCount >= maxRetries
      ensures lastPassiveAt
           == if vs.passive && !old(vs.passive) && old(lastPassiveAt).None? then Some(now) else old(lastPassiveAt)
      ensures Current() == Applied(old(Current()), id, Some(if blacklisted then Blacklisted else SoftFailure))
      ensures Gone() == old(Gone())
    {
      ghost var h, gone := Current(), Gone();
      NoteFailure(vs, blacklisted, now);
      CurrentIs(h[id := vs.history], gone);
    }

    /** What an error does to a connection that was live when the scrape began: a blacklist error makes it passive
        at once, a dead client takes it out of the map, anything else counts as a retry. The schedule is set, if it
        was not, when the VM turns passive. */
    method HandleScrapeError(id: string, vs: VmState, err: ScrapeError, now: int)
      requires Tracked() && PassiveKnown() && id in vms && vms[id] == vs
      modifies this`vms, this`lastPassiveAt, vs
      ensures Tracked() && PassiveKnown()
      ensures err == QgaClient.CommandBlacklisted ==>
                vms == old(vms) && vs.passive && vs.retryCount == old(vs.retryCount)
      ensures err in {QgaClient.ClientClosed, QgaClient.DeadlineExceeded, QgaClient.ContextCanceled}
              || (err == QgaClient.OtherError && old(vs.clientClosed)) ==>
                vms == old(vms) - {id} && vs.closed && vs.clientClosed && lastPassiveAt == old(lastPassiveAt)
      ensures err == QgaClient.OtherError && !old(vs.clientClosed) ==>
                && vms == old(vms) && vs.retryCount == old(vs.retryCount) + 1
                && (vs.passive <==> old(vs.passive) || vs.retryCount >= maxRetries)
      ensures id in vms && !(vs.passive && !old(vs.passive)) ==> lastPassiveAt == old(lastPassiveAt)
      ensures id in vms && vs.passive && !old(vs.passive) ==>
                lastPassiveAt == if old(lastPassiveAt).None? then Some(now) else old(lastPassiveAt)
      ensures Current() == Applied(old(Current()), id, EventOf(Fails(err, old(vs.clientClosed))))
      ensures Gone() <= old(Gone())
    {
      if err.CommandBlacklisted? {
        KeepFailed(id, vs, true, now);
        return;
      }
      if IsDeadClient(err) || vs.clientClosed {
        DropMapped(id, vs);
        return;
      }
      KeepFailed(id, vs, false, now);
    }

    /** scrapeVM on a mapped connection: nothing in the map changes but this connection. */
    method ScrapeMapped(id: string, vs: VmState, s: Scrape) returns (out: ScrapeOutcome)
      requires Tracked() && PassiveKnown() && id in vms && vms[id] == vs && !vs.Dead()
      modifies vs`clientClosed, vs`prevSnapshot, vs`diskMap, vs`retryCount, vs`passive, vs`history
      ensures Tracked() && PassiveKnown() && out == ResultOf(s, old(vs.history), maxRetries)
      ensures (s.Fails? ==> vs.clientClosed == s.clientDies) && (vs.clientClosed ==> s.clientDies)
      ensures vs.history == old(vs.history) + if s.Answers? then [Success(SnapshotOf(s.counters))] else []
    {
      assert vs.Fit(maxRetries);
      out := ScrapeVM(vs, s, maxRetries);
    }

    /** The same, in terms of the map. */
    method ScrapeCurrent(id: string, vs: VmState, s: Scrape) returns (out: ScrapeOutcome)
      requires Tracked() && PassiveKnown() && id in vms && vms[id] == vs && !vs.Dead()
      modifies vs`clientClosed, vs`prevSnapshot, vs`diskMap, vs`retryCount, vs`passive, vs`history
      ensures Tracked() && PassiveKnown() && out == ResultOf(s, old(vs.history), maxRetries)
      ensures s.Fails? ==> vs.clientClosed == s.clientDies
      ensures Current() == (if s.Answers? then Applied(old(Current()), id, EventOf(s)) else old(Current()))
      ensures Gone() <= old(Gone()) + if s.clientDies then {id} else {}
    {
      ghost var h, gone := Current(), Gone();
      out := ScrapeMapped(id, vs, s);
      HistoriesAre(if s.Answers? then h[id := vs.history] else h);
      GoneWithin(gone + if s.clientDies then {id} else {});
    }

    /** One goroutine of the poll: scrape, then record the outcome. */
    method ScrapeOne(id: string, vs: VmState, s: Scrape, now: int) returns (published: Option<map<string, DiskMetrics>>)
      requires Tracked() && PassiveKnown() && id in vms && vms[id] == vs && !vs.Dead()
      modifies this`vms, this`lastPassiveAt, vs
      ensures Tracked() && PassiveKnown() && Kept(old(lastPassiveAt), lastPassiveAt, now, now)
      ensures Current() == Applied(old(Current()), id, EventOf(s))
      ensures Gone() <= old(Gone()) + if s.clientDies then {id} else {}
      ensures published == PlanOf(s, old(Current())[id], maxRetries).disks
    {
      var out := ScrapeCurrent(id, vs, s);
      match out
      case ScrapeFailed(err) =>
        HandleScrapeError(id, vs, err, now);
        return None;
      case ScrapeOk(disks) =>
        return Some(disks);
    }

    /** The scrape of one more VM that is due. */
    method CompleteOne(id: string, vs: VmState, s: Scrape, now: int, ghost done: set<string>, ghost plans: Plans,
                       ghost was: Histories)
      returns (disks: Option<map<string, DiskMetrics>>)
      requires Tracked() && PassiveKnown() && id in vms && vms[id] == vs && id !in Gone()
      requires done <= plans.Keys && id in plans && id !in done && id in was
               && plans[id] == PlanOf(s, was[id], maxRetries)
      requires Current() == Expected(was, done, plans)
      modifies this`vms, this`lastPassiveAt, vs
      ensures Tracked() && PassiveKnown() && Kept(old(lastPassiveAt), lastPassiveAt, now, now)
      ensures Current() == Expected(was, done + {id}, plans)
      ensures Gone() <= old(Gone()) + if s.clientDies then {id} else {}
      ensures old(vms.Keys) - {id} <= vms.Keys
      ensures disks == plans[id].disks
    {
      ExpectedStep(was, done, plans, id);
      disks := ScrapeOne(id, vs, s, now);
    }

    /** The same within the loop over everything due, of which `todo` is left. */
    method CompleteNext(id: string, vs: VmState, input: Input, ghost due: set<string>, ghost todo: set<string>,
                        outcomes: Outcomes, ghost plans: Plans, ghost was: Histories, ghost first: Option<int>)
      returns (outcomes': Outcomes)
      requires Tracked() && PassiveKnown() && id in todo && todo <= vms.Keys && vms[id] == vs
      requires Gone() <= Dying(due - todo, input.scrapes)
      requires todo <= due <= was.Keys && plans == PlansFor(due, input.scrapes, was, maxRetries)
      requires input.checkAt <= input.markAt(id) <= input.endAt
               && Kept(first, lastPassiveAt, input.checkAt, input.endAt)
      requires Current() == Expected(was, due - todo, plans) && OutcomesFit(outcomes, due - todo, plans)
      modifies this`vms, this`lastPassiveAt, vs
      ensures Tracked() && PassiveKnown() && Kept(first, lastPassiveAt, input.checkAt, input.endAt)
      ensures Gone() <= Dying(due - (todo - {id}), input.scrapes) && todo - {id} <= vms.Keys
      ensures Current() == Expected(was, due - (todo - {id}), plans)
              && OutcomesFit(outcomes', due - (todo - {id}), plans)
    {
      ghost var last := lastPassiveAt;
      OneLess(due, todo, id);
      OutcomesStep(outcomes, due - todo, plans, id);
      var disks := CompleteOne(id, vs, input.scrapes(id), input.markAt(id), due - todo, plans, was);
      KeptOn(first, last, lastPassiveAt, input.checkAt, input.endAt, input.markAt(id));
      outcomes' := outcomes[id := disks];
    }

    /** The second half: the goroutines finish in any order, each under the results lock. */
    method Complete(due: set<string>, input: Input, ghost plans: Plans, ghost was: Histories)
      returns (outcomes: Outcomes)
      requires Tracked() && PassiveKnown() && Gone() == {} && was == Current()
      requires due <= was.Keys && plans == PlansFor(due, input.scrapes, was, maxRetries)
      requires forall id :: input.checkAt <= input.markAt(id) <= input.endAt
      modifies this`vms, this`lastPassiveAt, dialled
      ensures Tracked() && PassiveKnown() && Kept(old(lastPassiveAt), lastPassiveAt, input.checkAt, input.endAt)
      ensures Current() == Expected(was, due, plans) && OutcomesFit(outcomes, due, plans)
      ensures Gone() <= Dying(due, input.scrapes)
    {
      outcomes := map[];
      var todo := due;
      ExpectedNone(was, plans);
      ghost var done: set<string> := {};
      while todo != {}
        invariant Tracked() && PassiveKnown() && todo <= vms.Keys
        invariant todo <= due && done == due - todo && Gone() <= Dying(done, input.scrapes)
        invariant Current() == Expected(was, done, plans) && OutcomesFit(outcomes, done, plans)
        invariant Kept(old(lastPassiveAt), lastPassiveAt, input.checkAt, input.endAt)
        decreases todo
      {
        var id :| id in todo;
        outcomes := CompleteNext(id, vms[id], input, due, todo, outcomes, plans, was, old(lastPassiveAt));
        todo := todo - {id};
        done := due - todo;
      }
      assert done == due;
    }

    /** The scrapes that are due, on the map without the dead. */
    method ScrapeDue(due: set<string>, ghost dead: set<string>, input: Input, ghost was: Histories)
      returns (outcomes: Outcomes, ghost plans: Plans)
      requires Tracked() && PassiveKnown() && InOrder(input, clock) && Gone() == {}
      requires Current() == was - dead && due <= was.Keys - dead
      modifies this`vms, this`lastPassiveAt, dialled
      ensures Tracked() && PassiveKnown() && Kept(old(lastPassiveAt), lastPassiveAt, input.checkAt, input.endAt)
      ensures plans == PlansFor(due, input.scrapes, was, maxRetries) && OutcomesFit(outcomes, due, plans)
      ensures Current() == Expected(was - dead, due, plans) && Gone() <= Dying(due, input.scrapes)
    {
      PlansAfterDrop(due, dead, input.scrapes, was, maxRetries);
      plans := PlansFor(due, input.scrapes, was, maxRetries);
      outcomes := Complete(due, input, plans, was - dead);
    }

    /** Sort the snapshot, then scrape what is due. */
    method SortAndScrape(input: Input, passiveDue: bool) returns (s: Sorting, outcomes: Outcomes, ghost plans: Plans)
      requires Tracked() && PassiveKnown() && InOrder(input, clock)
      modifies this`vms, this`lastPassiveAt, dialled
      ensures Tracked() && PassiveKnown() && Kept(old(lastPassiveAt), lastPassiveAt, input.checkAt, input.endAt)
      ensures Sorted(old(vms.Keys), s, passiveDue, PassiveIn(old(Current()), maxRetries), old(Gone()))
      ensures s.due <= old(vms.Keys) && plans == PlansFor(s.due, input.scrapes, old(Current()), maxRetries)
      ensures OutcomesFit(outcomes, s.due, plans) && Current() == Expected(old(Current()) - s.dead, s.due, plans)
      ensures Gone() <= Dying(s.due, input.scrapes)
    {
      ghost var was, gone := Current(), Gone();
      s := Dispatch(passiveDue);
      SortedParts(was.Keys, s, passiveDue, PassiveIn(was, maxRetries), gone);
      outcomes, plans := ScrapeDue(s.due, s.dead, input, was);
    }

    /** The same, added up. */
    method RunScrapes(input: Input, passiveDue: bool)
      returns (report: Report, published: Results, ghost plans: Plans)
      requires Tracked() && PassiveKnown() && InOrder(input, clock)
      modifies this`vms, this`lastPassiveAt, dialled
      ensures Tracked() && PassiveKnown() && Kept(old(lastPassiveAt), lastPassiveAt, input.checkAt, input.endAt)
      ensures Scraped(old(Current()), old(Gone()), passiveDue, input.scrapes, report, plans, published, Current(),
                      maxRetries)
      ensures Gone() <= Dying(report.sorting.due, input.scrapes)
    {
      ghost var was, gone := Current(), Gone();
      var s, outcomes;
      s, outcomes, plans := SortAndScrape(input, passiveDue);
      ghost var after, dead := Current(), Gone();
      report, published := AddUp(s, outcomes, was, gone, passiveDue, input.scrapes, plans, after, maxRetries);
      CurrentIs(after, dead);
    }

    method Publish(published: Results, errors: nat, ghost now: int)
      requires Tracked() && PassiveKnown()
      modifies this`results, this`scrapeErrors, this`clock
      ensures Tracked() && PassiveKnown() && Current() == old(Current()) && Gone() == old(Gone())
      ensures results == published && scrapeErrors == old(scrapeErrors) + errors && clock == now
    {
      ghost var h, gone := Current(), Gone();
      results := published;
      scrapeErrors := scrapeErrors + errors;
      clock := now;
      CurrentIs(h, gone);
    }

    method NoteProbe(ghost from: int, to: int)
      requires Tracked() && PassiveKnown()
      modifies this`lastPassiveAt, this`probes
      ensures Tracked() && PassiveKnown() && Current() == old(Current()) && Gone() == old(Gone())
      ensures lastPassiveAt == Some(to) && probes == old(probes) + [(from, to)]
    {
      ghost var h, gone := Current(), Gone();
      lastPassiveAt := Some(to);
      probes := probes + [(from, to)];
      CurrentIs(h, gone);
    }

    /** The end of the poll: publish, count, and move the schedule if passive VMs were probed. */
    method Record(input: Input, report: Report, published: Results)
      requires Tracked() && PassiveKnown() && InOrder(input, clock)
      requires lastPassiveAt.Some? ==> lastPassiveAt.value <= input.endAt
      requires probes != [] ==> lastPassiveAt == Some(probes[|probes| - 1].1)
      requires Spaced(probes, PassiveInterval(pollInterval))
      requires report.sorting.probed ==> Due(lastPassiveAt, input.checkAt, PassiveInterval(pollInterval))
      modifies this`results, this`scrapeErrors, this`lastPassiveAt, this`probes, this`clock
      ensures Valid() && Current() == old(Current()) && Gone() == old(Gone()) && clock == input.endAt
      ensures results == published && scrapeErrors == old(scrapeErrors) + report.errors
      ensures lastPassiveAt == if report.sorting.probed then Some(input.endAt) else old(lastPassiveAt)
      ensures probes == old(probes) + if report.sorting.probed then [(input.checkAt, input.endAt)] else []
    {
      Publish(published, report.errors, input.endAt);
      if report.sorting.probed {
        SpacedAdd(probes, PassiveInterval(pollInterval), (input.checkAt, input.endAt));
        NoteProbe(input.checkAt, input.endAt);
      }
    }

    /** What passive mode means for the histories, and what it has to do with the schedule. */
    lemma PassiveMeansScheduled()
      requires Tracked() && PassiveKnown()
      ensures PassiveIn(Current(), maxRetries) != {} ==> lastPassiveAt.Some?
    {
      if PassiveIn(Current(), maxRetries) != {} {
        var id :| id in PassiveIn(Current(), maxRetries);
        assert vms[id].Fit(maxRetries);
      }
    }

    /** The collector at a poll boundary. */
    ghost function At(): (b: Boundary)
      reads this, dialled
      requires NoLeaks()
    {
      Boundary(Current(), Gone(), lastPassiveAt, probes, scrapeErrors, results)
    }

    /** The poll on the reconciled map. */
    method ScrapeAll(input: Input, ghost from: Boundary) returns (ghost c: Cycle)
      requires Valid() && InOrder(input, clock) && Current() == Worked(from.histories, input.targets)
      requires Gone() == from.gone * ActiveIds(input.targets)
      requires lastPassiveAt == from.last && probes == from.probes && scrapeErrors == from.errors
      modifies this, dialled
      ensures Valid() && dialled == old(dialled) && clock == input.endAt
      ensures PollOk(c, maxRetries, PassiveInterval(pollInterval)) && c.input == input && c.from == from && c.to == At()
      ensures from.probes <= probes
    {
      ghost var was, gone := Current(), Gone();
      ghost var plans;
      var report, published;
      var passiveDue := Due(lastPassiveAt, input.checkAt, PassiveInterval(pollInterval));
      report, published, plans := RunScrapes(input, passiveDue);
      SortedParts(was.Keys, report.sorting, passiveDue, PassiveIn(was, maxRetries), gone);
      ghost var after, dead, scraped := Current(), Gone(), lastPassiveAt;
      PassiveMeansScheduled();
      Record(input, report, published);
      ghost var to := Boundary(after, dead, lastPassiveAt, probes, scrapeErrors, results);
      c := Cycle(input, from, was, gone, plans, report, to);
      CycleOk(c, scraped, maxRetries, PassiveInterval(pollInterval));
    }

    /** One poll cycle, everything it did in `c`. */
    method Poll(input: Input) returns (ghost c: Cycle)
      requires Valid() && InOrder(input, clock)
      modifies this, dialled
      ensures Valid() && clock == input.endAt && old(dialled) <= dialled && fresh(dialled - old(dialled))
      ensures PollOk(c, maxRetries, PassiveInterval(pollInterval))
      ensures c.input == input && c.from == old(At()) && c.to == At() && old(probes) <= probes
    {
      ghost var from := At();
      Reconcile(input.targets);
      c := ScrapeAll(input, from);
    }

    /** closeAll */
    method CloseAll()
      requires Tracked()
      modifies this`vms, dialled`closed, dialled`clientClosed
      ensures Tracked() && vms == map[]
      ensures forall d | d in dialled :: d.closed && d.clientClosed
    {
      RemoveDeparted({});
    }

    /** One more poll of a run. */
    method PollNext(inputs: seq<Input>, i: nat, ghost cycles: seq<Cycle>, ghost first: Boundary)
      returns (ghost cycles': seq<Cycle>)
      requires Valid() && i < |inputs| && Timeline(inputs[i..], clock)
      requires RunOk(cycles, maxRetries, PassiveInterval(pollInterval)) && Leads(cycles, inputs[..i], first, At())
      modifies this, dialled
      ensures Valid() && old(dialled) <= dialled && fresh(dialled - old(dialled)) && old(probes) <= probes
      ensures Timeline(inputs[i + 1..], clock)
      ensures RunOk(cycles', maxRetries, PassiveInterval(pollInterval)) && Leads(cycles', inputs[..i + 1], first, At())
    {
      assert inputs[i..][1..] == inputs[i + 1..];
      ghost var now := At();
      ghost var c := Poll(inputs[i]);
      LeadsOn(cycles, inputs, i, first, now, c);
      RunOkAdd(cycles, c, maxRetries, PassiveInterval(pollInterval));
      cycles' := cycles + [c];
    }

    /** Poll after poll. */
    method PollAll(inputs: seq<Input>) returns (ghost cycles: seq<Cycle>)
      requires Valid() && Timeline(inputs, clock)
      modifies this, dialled
      ensures Valid() && old(dialled) <= dialled && fresh(dialled - old(dialled)) && old(probes) <= probes
      ensures RunOk(cycles, maxRetries, PassiveInterval(pollInterval)) && Leads(cycles, inputs, old(At()), At())
    {
      cycles := [];
      ghost var first := At();
      for i := 0 to |inputs|
        invariant Valid() && Timeline(inputs[i..], clock)
        invariant old(dialled) <= dialled && fresh(dialled - old(dialled)) && old(probes) <= probes
        invariant RunOk(cycles, maxRetries, PassiveInterval(pollInterval)) && Leads(cycles, inputs[..i], first, At())
      {
        cycles := PollNext(inputs, i, cycles, first);
      }
      assert inputs[..|inputs|] == inputs;
    }

    /** Run: poll after poll until the context ends, then close everything. The polls lead from what the
        collector held to what it shows in the end. */
    method Run(inputs: seq<Input>) returns (ghost cycles: seq<Cycle>, ghost last: Boundary)
      requires Valid() && Timeline(inputs, clock)
      modifies this, dialled
      ensures Tracked() && vms == map[] && old(dialled) <= dialled
      ensures forall d | d in dialled :: d.closed && d.clientClosed
      ensures RunOk(cycles, maxRetries, PassiveInterval(pollInterval)) && Leads(cycles, inputs, old(At()), last)
      ensures results == last.results && scrapeErrors == last.errors && probes == last.probes
      ensures old(probes) <= probes && Spaced(probes, PassiveInterval(pollInterval))
    {
      cycles := PollAll(inputs);
      last := At();
      CloseAll();
    }

    /** At a poll boundary every field of a connection is what its history since the last success says. */
    lemma BoundaryMeaning(id: string)
      requires Valid() && id in vms
      ensures var vs, tail := vms[id], SinceSuccess(vms[id].history);
              && vs.retryCount == SoftFailures(tail)
              && (vs.passive <==> Blacklisted in tail || SoftFailures(tail) >= Threshold(maxRetries))
              && vs.prevSnapshot == (if vs.passive then None else LastSuccess(vs.history))
              && (vs.passive ==> vs.diskMap.None? && lastPassiveAt.Some?)
    {
      assert vms[id].Fit(maxRetries);
      ReplayMeaning(vms[id].history, maxRetries);
    }
  }
}
