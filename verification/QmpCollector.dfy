/** The QMP poller (pkg/qmp/collector.go). CRI lookups, dialling, monitor replies and the order in
    which goroutines finish are inputs or left to chance. */
module QmpCollector {
  import opened Common
  import QmpClient

  datatype Device = Device(id: string, isDisk: bool, hasHistogram: bool)

  datatype Bus = VirtioBlk | VirtioScsi

  /** A listed virtio device; `named` says whether its path yields a disk or controller name. */
  datatype VirtioDevice = VirtioDevice(path: string, bus: Option<Bus>, named: bool)

  /** How a monitor command goes: its context has already ended, the monitor answers, or the context
      ends while it runs. The other fields are what a successful answer carries. */
  datatype Fate = CtxDone | Answered(ok: bool) | CtxFires

  datatype Reply = Reply(fate: Fate, devices: seq<Device>, virtio: seq<VirtioDevice>, numVqs: int, inuse: nat,
                         vringNum: nat)

  /** A monitor command of a scrape. */
  datatype Command =
    | QueryBlockStats
    | EnableHistogram(id: string)
    | QueryVirtio
    | VirtioStatus(path: string)
    | QueueStatus(bus: Bus, path: string, queue: nat)

  /** What fills the caches of a connection: a disk seen with a histogram, an arming command, a queue-count query. */
  datatype Sent =
    | Seen(device: Device)
    | Arm(device: Device, ok: bool)
    | StatusQuery(path: string, answer: Option<int>)

  datatype Virtqueue = Virtqueue(bus: Bus, path: string, queue: nat, inuse: nat, vringNum: nat)

  datatype VmiResult = VmiResult(devices: seq<Device>, queues: seq<Virtqueue>)

  /** Whether an entry shows that the device has a histogram from then on. */
  predicate Arms(e: Sent, id: string) {
    (e.Seen? || (e.Arm? && e.ok)) && e.device.id == id
  }

  /** A usable queue count. */
  predicate Counts(e: Sent, path: string) {
    e.StatusQuery? && e.path == path && e.answer.Some? && e.answer.value > 0
  }

  /** The caches of a connection. */
  datatype Caches = Caches(armed: set<string>, counts: map<string, int>)

  /** The caches do not already hold what this entry finds out. */
  predicate Justified(c: Caches, e: Sent) {
    match e
    case Seen(device) => device.hasHistogram
    case Arm(device, _) => !device.hasHistogram && device.id !in c.armed
    case StatusQuery(path, _) => path !in c.counts
  }

  function Updated(c: Caches, e: Sent): (c': Caches) {
    match e
    case Seen(device) => c.(armed := c.armed + {device.id})
    case Arm(device, ok) => if ok then c.(armed := c.armed + {device.id}) else c
    case StatusQuery(path, answer) =>
      if answer.Some? && answer.value > 0 then c.(counts := c.counts[path := answer.value]) else c
  }

  /** The caches after the first n entries; None if a command was sent although the caches held its answer. */
  function CachesAfter(log: seq<Sent>, n: nat): (c: Option<Caches>)
    requires n <= |log|
  {
    if n == 0 then Some(Caches({}, map[]))
    else
      var c, e := CachesAfter(log, n - 1), log[n - 1];
      if c.Some? && Justified(c.value, e) then Some(Updated(c.value, e)) else None
  }

  lemma {:induction false} PrefixKept(log: seq<Sent>, e: Sent, n: nat)
    requires n <= |log|
    ensures CachesAfter(log + [e], n) == CachesAfter(log, n)
  {
    if n > 0 {
      PrefixKept(log, e, n - 1);
    }
  }

  /** Every command of a log was sent only because the caches did not hold its answer. */
  predicate Disciplined(log: seq<Sent>) {
    CachesAfter(log, |log|).Some?
  }

  lemma {:induction false} DisciplinedPrefix(log: seq<Sent>, m: nat, n: nat)
    requires m <= n <= |log| && CachesAfter(log, n).Some?
    ensures CachesAfter(log, m).Some?
  {
    if m < n {
      DisciplinedPrefix(log, m, n - 1);
    }
  }

  /** A disk is in the armed set exactly when its histogram was seen or successfully armed. */
  lemma {:induction false} ArmedMeaning(log: seq<Sent>, n: nat, id: string)
    requires n <= |log| && CachesAfter(log, n).Some?
    ensures id in CachesAfter(log, n).value.armed <==> exists i :: 0 <= i < n && Arms(log[i], id)
  {
    if n > 0 {
      ArmedMeaning(log, n - 1, id);
      assert Arms(log[n - 1], id) ==> id in CachesAfter(log, n).value.armed;
    }
  }

  /** A cached queue count is a positive answer the monitor gave, and the only one ever asked for. */
  lemma {:induction false} CountsMeaning(log: seq<Sent>, n: nat, path: string)
    requires n <= |log| && CachesAfter(log, n).Some?
    ensures var counts := CachesAfter(log, n).value.counts;
            && (path in counts <==> exists i :: 0 <= i < n && Counts(log[i], path))
            && forall i | 0 <= i < n && Counts(log[i], path) :: path in counts && log[i].answer == Some(counts[path])
  {
    if n > 0 {
      CountsMeaning(log, n - 1, path);
      assert Counts(log[n - 1], path) ==> path in CachesAfter(log, n).value.counts;
    }
  }

  /** No disk is armed once its histogram is known, and no path is asked for once its count is known. */
  lemma NeverAskedTwice(log: seq<Sent>, i: nat, j: nat)
    requires Disciplined(log) && i < j < |log|
    ensures log[j].Arm? ==> !log[j].device.hasHistogram && !Arms(log[i], log[j].device.id)
    ensures log[j].StatusQuery? ==> !Counts(log[i], log[j].path)
  {
    DisciplinedPrefix(log, j + 1, |log|);
    if log[j].Arm? {
      ArmedMeaning(log, j, log[j].device.id);
    } else if log[j].StatusQuery? {
      CountsMeaning(log, j, log[j].path);
    }
  }

  /** One of the devices a bus pass asks about. */
  predicate OnBus(v: VirtioDevice, bus: Bus) {
    v.bus == Some(bus) && v.named
  }

  // What a scrape does, as a function of the caches and the replies

  predicate Ok(r: Reply) {
    r.fate == Answered(true)
  }

  /** Some command from number `from` to before number `to` has its context end while it runs. */
  predicate Fires(replies: nat -> Reply, from: nat, to: nat) {
    exists k | from <= k < to :: replies(k).fate.CtxFires?
  }

  lemma FiresWithin(replies: nat -> Reply, a: nat, from: nat, to: nat, b: nat)
    requires a <= from && to <= b && Fires(replies, from, to)
    ensures Fires(replies, a, b)
  {
    var k :| from <= k < to && replies(k).fate.CtxFires?;
  }

  /** How far a scrape got: the commands tried so far, the caches, the log, the queues reported. */
  datatype Progress = Progress(sent: seq<Command>, caches: Caches, log: seq<Sent>, queues: seq<Virtqueue>) {
    /** The number of the next command. */
    function At(): (n: nat) {
      |sent|
    }
  }

  /** The command an entry of the log stands for. */
  function CommandsOf(e: Sent): (sent: seq<Command>) {
    match e
    case Seen(_) => []
    case Arm(device, _) => [EnableHistogram(device.id)]
    case StatusQuery(path, _) => [VirtioStatus(path)]
  }

  function Noted(p: Progress, e: Sent): (p': Progress) {
    Progress(p.sent + CommandsOf(e), Updated(p.caches, e), p.log + [e], p.queues)
  }

  /** A disk known to have a histogram is left alone; one that shows a histogram is noted; any other is armed. */
  function ArmStep(p: Progress, d: Device, replies: nat -> Reply): (p': Progress) {
    if !d.isDisk || d.id in p.caches.armed then p
    else Noted(p, if d.hasHistogram then Seen(d) else Arm(d, Ok(replies(p.At()))))
  }

  function ArmPass(p: Progress, devices: seq<Device>, replies: nat -> Reply): (p': Progress) {
    if devices == [] then p
    else ArmStep(ArmPass(p, devices[..|devices| - 1], replies), devices[|devices| - 1], replies)
  }

  /** The queue count of a device, and whether the cache or the next command gives it. */
  function CountFor(p: Progress, path: string, replies: nat -> Reply): (nq: int) {
    if path in p.caches.counts then p.caches.counts[path]
    else if Ok(replies(p.At())) then replies(p.At()).numVqs else 0
  }

  function CountStep(p: Progress, path: string, replies: nat -> Reply): (p': Progress) {
    if path in p.caches.counts then p
    else Noted(p, StatusQuery(path, if Ok(replies(p.At())) then Some(replies(p.At()).numVqs) else None))
  }

  /** The status of one queue. */
  function AskQueue(p: Progress, bus: Bus, path: string, qi: nat, replies: nat -> Reply): (p': Progress) {
    var r := replies(p.At());
    p.(sent := p.sent + [QueueStatus(bus, path, qi)],
       queues := p.queues + if Ok(r) then [Virtqueue(bus, path, qi, r.inuse, r.vringNum)] else [])
  }

  /** The first nq queues of one device. */
  function QueueStep(p: Progress, bus: Bus, path: string, nq: int, replies: nat -> Reply): (p': Progress)
    decreases if nq > 0 then nq else 0
  {
    if nq <= 0 then p else AskQueue(QueueStep(p, bus, path, nq - 1, replies), bus, path, nq - 1, replies)
  }

  function DeviceStep(p: Progress, bus: Bus, v: VirtioDevice, replies: nat -> Reply): (p': Progress) {
    if !OnBus(v, bus) then p
    else QueueStep(CountStep(p, v.path, replies), bus, v.path, CountFor(p, v.path, replies), replies)
  }

  function BusPass(p: Progress, bus: Bus, listed: seq<VirtioDevice>, replies: nat -> Reply): (p': Progress) {
    if listed == [] then p
    else DeviceStep(BusPass(p, bus, listed[..|listed| - 1], replies), bus, listed[|listed| - 1], replies)
  }

  /** List the virtio devices; then the disks among them, then the controllers. */
  function VirtioPass(p: Progress, replies: nat -> Reply): (p': Progress) {
    var q, r := p.(sent := p.sent + [QueryVirtio]), replies(p.At());
    if Ok(r) then BusPass(BusPass(q, VirtioBlk, r.virtio, replies), VirtioScsi, r.virtio, replies) else q
  }

  function CachesOf(log: seq<Sent>): (c: Caches) {
    var c := CachesAfter(log, |log|);
    if c.Some? then c.value else Caches({}, map[])
  }

  /** A scrape on a connection with this log, once its first command has listed the disks. */
  function ScrapePass(log: seq<Sent>, replies: nat -> Reply): (p: Progress) {
    VirtioPass(ArmPass(Progress([QueryBlockStats], CachesOf(log), log, []), replies(0).devices, replies), replies)
  }

  /** The disks that came with a histogram, in order. */
  function Reported(devices: seq<Device>): (r: seq<Device>) {
    if devices == [] then []
    else
      var last := devices[|devices| - 1];
      Reported(devices[..|devices| - 1]) + if last.isDisk && last.hasHistogram then [last] else []
  }

  /** The result of a scrape; None if the disks could not be listed or some command closed the client. */
  function ScrapeOf(log: seq<Sent>, replies: nat -> Reply): (r: Option<VmiResult>) {
    var p := ScrapePass(log, replies);
    if !Ok(replies(0)) || Fires(replies, 0, p.At()) then None
    else Some(VmiResult(Reported(replies(0).devices), p.queues))
  }

  method ReportDevices(devices: seq<Device>) returns (r: seq<Device>)
    ensures r == Reported(devices)
  {
    r := [];
    for i := 0 to |devices|
      invariant r == Reported(devices[..i])
    {
      assert devices[..i + 1][..i] == devices[..i];
      if devices[i].isDisk && devices[i].hasHistogram {
        r := r + [devices[i]];
      }
    }
    assert devices[..|devices|] == devices;
  }

  // What that means for the commands sent

  /** Progress only adds. */
  predicate Further(p: Progress, q: Progress) {
    && p.sent <= q.sent && p.log <= q.log && p.queues <= q.queues && p.caches.armed <= q.caches.armed
    && forall path | path in p.caches.counts ::
         path in q.caches.counts && q.caches.counts[path] == p.caches.counts[path]
  }

  lemma FurtherStill(p: Progress, q: Progress, r: Progress)
    requires Further(p, q) && Further(q, r)
    ensures Further(p, r)
  {
  }

  lemma {:induction false} QueuesFurther(p: Progress, bus: Bus, path: string, nq: int, replies: nat -> Reply)
    ensures Further(p, QueueStep(p, bus, path, nq, replies))
    ensures QueueStep(p, bus, path, nq, replies).At() == p.At() + if nq > 0 then nq else 0
    ensures var q := QueueStep(p, bus, path, nq, replies); q.caches == p.caches && q.log == p.log
    decreases if nq > 0 then nq else 0
  {
    if nq > 0 {
      QueuesFurther(p, bus, path, nq - 1, replies);
    }
  }

  lemma DeviceFurther(p: Progress, bus: Bus, v: VirtioDevice, replies: nat -> Reply)
    ensures Further(p, DeviceStep(p, bus, v, replies))
  {
    if OnBus(v, bus) {
      QueuesFurther(CountStep(p, v.path, replies), bus, v.path, CountFor(p, v.path, replies), replies);
    }
  }

  lemma {:induction false} ArmPassFurther(p: Progress, devices: seq<Device>, i: nat, replies: nat -> Reply)
    requires i <= |devices|
    ensures Further(ArmPass(p, devices[..i], replies), ArmPass(p, devices, replies))
    decreases |devices|
  {
    var n := |devices| - 1;
    if i <= n {
      assert devices[..n][..i] == devices[..i];
      ArmPassFurther(p, devices[..n], i, replies);
      FurtherStill(ArmPass(p, devices[..i], replies), ArmPass(p, devices[..n], replies), ArmPass(p, devices, replies));
    } else {
      assert devices[..i] == devices;
    }
  }

  lemma {:induction false} BusPassFurther(p: Progress, bus: Bus, listed: seq<VirtioDevice>, i: nat,
                                          replies: nat -> Reply)
    requires i <= |listed|
    ensures Further(BusPass(p, bus, listed[..i], replies), BusPass(p, bus, listed, replies))
    decreases |listed|
  {
    var n := |listed| - 1;
    if i <= n {
      assert listed[..n][..i] == listed[..i];
      BusPassFurther(p, bus, listed[..n], i, replies);
      DeviceFurther(BusPass(p, bus, listed[..n], replies), bus, listed[n], replies);
      FurtherStill(BusPass(p, bus, listed[..i], replies), BusPass(p, bus, listed[..n], replies),
                   BusPass(p, bus, listed, replies));
    } else {
      assert listed[..i] == listed;
    }
  }

  lemma VirtioPassFurther(p: Progress, replies: nat -> Reply)
    ensures Further(p, VirtioPass(p, replies))
  {
    var q, listed := p.(sent := p.sent + [QueryVirtio]), replies(p.At()).virtio;
    BusPassFurther(q, VirtioBlk, listed, 0, replies);
    BusPassFurther(BusPass(q, VirtioBlk, listed, replies), VirtioScsi, listed, 0, replies);
    FurtherStill(q, BusPass(q, VirtioBlk, listed, replies),
                 BusPass(BusPass(q, VirtioBlk, listed, replies), VirtioScsi, listed, replies));
  }

  /** The count of a device has nothing to do with the queues reported so far. */
  lemma CountOnly(p: Progress, queues: seq<Virtqueue>, path: string, replies: nat -> Reply)
    requires p.queues == queues
    ensures CountStep(p, path, replies) == CountStep(p.(queues := []), path, replies).(queues := queues)
    ensures CountFor(p, path, replies) == CountFor(p.(queues := []), path, replies)
  {
  }

  // The queues reported are the answers to the queue commands

  /** What the first n commands were answered about queues, in order. */
  function QueuesIn(sent: seq<Command>, n: nat, replies: nat -> Reply): (queues: seq<Virtqueue>)
    requires n <= |sent|
  {
    if n == 0 then []
    else
      var c, r := sent[n - 1], replies(n - 1);
      QueuesIn(sent, n - 1, replies)
      + if c.QueueStatus? && r.fate == Answered(true) then [Virtqueue(c.bus, c.path, c.queue, r.inuse, r.vringNum)]
        else []
  }

  lemma {:induction false} QueuesInPrefix(sent: seq<Command>, more: seq<Command>, n: nat, replies: nat -> Reply)
    requires n <= |sent|
    ensures QueuesIn(sent + more, n, replies) == QueuesIn(sent, n, replies)
  {
    if n > 0 {
      QueuesInPrefix(sent, more, n - 1, replies);
    }
  }

  predicate QueuesTrue(p: Progress, replies: nat -> Reply) {
    p.queues == QueuesIn(p.sent, |p.sent|, replies)
  }

  lemma NotedQueues(p: Progress, e: Sent, replies: nat -> Reply)
    requires QueuesTrue(p, replies)
    ensures QueuesTrue(Noted(p, e), replies)
  {
    QueuesInPrefix(p.sent, CommandsOf(e), |p.sent|, replies);
    if e.Seen? {
      assert p.sent + [] == p.sent;
    }
  }

  lemma {:induction false} AskedQueues(p: Progress, bus: Bus, path: string, nq: int, replies: nat -> Reply)
    requires QueuesTrue(p, replies)
    ensures QueuesTrue(QueueStep(p, bus, path, nq, replies), replies)
    decreases if nq > 0 then nq else 0
  {
    if nq > 0 {
      var q := QueueStep(p, bus, path, nq - 1, replies);
      AskedQueues(p, bus, path, nq - 1, replies);
      QueuesInPrefix(q.sent, [QueueStatus(bus, path, nq - 1)], |q.sent|, replies);
    }
  }

  lemma {:induction false} ArmPassQueues(p: Progress, devices: seq<Device>, replies: nat -> Reply)
    requires QueuesTrue(p, replies)
    ensures QueuesTrue(ArmPass(p, devices, replies), replies)
  {
    if devices != [] {
      var n := |devices| - 1;
      var early, d := ArmPass(p, devices[..n], replies), devices[n];
      ArmPassQueues(p, devices[..n], replies);
      NotedQueues(early, if d.hasHistogram then Seen(d) else Arm(d, Ok(replies(early.At()))), replies);
    }
  }

  lemma {:induction false} BusPassQueues(p: Progress, bus: Bus, listed: seq<VirtioDevice>, replies: nat -> Reply)
    requires QueuesTrue(p, replies)
    ensures QueuesTrue(BusPass(p, bus, listed, replies), replies)
  {
    if listed != [] {
      var n := |listed| - 1;
      var early, path := BusPass(p, bus, listed[..n], replies), listed[n].path;
      var r := replies(early.At());
      BusPassQueues(p, bus, listed[..n], replies);
      NotedQueues(early, StatusQuery(path, if Ok(r) then Some(r.numVqs) else None), replies);
      AskedQueues(CountStep(early, path, replies), bus, path, CountFor(early, path, replies), replies);
    }
  }

  lemma ScrapeQueues(log: seq<Sent>, replies: nat -> Reply)
    ensures QueuesTrue(ScrapePass(log, replies), replies)
  {
    var start := Progress([QueryBlockStats], CachesOf(log), log, []);
    assert QueuesIn(start.sent, 1, replies) == [];
    ArmPassQueues(start, replies(0).devices, replies);
    var armed := ArmPass(start, replies(0).devices, replies);
    var q, listed := armed.(sent := armed.sent + [QueryVirtio]), replies(armed.At()).virtio;
    QueuesInPrefix(armed.sent, [QueryVirtio], |armed.sent|, replies);
    BusPassQueues(q, VirtioBlk, listed, replies);
    BusPassQueues(BusPass(q, VirtioBlk, listed, replies), VirtioScsi, listed, replies);
  }

  // Which commands are sent

  /** A disk without a histogram, not known to have one, among these. */
  ghost predicate NeedsArming(devices: seq<Device>, armed: set<string>, id: string) {
    && id !in armed
    && exists i :: 0 <= i < |devices| && devices[i].isDisk && !devices[i].hasHistogram && devices[i].id == id
  }

  /** A named device on the bus with this path, among these. */
  ghost predicate ListedOn(listed: seq<VirtioDevice>, bus: Bus, path: string) {
    exists i :: 0 <= i < |listed| && listed[i].bus == Some(bus) && listed[i].named && listed[i].path == path
  }

  /** A pass over a bus asks only for these. */
  ghost predicate BusCommand(c: Command, bus: Bus, listed: seq<VirtioDevice>, counts: map<string, int>) {
    match c
    case VirtioStatus(path) => ListedOn(listed, bus, path)
    case QueueStatus(b, path, qi) => b == bus && ListedOn(listed, bus, path) && path in counts && qi < counts[path]
    case _ => false
  }

  lemma {:induction false} ArmPassSends(p: Progress, devices: seq<Device>, replies: nat -> Reply)
    ensures var p' := ArmPass(p, devices, replies);
            && p.sent <= p'.sent && p.caches.armed <= p'.caches.armed && p'.caches.counts == p.caches.counts
            && forall n | |p.sent| <= n < |p'.sent| ::
                 p'.sent[n].EnableHistogram? && NeedsArming(devices, p.caches.armed, p'.sent[n].id)
  {
    if devices != [] {
      var k := |devices| - 1;
      var early, p' := ArmPass(p, devices[..k], replies), ArmPass(p, devices, replies);
      ArmPassSends(p, devices[..k], replies);
      forall n | |p.sent| <= n < |p'.sent|
        ensures p'.sent[n].EnableHistogram? && NeedsArming(devices, p.caches.armed, p'.sent[n].id)
      {
        if n < |early.sent| {
          assert NeedsArming(devices[..k], p.caches.armed, early.sent[n].id);
          var i :| 0 <= i < k && devices[..k][i].isDisk && !devices[..k][i].hasHistogram
                   && devices[..k][i].id == early.sent[n].id;
          assert devices[i] == devices[..k][i];
        } else {
          assert devices[k].id == p'.sent[n].id;
        }
      }
    }
  }

  lemma {:induction false} QueueStepSends(p: Progress, bus: Bus, path: string, nq: int, replies: nat -> Reply, n: nat)
    requires |p.sent| <= n < |QueueStep(p, bus, path, nq, replies).sent|
    ensures n - |p.sent| < nq
    ensures QueueStep(p, bus, path, nq, replies).sent[n] == QueueStatus(bus, path, n - |p.sent|)
    decreases if nq > 0 then nq else 0
  {
    QueuesFurther(p, bus, path, nq, replies);
    QueuesFurther(p, bus, path, nq - 1, replies);
    if n < |p.sent| + nq - 1 {
      QueueStepSends(p, bus, path, nq - 1, replies, n);
    }
  }

  /** A device with a positive count has it in the cache from then on. */
  lemma CountCached(p: Progress, bus: Bus, v: VirtioDevice, replies: nat -> Reply)
    requires OnBus(v, bus) && CountFor(p, v.path, replies) > 0
    ensures var counts := DeviceStep(p, bus, v, replies).caches.counts;
            v.path in counts && counts[v.path] == CountFor(p, v.path, replies)
  {
    QueuesFurther(CountStep(p, v.path, replies), bus, v.path, CountFor(p, v.path, replies), replies);
  }

  lemma DeviceSends(p: Progress, bus: Bus, v: VirtioDevice, replies: nat -> Reply, n: nat)
    requires |p.sent| <= n < |DeviceStep(p, bus, v, replies).sent|
    ensures var p' := DeviceStep(p, bus, v, replies); BusCommand(p'.sent[n], bus, [v], p'.caches.counts)
  {
    var mid, nq := CountStep(p, v.path, replies), CountFor(p, v.path, replies);
    QueuesFurther(mid, bus, v.path, nq, replies);
    assert [v][0] == v;
    if n >= |mid.sent| {
      QueueStepSends(mid, bus, v.path, nq, replies, n);
      CountCached(p, bus, v, replies);
    }
  }

  lemma BusCommandLasts(c: Command, bus: Bus, listed: seq<VirtioDevice>, more: seq<VirtioDevice>, p: Progress,
                        q: Progress)
    requires BusCommand(c, bus, listed, p.caches.counts) && Further(p, q) && forall v | v in listed :: v in more
    ensures BusCommand(c, bus, more, q.caches.counts)
  {
    var path := if c.VirtioStatus? then c.path else c.path;
    var i :| 0 <= i < |listed| && listed[i].bus == Some(bus) && listed[i].named && listed[i].path == path;
    assert listed[i] in more;
  }

  lemma {:induction false} BusPassSends(p: Progress, bus: Bus, listed: seq<VirtioDevice>, replies: nat -> Reply, n: nat)
    requires |p.sent| <= n < |BusPass(p, bus, listed, replies).sent|
    ensures var p' := BusPass(p, bus, listed, replies); BusCommand(p'.sent[n], bus, listed, p'.caches.counts)
  {
    var k := |listed| - 1;
    var early, p' := BusPass(p, bus, listed[..k], replies), BusPass(p, bus, listed, replies);
    DeviceFurther(early, bus, listed[k], replies);
    if n < |early.sent| {
      BusPassSends(p, bus, listed[..k], replies, n);
      BusCommandLasts(early.sent[n], bus, listed[..k], listed, early, p');
    } else {
      DeviceSends(early, bus, listed[k], replies, n);
      BusCommandLasts(p'.sent[n], bus, [listed[k]], listed, p', p');
    }
  }

  /** A status query that gave no queues. */
  ghost predicate NoQueues(sent: seq<Command>, path: string, replies: nat -> Reply) {
    exists n :: 0 <= n < |sent| && sent[n] == VirtioStatus(path)
                && !(replies(n).fate == Answered(true) && replies(n).numVqs > 0)
  }

  /** Every queue of the device was asked for, or it has none. */
  ghost predicate AllAsked(p: Progress, bus: Bus, path: string, replies: nat -> Reply) {
    || (&& path in p.caches.counts
        && forall qi: nat | qi < p.caches.counts[path] :: QueueStatus(bus, path, qi) in p.sent)
    || NoQueues(p.sent, path, replies)
  }

  lemma AllAskedLasts(p: Progress, q: Progress, bus: Bus, path: string, replies: nat -> Reply)
    requires AllAsked(p, bus, path, replies) && Further(p, q)
    ensures AllAsked(q, bus, path, replies)
  {
    if NoQueues(p.sent, path, replies) {
      var n :| 0 <= n < |p.sent| && p.sent[n] == VirtioStatus(path)
               && !(replies(n).fate == Answered(true) && replies(n).numVqs > 0);
      assert q.sent[n] == VirtioStatus(path);
    }
  }

  lemma DeviceAsks(p: Progress, bus: Bus, v: VirtioDevice, replies: nat -> Reply)
    requires OnBus(v, bus)
    ensures AllAsked(DeviceStep(p, bus, v, replies), bus, v.path, replies)
    ensures v.path in p.caches.counts || VirtioStatus(v.path) in DeviceStep(p, bus, v, replies).sent
  {
    var mid, nq := CountStep(p, v.path, replies), CountFor(p, v.path, replies);
    var p' := DeviceStep(p, bus, v, replies);
    QueuesFurther(mid, bus, v.path, nq, replies);
    if v.path !in p.caches.counts {
      assert p'.sent[|p.sent|] == VirtioStatus(v.path);
    }
    if nq > 0 {
      CountCached(p, bus, v, replies);
      forall qi: nat | qi < nq
        ensures QueueStatus(bus, v.path, qi) in p'.sent
      {
        QueueStepSends(mid, bus, v.path, nq, replies, |mid.sent| + qi);
      }
    } else if v.path in p.caches.counts {
      assert p'.caches.counts[v.path] == nq;
    } else {
      assert NoQueues(p'.sent, v.path, replies);
    }
  }

  lemma {:induction false} BusPassCounts(p: Progress, bus: Bus, listed: seq<VirtioDevice>, replies: nat -> Reply,
                                         path: string)
    requires path in BusPass(p, bus, listed, replies).caches.counts && path !in p.caches.counts
    ensures VirtioStatus(path) in BusPass(p, bus, listed, replies).sent
  {
    var k := |listed| - 1;
    var early, p' := BusPass(p, bus, listed[..k], replies), BusPass(p, bus, listed, replies);
    DeviceFurther(early, bus, listed[k], replies);
    if path in early.caches.counts {
      BusPassCounts(p, bus, listed[..k], replies, path);
    } else {
      QueuesFurther(CountStep(early, listed[k].path, replies), bus, listed[k].path,
                    CountFor(early, listed[k].path, replies), replies);
      assert p'.sent[|early.sent|] == VirtioStatus(path);
    }
  }

  /** Progress of a bus pass leaves nothing out. */
  lemma BusPassAsks(p: Progress, bus: Bus, listed: seq<VirtioDevice>, i: nat, replies: nat -> Reply)
    requires i < |listed| && OnBus(listed[i], bus)
    ensures var p' := BusPass(p, bus, listed, replies);
            && AllAsked(p', bus, listed[i].path, replies)
            && (listed[i].path in p.caches.counts || VirtioStatus(listed[i].path) in p'.sent)
  {
    var path, p' := listed[i].path, BusPass(p, bus, listed, replies);
    var early, mid := BusPass(p, bus, listed[..i], replies), BusPass(p, bus, listed[..i + 1], replies);
    assert listed[..i + 1][..i] == listed[..i];
    BusPassFurther(p, bus, listed, i + 1, replies);
    DeviceAsks(early, bus, listed[i], replies);
    AllAskedLasts(mid, p', bus, path, replies);
    if path in early.caches.counts && path !in p.caches.counts {
      BusPassCounts(p, bus, listed[..i], replies, path);
      BusPassFurther(p, bus, listed, i, replies);
    }
  }

  /** A disk with this id shows a histogram. */
  ghost predicate ShowsHistogram(devices: seq<Device>, id: string) {
    exists i :: 0 <= i < |devices| && devices[i].isDisk && devices[i].hasHistogram && devices[i].id == id
  }

  /** The arming pass has armed it, seen it, or found it known. */
  ghost predicate ArmTried(p: Progress, devices: seq<Device>, id: string, sent: seq<Command>) {
    id in p.caches.armed || ShowsHistogram(devices, id) || EnableHistogram(id) in sent
  }

  lemma {:induction false} ArmPassArms(p: Progress, devices: seq<Device>, replies: nat -> Reply, id: string)
    requires id in ArmPass(p, devices, replies).caches.armed
             || exists i :: 0 <= i < |devices| && devices[i].isDisk && devices[i].id == id
    ensures ArmTried(p, devices, id, ArmPass(p, devices, replies).sent)
  {
    if devices != [] {
      var k := |devices| - 1;
      var early, p', d := ArmPass(p, devices[..k], replies), ArmPass(p, devices, replies), devices[k];
      if id in early.caches.armed || exists i :: 0 <= i < k && devices[..k][i].isDisk && devices[..k][i].id == id {
        ArmPassArms(p, devices[..k], replies, id);
        if ShowsHistogram(devices[..k], id) {
          var i :| 0 <= i < k && devices[..k][i].isDisk && devices[..k][i].hasHistogram && devices[..k][i].id == id;
          assert devices[i] == devices[..k][i];
        }
      } else {
        assert forall i | 0 <= i < k :: devices[..k][i] == devices[i];
        assert d.isDisk && d.id == id;
        if !d.hasHistogram {
          assert p'.sent[|early.sent|] == EnableHistogram(id);
        }
      }
    }
  }

  // The log is the record of those commands

  /** Command n and its answer are what the entry says. */
  predicate EntryFor(e: Sent, sent: seq<Command>, n: nat, replies: nat -> Reply) {
    && n < |sent|
    && match e
       case Seen(_) => false
       case Arm(d, ok) => sent[n] == EnableHistogram(d.id) && (ok <==> replies(n).fate == Answered(true))
       case StatusQuery(path, answer) =>
         && sent[n] == VirtioStatus(path)
         && answer == if replies(n).fate == Answered(true) then Some(replies(n).numVqs) else None
  }

  /** The entry is about a listed disk, and about a command that was sent if it says so. */
  ghost predicate EntryTrue(e: Sent, sent: seq<Command>, devices: seq<Device>, replies: nat -> Reply) {
    && (e.Seen? || e.Arm? ==> e.device in devices && e.device.isDisk && (e.Seen? <==> e.device.hasHistogram))
    && (!e.Seen? ==> exists n :: EntryFor(e, sent, n, replies))
  }

  /** A command that fills a cache has its entry. */
  ghost predicate Logged(sent: seq<Command>, n: nat, log: seq<Sent>, from: nat, replies: nat -> Reply)
    requires n < |sent|
  {
    sent[n].EnableHistogram? || sent[n].VirtioStatus? ==>
      exists k :: from <= k < |log| && EntryFor(log[k], sent, n, replies)
  }

  ghost predicate LogTrue(p: Progress, from: nat, devices: seq<Device>, replies: nat -> Reply) {
    && from <= |p.log|
    && (forall k | from <= k < |p.log| :: EntryTrue(p.log[k], p.sent, devices, replies))
    && (forall n | 0 <= n < |p.sent| :: Logged(p.sent, n, p.log, from, replies))
  }

  lemma EntryLasts(e: Sent, sent: seq<Command>, more: seq<Command>, devices: seq<Device>, replies: nat -> Reply)
    requires EntryTrue(e, sent, devices, replies)
    ensures EntryTrue(e, sent + more, devices, replies)
  {
    if !e.Seen? {
      var n :| EntryFor(e, sent, n, replies);
      assert EntryFor(e, sent + more, n, replies);
    }
  }

  lemma LoggedLasts(sent: seq<Command>, n: nat, log: seq<Sent>, from: nat, replies: nat -> Reply, more: seq<Command>,
                    entries: seq<Sent>)
    requires n < |sent| && Logged(sent, n, log, from, replies)
    ensures Logged(sent + more, n, log + entries, from, replies)
  {
    if sent[n].EnableHistogram? || sent[n].VirtioStatus? {
      var k :| from <= k < |log| && EntryFor(log[k], sent, n, replies);
      assert EntryFor((log + entries)[k], sent + more, n, replies);
    }
  }

  lemma LogGrowsTrue(p: Progress, from: nat, devices: seq<Device>, replies: nat -> Reply, more: seq<Command>,
                     entries: seq<Sent>)
    requires LogTrue(p, from, devices, replies)
    requires forall e | e in entries :: EntryTrue(e, p.sent + more, devices, replies)
    requires forall n | |p.sent| <= n < |p.sent + more| :: Logged(p.sent + more, n, p.log + entries, from, replies)
    ensures var q := p.(sent := p.sent + more, log := p.log + entries); LogTrue(q, from, devices, replies)
  {
    forall k | from <= k < |p.log + entries|
      ensures EntryTrue((p.log + entries)[k], p.sent + more, devices, replies)
    {
      if k < |p.log| {
        EntryLasts(p.log[k], p.sent, more, devices, replies);
      }
    }
    forall n | 0 <= n < |p.sent|
      ensures Logged(p.sent + more, n, p.log + entries, from, replies)
    {
      LoggedLasts(p.sent, n, p.log, from, replies, more, entries);
    }
  }

  lemma NotedTrue(p: Progress, e: Sent, from: nat, devices: seq<Device>, replies: nat -> Reply)
    requires LogTrue(p, from, devices, replies)
    requires e.Seen? || e.Arm? ==> e.device in devices && e.device.isDisk && (e.Seen? <==> e.device.hasHistogram)
    requires !e.Seen? ==> EntryFor(e, p.sent + CommandsOf(e), |p.sent|, replies)
    ensures LogTrue(Noted(p, e), from, devices, replies)
  {
    if !e.Seen? {
      assert (p.log + [e])[|p.log|] == e;
    }
    LogGrowsTrue(p, from, devices, replies, CommandsOf(e), [e]);
  }

  lemma {:induction false} AskedTrue(p: Progress, bus: Bus, path: string, nq: int, from: nat, devices: seq<Device>,
                                     replies: nat -> Reply)
    requires LogTrue(p, from, devices, replies)
    ensures LogTrue(QueueStep(p, bus, path, nq, replies), from, devices, replies)
    decreases if nq > 0 then nq else 0
  {
    if nq > 0 {
      var q := QueueStep(p, bus, path, nq - 1, replies);
      AskedTrue(p, bus, path, nq - 1, from, devices, replies);
      LogGrowsTrue(q, from, devices, replies, [QueueStatus(bus, path, nq - 1)], []);
      assert q.log + [] == q.log;
    }
  }

  lemma NotedIfTried(p: Progress, d: Device, from: nat, devices: seq<Device>, replies: nat -> Reply)
    requires LogTrue(p, from, devices, replies) && d in devices
    ensures LogTrue(ArmStep(p, d, replies), from, devices, replies)
  {
    if d.isDisk && d.id !in p.caches.armed {
      NotedTrue(p, if d.hasHistogram then Seen(d) else Arm(d, Ok(replies(p.At()))), from, devices, replies);
    }
  }

  lemma {:induction false} ArmPassTrue(p: Progress, devices: seq<Device>, k: nat, from: nat, replies: nat -> Reply)
    requires LogTrue(p, from, devices, replies) && k <= |devices|
    ensures LogTrue(ArmPass(p, devices[..k], replies), from, devices, replies)
  {
    if k > 0 {
      var early, d := ArmPass(p, devices[..k - 1], replies), devices[k - 1];
      ArmPassTrue(p, devices, k - 1, from, replies);
      assert devices[..k][..k - 1] == devices[..k - 1];
      NotedIfTried(early, d, from, devices, replies);
    }
  }

  lemma {:induction false} BusPassTrue(p: Progress, bus: Bus, listed: seq<VirtioDevice>, from: nat,
                                       devices: seq<Device>, replies: nat -> Reply)
    requires LogTrue(p, from, devices, replies)
    ensures LogTrue(BusPass(p, bus, listed, replies), from, devices, replies)
  {
    if listed != [] {
      var k := |listed| - 1;
      var early, path := BusPass(p, bus, listed[..k], replies), listed[k].path;
      var r := replies(early.At());
      BusPassTrue(p, bus, listed[..k], from, devices, replies);
      NotedTrue(early, StatusQuery(path, if Ok(r) then Some(r.numVqs) else None), from, devices, replies);
      AskedTrue(CountStep(early, path, replies), bus, path, CountFor(early, path, replies), from, devices, replies);
    }
  }

  // Theorems about a whole scrape

  /** The one command that lists the virtio devices. */
  predicate IsListing(sent: seq<Command>, at: nat) {
    at < |sent| && sent[at] == QueryVirtio && forall n | 0 <= n < |sent| && sent[n] == QueryVirtio :: n == at
  }

  /** Where a scrape stands before and after it lists the virtio devices. */
  function BeforeListing(log: seq<Sent>, replies: nat -> Reply): (p: Progress) {
    ArmPass(Progress([QueryBlockStats], CachesOf(log), log, []), replies(0).devices, replies)
  }

  function AfterListing(log: seq<Sent>, replies: nat -> Reply): (p: Progress) {
    var p := BeforeListing(log, replies);
    p.(sent := p.sent + [QueryVirtio])
  }

  function AfterDisks(log: seq<Sent>, replies: nat -> Reply): (p: Progress) {
    BusPass(AfterListing(log, replies), VirtioBlk, replies(BeforeListing(log, replies).At()).virtio, replies)
  }

  lemma ScrapeStages(log: seq<Sent>, replies: nat -> Reply)
    ensures var p, at := ScrapePass(log, replies), BeforeListing(log, replies).At();
            var listed := replies(at).virtio;
            && p == (if Ok(replies(at)) then BusPass(AfterDisks(log, replies), VirtioScsi, listed, replies)
                     else AfterListing(log, replies))
            && Further(AfterListing(log, replies), p)
            && (Ok(replies(at)) ==>
                  Further(AfterListing(log, replies), AfterDisks(log, replies)) && Further(AfterDisks(log, replies), p))
  {
    var at := BeforeListing(log, replies).At();
    var listed := replies(at).virtio;
    if Ok(replies(at)) {
      BusPassFurther(AfterListing(log, replies), VirtioBlk, listed, 0, replies);
      BusPassFurther(AfterDisks(log, replies), VirtioScsi, listed, 0, replies);
      FurtherStill(AfterListing(log, replies), AfterDisks(log, replies), ScrapePass(log, replies));
    }
  }

  lemma ScrapeAsks(log: seq<Sent>, replies: nat -> Reply, n: nat)
    requires BeforeListing(log, replies).At() < n < |ScrapePass(log, replies).sent|
    ensures var p, disks := ScrapePass(log, replies), AfterDisks(log, replies);
            var listed := replies(BeforeListing(log, replies).At()).virtio;
            && Ok(replies(BeforeListing(log, replies).At()))
            && BusCommand(p.sent[n], if n < |disks.sent| then VirtioBlk else VirtioScsi, listed, p.caches.counts)
  {
    var p, disks := ScrapePass(log, replies), AfterDisks(log, replies);
    var listed := replies(BeforeListing(log, replies).At()).virtio;
    ScrapeStages(log, replies);
    if n < |disks.sent| {
      BusPassSends(AfterListing(log, replies), VirtioBlk, listed, replies, n);
      BusCommandLasts(disks.sent[n], VirtioBlk, listed, listed, disks, p);
    } else {
      BusPassSends(disks, VirtioScsi, listed, replies, n);
    }
  }

  /** What a scrape sends, and nothing else: first it asks for the disks; then it arms disks that show no histogram
      and are not known to have one; then it lists the virtio devices; and then it asks for counts and queues of the
      named disks and controllers listed, no queue beyond the count of its device, disks first. */
  lemma ScrapeSends(log: seq<Sent>, replies: nat -> Reply) returns (at: nat)
    ensures var p := ScrapePass(log, replies);
            var counts, listed := p.caches.counts, replies(at).virtio;
            && 0 < at && IsListing(p.sent, at) && p.sent[0] == QueryBlockStats
            && (forall n | 0 < n < at ::
                  p.sent[n].EnableHistogram? && NeedsArming(replies(0).devices, CachesOf(log).armed, p.sent[n].id))
            && (forall n | at < n < |p.sent| ::
                  && replies(at).fate == Answered(true)
                  && (BusCommand(p.sent[n], VirtioBlk, listed, counts)
                      || BusCommand(p.sent[n], VirtioScsi, listed, counts)))
            && (forall m, n | at < m < |p.sent| && at < n < |p.sent| && p.sent[m].QueueStatus? && p.sent[n].QueueStatus?
                              && p.sent[m].bus == VirtioScsi && p.sent[n].bus == VirtioBlk :: n < m)
  {
    var start := Progress([QueryBlockStats], CachesOf(log), log, []);
    var p, listing, disks := ScrapePass(log, replies), AfterListing(log, replies), AfterDisks(log, replies);
    at := BeforeListing(log, replies).At();
    var listed := replies(at).virtio;
    ArmPassSends(start, replies(0).devices, replies);
    ScrapeStages(log, replies);
    assert listing.sent[at] == QueryVirtio && p.sent[at] == QueryVirtio;
    forall n | 0 < n < at
      ensures p.sent[n].EnableHistogram? && NeedsArming(replies(0).devices, CachesOf(log).armed, p.sent[n].id)
    {
      assert p.sent[n] == listing.sent[n] == BeforeListing(log, replies).sent[n];
    }
    forall n | at < n < |p.sent|
      ensures Ok(replies(at))
      ensures n < |disks.sent| ==> BusCommand(p.sent[n], VirtioBlk, listed, p.caches.counts)
      ensures n >= |disks.sent| ==> BusCommand(p.sent[n], VirtioScsi, listed, p.caches.counts)
    {
      ScrapeAsks(log, replies, n);
    }
  }

  /** Every disk listed is known to have a histogram, shows one, or is armed. */
  lemma EveryDiskTried(log: seq<Sent>, replies: nat -> Reply, i: nat)
    requires i < |replies(0).devices| && replies(0).devices[i].isDisk
    ensures var id := replies(0).devices[i].id;
            || id in CachesOf(log).armed || ShowsHistogram(replies(0).devices, id)
            || EnableHistogram(id) in ScrapePass(log, replies).sent
  {
    var start := Progress([QueryBlockStats], CachesOf(log), log, []);
    ArmPassArms(start, replies(0).devices, replies, replies(0).devices[i].id);
    ScrapeStages(log, replies);
    assert forall c | c in BeforeListing(log, replies).sent :: c in AfterListing(log, replies).sent;
  }

  lemma ListingNumber(log: seq<Sent>, replies: nat -> Reply, at: nat)
    requires IsListing(ScrapePass(log, replies).sent, at)
    ensures at == BeforeListing(log, replies).At()
  {
    ScrapeStages(log, replies);
    var n := BeforeListing(log, replies).At();
    assert AfterListing(log, replies).sent[n] == QueryVirtio;
    assert ScrapePass(log, replies).sent[n] == QueryVirtio;
  }

  /** Every named disk or controller listed has its count in the cache or is asked for it; and every queue of it is
      asked for, unless it turned out to have none. */
  lemma EveryDeviceAsked(log: seq<Sent>, replies: nat -> Reply, at: nat, i: nat, bus: Bus)
    requires IsListing(ScrapePass(log, replies).sent, at) && replies(at).fate == Answered(true)
    requires i < |replies(at).virtio| && replies(at).virtio[i].bus == Some(bus) && replies(at).virtio[i].named
    ensures var p, path := ScrapePass(log, replies), replies(at).virtio[i].path;
            && (path in CachesOf(log).counts || VirtioStatus(path) in p.sent)
            && AllAsked(p, bus, path, replies)
  {
    var n := ScrapeSends(log, replies);
    assert n == at;
    ListingNumber(log, replies, at);
    var p, listing, disks := ScrapePass(log, replies), AfterListing(log, replies), AfterDisks(log, replies);
    var listed := replies(at).virtio;
    ScrapeStages(log, replies);
    ArmPassSends(Progress([QueryBlockStats], CachesOf(log), log, []), replies(0).devices, replies);
    if bus == VirtioBlk {
      BusPassAsks(listing, bus, listed, i, replies);
      AllAskedLasts(disks, p, bus, listed[i].path, replies);
    } else {
      BusPassAsks(disks, bus, listed, i, replies);
      if listed[i].path in disks.caches.counts && listed[i].path !in listing.caches.counts {
        BusPassCounts(listing, VirtioBlk, listed, replies, listed[i].path);
      }
    }
  }

  /** Command k asked for this queue and was answered with these values. */
  predicate AnsweredBy(q: Virtqueue, sent: seq<Command>, k: nat, replies: nat -> Reply) {
    && k < |sent| && sent[k] == QueueStatus(q.bus, q.path, q.queue) && replies(k).fate == Answered(true)
    && q.inuse == replies(k).inuse && q.vringNum == replies(k).vringNum
  }

  lemma {:induction false} QueuesInMeaning(sent: seq<Command>, n: nat, replies: nat -> Reply, q: Virtqueue)
    requires n <= |sent|
    ensures q in QueuesIn(sent, n, replies) <==> exists k :: 0 <= k < n && AnsweredBy(q, sent, k, replies)
  {
    if n > 0 {
      QueuesInMeaning(sent, n - 1, replies, q);
      assert AnsweredBy(q, sent, n - 1, replies) <==>
               q in QueuesIn(sent, n, replies)[|QueuesIn(sent, n - 1, replies)|..];
    }
  }

  /** A result contains a queue if and only if some named disk or controller that was listed has it under its count,
      it was asked for, and the monitor answered with those values. */
  lemma QueuesReported(log: seq<Sent>, replies: nat -> Reply, at: nat, q: Virtqueue)
    requires ScrapeOf(log, replies).Some? && IsListing(ScrapePass(log, replies).sent, at)
    ensures var p := ScrapePass(log, replies);
            q in ScrapeOf(log, replies).value.queues <==>
              && replies(at).fate == Answered(true) && ListedOn(replies(at).virtio, q.bus, q.path)
              && q.path in p.caches.counts && q.queue < p.caches.counts[q.path]
              && exists k :: AnsweredBy(q, p.sent, k, replies)
  {
    var p := ScrapePass(log, replies);
    ScrapeQueues(log, replies);
    QueuesInMeaning(p.sent, |p.sent|, replies, q);
    var n := ScrapeSends(log, replies);
    assert n == at;
    if k: nat :| AnsweredBy(q, p.sent, k, replies) {
      assert k != 0 && k != at && !(0 < k < at);
      assert p.sent[k].path == q.path;
    }
  }

  /** And it reports them in the order in which they were asked for. */
  lemma QueuesInOrder(log: seq<Sent>, replies: nat -> Reply)
    requires ScrapeOf(log, replies).Some?
    ensures var p := ScrapePass(log, replies);
            ScrapeOf(log, replies).value.queues == QueuesIn(p.sent, |p.sent|, replies)
  {
    ScrapeQueues(log, replies);
  }

  /** A scrape has no result exactly if the disks could not be listed or the context of one of its commands ended
      while the command ran. */
  lemma ScrapeFails(log: seq<Sent>, replies: nat -> Reply)
    ensures ScrapeOf(log, replies).None? <==>
              || replies(0).fate != Answered(true)
              || exists n :: 0 <= n < |ScrapePass(log, replies).sent| && replies(n).fate == CtxFires
  {
  }

  /** What a scrape writes to the log is exactly what it found out: each entry is about a listed disk or a command
      with its answer, and each command that fills a cache has its entry. */
  lemma ScrapeLogs(log: seq<Sent>, replies: nat -> Reply)
    ensures var p := ScrapePass(log, replies);
            && log <= p.log
            && (forall k | |log| <= k < |p.log| :: EntryTrue(p.log[k], p.sent, replies(0).devices, replies))
            && forall n | 0 <= n < |p.sent| :: Logged(p.sent, n, p.log, |log|, replies)
  {
    var start, devices := Progress([QueryBlockStats], CachesOf(log), log, []), replies(0).devices;
    assert LogTrue(start, |log|, devices, replies);
    ArmPassTrue(start, devices, |devices|, |log|, replies);
    assert devices[..|devices|] == devices;
    var before, listing := BeforeListing(log, replies), AfterListing(log, replies);
    LogGrowsTrue(before, |log|, devices, replies, [QueryVirtio], []);
    assert before.log + [] == before.log;
    ScrapeStages(log, replies);
    ArmPassFurther(start, devices, 0, replies);
    var listed := replies(before.At()).virtio;
    BusPassTrue(listing, VirtioBlk, listed, |log|, devices, replies);
    BusPassTrue(AfterDisks(log, replies), VirtioScsi, listed, |log|, devices, replies);
  }

  /** The disks reported are those that show a histogram. */
  lemma {:induction false} ReportedExactly(devices: seq<Device>, d: Device)
    ensures d in Reported(devices) <==> d in devices && d.isDisk && d.hasHistogram
  {
    if devices != [] {
      ReportedExactly(devices[..|devices| - 1], d);
      assert devices == devices[..|devices| - 1] + [devices[|devices| - 1]];
    }
  }

  lemma ReportedLast(devices: seq<Device>, d: Device)
    ensures Reported(devices + [d]) == Reported(devices) + if d.isDisk && d.hasHistogram then [d] else []
  {
    assert (devices + [d])[..|devices|] == devices;
  }

  lemma LastApart<T>(a: seq<T>, b: seq<T>)
    requires b != []
    ensures a + b == a + b[..|b| - 1] + [b[|b| - 1]] && b == b[..|b| - 1] + [b[|b| - 1]]
  {
  }

  lemma {:induction false} ReportedJoins(a: seq<Device>, b: seq<Device>)
    ensures Reported(a + b) == Reported(a) + Reported(b)
    decreases |b|
  {
    if b == [] {
      assert a + b == a;
    } else {
      var n := |b| - 1;
      ReportedJoins(a, b[..n]);
      ReportedLast(a + b[..n], b[n]);
      ReportedLast(b[..n], b[n]);
      LastApart(a, b);
    }
  }

  /** Each disk that shows a histogram is reported, in its place, as often as it is listed, and nothing else is. */
  lemma ReportedParts(a: seq<Device>, d: Device, b: seq<Device>)
    ensures Reported(a + [d] + b) == Reported(a) + (if d.isDisk && d.hasHistogram then [d] else []) + Reported(b)
  {
    ReportedJoins(a + [d], b);
    ReportedLast(a, d);
  }

  class VmConnection {
    const id: string
    var clientClosed: bool     // client.Closed(); with no other user also whether the transport is closed
    var closed: bool
    var armed: set<string>
    var numQueues: map<string, int>
    ghost var log: seq<Sent>
    ghost var sent: seq<Command>   // the commands of the scrape in progress, or of the last one

    ghost predicate CachesFit()
      reads this`log, this`armed, this`numQueues
    {
      CachesAfter(log, |log|) == Some(Caches(armed, numQueues))
    }

    ghost predicate Coherent()
      reads this
    {
      (closed ==> clientClosed) && CachesFit()
    }

    constructor (id: string)
      ensures this.id == id && !closed && !clientClosed && log == [] && Coherent()
    {
      this.id := id;
      clientClosed, closed, armed, numQueues := false, false, {}, map[];
      log, sent := [], [];
    }

    /** The connection in the middle of a scrape. */
    ghost function Here(queues: seq<Virtqueue>): (p: Progress)
      reads this`log, this`sent, this`armed, this`numQueues
    {
      Progress(sent, Caches(armed, numQueues), log, queues)
    }

    ghost method Record(e: Sent)
      requires Disciplined(log) && Justified(CachesAfter(log, |log|).value, e)
      modifies this`log
      ensures log == old(log) + [e]
      ensures CachesAfter(log, |log|) == Some(Updated(CachesAfter(old(log), |old(log)|).value, e))
    {
      PrefixKept(log, e, |log|);
      log := log + [e];
    }

    method Close()
      requires closed ==> clientClosed
      modifies this`closed, this`clientClosed
      ensures closed && clientClosed
    {
      if !closed {
        closed := true;
        clientClosed := true;
      }
    }

    /** One monitor command through the client's `call`. */
    method Call(command: Command, fate: Fate) returns (out: QmpClient.Outcome)
      modifies this`clientClosed, this`sent
      ensures QmpClient.CallContract(old(clientClosed), fate.CtxDone?, out, clientClosed, !fate.Answered?)
      ensures forall ok :: out == QmpClient.FnResult(ok) <==> fate == Answered(ok) && !old(clientClosed)
      ensures clientClosed <==> old(clientClosed) || fate.CtxFires?
      ensures sent == old(sent) + [command]
    {
      sent := sent + [command];
      if fate.CtxDone? {
        return QmpClient.CtxErr;
      }
      if clientClosed {
        return QmpClient.ClosedErr;
      }
      if fate.CtxFires? {
        clientClosed := true;
        return QmpClient.Cancelled;
      }
      return QmpClient.FnResult(fate.ok);
    }

    /** One disk of the arming loop. `n` counts the commands of this scrape. */
    method ArmOne(d: Device, replies: nat -> Reply, n: nat) returns (n': nat)
      requires Coherent() && !closed && !clientClosed && n == |sent|
      modifies this`clientClosed, this`armed, this`log, this`sent
      ensures Coherent() && old(log) <= log && n' == |sent| >= n
      ensures Here([]) == ArmStep(old(Here([])), d, replies)
      ensures clientClosed <==> Fires(replies, n, n')
    {
      n' := n;
      if !d.isDisk || d.id in armed {
        return;
      }
      if !d.hasHistogram {
        var out := Call(EnableHistogram(d.id), replies(n).fate);
        n' := n + 1;
        Record(Arm(d, out == QmpClient.FnResult(true)));
        if out != QmpClient.FnResult(true) {
          return;
        }
      } else {
        Record(Seen(d));
      }
      armed := armed + {d.id};
    }

    /** The arming loop, from command n on; false means the scrape has to end. */
    method ArmDevices(devices: seq<Device>, replies: nat -> Reply, n: nat) returns (alive: bool, n': nat)
      requires Coherent() && !closed && !clientClosed && n == |sent|
      modifies this`clientClosed, this`armed, this`log, this`sent
      ensures Coherent() && old(log) <= log && n' == |sent| && (alive <==> !clientClosed)
      ensures alive <==> !Fires(replies, n, ArmPass(old(Here([])), devices, replies).At())
      ensures alive ==> Here([]) == ArmPass(old(Here([])), devices, replies)
    {
      n' := n;
      ghost var start := Here([]);
      for i := 0 to |devices|
        invariant Coherent() && !clientClosed && old(log) <= log && n <= n' == |sent|
        invariant Here([]) == ArmPass(start, devices[..i], replies) && !Fires(replies, n, n')
      {
        assert devices[..i + 1][..i] == devices[..i];
        ghost var m := n';
        n' := ArmOne(devices[i], replies, n');
        if clientClosed {
          ArmPassFurther(start, devices, i + 1, replies);
          FiresWithin(replies, n, m, n', ArmPass(start, devices, replies).At());
          return false, n';
        }
      }
      assert devices[..|devices|] == devices;
      return true, n';
    }

    /** The queue count of a path: from the cache, or asked for. None means the device is passed over. */
    method QueueCount(path: string, replies: nat -> Reply, n: nat) returns (nq: Option<int>, n': nat)
      requires Coherent() && !closed && !clientClosed && n == |sent|
      modifies this`clientClosed, this`numQueues, this`log, this`sent
      ensures Coherent() && old(log) <= log && n' == |sent| >= n
      ensures Here([]) == CountStep(old(Here([])), path, replies)
      ensures clientClosed <==> Fires(replies, n, n')
      ensures nq.Some? ==> !clientClosed
      ensures (if nq.Some? then nq.value else 0) == CountFor(old(Here([])), path, replies)
    {
      if path in numQueues {
        return Some(numQueues[path]), n;
      }
      var out := Call(VirtioStatus(path), replies(n).fate);
      nq := if out == QmpClient.FnResult(true) then Some(replies(n).numVqs) else None;
      Record(StatusQuery(path, nq));
      if nq.Some? && nq.value > 0 {
        numQueues := numQueues[path := nq.value];
      }
      return nq, n + 1;
    }

    /** Ask for every queue of one device, with commands n, n + 1 and so on. */
    method QueryQueues(bus: Bus, path: string, nq: int, replies: nat -> Reply, n: nat, queues: seq<Virtqueue>)
      returns (queues': seq<Virtqueue>, n': nat)
      requires !closed && !clientClosed && n == |sent|
      modifies this`clientClosed, this`sent
      ensures clientClosed <==> Fires(replies, n, n + if nq > 0 then nq else 0)
      ensures n <= n' == |sent|
      ensures !clientClosed ==> Here(queues') == QueueStep(old(Here(queues)), bus, path, nq, replies)
    {
      queues', n' := queues, n;
      ghost var start := Here(queues);
      var qi := 0;
      while qi < nq
        invariant 0 <= qi && (qi <= nq || qi == 0) && n' == n + qi == |sent| && !clientClosed && !Fires(replies, n, n')
        invariant Here(queues') == QueueStep(start, bus, path, qi, replies)
      {
        var out := Call(QueueStatus(bus, path, qi), replies(n').fate);
        if out == QmpClient.FnResult(true) {
          queues' := queues' + [Virtqueue(bus, path, qi, replies(n').inuse, replies(n').vringNum)];
        } else if clientClosed {
          n' := n' + 1;
          return;
        }
        n' := n' + 1;
        qi := qi + 1;
      }
    }

    /** One device of a bus pass: its queue count, then its queues. */
    method QueryDevice(bus: Bus, v: VirtioDevice, replies: nat -> Reply, n: nat, queues: seq<Virtqueue>)
      returns (queues': seq<Virtqueue>, n': nat)
      requires Coherent() && !closed && !clientClosed && n == |sent|
      modifies this`clientClosed, this`numQueues, this`log, this`sent
      ensures Coherent() && old(log) <= log && n <= n' == |sent|
      ensures clientClosed <==> Fires(replies, n, DeviceStep(old(Here(queues)), bus, v, replies).At())
      ensures !clientClosed ==> Here(queues') == DeviceStep(old(Here(queues)), bus, v, replies)
    {
      queues', n' := queues, n;
      if !OnBus(v, bus) {
        return;
      }
      ghost var start := Here(queues);
      var nq;
      nq, n' := QueueCount(v.path, replies, n);
      CountOnly(start, queues, v.path, replies);
      ghost var mid := CountStep(start, v.path, replies);
      QueuesFurther(mid, bus, v.path, CountFor(start, v.path, replies), replies);
      if nq.None? {
        return;
      }
      queues', n' := QueryQueues(bus, v.path, nq.value, replies, n', queues);
    }

    /** One pass over the listed devices, for one bus. */
    method QueryBus(bus: Bus, listed: seq<VirtioDevice>, replies: nat -> Reply, n: nat, queues: seq<Virtqueue>)
      returns (queues': seq<Virtqueue>, n': nat)
      requires Coherent() && !closed && !clientClosed && n == |sent|
      modifies this`clientClosed, this`numQueues, this`log, this`sent
      ensures Coherent() && old(log) <= log && n <= n' == |sent|
      ensures clientClosed <==> Fires(replies, n, BusPass(old(Here(queues)), bus, listed, replies).At())
      ensures !clientClosed ==> Here(queues') == BusPass(old(Here(queues)), bus, listed, replies)
    {
      queues', n' := queues, n;
      ghost var start := Here(queues);
      for i := 0 to |listed|
        invariant Coherent() && !clientClosed && old(log) <= log && n <= n' == |sent|
        invariant Here(queues') == BusPass(start, bus, listed[..i], replies) && !Fires(replies, n, n')
      {
        assert listed[..i + 1][..i] == listed[..i];
        ghost var m, next := n', BusPass(start, bus, listed[..i + 1], replies);
        queues', n' := QueryDevice(bus, listed[i], replies, n', queues');
        if clientClosed {
          BusPassFurther(start, bus, listed, i + 1, replies);
          FiresWithin(replies, n, m, next.At(), BusPass(start, bus, listed, replies).At());
          return;
        }
      }
      assert listed[..|listed|] == listed;
    }

    /** The virtqueue half of a scrape, from command n on; None means the client closed. */
    method QueryVirtqueues(replies: nat -> Reply, n: nat) returns (r: Option<seq<Virtqueue>>)
      requires Coherent() && !closed && !clientClosed && n == |sent|
      modifies this`clientClosed, this`numQueues, this`log, this`sent
      ensures Coherent() && old(log) <= log && (r.Some? <==> !clientClosed)
      ensures clientClosed <==> Fires(replies, n, VirtioPass(old(Here([])), replies).At())
      ensures r.Some? ==> Here(r.value) == VirtioPass(old(Here([])), replies)
    {
      var out := Call(QueryVirtio, replies(n).fate);
      if out != QmpClient.FnResult(true) {
        return if clientClosed then None else Some([]);
      }
      var listed := replies(n).virtio;
      ghost var start := Here([]);
      BusPassFurther(start, VirtioBlk, listed, 0, replies);
      BusPassFurther(BusPass(start, VirtioBlk, listed, replies), VirtioScsi, listed, 0, replies);
      var queues, next := QueryBus(VirtioBlk, listed, replies, n + 1, []);
      if clientClosed {
        return None;
      }
      queues, next := QueryBus(VirtioScsi, listed, replies, next, queues);
      if clientClosed {
        return None;
      }
      return Some(queues);
    }

    /** The part of a scrape after its first command. */
    method ScrapeRest(replies: nat -> Reply, ghost start: seq<Sent>) returns (r: Option<VmiResult>)
      requires Coherent() && !closed && !clientClosed && sent == [QueryBlockStats] && log == start
      modifies this`clientClosed, this`armed, this`numQueues, this`log, this`sent
      ensures Coherent() && start <= log && (r.Some? <==> !clientClosed)
      ensures clientClosed <==> Fires(replies, 1, ScrapePass(start, replies).At())
      ensures r.Some? ==> var p := ScrapePass(start, replies);
                r.value == VmiResult(Reported(replies(0).devices), p.queues) && log == p.log && sent == p.sent
    {
      ghost var armed := ArmPass(Here([]), replies(0).devices, replies);
      ArmPassFurther(Here([]), replies(0).devices, 0, replies);
      VirtioPassFurther(armed, replies);
      var alive, n := ArmDevices(replies(0).devices, replies, 1);
      if !alive {
        FiresWithin(replies, 1, 1, armed.At(), ScrapePass(start, replies).At());
        return None;
      }
      var devices := ReportDevices(replies(0).devices);
      var queues := QueryVirtqueues(replies, n);
      if queues.None? {
        FiresWithin(replies, 1, n, ScrapePass(start, replies).At(), ScrapePass(start, replies).At());
        return None;
      }
      return Some(VmiResult(devices, queues.value));
    }

    /** scrapeVM. No result is an error; a result leaves the client open. */
    method Scrape(replies: nat -> Reply) returns (r: Option<VmiResult>)
      requires Coherent()
      modifies this`clientClosed, this`armed, this`numQueues, this`log, this`sent
      ensures Coherent() && old(log) <= log
      ensures r == if old(clientClosed) then None else ScrapeOf(old(log), replies)
      ensures r.Some? ==> !closed && !clientClosed
      ensures r.Some? ==> var p := ScrapePass(old(log), replies); log == p.log && sent == p.sent
      ensures r.None? ==> replies(0).fate != Answered(true) || clientClosed
    {
      if closed {
        return None;
      }
      sent := [];
      var out := Call(QueryBlockStats, replies(0).fate);
      if out != QmpClient.FnResult(true) {
        return None;
      }
      r := ScrapeRest(replies, log);
      if clientClosed {
        FiresWithin(replies, 0, 1, ScrapePass(old(log), replies).At(), ScrapePass(old(log), replies).At());
      }
    }
  }

  // The poller

  /** A running target: its container, whether the second CRI lookup finds it, and whether it can be dialled. */
  datatype Target = Target(containerID: string, found: bool, dials: bool)

  /** activeIDs */
  function ActiveIds(targets: seq<Target>): (ids: set<string>) {
    set t | t in targets :: t.containerID
  }

  /** Containers that are found again and can be dialled. */
  function Reachable(targets: seq<Target>): (ids: set<string>)
    ensures ids <= ActiveIds(targets)
  {
    set t | t in targets && t.found && t.dials :: t.containerID
  }

  lemma ReachableStep(targets: seq<Target>, i: nat)
    requires i < |targets|
    ensures Reachable(targets[..i + 1])
         == Reachable(targets[..i]) + if targets[i].found && targets[i].dials then {targets[i].containerID} else {}
  {
    assert targets[..i + 1] == targets[..i] + [targets[i]];
  }

  /** The log of every connection in the map. */
  type Logs = map<string, seq<Sent>>

  type Monitors = string -> (nat -> Reply)

  /** The logs of these containers only. */
  ghost function Restrict(h: Logs, ids: set<string>): (r: Logs) {
    map id | id in h && id in ids :: h[id]
  }

  /** The logs with an empty one for each of these containers that is new. */
  ghost function Extend(h: Logs, ids: set<string>): (r: Logs) {
    map id | id in h.Keys + ids :: if id in h then h[id] else []
  }

  /** What a poll works on: the connections still active, and those newly reached, which start afresh. */
  ghost function Worked(before: Logs, targets: seq<Target>): (was: Logs) {
    map id | id in before.Keys * ActiveIds(targets) + Reachable(targets) :: if id in before then before[id] else []
  }

  lemma WorkedOn(before: Logs, targets: seq<Target>)
    ensures Extend(Restrict(before, ActiveIds(targets)), Reachable(targets)) == Worked(before, targets)
  {
  }

  lemma ExtendOne(h: Logs, id: string)
    ensures Extend(h, {id}) == if id in h then h else h[id := []]
  {
  }

  lemma ExtendNone(h: Logs)
    ensures Extend(h, {}) == h
  {
  }

  lemma ExtendStep(h: Logs, ids: set<string>, t: Target)
    ensures Extend(Extend(h, ids), if t.containerID !in h.Keys && t.found && t.dials then {t.containerID} else {})
         == Extend(h, ids + if t.found && t.dials then {t.containerID} else {})
  {
  }

  lemma DialStep(h: Logs, targets: seq<Target>, i: nat)
    requires i < |targets|
    ensures var t := targets[i];
            Extend(Extend(h, Reachable(targets[..i])),
                   if t.containerID !in h.Keys && t.found && t.dials then {t.containerID} else {})
            == Extend(h, Reachable(targets[..i + 1]))
  {
    ReachableStep(targets, i);
    ExtendStep(h, Reachable(targets[..i]), targets[i]);
  }

  /** The map after one scrape: without the container if it failed, else with its log grown. */
  ghost function Applied(h: Logs, id: string, replies: nat -> Reply): (h': Logs)
    requires id in h
  {
    if ScrapeOf(h[id], replies).None? then h - {id} else h[id := ScrapePass(h[id], replies).log]
  }

  lemma MinusUpdated(h: Logs, id: string, log: seq<Sent>)
    ensures h[id := log] - {id} == h - {id}
  {
  }

  lemma AppliedIs(h: Logs, id: string, replies: nat -> Reply, r: Option<VmiResult>, log: seq<Sent>)
    requires id in h && r == ScrapeOf(h[id], replies) && (r.Some? ==> log == ScrapePass(h[id], replies).log)
    ensures Applied(h, id, replies) == if r.None? then h - {id} else h[id := log]
  {
  }

  /** The logs once the containers in `done` have been scraped. */
  ghost function Expected(was: Logs, done: set<string>, replies: Monitors): (h: Logs) {
    map id | id in was && !(id in done && ScrapeOf(was[id], replies(id)).None?) ::
      if id in done then ScrapePass(was[id], replies(id)).log else was[id]
  }

  /** Those that failed. */
  ghost function Failed(was: Logs, done: set<string>, replies: Monitors): (ids: set<string>) {
    set id | id in was && id in done && ScrapeOf(was[id], replies(id)).None?
  }

  /** What the others published. */
  ghost function Published(was: Logs, done: set<string>, replies: Monitors): (m: map<string, VmiResult>) {
    map id | id in was && id in done && ScrapeOf(was[id], replies(id)).Some? :: ScrapeOf(was[id], replies(id)).value
  }

  lemma ExpectedNone(was: Logs, replies: Monitors)
    ensures Expected(was, {}, replies) == was && Failed(was, {}, replies) == {} && Published(was, {}, replies) == map[]
  {
  }

  lemma ExpectedStep(was: Logs, done: set<string>, replies: Monitors, id: string)
    requires id in was && id !in done
    ensures id in Expected(was, done, replies) && Expected(was, done, replies)[id] == was[id]
    ensures Applied(Expected(was, done, replies), id, replies(id)) == Expected(was, done + {id}, replies)
  {
  }

  /** What the scrapes of the containers in `done` added up to. */
  ghost predicate Tallied(was: Logs, done: set<string>, replies: Monitors, published: map<string, VmiResult>,
                          failed: set<string>) {
    published == Published(was, done, replies) && failed == Failed(was, done, replies)
  }

  lemma TalliedStep(was: Logs, done: set<string>, replies: Monitors, published: map<string, VmiResult>,
                    failed: set<string>, id: string, r: Option<VmiResult>)
    requires Tallied(was, done, replies, published, failed)
    requires id in was && id !in done && r == ScrapeOf(was[id], replies(id))
    ensures r.Some? ==> Tallied(was, done + {id}, replies, published[id := r.value], failed)
    ensures r.None? ==> Tallied(was, done + {id}, replies, published, failed + {id})
  {
  }

  lemma OneLess(all: set<string>, todo: set<string>, id: string)
    requires id in todo && todo <= all
    ensures all - (todo - {id}) == all - todo + {id} && id !in all - todo
  {
  }

  /** One poll's worth of surroundings: the running targets, and what each container's monitor replies. */
  datatype Surroundings = Surroundings(targets: seq<Target>, replies: Monitors)

  /** A poll scrapes every connection still active and every new one, exactly as its own log and its own
      monitor's replies say: it publishes a result and its log grows, or it fails and is gone. */
  ghost function AfterPoll(before: Logs, input: Surroundings): (after: Logs) {
    var was := Worked(before, input.targets);
    Expected(was, was.Keys, input.replies)
  }

  ghost function PollResults(before: Logs, input: Surroundings): (results: map<string, VmiResult>) {
    var was := Worked(before, input.targets);
    Published(was, was.Keys, input.replies)
  }

  ghost function PollFailures(before: Logs, input: Surroundings): (ids: set<string>) {
    var was := Worked(before, input.targets);
    Failed(was, was.Keys, input.replies)
  }

  /** Every container the poll works on is active; it fails, or it has a result and stays. */
  lemma PollParts(before: Logs, input: Surroundings)
    ensures AfterPoll(before, input).Keys == PollResults(before, input).Keys
    ensures PollFailures(before, input) !! AfterPoll(before, input).Keys
    ensures AfterPoll(before, input).Keys + PollFailures(before, input)
         == before.Keys * ActiveIds(input.targets) + Reachable(input.targets) <= ActiveIds(input.targets)
  {
  }

  /** A poll scrapes a container exactly if it is a target and already has a connection, or was found and can be
      dialled; a new connection starts with nothing asked. It is a failure if the scrape fails, and otherwise shows
      what the scrape gave. */
  lemma PollsEach(before: Logs, input: Surroundings, id: string)
    ensures var r := ScrapeOf(if id in before then before[id] else [], input.replies(id));
            var worked := exists t :: t in input.targets && t.containerID == id
                                      && (id in before || (t.found && t.dials));
            && (id in PollFailures(before, input) <==> worked && r.None?)
            && (id in PollResults(before, input) <==> worked && r.Some?)
            && (id in PollResults(before, input) ==> PollResults(before, input)[id] == r.value)
  {
    assert id in Worked(before, input.targets) <==>
           exists t :: t in input.targets && t.containerID == id && (id in before || (t.found && t.dials));
  }

  lemma ScrapeGrows(log: seq<Sent>, replies: nat -> Reply)
    ensures log <= ScrapePass(log, replies).log
  {
    ScrapeLogs(log, replies);
  }

  /** A connection that survives a poll still has all of its log. */
  lemma LogsGrow(before: Logs, input: Surroundings, id: string)
    requires id in before && id in AfterPoll(before, input)
    ensures before[id] <= AfterPoll(before, input)[id]
  {
    ScrapeGrows(before[id], input.replies(id));
  }

  /** What a poller shows at a poll boundary. */
  datatype State = State(logs: Logs, results: map<string, VmiResult>, errors: nat)

  ghost function NextState(s: State, input: Surroundings): (s': State) {
    State(AfterPoll(s.logs, input), PollResults(s.logs, input), s.errors + |PollFailures(s.logs, input)|)
  }

  lemma GrowOnce(s: State, input: Surroundings, s': State, id: string)
    requires s' == NextState(s, input) && id in s.logs && id in s'.logs
    ensures s.logs[id] <= s'.logs[id]
  {
    LogsGrow(s.logs, input, id);
  }

  lemma PrefixOfPrefix<T>(a: seq<T>, b: seq<T>, c: seq<T>)
    requires a <= b <= c
    ensures a <= c
  {
  }

  /** Over any run, a connection that stays keeps all of its log. */
  lemma {:induction false} LogsGrowOver(states: seq<State>, inputs: seq<Surroundings>, i: nat, j: nat, id: string)
    requires Trace(NextState, states, inputs) && i <= j < |states|
    requires forall k | i <= k <= j :: id in states[k].logs
    ensures states[i].logs[id] <= states[j].logs[id]
  {
    if i < j {
      LogsGrowOver(states, inputs, i, j - 1, id);
      GrowOnce(states[j - 1], inputs[j - 1], states[j], id);
      PrefixOfPrefix(states[i].logs[id], states[j - 1].logs[id], states[j].logs[id]);
    }
  }

  class Collector {
    var connections: map<string, VmConnection>
    var results: map<string, VmiResult>     // by container, at most one per VM
    var scrapeErrors: nat
    ghost var dialled: set<VmConnection>    // every connection ever opened

    /** No leaks: a connection is in the map under its own container, or closed. */
    ghost predicate NoLeaks()
      reads this`connections, this`dialled, dialled`closed, dialled`clientClosed
    {
      && (forall id | id in connections ::
            connections[id] in dialled && connections[id].id == id && !connections[id].closed)
      && (forall d | d in dialled && d.closed :: d.clientClosed)
      && (forall d | d in dialled && !d.closed :: d.id in connections && connections[d.id] == d)
    }

    /** The caches of every connection are what its log says. */
    ghost predicate AllFit()
      reads this`dialled, dialled`log, dialled`armed, dialled`numQueues
    {
      forall d | d in dialled :: d.CachesFit()
    }

    ghost predicate Tracked()
      reads this`connections, this`dialled, dialled
    {
      NoLeaks() && AllFit()
    }

    constructor ()
      ensures Tracked() && connections == map[] && dialled == {}
    {
      connections, results, scrapeErrors, dialled := map[], map[], 0, {};
    }

    /** Everything in the map has an open client. */
    ghost predicate Healthy()
      reads this`connections, this`dialled, dialled`closed, dialled`clientClosed
      requires NoLeaks()
    {
      forall id | id in connections :: !connections[id].clientClosed
    }

    ghost function Current(): (h: Logs)
      reads this`connections, this`dialled, dialled`closed, dialled`clientClosed, dialled`log
      requires NoLeaks()
      ensures h.Keys == connections.Keys
    {
      map id | id in connections :: connections[id].log
    }

    lemma CurrentIs(h: Logs)
      requires NoLeaks() && h.Keys == connections.Keys
      requires forall id | id in connections :: connections[id].log == h[id]
      ensures Current() == h
    {
    }

    ghost function Now(): (s: State)
      reads this, dialled
      requires NoLeaks()
    {
      State(Current(), results, scrapeErrors)
    }

    method Drop(conn: VmConnection)
      requires Tracked() && conn.id in connections && connections[conn.id] == conn
      modifies this`connections, conn`closed, conn`clientClosed
      ensures Tracked() && connections == old(connections) - {conn.id} && conn.closed
    {
      conn.Close();
      connections := connections - {conn.id};
    }

    method RemoveDeparted(active: set<string>)
      requires Tracked()
      modifies this`connections, dialled`closed, dialled`clientClosed
      ensures Tracked() && connections.Keys == old(connections.Keys) * active
      ensures forall id | id in connections :: connections[id] == old(connections[id]) && unchanged(connections[id])
      ensures Current() == Restrict(old(Current()), active)
    {
      var todo := connections.Keys;
      while todo != {}
        invariant Tracked() && todo <= old(connections.Keys)
        invariant forall id :: id in connections <==> id in old(connections) && (id in active || id in todo)
        invariant forall id | id in connections :: connections[id] == old(connections[id]) && unchanged(connections[id])
        decreases todo
      {
        var id :| id in todo;
        todo := todo - {id};
        if id !in active {
          Drop(connections[id]);
        }
      }
      CurrentIs(Restrict(old(Current()), active));
    }

    /** Put a new connection in the map, or close it if its container already has one. */
    method Adopt(conn: VmConnection)
      requires Tracked() && Healthy()
      requires conn !in dialled && conn.CachesFit() && !conn.closed && !conn.clientClosed
      modifies this`connections, this`dialled, conn`closed, conn`clientClosed
      ensures Tracked() && Healthy() && dialled == old(dialled) + {conn}
      ensures connections == if conn.id in old(connections) then old(connections) else old(connections)[conn.id := conn]
    {
      dialled := dialled + {conn};
      if conn.id !in connections {
        connections := connections[conn.id := conn];
      } else {
        conn.Close();
      }
    }

    method DialOne(t: Target, existing: set<string>)
      requires Tracked() && Healthy()
      modifies this`connections, this`dialled
      ensures Tracked() && Healthy() && old(dialled) <= dialled && fresh(dialled - old(dialled))
      ensures forall id | id in old(connections) :: id in connections && connections[id] == old(connections[id])
      ensures Current() == Extend(old(Current()),
                                  if t.containerID !in existing && t.found && t.dials then {t.containerID} else {})
    {
      if t.containerID in existing || !t.found || !t.dials {
        ExtendNone(Current());
        return;
      }
      ghost var h := Current();
      var conn := new VmConnection(t.containerID);
      Adopt(conn);
      ExtendOne(h, t.containerID);
      CurrentIs(if t.containerID in h then h else h[t.containerID := []]);
    }

    method DialNew(targets: seq<Target>)
      requires Tracked() && Healthy()
      modifies this`connections, this`dialled
      ensures Tracked() && Healthy() && old(dialled) <= dialled && fresh(dialled - old(dialled))
      ensures forall id | id in old(connections) :: id in connections && connections[id] == old(connections[id])
      ensures Current() == Extend(old(Current()), Reachable(targets))
    {
      var existing := connections.Keys;
      ghost var h := Current();
      ExtendNone(h);
      for i := 0 to |targets|
        invariant Tracked() && Healthy() && old(dialled) <= dialled && fresh(dialled - old(dialled))
        invariant forall id | id in old(connections) :: id in connections && connections[id] == old(connections[id])
        invariant Current() == Extend(h, Reachable(targets[..i]))
      {
        DialStep(h, targets, i);
        DialOne(targets[i], existing);
      }
      assert targets[..|targets|] == targets;
    }

    /** Drop what departed, dial what is new. */
    method Reconcile(targets: seq<Target>)
      requires Tracked() && Healthy()
      modifies this`connections, this`dialled, dialled`closed, dialled`clientClosed
      ensures Tracked() && Healthy() && old(dialled) <= dialled && fresh(dialled - old(dialled))
      ensures forall id | id in old(connections) && id in connections :: connections[id] == old(connections[id])
      ensures Current() == Worked(old(Current()), targets)
    {
      WorkedOn(Current(), targets);
      RemoveDeparted(ActiveIds(targets));
      DialNew(targets);
    }

    /** scrapeVM on a mapped connection. */
    method ScrapeMapped(conn: VmConnection, replies: nat -> Reply) returns (r: Option<VmiResult>)
      requires Tracked() && Healthy() && conn.id in connections && connections[conn.id] == conn
      modifies conn`clientClosed, conn`armed, conn`numQueues, conn`log, conn`sent
      ensures Tracked() && r == ScrapeOf(old(conn.log), replies) && old(conn.log) <= conn.log
      ensures r.Some? ==> Healthy() && conn.log == ScrapePass(old(conn.log), replies).log
      ensures forall id | id in connections && id != conn.id :: !connections[id].clientClosed
      ensures Current() == old(Current())[conn.id := conn.log]
    {
      ghost var h := Current();
      assert conn.CachesFit();
      r := conn.Scrape(replies);
      CurrentIs(h[conn.id := conn.log]);
    }

    /** The failed connection goes; the others are as they were. */
    method DropFailed(conn: VmConnection)
      requires Tracked() && conn.id in connections && connections[conn.id] == conn
      requires forall id | id in connections && id != conn.id :: !connections[id].clientClosed
      modifies this`connections, conn`closed, conn`clientClosed
      ensures Tracked() && Healthy() && connections == old(connections) - {conn.id}
      ensures Current() == old(Current()) - {conn.id}
    {
      ghost var now := Current();
      Drop(conn);
      CurrentIs(now - {conn.id});
    }

    /** One goroutine: scrape, and on error close the connection and take it out of the map. */
    method ScrapeOne(conn: VmConnection, replies: nat -> Reply) returns (r: Option<VmiResult>)
      requires Tracked() && Healthy() && conn.id in connections && connections[conn.id] == conn
      modifies this`connections, conn
      ensures Tracked() && Healthy() && r == ScrapeOf(old(conn.log), replies)
      ensures connections == if r.Some? then old(connections) else old(connections) - {conn.id}
      ensures Current() == Applied(old(Current()), conn.id, replies) && old(conn.log) <= conn.log
    {
      ghost var h := Current();
      r := ScrapeMapped(conn, replies);
      AppliedIs(h, conn.id, replies, r, conn.log);
      if r.None? {
        MinusUpdated(h, conn.id, conn.log);
        DropFailed(conn);
      }
    }

    /** One more container of a poll. */
    method ScrapeNext(conn: VmConnection, replies: Monitors, published: map<string, VmiResult>, failed: set<string>,
                      ghost was: Logs, ghost done: set<string>)
      returns (published': map<string, VmiResult>, failed': set<string>)
      requires Tracked() && Healthy() && conn.id in connections && connections[conn.id] == conn
      requires conn.id in was && conn.id !in done && Current() == Expected(was, done, replies)
      requires Tallied(was, done, replies, published, failed)
      modifies this`connections, conn
      ensures Tracked() && Healthy() && forall d | d in dialled :: old(d.log) <= d.log
      ensures connections == old(connections) || connections == old(connections) - {conn.id}
      ensures Current() == Expected(was, done + {conn.id}, replies)
      ensures Tallied(was, done + {conn.id}, replies, published', failed')
    {
      ExpectedStep(was, done, replies, conn.id);
      var r := ScrapeOne(conn, replies(conn.id));
      TalliedStep(was, done, replies, published, failed, conn.id, r);
      published', failed' := published, failed;
      if r.Some? {
        published' := published[conn.id := r.value];
      } else {
        failed' := failed + {conn.id};
      }
    }

    /** The scrape goroutines, finishing in any order under the results lock. */
    method ScrapeAll(replies: Monitors) returns (published: map<string, VmiResult>, failed: set<string>)
      requires Tracked() && Healthy()
      modifies this`connections, dialled
      ensures Tracked() && Healthy()
      ensures forall id | id in connections :: id in old(connections) && connections[id] == old(connections[id])
      ensures Current() == Expected(old(Current()), old(connections.Keys), replies)
      ensures Tallied(old(Current()), old(connections.Keys), replies, published, failed)
      ensures forall d | d in dialled :: old(d.log) <= d.log
    {
      published, failed := map[], {};
      var todo := connections.Keys;
      ghost var was := Current();
      ghost var done: set<string> := {};
      ExpectedNone(was, replies);
      while todo != {}
        invariant Tracked() && Healthy() && todo <= connections.Keys && todo <= was.Keys && done == was.Keys - todo
        invariant forall id | id in connections :: id in old(connections) && connections[id] == old(connections[id])
        invariant Current() == Expected(was, done, replies) && Tallied(was, done, replies, published, failed)
        invariant forall d | d in dialled :: old(d.log) <= d.log
        decreases todo
      {
        var id :| id in todo;
        OneLess(was.Keys, todo, id);
        published, failed := ScrapeNext(connections[id], replies, published, failed, was, done);
        todo := todo - {id};
        done := done + {id};
      }
      assert done == was.Keys;
    }

    method Publish(published: map<string, VmiResult>, errors: nat)
      requires Tracked() && Healthy()
      modifies this`results, this`scrapeErrors
      ensures Tracked() && Healthy() && Current() == old(Current())
      ensures results == published && scrapeErrors == old(scrapeErrors) + errors
    {
      ghost var h := Current();
      results := published;
      scrapeErrors := scrapeErrors + errors;
      CurrentIs(h);
    }

    /** One poll cycle. Afterwards every connection in the map has an open client; everything else that was
        ever dialled is closed. */
    method Poll(input: Surroundings)
      requires Tracked() && Healthy()
      modifies this, dialled
      ensures Tracked() && Healthy() && old(dialled) <= dialled && fresh(dialled - old(dialled))
      ensures forall id | id in old(connections) && id in connections :: connections[id] == old(connections[id])
      ensures Current() == AfterPoll(old(Current()), input) && results == PollResults(old(Current()), input)
      ensures scrapeErrors == old(scrapeErrors) + |PollFailures(old(Current()), input)|
      ensures forall d | d in old(dialled) :: old(d.log) <= d.log
    {
      Reconcile(input.targets);
      var published, failed := ScrapeAll(input.replies);
      Publish(published, |failed|);
    }

    /** closeAll */
    method CloseAll()
      requires Tracked()
      modifies this`connections, dialled`closed, dialled`clientClosed
      ensures Tracked() && connections == map[]
      ensures forall d | d in dialled :: d.closed && d.clientClosed
    {
      RemoveDeparted({});
    }

    /** One more poll of a run. */
    method PollNext(inputs: seq<Surroundings>, i: nat, ghost states: seq<State>) returns (ghost states': seq<State>)
      requires Tracked() && Healthy() && i < |inputs| && Trace(NextState, states, inputs[..i]) && Now() == states[i]
      modifies this, dialled
      ensures Tracked() && Healthy() && old(dialled) <= dialled && fresh(dialled - old(dialled))
      ensures forall d | d in old(dialled) :: old(d.log) <= d.log
      ensures Trace(NextState, states', inputs[..i + 1]) && states'[0] == states[0] && Now() == states'[i + 1]
    {
      Poll(inputs[i]);
      states' := states + [Now()];
      TraceAdd(NextState, states, inputs, i, Now());
    }

    /** Run: poll after poll until the context ends, then close everything. */
    method Run(inputs: seq<Surroundings>) returns (ghost states: seq<State>)
      requires Tracked() && Healthy()
      modifies this, dialled
      ensures Tracked() && connections == map[] && old(dialled) <= dialled
      ensures forall d | d in dialled :: d.closed && d.clientClosed
      ensures forall d | d in old(dialled) :: old(d.log) <= d.log
      ensures Trace(NextState, states, inputs) && states[0] == old(Now())
      ensures results == states[|inputs|].results && scrapeErrors == states[|inputs|].errors
    {
      states := [Now()];
      for i := 0 to |inputs|
        invariant Tracked() && Healthy() && old(dialled) <= dialled && fresh(dialled - old(dialled))
        invariant forall d | d in old(dialled) :: old(d.log) <= d.log
        invariant Trace(NextState, states, inputs[..i]) && states[0] == old(Now()) && Now() == states[i]
      {
        states := PollNext(inputs, i, states);
      }
      assert inputs[..|inputs|] == inputs;
      CloseAll();
    }
  }
}
