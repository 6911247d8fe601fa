/** Loading and attaching the eBPF programs, with rollback and retry (pkg/ebpf/loader.go). Which
    specs load and which attachments the kernel accepts are inputs. */
module Loader {
  import opened Common

  datatype Subsystem = Block | Nfs | NfsKprobe

  datatype Point = Tracepoint(name: string) | RawTracepoint(name: string) | Kprobe(fn: string) | Kretprobe(fn: string)

  datatype Attachment = Attachment(point: Point, objs: nat)

  /** A loaded collection; `maxEntries` is the size given to its start map, None for the compiled-in one. */
  datatype Objects = Objects(subsystem: Subsystem, maxEntries: Option<nat>)

  /** Everything this process holds open in the kernel. */
  datatype Kernel = Kernel(next: nat, links: map<nat, Attachment>, objects: map<nat, Objects>)

  const IDLE := Kernel(0, map[], map[])

  /** How one attempt to load a subsystem goes. */
  datatype Env = Env(spec: bool, objects: bool, attaches: Point -> bool)

  const BLOCK_POINTS: seq<Point> := [Tracepoint("block_rq_issue"), Tracepoint("block_rq_complete")]

  const NFS_POINTS: seq<Point> :=
    [RawTracepoint("nfs_initiate_read"), RawTracepoint("nfs_initiate_write"),
     RawTracepoint("nfs_readpage_done"), RawTracepoint("nfs_writeback_done")]

  datatype KprobeTarget = KprobeTarget(fn: string, optional: bool)

  const KPROBES: seq<KprobeTarget> :=
    [KprobeTarget("nfs_file_read", false), KprobeTarget("nfs_file_write", false), KprobeTarget("nfs_file_open", false),
     KprobeTarget("nfs4_file_open", true), KprobeTarget("nfs_getattr", false)]

  /** uint32(mapSize), where a size was configured. */
  function Entries(mapSize: int): (n: Option<nat>)
    ensures mapSize <= 0 ==> n == None
    ensures 0 < mapSize < 0x1_0000_0000 ==> n == Some(mapSize)
    ensures n.Some? ==> n.value < 0x1_0000_0000 && (mapSize - n.value) % 0x1_0000_0000 == 0
  {
    if mapSize > 0 then Some(mapSize % 0x1_0000_0000) else None
  }

  predicate Numbered(k: Kernel) {
    (forall id | id in k.links :: id < k.next) && (forall id | id in k.objects :: id < k.next)
  }

  /** The same things are open. */
  predicate SameOpen(j: Kernel, k: Kernel) {
    j.links == k.links && j.objects == k.objects
  }

  function Load(k: Kernel, o: Objects): (k': Kernel) {
    Kernel(k.next + 1, k.links, k.objects[k.next := o])
  }

  function Attach(k: Kernel, p: Point, objs: nat): (k': Kernel) {
    Kernel(k.next + 1, k.links[k.next := Attachment(p, objs)], k.objects)
  }

  function AttachAll(k: Kernel, points: seq<Point>, objs: nat): (k': Kernel) {
    if points == [] then k else Attach(AttachAll(k, points[..|points| - 1], objs), points[|points| - 1], objs)
  }

  function Ids(from: nat, n: nat): (ids: seq<nat>) {
    seq(n, i => from + i)
  }

  function AsSet(ids: seq<nat>): (s: set<nat>) {
    set id | id in ids
  }

  function AsIds(o: Option<nat>): (s: set<nat>) {
    if o.Some? then {o.value} else {}
  }

  lemma IdsAre(from: nat, n: nat)
    ensures forall id: nat :: id in Ids(from, n) <==> from <= id < from + n
  {
    forall id: nat | from <= id < from + n
      ensures id in Ids(from, n)
    {
      assert Ids(from, n)[id - from] == id;
    }
  }

  lemma AttachOneMore(k: Kernel, points: seq<Point>, p: Point, objs: nat)
    ensures AttachAll(k, points + [p], objs) == Attach(AttachAll(k, points, objs), p, objs)
  {
    assert (points + [p])[..|points|] == points;
  }

  /** New links are numbered in order after everything that was open. */
  lemma {:induction false} AttachAllMeaning(k: Kernel, points: seq<Point>, objs: nat)
    requires Numbered(k)
    ensures var k' := AttachAll(k, points, objs);
            && k'.next == k.next + |points| && k'.objects == k.objects && Numbered(k')
            && (forall id :: id in k'.links <==> id in k.links || k.next <= id < k'.next)
            && (forall id | id in k.links :: k'.links[id] == k.links[id])
            && (forall i | 0 <= i < |points| :: k'.links[k.next + i] == Attachment(points[i], objs))
  {
    if points != [] {
      AttachAllMeaning(k, points[..|points| - 1], objs);
    }
  }

  predicate Distinct<T(==)>(s: seq<T>) {
    forall i, j | 0 <= i < j < |s| :: s[i] != s[j]
  }

  /** The entry probes that could be attached. */
  function AttachedFns(targets: seq<KprobeTarget>, attaches: Point -> bool): (fns: seq<string>) {
    if targets == [] then []
    else
      var t := targets[|targets| - 1];
      var early := AttachedFns(targets[..|targets| - 1], attaches);
      if attaches(Kprobe(t.fn)) then early + [t.fn] else early
  }

  function EntryPoints(fns: seq<string>): (points: seq<Point>) {
    seq(|fns|, i requires 0 <= i < |fns| => Kprobe(fns[i]))
  }

  function ReturnPoints(fns: seq<string>): (points: seq<Point>) {
    seq(|fns|, i requires 0 <= i < |fns| => Kretprobe(fns[i]))
  }

  predicate Loads(env: Env, points: seq<Point>) {
    env.spec && env.objects && forall p | p in points :: env.attaches(p)
  }

  /** Each function gets both its probes, or is optional and gets none. */
  predicate TargetsLoad(targets: seq<KprobeTarget>, attaches: Point -> bool) {
    targets == [] ||
    (var t := targets[|targets| - 1];
     && TargetsLoad(targets[..|targets| - 1], attaches)
     && (if attaches(Kprobe(t.fn)) then attaches(Kretprobe(t.fn)) else t.optional))
  }

  predicate KprobesLoad(env: Env) {
    env.spec && env.objects && TargetsLoad(KPROBES, env.attaches)
  }

  /** The attached functions are the targets whose entry probe the kernel accepted, in order. */
  lemma {:induction false} AttachedFnsMeaning(targets: seq<KprobeTarget>, attaches: Point -> bool)
    ensures forall t | t in targets && attaches(Kprobe(t.fn)) :: t.fn in AttachedFns(targets, attaches)
    ensures forall fn | fn in AttachedFns(targets, attaches) ::
              attaches(Kprobe(fn)) && exists t :: t in targets && t.fn == fn
    ensures (forall i, j | 0 <= i < j < |targets| :: targets[i].fn != targets[j].fn) ==>
              Distinct(AttachedFns(targets, attaches))
  {
    if targets != [] {
      AttachedFnsMeaning(targets[..|targets| - 1], attaches);
      assert targets == targets[..|targets| - 1] + [targets[|targets| - 1]];
    }
  }

  /** The two loops fail exactly when that does not hold. */
  lemma {:induction false} TargetsLoadMeaning(targets: seq<KprobeTarget>, attaches: Point -> bool)
    ensures TargetsLoad(targets, attaches) <==>
              && (forall t | t in targets && !t.optional :: attaches(Kprobe(t.fn)))
              && (forall fn | fn in AttachedFns(targets, attaches) :: attaches(Kretprobe(fn)))
  {
    if targets != [] {
      TargetsLoadMeaning(targets[..|targets| - 1], attaches);
      assert targets == targets[..|targets| - 1] + [targets[|targets| - 1]];
    }
  }

  predicate BothProbes(attaches: Point -> bool, fn: string) {
    attaches(Kprobe(fn)) && attaches(Kretprobe(fn))
  }

  lemma LastTarget(targets: seq<KprobeTarget>, t: KprobeTarget, attaches: Point -> bool)
    ensures TargetsLoad(targets + [t], attaches) <==>
              && TargetsLoad(targets, attaches)
              && (if attaches(Kprobe(t.fn)) then attaches(Kretprobe(t.fn)) else t.optional)
  {
    assert (targets + [t])[..|targets|] == targets;
  }

  lemma KprobesUnfold(attaches: Point -> bool)
    ensures TargetsLoad(KPROBES, attaches) <==>
              && BothProbes(attaches, "nfs_file_read") && BothProbes(attaches, "nfs_file_write")
              && BothProbes(attaches, "nfs_file_open") && BothProbes(attaches, "nfs_getattr")
              && (attaches(Kprobe("nfs4_file_open")) ==> attaches(Kretprobe("nfs4_file_open")))
  {
    assert KPROBES == KPROBES[..4] + [KPROBES[4]] && KPROBES[..4] == KPROBES[..3] + [KPROBES[3]];
    assert KPROBES[..3] == KPROBES[..2] + [KPROBES[2]] && KPROBES[..2] == KPROBES[..1] + [KPROBES[1]];
    assert KPROBES[..1] == [] + [KPROBES[0]];
    LastTarget([], KPROBES[0], attaches);
    LastTarget(KPROBES[..1], KPROBES[1], attaches);
    LastTarget(KPROBES[..2], KPROBES[2], attaches);
    LastTarget(KPROBES[..3], KPROBES[3], attaches);
    LastTarget(KPROBES[..4], KPROBES[4], attaches);
  }

  /** What each subsystem needs of the kernel besides its collection: both block tracepoints, all four NFS
      tracepoints, or entry and return probes of four functions, and of a fifth if its entry probe attaches. */
  lemma WhatLoads(env: Env)
    ensures Loads(env, BLOCK_POINTS) <==>
              && env.spec && env.objects && env.attaches(Tracepoint("block_rq_issue"))
              && env.attaches(Tracepoint("block_rq_complete"))
    ensures Loads(env, NFS_POINTS) <==>
              && env.spec && env.objects && env.attaches(RawTracepoint("nfs_initiate_read"))
              && env.attaches(RawTracepoint("nfs_initiate_write")) && env.attaches(RawTracepoint("nfs_readpage_done"))
              && env.attaches(RawTracepoint("nfs_writeback_done"))
    ensures KprobesLoad(env) <==>
              && env.spec && env.objects
              && BothProbes(env.attaches, "nfs_file_read") && BothProbes(env.attaches, "nfs_file_write")
              && BothProbes(env.attaches, "nfs_file_open") && BothProbes(env.attaches, "nfs_getattr")
              && (env.attaches(Kprobe("nfs4_file_open")) ==> env.attaches(Kretprobe("nfs4_file_open")))
  {
    assert BLOCK_POINTS[0] in BLOCK_POINTS && BLOCK_POINTS[1] in BLOCK_POINTS;
    assert NFS_POINTS[0] in NFS_POINTS && NFS_POINTS[1] in NFS_POINTS && NFS_POINTS[2] in NFS_POINTS
           && NFS_POINTS[3] in NFS_POINTS;
    KprobesUnfold(env.attaches);
  }

  /** A subsystem loaded as object collection k.next, with these points attached to it. */
  function Loaded(k: Kernel, o: Objects, points: seq<Point>): (k': Kernel) {
    AttachAll(Load(k, o), points, k.next)
  }

  /** Closing the new links and the new collection leaves open exactly what was open before. */
  lemma RollBack(k: Kernel, o: Objects, points: seq<Point>)
    requires Numbered(k)
    ensures Loaded(k, o, points).links - AsSet(Ids(k.next + 1, |points|)) == k.links
    ensures Loaded(k, o, points).objects - {k.next} == k.objects
  {
    AttachAllMeaning(Load(k, o), points, k.next);
    IdsAre(k.next + 1, |points|);
  }

  // Ownership

  function LinksTo(links: map<nat, Attachment>, o: nat): (m: map<nat, Attachment>) {
    map id | id in links && links[id].objs == o :: links[id]
  }

  /** The attachments of a complete load, in the order they were made. */
  function InOrder(o: nat, points: seq<Point>): (m: map<nat, Attachment>) {
    if points == [] then map[]
    else InOrder(o, points[..|points| - 1])[o + |points| := Attachment(points[|points| - 1], o)]
  }

  /** Collection o is open, and attached to it is exactly this. */
  ghost predicate Serving(k: Kernel, o: nat, points: seq<Point>) {
    o in k.objects && LinksTo(k.links, o) == InOrder(o, points)
  }

  lemma {:induction false} InOrderMeaning(o: nat, points: seq<Point>)
    ensures forall id :: id in InOrder(o, points) <==> o < id <= o + |points|
    ensures forall i | 0 <= i < |points| :: InOrder(o, points)[o + 1 + i] == Attachment(points[i], o)
  {
    if points != [] {
      InOrderMeaning(o, points[..|points| - 1]);
    }
  }

  lemma OneMoreLink(k: Kernel, p: Point, o: nat)
    requires Numbered(k)
    ensures LinksTo(Attach(k, p, o).links, o) == LinksTo(k.links, o)[k.next := Attachment(p, o)]
  {
  }

  lemma {:induction false} LoadedServes(k: Kernel, o: Objects, points: seq<Point>)
    requires Numbered(k)
    requires forall id | id in k.links :: k.links[id].objs in k.objects
    ensures Serving(Loaded(k, o, points), k.next, points)
  {
    if points != [] {
      var early := points[..|points| - 1];
      AttachAllMeaning(Load(k, o), early, k.next);
      LoadedServes(k, o, early);
      OneMoreLink(Loaded(k, o, early), points[|points| - 1], k.next);
    }
  }

  lemma {:induction false} LoadedKeeps(k: Kernel, o: Objects, points: seq<Point>, q: nat)
    requires Numbered(k) && q != k.next
    ensures LinksTo(Loaded(k, o, points).links, q) == LinksTo(k.links, q)
  {
    if points != [] {
      var early := points[..|points| - 1];
      AttachAllMeaning(Load(k, o), early, k.next);
      LoadedKeeps(k, o, early, q);
    }
  }

  ghost predicate Attached(k: Kernel, p: Point, o: nat) {
    exists id :: id in k.links && k.links[id] == Attachment(p, o)
  }

  lemma LinkedPoint(k: Kernel, o: nat, points: seq<Point>, id: nat)
    requires Serving(k, o, points) && id in k.links && k.links[id].objs == o
    ensures o < id <= o + |points| && k.links[id].point == points[id - o - 1]
  {
    InOrderMeaning(o, points);
    assert id in LinksTo(k.links, o);
    var i := id - o - 1;
    assert InOrder(o, points)[o + 1 + i] == Attachment(points[i], o);
  }

  /** A collection in service has each of its points attached exactly once, and nothing else. */
  lemma ServedOnce(k: Kernel, o: nat, points: seq<Point>, p: Point)
    requires Serving(k, o, points)
    ensures p in points <==> Attached(k, p, o)
    ensures Distinct(points) ==>
              forall i, j | i in k.links && j in k.links && k.links[i] == k.links[j] == Attachment(p, o) :: i == j
  {
    InOrderMeaning(o, points);
    if p in points {
      var i :| 0 <= i < |points| && points[i] == p;
      assert o + 1 + i in InOrder(o, points);
      assert o + 1 + i in LinksTo(k.links, o);
    }
    forall id | id in k.links && k.links[id] == Attachment(p, o)
      ensures o < id <= o + |points| && points[id - o - 1] == p
    {
      LinkedPoint(k, o, points, id);
    }
  }

  /** The functions behind a set of entry probes and return probes. */
  function ProbePoints(fns: seq<string>): (points: seq<Point>) {
    EntryPoints(fns) + ReturnPoints(fns)
  }

  predicate Mandatory(fns: seq<string>) {
    forall t | t in KPROBES && !t.optional :: t.fn in fns
  }

  /** A function has a return probe exactly if it has an entry probe, and one of each. */
  lemma ReturnProbesMatch(k: Kernel, o: nat, fns: seq<string>, fn: string)
    requires Serving(k, o, ProbePoints(fns)) && Distinct(fns)
    ensures Attached(k, Kprobe(fn), o) <==> fn in fns
    ensures Attached(k, Kretprobe(fn), o) <==> fn in fns
    ensures forall p, i, j | p in {Kprobe(fn), Kretprobe(fn)} && i in k.links && j in k.links
                             && k.links[i] == k.links[j] == Attachment(p, o) :: i == j
  {
    ServedOnce(k, o, ProbePoints(fns), Kprobe(fn));
    ServedOnce(k, o, ProbePoints(fns), Kretprobe(fn));
    if fn in fns {
      var i :| 0 <= i < |fns| && fns[i] == fn;
      assert ProbePoints(fns)[i] == Kprobe(fn) && ProbePoints(fns)[|fns| + i] == Kretprobe(fn);
    }
  }

  lemma NamesDiffer()
    ensures Distinct(BLOCK_POINTS) && Distinct(NFS_POINTS)
    ensures forall i, j | 0 <= i < j < |KPROBES| :: KPROBES[i].fn != KPROBES[j].fn
  {
    assert NFS_POINTS[0].name[4] != NFS_POINTS[2].name[4] && NFS_POINTS[1].name[4] != NFS_POINTS[3].name[4];
    assert KPROBES[0].fn[9] != KPROBES[2].fn[9] && KPROBES[1].fn[3] != KPROBES[3].fn[3];
  }

  predicate Wanted(fn: string) {
    exists t :: t in KPROBES && t.fn == fn
  }

  /** These functions are the wanted ones whose entry probe attaches, no mandatory one missing, each once. */
  ghost predicate Probes(fns: seq<string>, attaches: Point -> bool) {
    && Mandatory(fns) && Distinct(fns)
    && forall fn | fn in fns :: Wanted(fn) && attaches(Kprobe(fn)) && attaches(Kretprobe(fn))
  }

  /** What loadNFSKprobe ends up probing when it succeeds. */
  lemma ProbesComplete(attaches: Point -> bool)
    requires TargetsLoad(KPROBES, attaches)
    ensures Probes(AttachedFns(KPROBES, attaches), attaches)
  {
    NamesDiffer();
    AttachedFnsMeaning(KPROBES, attaches);
    TargetsLoadMeaning(KPROBES, attaches);
  }

  /** No leak: every open link is published and feeds an open collection. */
  ghost predicate Owned(k: Kernel, links: seq<nat>) {
    Numbered(k) && forall id | id in k.links :: id in links && k.links[id].objs in k.objects
  }

  lemma LoadedOwned(k: Kernel, links: seq<nat>, o: Objects, points: seq<Point>)
    requires Owned(k, links)
    ensures Owned(Loaded(k, o, points), links + Ids(k.next + 1, |points|))
    ensures Loaded(k, o, points).objects == k.objects[k.next := o]
  {
    AttachAllMeaning(Load(k, o), points, k.next);
    IdsAre(k.next + 1, |points|);
    var k' := Loaded(k, o, points);
    forall id | id in k'.links
      ensures id in links + Ids(k.next + 1, |points|) && k'.links[id].objs in k'.objects
    {
      assert id !in k.links ==> k'.links[id] == Attachment(points[id - k.next - 1], k.next);
    }
  }

  /** From k to k' one collection was loaded with these points, everything is still published, and no
      other collection was touched. */
  ghost predicate Grown(k: Kernel, k': Kernel, links: seq<nat>, o: Objects, points: seq<Point>) {
    && Owned(k', links) && k'.objects == k.objects[k.next := o] && Serving(k', k.next, points)
    && forall q | q != k.next :: LinksTo(k'.links, q) == LinksTo(k.links, q)
  }

  lemma LoadedGrows(k: Kernel, links: seq<nat>, o: Objects, points: seq<Point>)
    requires Owned(k, links)
    ensures Grown(k, Loaded(k, o, points), links + Ids(k.next + 1, |points|), o, points)
  {
    LoadedOwned(k, links, o, points);
    LoadedServes(k, o, points);
    forall q | q != k.next
      ensures LinksTo(Loaded(k, o, points).links, q) == LinksTo(k.links, q)
    {
      LoadedKeeps(k, o, points, q);
    }
  }

  /** The entry probes of all these functions, and the return probes of the first i. */
  function ProbesUpTo(fns: seq<string>, i: nat): (points: seq<Point>)
    requires i <= |fns|
    ensures |points| == |fns| + i
  {
    EntryPoints(fns) + ReturnPoints(fns[..i])
  }

  lemma ProbesStep(fns: seq<string>, i: nat)
    requires i < |fns|
    ensures ProbesUpTo(fns, i + 1) == ProbesUpTo(fns, i) + [Kretprobe(fns[i])]
  {
    assert ReturnPoints(fns[..i + 1]) == ReturnPoints(fns[..i]) + [Kretprobe(fns[i])];
  }

  lemma ProbesEnds(fns: seq<string>)
    ensures ProbesUpTo(fns, 0) == EntryPoints(fns) && ProbesUpTo(fns, |fns|) == ProbePoints(fns)
  {
    assert fns[..|fns|] == fns;
  }

  /** What is open is published, every open collection belongs to a subsystem that is up, and each of
      those has exactly its points attached. */
  ghost predicate Held(k: Kernel, links: seq<nat>, block: Option<nat>, nfs: Option<nat>, kprobe: Option<nat>,
                       probed: seq<string>) {
    && Owned(k, links) && (forall o | o in k.objects :: Some(o) in {block, nfs, kprobe})
    && (block.Some? ==> Serving(k, block.value, BLOCK_POINTS))
    && (nfs.Some? ==> Serving(k, nfs.value, NFS_POINTS))
    && (kprobe.Some? ==> Serving(k, kprobe.value, ProbePoints(probed)) && Mandatory(probed) && Distinct(probed))
  }

  lemma HeldWithBlock(o: Objects, probed: seq<string>)
    ensures Held(Loaded(IDLE, o, BLOCK_POINTS), Ids(1, 2), Some(0), None, None, probed)
  {
    LoadedOwned(IDLE, [], o, BLOCK_POINTS);
    LoadedServes(IDLE, o, BLOCK_POINTS);
    assert [] + Ids(1, 2) == Ids(1, 2);
  }

  lemma GrownKeeps(k: Kernel, k': Kernel, links: seq<nat>, o: Objects, points: seq<Point>, q: nat, served: seq<Point>)
    requires Numbered(k) && Grown(k, k', links, o, points) && Serving(k, q, served)
    ensures Serving(k', q, served)
  {
  }

  /** Loading one more subsystem disturbs none of the others. */
  lemma HeldWithNfs(k: Kernel, links: seq<nat>, k': Kernel, links': seq<nat>, block: Option<nat>, kprobe: Option<nat>,
                    probed: seq<string>, o: Objects)
    requires Held(k, links, block, None, kprobe, probed) && Grown(k, k', links', o, NFS_POINTS)
    ensures Held(k', links', block, Some(k.next), kprobe, probed)
  {
    if block.Some? {
      GrownKeeps(k, k', links', o, NFS_POINTS, block.value, BLOCK_POINTS);
    }
    if kprobe.Some? {
      GrownKeeps(k, k', links', o, NFS_POINTS, kprobe.value, ProbePoints(probed));
    }
  }

  lemma HeldWithKprobes(k: Kernel, links: seq<nat>, k': Kernel, links': seq<nat>, block: Option<nat>, nfs: Option<nat>,
                        was: seq<string>, probed: seq<string>, o: Objects)
    requires Held(k, links, block, nfs, None, was) && Grown(k, k', links', o, ProbePoints(probed))
    requires Mandatory(probed) && Distinct(probed)
    ensures Held(k', links', block, nfs, Some(k.next), probed)
  {
    if block.Some? {
      GrownKeeps(k, k', links', o, ProbePoints(probed), block.value, BLOCK_POINTS);
    }
    if nfs.Some? {
      GrownKeeps(k, k', links', o, ProbePoints(probed), nfs.value, NFS_POINTS);
    }
  }

  lemma AttachTwo(k: Kernel, p: Point, q: Point, objs: nat)
    ensures AttachAll(k, [p, q], objs) == Attach(Attach(k, p, objs), q, objs)
  {
    AttachOneMore(k, [p], q, objs);
    AttachOneMore(k, [], p, objs);
    assert [p] + [q] == [p, q] && [] + [p] == [p];
  }

  lemma BlockLoaded(o: Objects)
    ensures Attach(Attach(Load(IDLE, o), BLOCK_POINTS[0], 0), BLOCK_POINTS[1], 0) == Loaded(IDLE, o, BLOCK_POINTS)
    ensures [] + [1] + [2] == Ids(1, 2)
  {
    AttachTwo(Load(IDLE, o), BLOCK_POINTS[0], BLOCK_POINTS[1], 0);
  }

  lemma OneLinkClosed(o: Objects)
    ensures var k := Attach(Load(IDLE, o), BLOCK_POINTS[0], 0);
            k.links - AsSet([] + [1]) == map[] && k.objects - {0} == map[]
  {
    assert 1 in AsSet([] + [1]);
  }

  /** The collection loadBlock leaves published, and the links. */
  function BlockObjs(env: Env): (objs: Option<nat>) {
    if env.spec && env.objects then Some(0) else None
  }

  function BlockLinks(env: Env): (links: seq<nat>) {
    if !env.spec || !env.objects || !env.attaches(BLOCK_POINTS[0]) then []
    else if env.attaches(BLOCK_POINTS[1]) then [1, 2] else [1]
  }

  /** With the second tracepoint missing, a closed collection and a closed link stay published. */
  lemma BlockLeavesTraces()
    ensures var env := Env(true, true, p => p == BLOCK_POINTS[0]);
            !Loads(env, BLOCK_POINTS) && BlockObjs(env) == Some(0) && BlockLinks(env) == [1]
  {
    NamesDiffer();
    assert BLOCK_POINTS[0] != BLOCK_POINTS[1] && BLOCK_POINTS[1] in BLOCK_POINTS;
  }

  class Programs {
    var kernel: Kernel              // the outside world, as far as this process holds it open
    var blockObjs: Option<nat>
    var nfsObjs: Option<nat>
    var nfsKprobeObjs: Option<nat>
    var links: seq<nat>
    var blockHists: Option<nat>     // a map, named by its collection
    var nfsHists: Option<nat>
    var nfsKprobeHists: Option<nat>
    var blockActive: bool
    var nfsActive: bool
    var nfsKprobeActive: bool
    var retryNfs: bool
    var retryNfsKprobe: bool
    const nfsMapSize: int
    const nfsKprobeMapSize: int
    ghost var probed: seq<string>          // the entry probes behind nfsKprobeObjs
    ghost var nfsPublished: nat            // how often loadNFS published
    ghost var kprobePublished: nat

    /** The block collection, while block is active. */
    ghost function BlockUp(): (o: Option<nat>)
      reads this`blockActive, this`blockObjs
    {
      if blockActive then blockObjs else None
    }

    /** Active exactly when published, published at most once, never both active and waiting for a retry. */
    ghost predicate NfsFlags()
      reads this`nfsActive, this`retryNfs, this`nfsObjs, this`nfsHists, this`nfsPublished
    {
      && nfsHists == nfsObjs && (nfsActive <==> nfsObjs.Some?) && !(nfsActive && retryNfs)
      && nfsPublished == (if nfsActive then 1 else 0)
    }

    /** The same for the kprobes. */
    ghost predicate NfsKprobeFlags()
      reads this`nfsKprobeActive, this`retryNfsKprobe, this`nfsKprobeObjs, this`nfsKprobeHists, this`kprobePublished
    {
      && nfsKprobeHists == nfsKprobeObjs && (nfsKprobeActive <==> nfsKprobeObjs.Some?)
      && !(nfsKprobeActive && retryNfsKprobe) && kprobePublished == (if nfsKprobeActive then 1 else 0)
    }

    ghost predicate Valid()
      reads this
    {
      && Held(kernel, links, BlockUp(), nfsObjs, nfsKprobeObjs, probed)
      && (blockActive ==> blockObjs.Some? && blockHists == blockObjs) && NfsFlags() && NfsKprobeFlags()
    }

    constructor (nfsMapSize: int, nfsKprobeMapSize: int)
      ensures this.nfsMapSize == nfsMapSize && this.nfsKprobeMapSize == nfsKprobeMapSize
      ensures Valid() && kernel == IDLE && links == [] && !blockActive && !nfsActive && !nfsKprobeActive && !retryNfs
              && !retryNfsKprobe
      ensures blockObjs == blockHists == nfsObjs == nfsKprobeObjs == None
    {
      this.nfsMapSize, this.nfsKprobeMapSize := nfsMapSize, nfsKprobeMapSize;
      kernel, links := IDLE, [];
      blockObjs, nfsObjs, nfsKprobeObjs := None, None, None;
      blockHists, nfsHists, nfsKprobeHists := None, None, None;
      blockActive, nfsActive, nfsKprobeActive := false, false, false;
      retryNfs, retryNfsKprobe := false, false;
      probed, nfsPublished, kprobePublished := [], 0, 0;
    }

    method LoadObjects(o: Objects) returns (objs: nat)
      modifies this`kernel
      ensures kernel == Load(old(kernel), o) && objs == old(kernel.next)
    {
      objs := kernel.next;
      kernel := Load(kernel, o);
    }

    method AttachLink(p: Point, objs: nat) returns (l: nat)
      modifies this`kernel
      ensures kernel == Attach(old(kernel), p, objs) && l == old(kernel.next)
    {
      l := kernel.next;
      kernel := Attach(kernel, p, objs);
    }

    /** Closing a link that is already closed does nothing. */
    method CloseLinks(ids: seq<nat>)
      modifies this`kernel
      ensures kernel == old(kernel).(links := old(kernel).links - AsSet(ids))
    {
      ghost var before := kernel;
      for i := 0 to |ids|
        invariant kernel == before.(links := before.links - AsSet(ids[..i]))
      {
        kernel := kernel.(links := kernel.links - {ids[i]});
        assert ids[..i + 1] == ids[..i] + [ids[i]];
        assert AsSet(ids[..i + 1]) == AsSet(ids[..i]) + {ids[i]};
      }
      assert ids[..|ids|] == ids;
    }

    method CloseObjects(objs: nat)
      modifies this`kernel
      ensures kernel == old(kernel).(objects := old(kernel).objects - {objs})
    {
      kernel := kernel.(objects := kernel.objects - {objs});
    }

    /** One more attachment of a load in progress. */
    method AttachNext(p: Point, objs: nat, acquired: seq<nat>, ghost before: Kernel, ghost o: Objects,
                      ghost points: seq<Point>)
      returns (acquired': seq<nat>)
      requires Numbered(before) && kernel == Loaded(before, o, points) && objs == before.next
      requires acquired == Ids(before.next + 1, |points|)
      modifies this`kernel
      ensures kernel == Loaded(before, o, points + [p]) && acquired' == Ids(before.next + 1, |points| + 1)
    {
      AttachAllMeaning(Load(before, o), points, objs);
      AttachOneMore(Load(before, o), points, p, objs);
      var l := AttachLink(p, objs);
      acquired' := acquired + [l];
    }

    /** Close everything acquired by a load in progress. */
    method Abandon(acquired: seq<nat>, objs: nat, ghost before: Kernel, ghost o: Objects, ghost points: seq<Point>)
      requires Numbered(before) && kernel == Loaded(before, o, points) && objs == before.next
      requires acquired == Ids(before.next + 1, |points|)
      modifies this`kernel
      ensures SameOpen(kernel, before) && Numbered(kernel)
    {
      AttachAllMeaning(Load(before, o), points, objs);
      RollBack(before, o, points);
      CloseLinks(acquired);
      CloseObjects(objs);
    }

    /** loadNFS: publish everything or leave everything as it was. */
    method LoadNfs(mapSize: int, env: Env) returns (ok: bool)
      requires Owned(kernel, links)
      modifies this`kernel, this`nfsObjs, this`nfsHists, this`links, this`nfsPublished
      ensures ok <==> Loads(env, NFS_POINTS)
      ensures !ok ==>
                && SameOpen(kernel, old(kernel)) && nfsObjs == old(nfsObjs) && nfsHists == old(nfsHists)
                && links == old(links) && nfsPublished == old(nfsPublished) && Numbered(kernel)
      ensures ok ==> Grown(old(kernel), kernel, links, Objects(Nfs, Entries(mapSize)), NFS_POINTS)
                     && nfsObjs == nfsHists == Some(old(kernel.next))
                     && links == old(links) + Ids(old(kernel.next) + 1, |NFS_POINTS|)
                     && nfsPublished == old(nfsPublished) + 1
    {
      if !env.spec || !env.objects {
        return false;
      }
      ghost var before := kernel;
      var o := Objects(Nfs, Entries(mapSize));
      var objs := LoadObjects(o);
      var nfsLinks := [];
      for i := 0 to |NFS_POINTS|
        invariant kernel == Loaded(before, o, NFS_POINTS[..i]) && nfsLinks == Ids(before.next + 1, i)
        invariant forall p | p in NFS_POINTS[..i] :: env.attaches(p)
        modifies this`kernel
      {
        if !env.attaches(NFS_POINTS[i]) {
          Abandon(nfsLinks, objs, before, o, NFS_POINTS[..i]);
          return false;
        }
        nfsLinks := AttachNext(NFS_POINTS[i], objs, nfsLinks, before, o, NFS_POINTS[..i]);
        assert NFS_POINTS[..i + 1] == NFS_POINTS[..i] + [NFS_POINTS[i]];
      }
      assert NFS_POINTS[..|NFS_POINTS|] == NFS_POINTS;
      LoadedGrows(before, links, o, NFS_POINTS);
      nfsObjs, nfsHists := Some(objs), Some(objs);
      links := links + nfsLinks;
      nfsPublished := nfsPublished + 1;
      return true;
    }

    method AttachEntries(targets: seq<KprobeTarget>, objs: nat, attaches: Point -> bool, ghost before: Kernel,
                         ghost o: Objects)
      returns (ok: bool, kprobeLinks: seq<nat>, attachedFns: seq<string>)
      requires Numbered(before) && kernel == Load(before, o) && objs == before.next
      modifies this`kernel
      ensures ok <==> forall t | t in targets && !t.optional :: attaches(Kprobe(t.fn))
      ensures !ok ==> SameOpen(kernel, before) && Numbered(kernel)
      ensures ok ==>
                attachedFns == AttachedFns(targets, attaches) && kernel == Loaded(before, o, EntryPoints(attachedFns))
                && kprobeLinks == Ids(before.next + 1, |attachedFns|)
    {
      kprobeLinks, attachedFns := [], [];
      for i := 0 to |targets|
        invariant attachedFns == AttachedFns(targets[..i], attaches)
                  && kernel == Loaded(before, o, EntryPoints(attachedFns))
        invariant kprobeLinks == Ids(before.next + 1, |attachedFns|)
        invariant forall t | t in targets[..i] && !t.optional :: attaches(Kprobe(t.fn))
      {
        var kp := targets[i];
        assert targets[..i + 1] == targets[..i] + [kp];
        if !attaches(Kprobe(kp.fn)) {
          if kp.optional {
            continue;
          }
          Abandon(kprobeLinks, objs, before, o, EntryPoints(attachedFns));
          return false, [], [];
        }
        kprobeLinks := AttachNext(Kprobe(kp.fn), objs, kprobeLinks, before, o, EntryPoints(attachedFns));
        assert EntryPoints(attachedFns + [kp.fn]) == EntryPoints(attachedFns) + [Kprobe(kp.fn)];
        attachedFns := attachedFns + [kp.fn];
      }
      assert targets[..|targets|] == targets;
      ok := true;
    }

    /** The return probe of fns[i], or the end of the attempt. */
    method AttachReturn(objs: nat, attaches: Point -> bool, acquired: seq<nat>, fns: seq<string>, i: nat,
                        ghost before: Kernel, ghost o: Objects)
      returns (ok: bool, acquired': seq<nat>)
      requires i < |fns| && Numbered(before) && kernel == Loaded(before, o, ProbesUpTo(fns, i)) && objs == before.next
      requires acquired == Ids(before.next + 1, |fns| + i)
      modifies this`kernel
      ensures ok == attaches(Kretprobe(fns[i]))
      ensures !ok ==> SameOpen(kernel, before) && Numbered(kernel)
      ensures ok ==>
                kernel == Loaded(before, o, ProbesUpTo(fns, i + 1)) && acquired' == Ids(before.next + 1, |fns| + i + 1)
    {
      ok := attaches(Kretprobe(fns[i]));
      if !ok {
        Abandon(acquired, objs, before, o, ProbesUpTo(fns, i));
        acquired' := [];
      } else {
        ProbesStep(fns, i);
        acquired' := AttachNext(Kretprobe(fns[i]), objs, acquired, before, o, ProbesUpTo(fns, i));
      }
    }

    method AttachReturns(objs: nat, attaches: Point -> bool, entryLinks: seq<nat>, fns: seq<string>,
                         ghost before: Kernel, ghost o: Objects)
      returns (ok: bool, kprobeLinks: seq<nat>)
      requires Numbered(before) && kernel == Loaded(before, o, EntryPoints(fns)) && objs == before.next
      requires entryLinks == Ids(before.next + 1, |fns|)
      modifies this`kernel
      ensures ok <==> forall fn | fn in fns :: attaches(Kretprobe(fn))
      ensures !ok ==> SameOpen(kernel, before) && Numbered(kernel)
      ensures ok ==>
                kernel == Loaded(before, o, ProbePoints(fns)) && kprobeLinks == Ids(before.next + 1, |ProbePoints(fns)|)
    {
      kprobeLinks := entryLinks;
      ProbesEnds(fns);
      for i := 0 to |fns|
        invariant kernel == Loaded(before, o, ProbesUpTo(fns, i)) && kprobeLinks == Ids(before.next + 1, |fns| + i)
        invariant forall j | 0 <= j < i :: attaches(Kretprobe(fns[j]))
      {
        ok, kprobeLinks := AttachReturn(objs, attaches, kprobeLinks, fns, i, before, o);
        if !ok {
          return;
        }
      }
      ok := true;
    }

    /** The loading half of loadNFSKprobe. */
    method AttachKprobes(targets: seq<KprobeTarget>, o: Objects, env: Env)
      returns (ok: bool, objs: nat, kprobeLinks: seq<nat>, fns: seq<string>)
      requires Numbered(kernel)
      modifies this`kernel
      ensures ok <==> env.spec && env.objects && TargetsLoad(targets, env.attaches)
      ensures !ok ==> SameOpen(kernel, old(kernel)) && Numbered(kernel)
      ensures ok ==>
                fns == AttachedFns(targets, env.attaches) && objs == old(kernel.next)
                && kernel == Loaded(old(kernel), o, ProbePoints(fns))
                && kprobeLinks == Ids(old(kernel.next) + 1, |ProbePoints(fns)|)
    {
      ok, objs, kprobeLinks, fns := false, 0, [], [];
      if !env.spec || !env.objects {
        return;
      }
      TargetsLoadMeaning(targets, env.attaches);
      ghost var before := kernel;
      objs := LoadObjects(o);
      var entryLinks;
      ok, entryLinks, fns := AttachEntries(targets, objs, env.attaches, before, o);
      if !ok {
        return;
      }
      ok, kprobeLinks := AttachReturns(objs, env.attaches, entryLinks, fns, before, o);
    }

    /** The same, with what it means for everything published. */
    method AcquireKprobes(o: Objects, env: Env) returns (ok: bool, objs: nat, kprobeLinks: seq<nat>, fns: seq<string>)
      requires Owned(kernel, links)
      modifies this`kernel
      ensures ok <==> KprobesLoad(env)
      ensures !ok ==> SameOpen(kernel, old(kernel)) && Numbered(kernel)
      ensures ok ==> objs == old(kernel.next) && fns == AttachedFns(KPROBES, env.attaches)
                     && Grown(old(kernel), kernel, links + kprobeLinks, o, ProbePoints(fns))
    {
      ghost var before := kernel;
      ok, objs, kprobeLinks, fns := AttachKprobes(KPROBES, o, env);
      if ok {
        LoadedGrows(before, links, o, ProbePoints(fns));
      }
    }

    /** loadNFSKprobe: publish everything or leave everything as it was. */
    method LoadNfsKprobe(mapSize: int, env: Env) returns (ok: bool)
      requires Owned(kernel, links)
      modifies this`kernel, this`nfsKprobeObjs, this`nfsKprobeHists, this`links, this`probed, this`kprobePublished
      ensures ok <==> KprobesLoad(env)
      ensures !ok ==>
                SameOpen(kernel, old(kernel)) && nfsKprobeObjs == old(nfsKprobeObjs)
                && nfsKprobeHists == old(nfsKprobeHists) && links == old(links) && probed == old(probed)
                && kprobePublished == old(kprobePublished) && Numbered(kernel)
      ensures ok ==> probed == AttachedFns(KPROBES, env.attaches)
                     && Grown(old(kernel), kernel, links, Objects(NfsKprobe, Entries(mapSize)), ProbePoints(probed))
                     && nfsKprobeObjs == nfsKprobeHists == Some(old(kernel.next))
                     && kprobePublished == old(kprobePublished) + 1
    {
      var objs, kprobeLinks, fns;
      ok, objs, kprobeLinks, fns := AcquireKprobes(Objects(NfsKprobe, Entries(mapSize)), env);
      if ok {
        nfsKprobeObjs, nfsKprobeHists := Some(objs), Some(objs);
        links := links + kprobeLinks;
        probed, kprobePublished := fns, kprobePublished + 1;
      }
    }

    /** Close: whatever this value published. */
    method Close()
      modifies this`kernel
      ensures kernel.next == old(kernel.next)
      ensures kernel.links == old(kernel.links) - AsSet(links)
      ensures kernel.objects == old(kernel.objects) - AsIds(blockObjs) - AsIds(nfsObjs) - AsIds(nfsKprobeObjs)
      ensures old(Valid()) ==> kernel.links == map[] && kernel.objects == map[]
    {
      CloseLinks(links);
      if blockObjs.Some? {
        CloseObjects(blockObjs.value);
      }
      if nfsObjs.Some? {
        CloseObjects(nfsObjs.value);
      }
      if nfsKprobeObjs.Some? {
        CloseObjects(nfsKprobeObjs.value);
      }
    }

    method AttachBlock(p: Point, objs: nat)
      modifies this`kernel, this`links
      ensures kernel == Attach(old(kernel), p, objs) && links == old(links) + [old(kernel.next)]
    {
      var l := AttachLink(p, objs);
      links := links + [l];
    }

    /** loadBlock, which LoadAndAttach runs first. It publishes before it attaches: a failed attachment
        leaves nothing open, but a closed collection, and perhaps a closed link, stay published. */
    method LoadBlock(mapSize: int, env: Env) returns (ok: bool)
      requires kernel == IDLE && links == [] && blockObjs == blockHists == None && nfsObjs == None
               && nfsKprobeObjs == None
      modifies this`kernel, this`blockObjs, this`blockHists, this`links
      ensures ok <==> Loads(env, BLOCK_POINTS)
      ensures blockObjs == blockHists == BlockObjs(env) && links == BlockLinks(env)
      ensures !ok ==> SameOpen(kernel, IDLE)
      ensures !ok ==> (blockObjs == old(blockObjs) && blockHists == old(blockHists) && links == old(links)
                       <==> !(env.spec && env.objects))
      ensures ok ==> kernel == Loaded(IDLE, Objects(Block, Entries(mapSize)), BLOCK_POINTS) && links == Ids(1, 2)
    {
      if !env.spec || !env.objects {
        return false;
      }
      var o := Objects(Block, Entries(mapSize));
      var objs := LoadObjects(o);
      blockObjs, blockHists := Some(objs), Some(objs);
      if !env.attaches(BLOCK_POINTS[0]) {
        CloseObjects(objs);
        return false;
      }
      AttachBlock(BLOCK_POINTS[0], objs);
      if !env.attaches(BLOCK_POINTS[1]) {
        OneLinkClosed(o);
        Close();
        return false;
      }
      AttachBlock(BLOCK_POINTS[1], objs);
      BlockLoaded(o);
      return true;
    }

    method StartBlock(enabled: bool, mapSize: int, env: Env)
      requires Valid() && kernel == IDLE && links == [] && blockObjs == blockHists == None && !blockActive
      requires !nfsActive && !nfsKprobeActive
      modifies this`kernel, this`blockObjs, this`blockHists, this`links, this`blockActive
      ensures Valid() && (blockActive <==> enabled && Loads(env, BLOCK_POINTS))
    {
      if enabled {
        blockActive := LoadBlock(mapSize, env);
        if blockActive {
          HeldWithBlock(Objects(Block, Entries(mapSize)), probed);
        }
      }
    }

    /** What loadNFSKprobe leaves behind, whoever else is up. */
    method AddKprobes(env: Env) returns (ok: bool)
      requires Held(kernel, links, BlockUp(), nfsObjs, None, probed)
      modifies this`kernel, this`nfsKprobeObjs, this`nfsKprobeHists, this`links, this`probed, this`kprobePublished
      ensures ok <==> KprobesLoad(env)
      ensures !ok ==> nfsKprobeObjs == old(nfsKprobeObjs) && nfsKprobeHists == old(nfsKprobeHists)
                      && kprobePublished == old(kprobePublished)
                      && Held(kernel, links, BlockUp(), nfsObjs, None, probed)
      ensures ok ==>
                nfsKprobeObjs == nfsKprobeHists == Some(old(kernel.next)) && kprobePublished == old(kprobePublished) + 1
                && Held(kernel, links, BlockUp(), nfsObjs, nfsKprobeObjs, probed)
    {
      ghost var before, published, was := kernel, links, probed;
      ok := LoadNfsKprobe(nfsKprobeMapSize, env);
      if ok {
        ProbesComplete(env.attaches);
        HeldWithKprobes(before, published, kernel, links, BlockUp(), nfsObjs, was, probed,
                        Objects(NfsKprobe, Entries(nfsKprobeMapSize)));
      }
    }

    /** Load the tracepoints; on success they become active and are not waited for any more. */
    method TryNfs(env: Env) returns (ok: bool)
      requires Valid() && !nfsActive
      modifies this`kernel, this`nfsObjs, this`nfsHists, this`links, this`nfsPublished, this`nfsActive, this`retryNfs
      ensures Valid()
      ensures ok <==> Loads(env, NFS_POINTS)
      ensures nfsActive == ok && retryNfs == (!ok && old(retryNfs))
    {
      ghost var before, published := kernel, links;
      ok := LoadNfs(nfsMapSize, env);
      if ok {
        HeldWithNfs(before, published, kernel, links, BlockUp(), nfsKprobeObjs, probed,
                    Objects(Nfs, Entries(nfsMapSize)));
        nfsActive, retryNfs := true, false;
      }
    }

    /** The same for the kprobes. */
    method TryNfsKprobe(env: Env) returns (ok: bool)
      requires Valid() && !nfsKprobeActive
      modifies this`kernel, this`nfsKprobeObjs, this`nfsKprobeHists, this`links, this`probed, this`kprobePublished,
               this`nfsKprobeActive, this`retryNfsKprobe
      ensures Valid()
      ensures ok <==> KprobesLoad(env)
      ensures nfsKprobeActive == ok && retryNfsKprobe == (!ok && old(retryNfsKprobe))
    {
      ok := AddKprobes(env);
      ghost var now, up := kernel, BlockUp();
      if ok {
        nfsKprobeActive, retryNfsKprobe := true, false;
      }
      assert kernel == now && BlockUp() == up;
    }

    method StartNfs(enabled: bool, env: Env)
      requires Valid() && !nfsActive && !retryNfs
      modifies this`kernel, this`nfsObjs, this`nfsHists, this`links, this`nfsPublished, this`nfsActive, this`retryNfs
      ensures Valid() && (nfsActive <==> enabled && Loads(env, NFS_POINTS)) && (retryNfs <==> enabled && !nfsActive)
    {
      if enabled {
        var ok := TryNfs(env);
        retryNfs := !ok;
      }
    }

    method StartNfsKprobe(enabled: bool, env: Env)
      requires Valid() && !nfsKprobeActive && !retryNfsKprobe
      modifies this`kernel, this`nfsKprobeObjs, this`nfsKprobeHists, this`links, this`probed, this`kprobePublished,
               this`nfsKprobeActive, this`retryNfsKprobe
      ensures Valid() && (nfsKprobeActive <==> enabled && KprobesLoad(env))
      ensures retryNfsKprobe <==> enabled && !nfsKprobeActive
    {
      if enabled {
        var ok := TryNfsKprobe(env);
        retryNfsKprobe := !ok;
      }
    }

    method StartBoth(enableNfs: bool, nfs: Env, enableNfsKprobe: bool, kprobe: Env)
      requires Valid() && !nfsActive && !retryNfs && !nfsKprobeActive && !retryNfsKprobe
      modifies this
      ensures Valid() && blockActive == old(blockActive)
      ensures (nfsActive <==> enableNfs && Loads(nfs, NFS_POINTS)) && (retryNfs <==> enableNfs && !nfsActive)
      ensures nfsKprobeActive <==> enableNfsKprobe && KprobesLoad(kprobe)
      ensures retryNfsKprobe <==> enableNfsKprobe && !nfsKprobeActive
    {
      StartNfs(enableNfs, nfs);
      StartNfsKprobe(enableNfsKprobe, kprobe);
    }

    /** One tick of RetryFailed. What is active already is left alone. */
    method RetryTick(nfs: Env, kprobe: Env)
      requires Valid()
      modifies this
      ensures Valid()
      ensures retryNfs <==> old(retryNfs) && !Loads(nfs, NFS_POINTS)
      ensures retryNfsKprobe <==> old(retryNfsKprobe) && !KprobesLoad(kprobe)
      ensures nfsActive <==> old(nfsActive) || (old(retryNfs) && !retryNfs)
      ensures nfsKprobeActive <==> old(nfsKprobeActive) || (old(retryNfsKprobe) && !retryNfsKprobe)
      ensures blockActive == old(blockActive) && blockObjs == old(blockObjs)
      ensures old(nfsActive) ==> nfsObjs == old(nfsObjs)
      ensures old(nfsKprobeActive) ==> nfsKprobeObjs == old(nfsKprobeObjs) && probed == old(probed)
    {
      if retryNfs {
        var _ := TryNfs(nfs);
      }
      if retryNfsKprobe {
        var _ := TryNfsKprobe(kprobe);
      }
    }

    /** RetryFailed over any number of ticks. A subsystem stops waiting if and only if some tick could load it. */
    method RetryFailed(ticks: seq<(Env, Env)>)
      requires Valid()
      modifies this
      ensures Valid()
      ensures retryNfs <==> old(retryNfs) && forall i | 0 <= i < |ticks| :: !Loads(ticks[i].0, NFS_POINTS)
      ensures retryNfsKprobe <==> old(retryNfsKprobe) && forall i | 0 <= i < |ticks| :: !KprobesLoad(ticks[i].1)
      ensures nfsActive <==> old(nfsActive) || (old(retryNfs) && !retryNfs)
      ensures nfsKprobeActive <==> old(nfsKprobeActive) || (old(retryNfsKprobe) && !retryNfsKprobe)
      ensures old(nfsActive) ==> nfsObjs == old(nfsObjs)
      ensures old(nfsKprobeActive) ==> nfsKprobeObjs == old(nfsKprobeObjs) && probed == old(probed)
      ensures blockActive == old(blockActive) && blockObjs == old(blockObjs)
    {
      if !retryNfs && !retryNfsKprobe {
        return;
      }
      for i := 0 to |ticks|
        invariant Valid()
        invariant retryNfs <==> old(retryNfs) && forall j | 0 <= j < i :: !Loads(ticks[j].0, NFS_POINTS)
        invariant retryNfsKprobe <==> old(retryNfsKprobe) && forall j | 0 <= j < i :: !KprobesLoad(ticks[j].1)
        invariant nfsActive <==> old(nfsActive) || (old(retryNfs) && !retryNfs)
        invariant nfsKprobeActive <==> old(nfsKprobeActive) || (old(retryNfsKprobe) && !retryNfsKprobe)
        invariant old(nfsActive) ==> nfsObjs == old(nfsObjs)
        invariant old(nfsKprobeActive) ==> nfsKprobeObjs == old(nfsKprobeObjs) && probed == old(probed)
        invariant blockActive == old(blockActive) && blockObjs == old(blockObjs)
      {
        RetryTick(ticks[i].0, ticks[i].1);
        if !retryNfs && !retryNfsKprobe {
          return;
        }
      }
    }
  }

  /** LoadAndAttach. The only error is that block was all that was asked for and did not load; nothing
      stays open then. */
  method LoadAndAttach(enableBlock: bool, enableNfs: bool, enableNfsKprobe: bool, blockMapSize: int, nfsMapSize: int,
                       nfsKprobeMapSize: int, block: Env, nfs: Env, kprobe: Env) returns (p: Programs, ok: bool)
    ensures fresh(p) && p.Valid()
    ensures p.blockActive <==> enableBlock && Loads(block, BLOCK_POINTS)
    ensures p.nfsActive <==> enableNfs && Loads(nfs, NFS_POINTS)
    ensures p.nfsKprobeActive <==> enableNfsKprobe && KprobesLoad(kprobe)
    ensures p.retryNfs <==> enableNfs && !p.nfsActive
    ensures p.retryNfsKprobe <==> enableNfsKprobe && !p.nfsKprobeActive
    ensures !ok <==> enableBlock && !enableNfs && !enableNfsKprobe && !p.blockActive
    ensures !ok ==> p.kernel.links == map[] && p.kernel.objects == map[]
  {
    p := new Programs(nfsMapSize, nfsKprobeMapSize);
    p.StartBlock(enableBlock, blockMapSize, block);
    p.StartBoth(enableNfs, nfs, enableNfsKprobe, kprobe);
    var requested := enableBlock || enableNfs || enableNfsKprobe;
    var active := p.blockActive || p.nfsActive || p.nfsKprobeActive;
    ok := !(requested && !active && !p.retryNfs && !p.retryNfsKprobe);
  }
}
