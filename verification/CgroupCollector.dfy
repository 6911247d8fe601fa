/** THP readiness per NUMA node (pkg/cgroup/collector.go): what one poll reads from buddyinfo and
    pagetypeinfo, and what Collect joins them into. */
module CgroupCollector {
  import opened Bits
  import opened BuddyInfo
  import opened Common
  import opened FreeBytes
  import opened NumaRows
  import P = PagetypeInfo

  /** One attempt to read a file: missing, or its lines, perhaps cut short by a read error. */
  datatype Read<T> = Read(file: Option<seq<T>>, scanFails: bool)

  datatype NodeStats = NodeStats(
    buddyByNuma: seq<Row<Buddy>>, buddyAvailable: bool,
    excludedByNuma: seq<Row<Excluded>>, unmovableByNuma: seq<Row<Excluded>>, pagetypeAvailable: bool)

  ghost predicate BuddyOk(r: Read<Fields>) {
    r.file.Some? && !r.scanFails && Acceptable(r.file.value)
  }

  ghost predicate PagetypeOk(r: Read<P.Line>) {
    r.file.Some? && !r.scanFails && P.Acceptable(r.file.value)
  }

  // In terms of the files

  /** The THP zone of a node: Movable if it has a row, else Normal. */
  function ZoneIn(lines: seq<Fields>, numa: string): (zone: string) {
    if LastRow(lines, numa, MOVABLE).Some? then MOVABLE else NORMAL
  }

  ghost predicate HasRow(lines: seq<Fields>, numa: string) {
    exists f :: f in lines && IsZone(f) && TrimComma(f[1]) == numa
  }

  /** Every THP zone in use has an excluded row for some node. */
  ghost predicate Covered(lines: seq<Fields>, pagetype: seq<P.Line>)
    requires P.AllReadable(pagetype)
  {
    forall numa | HasRow(lines, numa) :: exists other :: P.ExcludedAt(pagetype, ZoneIn(lines, numa), other).Some?
  }

  lemma ZonesAgree(lines: seq<Fields>, zones: Zones, numa: string)
    requires ZonesOf(zones, lines)
    ensures numa in zones <==> HasRow(lines, numa)
    ensures numa in zones ==> ThpZone(zones[numa]) == ZoneIn(lines, numa)
  {
    if numa in zones {
      var zone :| zone in zones[numa];
      assert LastRow(lines, numa, zone).Some?;
      assert MOVABLE in zones[numa] <==> LastRow(lines, numa, MOVABLE).Some?;
    }
    if HasRow(lines, numa) {
      var f :| f in lines && IsZone(f) && TrimComma(f[1]) == numa;
      assert RowOf(f, numa, TrimComma(f[3]));
      assert LastRow(lines, numa, TrimComma(f[3])).Some?;
    }
  }

  lemma ZoneHasEntries(pagetype: seq<P.Line>, byZone: P.ByZone, zone: string)
    requires P.Recorded(pagetype, byZone)
    ensures zone in byZone && byZone[zone] != map[] <==> exists other :: P.ExcludedAt(pagetype, zone, other).Some?
  {
    if zone in byZone {
      var other :| other in byZone[zone];
      assert Lookup(byZone, zone, other) == P.ExcludedAt(pagetype, zone, other);
    }
    forall other | P.ExcludedAt(pagetype, zone, other).Some?
      ensures zone in byZone && byZone[zone] != map[]
    {
      assert Lookup(byZone, zone, other) == P.ExcludedAt(pagetype, zone, other);
    }
  }

  lemma KnownIffCovered(lines: seq<Fields>, zones: Zones, pagetype: seq<P.Line>, byZone: P.ByZone)
    requires ZonesOf(zones, lines) && P.Recorded(pagetype, byZone)
    ensures P.ZonesKnown(byZone, zones, zones.Keys) <==> Covered(lines, pagetype)
  {
    forall numa
      ensures numa in zones <==> HasRow(lines, numa)
      ensures numa in zones ==> (ThpZone(zones[numa]) in byZone && byZone[ThpZone(zones[numa])] != map[]
                                 <==> exists other :: P.ExcludedAt(pagetype, ZoneIn(lines, numa), other).Some?)
    {
      ZonesAgree(lines, zones, numa);
      if numa in zones {
        ZoneHasEntries(pagetype, byZone, ThpZone(zones[numa]));
      }
    }
  }

  /** The lines the zones come from: the first read of buddyinfo, or the second if that failed. */
  ghost function ZoneSource(buddy: Read<Fields>, again: Read<Fields>): (lines: Option<seq<Fields>>) {
    if BuddyOk(buddy) then buddy.file else if BuddyOk(again) then again.file else None
  }

  /** What a poll holds against what it read. */
  ghost predicate Describes(ns: NodeStats, zones: Zones, byZone: P.ByZone, buddy: Read<Fields>, again: Read<Fields>,
                            pagetype: Read<P.Line>) {
    var source := ZoneSource(buddy, again);
    && (ns.buddyAvailable <==> BuddyOk(buddy))
    && (ns.buddyAvailable ==> IsSnapshot(Snapshot(zones, ns.buddyByNuma), buddy.file.value))
    && (ns.pagetypeAvailable <==> source.Some? && PagetypeOk(pagetype) && Covered(source.value, pagetype.file.value))
    && (ns.pagetypeAvailable ==>
          && ZonesOf(zones, source.value) && P.Recorded(pagetype.file.value, byZone)
          && Lists(ns.excludedByNuma, P.ThpExcludedMap(byZone, zones))
          && Lists(ns.unmovableByNuma, P.BothMap(byZone)))
  }

  /** readPagetypeBuddyStats */
  method ReadPagetype(pagetype: Read<P.Line>, zones: Zones, ghost lines: seq<Fields>)
    returns (r: Option<(seq<Row<Excluded>>, seq<Row<Excluded>>)>, ghost byZone: P.ByZone)
    requires ZonesOf(zones, lines)
    ensures r.Some? <==> PagetypeOk(pagetype) && Covered(lines, pagetype.file.value)
    ensures r.Some? ==>
              && P.Recorded(pagetype.file.value, byZone) && Lists(r.value.0, P.ThpExcludedMap(byZone, zones))
              && Lists(r.value.1, P.BothMap(byZone))
  {
    byZone := map[];
    var read := P.ReadAllZones(pagetype.file, pagetype.scanFails);
    if read.None? {
      return None, map[];
    }
    byZone := read.value;
    KnownIffCovered(lines, zones, pagetype.file.value, byZone);
    var excluded := P.ExcludedThpZone(read.value, zones);
    if excluded.None? {
      return None, map[];
    }
    var unmovable := P.UnmovableSum(read.value);
    return Some((excluded.value, unmovable)), byZone;
  }

  /** The buddyinfo and pagetypeinfo part of collectNodeStats. */
  method CollectNodeStats(buddy: Read<Fields>, again: Read<Fields>, pagetype: Read<P.Line>)
    returns (ns: NodeStats, ghost zones: Zones, ghost byZone: P.ByZone)
    ensures Describes(ns, zones, byZone, buddy, again, pagetype)
  {
    ns, zones, byZone := NodeStats([], false, [], [], false), map[], map[];
    var snap := ReadBuddySnapshot(buddy.file, buddy.scanFails);
    ghost var lines := buddy.file;
    if snap.Some? {
      ns := ns.(buddyByNuma := snap.value.thpByNuma, buddyAvailable := true);
    } else {
      snap := ReadBuddySnapshot(again.file, again.scanFails);
      lines := again.file;
    }
    if snap.Some? {
      zones := snap.value.zonesByNuma;
      var stats;
      stats, byZone := ReadPagetype(pagetype, snap.value.zonesByNuma, lines.value);
      if stats.Some? {
        ns := ns.(excludedByNuma := stats.value.0, unmovableByNuma := stats.value.1, pagetypeAvailable := true);
      }
    }
  }

  // What Collect emits

  datatype PagetypeReport = PagetypeReport(unmovable: Free, movable: Free)

  /** The values emitted for one NUMA node. */
  datatype Report = Joined(buddy: Free, pagetype: Option<PagetypeReport>) | UnmovableOnly(unmovable: Free)

  function OrNothing(e: Option<Excluded>): (x: Excluded) {
    if e.Some? then e.value else NOTHING
  }

  /** Unmovable free memory of a node, Normal and Movable zones together. */
  function UnmovableIn(pagetype: seq<P.Line>, numa: string): (f: Free)
    requires P.AllReadable(pagetype)
  {
    P.AddFree(OrNothing(P.ExcludedAt(pagetype, NORMAL, numa)).unmovable,
              OrNothing(P.ExcludedAt(pagetype, MOVABLE, numa)).unmovable)
  }

  /** What is to be reported for a node: buddy and excluded memory of one and the same zone. */
  ghost function ReportFor(lines: seq<Fields>, pagetype: Option<seq<P.Line>>, numa: string): (r: Report)
    requires forall f | f in lines :: RowReadable(f)
    requires FreeAt(lines, numa, ZoneIn(lines, numa)).Some?
    requires pagetype.Some? ==> P.AllReadable(pagetype.value)
  {
    var zone := ZoneIn(lines, numa);
    var buddy := FreeAt(lines, numa, zone).value;
    Joined(buddy,
           if pagetype.None? then None
           else Some(PagetypeReport(UnmovableIn(pagetype.value, numa),
                                    Movable(buddy, OrNothing(P.ExcludedAt(pagetype.value, zone, numa))))))
  }

  /** Reported movable memory, from the rows of the files: b in buddyinfo, u and v in pagetypeinfo. Always
      movable plus excluded, as far as it goes, is buddy; and if no order has more excluded blocks than
      blocks, nothing is cut off and the figures are ordered. */
  lemma ReportedMovable(lines: seq<Fields>, pagetype: seq<P.Line>, numa: string, b: seq<nat>, u: seq<nat>, v: seq<nat>)
    requires (forall f | f in lines :: RowReadable(f)) && P.AllReadable(pagetype)
    requires FreeAt(lines, numa, ZoneIn(lines, numa)) == Some(Wrapped(b))
    requires P.OrZero(P.FiguresAt(pagetype, ZoneIn(lines, numa), numa, P.Unmovable)) == Wrapped(u)
    requires P.OrZero(P.FiguresAt(pagetype, ZoneIn(lines, numa), numa, P.Isolate)) == Wrapped(v)
    ensures var r, e := ReportFor(lines, Some(pagetype), numa),
            OrNothing(P.ExcludedAt(pagetype, ZoneIn(lines, numa), numa));
            && var m := r.pagetype.value.movable;
            && m.orderGe9 + (if ExcludedGe9(e) <= r.buddy.orderGe9 then ExcludedGe9(e) else r.buddy.orderGe9)
               == r.buddy.orderGe9
            && m.allOrders + (if ExcludedAll(e) <= r.buddy.allOrders then ExcludedAll(e) else r.buddy.allOrders)
               == r.buddy.allOrders
            && (Within(u, v, b) && AllOrders(b) < TWO_64 ==>
                  && m.allOrders == AllOrders(b) - AllOrders(u) - AllOrders(v)
                  && m.orderGe9 == OrderGe9(b) - OrderGe9(u) - OrderGe9(v)
                  && m.orderGe9 <= m.allOrders <= r.buddy.allOrders)
  {
    var e := OrNothing(P.ExcludedAt(pagetype, ZoneIn(lines, numa), numa));
    assert e == Excluded(Wrapped(u), Wrapped(v));
    if Within(u, v, b) && AllOrders(b) < TWO_64 {
      MovableFits(b, u, v);
    }
  }

  /** One report for each node of buddyinfo. */
  ghost predicate ReportsOf(m: map<string, Report>, lines: seq<Fields>, pagetype: Option<seq<P.Line>>)
    requires forall f | f in lines :: RowReadable(f)
    requires pagetype.Some? ==> P.AllReadable(pagetype.value)
  {
    && (forall numa :: numa in m <==> HasRow(lines, numa))
    && (forall numa | numa in m ::
          FreeAt(lines, numa, ZoneIn(lines, numa)).Some? && m[numa] == ReportFor(lines, pagetype, numa))
  }

  ghost predicate Reports(rows: seq<Row<Report>>, lines: seq<Fields>, pagetype: Option<seq<P.Line>>)
    requires forall f | f in lines :: RowReadable(f)
    requires pagetype.Some? ==> P.AllReadable(pagetype.value)
  {
    exists m :: Lists(rows, m) && ReportsOf(m, lines, pagetype)
  }

  lemma SameReports(m: map<string, Report>, n: map<string, Report>, lines: seq<Fields>, pagetype: Option<seq<P.Line>>)
    requires forall f | f in lines :: RowReadable(f)
    requires pagetype.Some? ==> P.AllReadable(pagetype.value)
    requires ReportsOf(m, lines, pagetype) && ReportsOf(n, lines, pagetype)
    ensures m == n
  {
    forall numa
      ensures numa in m <==> numa in n
      ensures numa in m && numa in n ==> m[numa] == n[numa]
    {
      assert numa in m <==> HasRow(lines, numa);
    }
    assert m.Keys == n.Keys;
  }

  /** The files determine everything that is emitted, and its order. */
  lemma ReportsUnique(s: seq<Row<Report>>, t: seq<Row<Report>>, lines: seq<Fields>, pagetype: Option<seq<P.Line>>)
    requires forall f | f in lines :: RowReadable(f)
    requires pagetype.Some? ==> P.AllReadable(pagetype.value)
    requires Reports(s, lines, pagetype) && Reports(t, lines, pagetype)
    ensures s == t
  {
    var m :| Lists(s, m) && ReportsOf(m, lines, pagetype);
    var n :| Lists(t, n) && ReportsOf(n, lines, pagetype);
    SameReports(m, n, lines, pagetype);
    ListsUnique(s, t, m);
  }

  predicate UnmovableKnown(pagetype: seq<P.Line>, numa: string)
    requires P.AllReadable(pagetype)
  {
    P.ExcludedAt(pagetype, NORMAL, numa).Some? || P.ExcludedAt(pagetype, MOVABLE, numa).Some?
  }

  function Find(m: map<string, Excluded>, numa: string): (e: Excluded) {
    if numa in m then m[numa] else NOTHING
  }

  /** Missing zones count as zero. */
  lemma UnmovableOfBoth(pagetype: seq<P.Line>, byZone: P.ByZone, numa: string)
    requires P.Recorded(pagetype, byZone)
    ensures OrNothing(P.BothZones(byZone, numa)).unmovable == UnmovableIn(pagetype, numa)
    ensures numa in P.BothMap(byZone) <==> UnmovableKnown(pagetype, numa)
    ensures Find(P.BothMap(byZone), numa) == OrNothing(P.BothZones(byZone, numa))
  {
    assert Lookup(byZone, NORMAL, numa) == P.ExcludedAt(pagetype, NORMAL, numa);
    assert Lookup(byZone, MOVABLE, numa) == P.ExcludedAt(pagetype, MOVABLE, numa);
  }

  /** In order, the unmovable memory of each node with a row in either zone. */
  ghost predicate UnmovableReports(rows: seq<Row<Report>>, pagetype: seq<P.Line>)
    requires P.AllReadable(pagetype)
  {
    && Sorted(rows)
    && (forall row | row in rows ::
          UnmovableKnown(pagetype, row.numa) && row.value == UnmovableOnly(UnmovableIn(pagetype, row.numa)))
    && (forall numa | UnmovableKnown(pagetype, numa) :: exists row :: row in rows && row.numa == numa)
  }

  method EmitUnmovable(from: seq<Row<Excluded>>) returns (rows: seq<Row<Report>>)
    ensures |rows| == |from|
            && forall j | 0 <= j < |rows| :: rows[j] == Row(from[j].numa, UnmovableOnly(from[j].value.unmovable))
  {
    rows := [];
    for i := 0 to |from|
      invariant |rows| == i
                && forall j | 0 <= j < i :: rows[j] == Row(from[j].numa, UnmovableOnly(from[j].value.unmovable))
    {
      rows := rows + [Row(from[i].numa, UnmovableOnly(from[i].value.unmovable))];
    }
  }

  lemma UnmovableRows(from: seq<Row<Excluded>>, rows: seq<Row<Report>>, pagetype: seq<P.Line>, byZone: P.ByZone)
    requires P.Recorded(pagetype, byZone) && Lists(from, P.BothMap(byZone))
    requires |rows| == |from|
             && forall j | 0 <= j < |rows| :: rows[j] == Row(from[j].numa, UnmovableOnly(from[j].value.unmovable))
    ensures UnmovableReports(rows, pagetype)
  {
    forall i | 0 <= i < |rows|
      ensures UnmovableKnown(pagetype, rows[i].numa)
              && rows[i].value == UnmovableOnly(UnmovableIn(pagetype, rows[i].numa))
    {
      assert from[i] in from;
      UnmovableOfBoth(pagetype, byZone, rows[i].numa);
    }
    forall numa | UnmovableKnown(pagetype, numa)
      ensures exists row :: row in rows && row.numa == numa
    {
      UnmovableOfBoth(pagetype, byZone, numa);
      var i :| 0 <= i < |from| && from[i] == Row(numa, P.BothMap(byZone)[numa]);
      assert rows[i] in rows;
    }
  }

  /** The row of a node as Collect computes it from the two maps. */
  function Join(b: Buddy, e: Excluded, u: Excluded, pagetypeAvailable: bool): (r: Report) {
    Joined(b.free, if pagetypeAvailable then Some(PagetypeReport(u.unmovable, Movable(b.free, e))) else None)
  }

  lemma JoinIsReport(zones: Zones, byZone: P.ByZone, lines: seq<Fields>, pagetype: seq<P.Line>, b: Row<Buddy>,
                     m: map<string, Buddy>)
    requires forall f | f in lines :: RowReadable(f)
    requires ZonesOf(zones, lines) && ThpOf(m, zones, lines) && b.numa in m && m[b.numa] == b.value
             && P.Recorded(pagetype, byZone)
    ensures FreeAt(lines, b.numa, ZoneIn(lines, b.numa)).Some?
    ensures Join(b.value, P.ThpExcluded(byZone, zones, b.numa), OrNothing(P.BothZones(byZone, b.numa)), true)
         == ReportFor(lines, Some(pagetype), b.numa)
  {
    ZonesAgree(lines, zones, b.numa);
    UnmovableOfBoth(pagetype, byZone, b.numa);
    assert Lookup(byZone, ZoneIn(lines, b.numa), b.numa) == P.ExcludedAt(pagetype, ZoneIn(lines, b.numa), b.numa);
  }

  /** What the loop of Collect computes for a row of buddyinfo. */
  function JoinedValue(ns: NodeStats, excluded: map<string, Excluded>, unmovable: map<string, Excluded>,
                       b: Row<Buddy>): (r: Report) {
    Join(b.value, Find(excluded, b.numa), Find(unmovable, b.numa), ns.pagetypeAvailable)
  }

  /** The rows of buddyinfo with the values of each node beside them, in the same order. */
  method JoinRows(ns: NodeStats)
    returns (rows: seq<Row<Report>>, ghost excluded: map<string, Excluded>, ghost unmovable: map<string, Excluded>)
    ensures Sorted(ns.excludedByNuma) ==> Lists(ns.excludedByNuma, excluded)
    ensures Sorted(ns.unmovableByNuma) ==> Lists(ns.unmovableByNuma, unmovable)
    ensures |rows| == |ns.buddyByNuma|
    ensures forall i | 0 <= i < |rows| ::
              rows[i] == Row(ns.buddyByNuma[i].numa, JoinedValue(ns, excluded, unmovable, ns.buddyByNuma[i]))
  {
    var e := ToMap(ns.excludedByNuma);
    var u := ToMap(ns.unmovableByNuma);
    excluded, unmovable := e, u;
    rows := [];
    for i := 0 to |ns.buddyByNuma|
      invariant |rows| == i
      invariant forall j | 0 <= j < i ::
                  rows[j] == Row(ns.buddyByNuma[j].numa, JoinedValue(ns, e, u, ns.buddyByNuma[j]))
    {
      var b := ns.buddyByNuma[i];
      rows := rows + [Row(b.numa, JoinedValue(ns, e, u, b))];
    }
  }

  /** The rows carry the values of n, in the order of `from`. */
  ghost predicate Mirrors(rows: seq<Row<Report>>, from: seq<Row<Buddy>>, n: map<string, Report>) {
    |rows| == |from| && forall i | 0 <= i < |rows| :: from[i].numa in n && rows[i] == Row(from[i].numa, n[from[i].numa])
  }

  /** A row-by-row image of a listing lists the image of its map. */
  lemma MirrorLists(rows: seq<Row<Report>>, from: seq<Row<Buddy>>, m: map<string, Buddy>, n: map<string, Report>)
    requires Lists(from, m) && Mirrors(rows, from, n) && n.Keys == m.Keys
    ensures Lists(rows, n)
  {
    forall numa | numa in n
      ensures Row(numa, n[numa]) in rows
    {
      var i :| 0 <= i < |from| && from[i] == Row(numa, m[numa]);
      assert rows[i] == Row(numa, n[numa]);
    }
  }

  /** A node's thp entry is in the zone the file says. */
  lemma EntryInZone(lines: seq<Fields>, zones: Zones, m: map<string, Buddy>, numa: string)
    requires forall f | f in lines :: RowReadable(f)
    requires ZonesOf(zones, lines) && ThpOf(m, zones, lines)
    ensures numa in m <==> HasRow(lines, numa)
    ensures numa in m ==> numa in zones && FreeAt(lines, numa, ZoneIn(lines, numa)) == Some(m[numa].free)
  {
    ZonesAgree(lines, zones, numa);
  }

  /** The reports for the nodes of a snapshot. */
  ghost function ReportMap(m: map<string, Buddy>, lines: seq<Fields>, pagetype: Option<seq<P.Line>>)
    : (n: map<string, Report>)
    requires forall f | f in lines :: RowReadable(f)
    requires pagetype.Some? ==> P.AllReadable(pagetype.value)
    requires forall numa | numa in m :: FreeAt(lines, numa, ZoneIn(lines, numa)).Some?
    ensures n.Keys == m.Keys
  {
    map numa | numa in m :: ReportFor(lines, pagetype, numa)
  }

  lemma ReportMapFits(m: map<string, Buddy>, zones: Zones, lines: seq<Fields>, pagetype: Option<seq<P.Line>>)
    requires forall f | f in lines :: RowReadable(f)
    requires pagetype.Some? ==> P.AllReadable(pagetype.value)
    requires ZonesOf(zones, lines) && ThpOf(m, zones, lines)
    ensures forall numa | numa in m :: FreeAt(lines, numa, ZoneIn(lines, numa)).Some?
    ensures ReportsOf(ReportMap(m, lines, pagetype), lines, pagetype)
  {
    forall numa
      ensures numa in m <==> HasRow(lines, numa)
      ensures numa in m ==> FreeAt(lines, numa, ZoneIn(lines, numa)).Some?
    {
      EntryInZone(lines, zones, m, numa);
    }
  }

  /** What Collect looks up for a node is what the files say. */
  lemma RowReport(ns: NodeStats, zones: Zones, byZone: P.ByZone, lines: seq<Fields>, pagetype: Option<seq<P.Line>>,
                  excluded: map<string, Excluded>, unmovable: map<string, Excluded>, m: map<string, Buddy>,
                  b: Row<Buddy>)
    requires forall f | f in lines :: RowReadable(f)
    requires ZonesOf(zones, lines) && ThpOf(m, zones, lines) && b.numa in m && m[b.numa] == b.value
    requires pagetype.Some? <==> ns.pagetypeAvailable
    requires pagetype.Some? ==>
               && P.Recorded(pagetype.value, byZone) && excluded == P.ThpExcludedMap(byZone, zones)
               && unmovable == P.BothMap(byZone)
    requires forall numa | numa in m :: FreeAt(lines, numa, ZoneIn(lines, numa)).Some?
    ensures JoinedValue(ns, excluded, unmovable, b) == ReportMap(m, lines, pagetype)[b.numa]
  {
    EntryInZone(lines, zones, m, b.numa);
    if ns.pagetypeAvailable {
      UnmovableOfBoth(pagetype.value, byZone, b.numa);
      JoinIsReport(zones, byZone, lines, pagetype.value, b, m);
    }
  }

  lemma RowsMirror(rows: seq<Row<Report>>, ns: NodeStats, zones: Zones, byZone: P.ByZone, lines: seq<Fields>,
                   pagetype: Option<seq<P.Line>>, excluded: map<string, Excluded>,
                   unmovable: map<string, Excluded>, m: map<string, Buddy>)
    requires forall f | f in lines :: RowReadable(f)
    requires ZonesOf(zones, lines) && ThpOf(m, zones, lines)
    requires forall b | b in ns.buddyByNuma :: b.numa in m && m[b.numa] == b.value
    requires pagetype.Some? <==> ns.pagetypeAvailable
    requires pagetype.Some? ==>
               && P.Recorded(pagetype.value, byZone) && excluded == P.ThpExcludedMap(byZone, zones)
               && unmovable == P.BothMap(byZone)
    requires |rows| == |ns.buddyByNuma|
    requires forall i | 0 <= i < |rows| ::
               rows[i] == Row(ns.buddyByNuma[i].numa, JoinedValue(ns, excluded, unmovable, ns.buddyByNuma[i]))
    requires forall numa | numa in m :: FreeAt(lines, numa, ZoneIn(lines, numa)).Some?
    ensures Mirrors(rows, ns.buddyByNuma, ReportMap(m, lines, pagetype))
  {
    forall i | 0 <= i < |rows|
      ensures ns.buddyByNuma[i].numa in m && rows[i].value == ReportMap(m, lines, pagetype)[ns.buddyByNuma[i].numa]
    {
      assert ns.buddyByNuma[i] in ns.buddyByNuma;
      RowReport(ns, zones, byZone, lines, pagetype, excluded, unmovable, m, ns.buddyByNuma[i]);
    }
  }

  lemma MirrorReports(rows: seq<Row<Report>>, from: seq<Row<Buddy>>, m: map<string, Buddy>, n: map<string, Report>,
                      lines: seq<Fields>, pagetype: Option<seq<P.Line>>)
    requires forall f | f in lines :: RowReadable(f)
    requires pagetype.Some? ==> P.AllReadable(pagetype.value)
    requires Lists(from, m) && Mirrors(rows, from, n) && n.Keys == m.Keys && ReportsOf(n, lines, pagetype)
    ensures Reports(rows, lines, pagetype)
  {
    MirrorLists(rows, from, m, n);
  }

  class Collector {
    var node: NodeStats
    // What the last poll read, and what it made of it
    ghost var buddy: Read<Fields>
    ghost var again: Read<Fields>
    ghost var pagetype: Read<P.Line>
    ghost var zones: Zones
    ghost var byZone: P.ByZone

    ghost predicate Valid()
      reads this
    {
      Describes(node, zones, byZone, buddy, again, pagetype)
    }

    constructor ()
      ensures Valid() && !node.buddyAvailable && !node.pagetypeAvailable
    {
      node := NodeStats([], false, [], [], false);
      buddy, again, pagetype := Read(None, false), Read(None, false), Read(None, false);
      zones, byZone := map[], map[];
    }

    method Poll(buddy: Read<Fields>, again: Read<Fields>, pagetype: Read<P.Line>)
      modifies this
      ensures Valid() && this.buddy == buddy && this.again == again && this.pagetype == pagetype
    {
      var ns, z, bz := CollectNodeStats(buddy, again, pagetype);
      node, this.zones, this.byZone, this.buddy, this.again, this.pagetype := ns, z, bz, buddy, again, pagetype;
    }

    /** The pagetypeinfo lines in use. */
    ghost function PagetypeLines(): (lines: Option<seq<P.Line>>)
      reads this
    {
      if node.pagetypeAvailable then pagetype.file else None
    }

    /** The loop over the nodes of buddyinfo: in order, one report for each, from one zone. */
    method CollectJoined() returns (rows: seq<Row<Report>>)
      requires Valid() && node.buddyAvailable
      ensures Reports(rows, buddy.file.value, PagetypeLines())
    {
      ghost var excluded, unmovable;
      rows, excluded, unmovable := JoinRows(node);
      ghost var lines := buddy.file.value;
      ghost var m: map<string, Buddy> :| Lists(node.buddyByNuma, m) && ThpOf(m, zones, lines);
      if node.pagetypeAvailable {
        ListedUnique(node.excludedByNuma, excluded, P.ThpExcludedMap(byZone, zones));
        ListedUnique(node.unmovableByNuma, unmovable, P.BothMap(byZone));
      }
      ReportMapFits(m, zones, lines, PagetypeLines());
      RowsMirror(rows, node, zones, byZone, lines, PagetypeLines(), excluded, unmovable, m);
      MirrorReports(rows, node.buddyByNuma, m, ReportMap(m, lines, PagetypeLines()), lines, PagetypeLines());
    }

    /** Without buddyinfo only unmovable memory is known. */
    method CollectUnmovable() returns (rows: seq<Row<Report>>)
      requires Valid() && node.pagetypeAvailable
      ensures UnmovableReports(rows, pagetype.file.value)
    {
      rows := EmitUnmovable(node.unmovableByNuma);
      UnmovableRows(node.unmovableByNuma, rows, pagetype.file.value, byZone);
    }

    method Collect() returns (rows: seq<Row<Report>>)
      requires Valid()
      ensures node.buddyAvailable ==> Reports(rows, buddy.file.value, PagetypeLines())
      ensures !node.buddyAvailable && node.pagetypeAvailable ==> UnmovableReports(rows, pagetype.file.value)
      ensures !node.buddyAvailable && !node.pagetypeAvailable ==> rows == []
    {
      if node.buddyAvailable {
        rows := CollectJoined();
      } else if node.pagetypeAvailable {
        rows := CollectUnmovable();
      } else {
        rows := [];
      }
    }
  }
}
