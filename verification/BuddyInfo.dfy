/** Reading /proc/buddyinfo (pkg/cgroup/buddyinfo.go). A line is what strings.Fields makes of it. */
module BuddyInfo {
  import opened Common
  import opened FreeBytes
  import opened NumaRows

  type Fields = seq<string>

  const NORMAL := "Normal"
  const MOVABLE := "Movable"

  /** strings.TrimSuffix(s, ",") */
  function TrimComma(s: string): (t: string) {
    if s != "" && s[|s| - 1] == ',' then s[..|s| - 1] else s
  }

  predicate IsZone(f: Fields) {
    |f| >= 5 && f[0] == "Node" && f[2] == "zone"
  }

  predicate RowOf(f: Fields, numa: string, zone: string) {
    IsZone(f) && TrimComma(f[1]) == numa && TrimComma(f[3]) == zone
  }

  /** The last row of a zone, which is the one that counts. */
  function LastRow(lines: seq<Fields>, numa: string, zone: string): (f: Option<Fields>)
    ensures f.Some? ==> RowOf(f.value, numa, zone) && f.value in lines
    ensures f.None? ==> forall g | g in lines :: !RowOf(g, numa, zone)
  {
    if lines == [] then None
    else if RowOf(lines[|lines| - 1], numa, zone) then Some(lines[|lines| - 1])
    else
      var f := LastRow(lines[..|lines| - 1], numa, zone);
      assert lines == lines[..|lines| - 1] + [lines[|lines| - 1]];
      f
  }

  predicate RowReadable(f: Fields) {
    IsZone(f) ==> Readable(f[4..], ParseUint)
  }

  function RowFree(f: Fields): (free: Free)
    requires IsZone(f) && RowReadable(f)
  {
    Wrapped(Counts(f[4..], ParseUint))
  }

  /** thpBuddyZone */
  function ThpZone(zones: set<string>): (zone: string) {
    if MOVABLE in zones then MOVABLE else NORMAL
  }

  type Zones = map<string, set<string>>

  datatype Buddy = Buddy(zone: string, free: Free)

  datatype Snapshot = Snapshot(zonesByNuma: Zones, thpByNuma: seq<Row<Buddy>>)

  /** What a file says about a zone: nothing, or the figures of its last row. */
  ghost function FreeAt(lines: seq<Fields>, numa: string, zone: string): (free: Option<Free>)
    requires forall f | f in lines :: RowReadable(f)
  {
    var row := LastRow(lines, numa, zone);
    if row.Some? then Some(RowFree(row.value)) else None
  }

  /** The two maps hold what the lines say. */
  ghost predicate Recorded(lines: seq<Fields>, zones: Zones, free: Nested<Free>) {
    && (forall f | f in lines :: RowReadable(f))
    && (forall numa, zone :: Lookup(free, numa, zone) == FreeAt(lines, numa, zone))
    && (forall numa :: numa in zones <==> numa in free)
    && (forall numa | numa in zones :: zones[numa] == free[numa].Keys != {})
  }

  lemma LastRowStep(lines: seq<Fields>, f: Fields, numa: string, zone: string)
    ensures LastRow(lines + [f], numa, zone) == if RowOf(f, numa, zone) then Some(f) else LastRow(lines, numa, zone)
  {
    assert (lines + [f])[..|lines|] == lines;
  }

  lemma SkipRow(lines: seq<Fields>, f: Fields, zones: Zones, free: Nested<Free>)
    requires Recorded(lines, zones, free) && !IsZone(f)
    ensures Recorded(lines + [f], zones, free)
  {
    forall numa, zone
      ensures Lookup(free, numa, zone) == FreeAt(lines + [f], numa, zone)
    {
      LastRowStep(lines, f, numa, zone);
    }
  }

  lemma AddRow(lines: seq<Fields>, f: Fields, zones: Zones, free: Nested<Free>, zones': Zones, free': Nested<Free>)
    requires Recorded(lines, zones, free) && IsZone(f) && RowReadable(f)
    requires var numa, zone := TrimComma(f[1]), TrimComma(f[3]);
             && zones' == zones[numa := (if numa in zones then zones[numa] else {}) + {zone}]
             && free' == Put(free, numa, zone, RowFree(f))
    ensures Recorded(lines + [f], zones', free')
  {
    forall numa, zone
      ensures Lookup(free', numa, zone) == FreeAt(lines + [f], numa, zone)
    {
      LastRowStep(lines, f, numa, zone);
      LookupPut(free, TrimComma(f[1]), TrimComma(f[3]), RowFree(f), numa, zone);
    }
  }

  /** The parsing loop. */
  method ReadRows(lines: seq<Fields>) returns (ok: bool, zones: Zones, free: Nested<Free>)
    ensures ok <==> forall f | f in lines :: RowReadable(f)
    ensures ok ==> Recorded(lines, zones, free)
  {
    zones, free := map[], map[];
    for i := 0 to |lines|
      invariant Recorded(lines[..i], zones, free)
    {
      var f := lines[i];
      assert lines[..i + 1] == lines[..i] + [f];
      if !IsZone(f) {
        SkipRow(lines[..i], f, zones, free);
        continue;
      }
      var numa, zone := TrimComma(f[1]), TrimComma(f[3]);
      var zones' := zones[numa := (if numa in zones then zones[numa] else {}) + {zone}];
      var sums := SumCounts(f[4..], ParseUint);
      if sums.None? {
        assert f in lines && !RowReadable(f);
        return false, zones', free;
      }
      var free' := Put(free, numa, zone, sums.value);
      AddRow(lines[..i], f, zones, free, zones', free');
      zones, free := zones', free';
    }
    assert lines[..|lines|] == lines;
    ok := true;
  }

  /** The entry of a NUMA node for its THP zone, if it has that zone. */
  function ThpEntry(zones: Zones, free: Nested<Free>, numa: string): (b: Option<Buddy>)
    requires numa in zones
  {
    var zone := ThpZone(zones[numa]);
    var entry := Lookup(free, numa, zone);
    if entry.Some? then Some(Buddy(zone, entry.value)) else None
  }

  /** The aggregation: one row per NUMA node from its THP zone, whatever the order of the walk; an error
      as soon as one node has neither zone. */
  method ThpRows(zones: Zones, free: Nested<Free>) returns (r: Option<seq<Row<Buddy>>>)
    ensures r.Some? <==> forall numa | numa in zones :: ThpEntry(zones, free, numa).Some?
    ensures r.Some? ==> Lists(r.value, map numa | numa in zones :: ThpEntry(zones, free, numa).value)
  {
    var rows := [];
    var todo := zones.Keys;
    while todo != {}
      invariant todo <= zones.Keys && DistinctNumas(rows)
      invariant forall row | row in rows ::
                  row.numa in zones && row.numa !in todo && ThpEntry(zones, free, row.numa) == Some(row.value)
      invariant forall numa | numa in zones && numa !in todo ::
                  ThpEntry(zones, free, numa).Some? && Row(numa, ThpEntry(zones, free, numa).value) in rows
      decreases todo
    {
      var numa :| numa in todo;
      todo := todo - {numa};
      var entry := ThpEntry(zones, free, numa);
      if entry.None? {
        return None;
      }
      rows := rows + [Row(numa, entry.value)];
    }
    rows := SortRows(rows);
    return Some(rows);
  }

  // Snapshots

  /** The zones of a NUMA node are those with a row. */
  ghost predicate ZonesOf(zones: Zones, lines: seq<Fields>) {
    && (forall numa | numa in zones :: zones[numa] != {})
    && (forall numa, zone :: numa in zones && zone in zones[numa] <==> LastRow(lines, numa, zone).Some?)
  }

  /** Each NUMA node has the figures of its THP zone. */
  ghost predicate ThpOf(m: map<string, Buddy>, zones: Zones, lines: seq<Fields>)
    requires forall f | f in lines :: RowReadable(f)
  {
    && (forall numa :: numa in m <==> numa in zones)
    && (forall numa | numa in m ::
          m[numa].zone == ThpZone(zones[numa]) && FreeAt(lines, numa, m[numa].zone) == Some(m[numa].free))
  }

  /** A snapshot of these lines: the zones, and one row per NUMA node in order. */
  ghost predicate IsSnapshot(s: Snapshot, lines: seq<Fields>) {
    && (forall f | f in lines :: RowReadable(f))
    && ZonesOf(s.zonesByNuma, lines)
    && exists m :: Lists(s.thpByNuma, m) && ThpOf(m, s.zonesByNuma, lines)
  }

  lemma ZonesIncluded(y: Zones, z: Zones, lines: seq<Fields>, numa: string)
    requires ZonesOf(y, lines) && ZonesOf(z, lines) && numa in y
    ensures numa in z && y[numa] <= z[numa]
  {
    forall zone | zone in y[numa]
      ensures numa in z && zone in z[numa]
    {
      assert LastRow(lines, numa, zone).Some?;
    }
    var zone :| zone in y[numa];
  }

  lemma ZonesUnique(y: Zones, z: Zones, lines: seq<Fields>)
    requires ZonesOf(y, lines) && ZonesOf(z, lines)
    ensures y == z
  {
    forall numa
      ensures numa in y <==> numa in z
      ensures numa in y && numa in z ==> y[numa] == z[numa]
    {
      if numa in y {
        ZonesIncluded(y, z, lines, numa);
      }
      if numa in z {
        ZonesIncluded(z, y, lines, numa);
      }
    }
    assert y.Keys == z.Keys;
  }

  lemma ThpUnique(m: map<string, Buddy>, n: map<string, Buddy>, zones: Zones, lines: seq<Fields>)
    requires forall f | f in lines :: RowReadable(f)
    requires ThpOf(m, zones, lines) && ThpOf(n, zones, lines)
    ensures m == n
  {
    forall numa | numa in m
      ensures numa in n && m[numa] == n[numa]
    {
      assert FreeAt(lines, numa, m[numa].zone) == Some(m[numa].free);
    }
  }

  /** There is only one, so nothing depends on the order in which maps are walked. */
  lemma SnapshotUnique(s: Snapshot, t: Snapshot, lines: seq<Fields>)
    requires IsSnapshot(s, lines) && IsSnapshot(t, lines)
    ensures s == t
  {
    ZonesUnique(s.zonesByNuma, t.zonesByNuma, lines);
    var m :| Lists(s.thpByNuma, m) && ThpOf(m, s.zonesByNuma, lines);
    var n :| Lists(t.thpByNuma, n) && ThpOf(n, t.zonesByNuma, lines);
    ThpUnique(m, n, s.zonesByNuma, lines);
    ListsUnique(s.thpByNuma, t.thpByNuma, m);
  }

  /** When a read succeeds: every row can be parsed, there is one, and every NUMA node with a row has a
      Movable or a Normal zone. */
  ghost predicate Acceptable(lines: seq<Fields>) {
    && (forall f | f in lines :: RowReadable(f))
    && (exists f :: f in lines && IsZone(f))
    && (forall f | f in lines && IsZone(f) ::
          LastRow(lines, TrimComma(f[1]), MOVABLE).Some? || LastRow(lines, TrimComma(f[1]), NORMAL).Some?)
  }

  lemma NumaHasRow(lines: seq<Fields>, zones: Zones, free: Nested<Free>, numa: string)
    requires Recorded(lines, zones, free)
    ensures numa in zones <==> exists f :: f in lines && IsZone(f) && TrimComma(f[1]) == numa
  {
    if numa in zones {
      var zone :| zone in free[numa];
      assert Lookup(free, numa, zone) == FreeAt(lines, numa, zone);
    }
    forall f | f in lines && IsZone(f) && TrimComma(f[1]) == numa
      ensures numa in zones
    {
      assert RowOf(f, numa, TrimComma(f[3]));
      assert Lookup(free, numa, TrimComma(f[3])) == FreeAt(lines, numa, TrimComma(f[3]));
    }
  }

  /** A NUMA node has an entry exactly if one of the two zones has a row. */
  lemma ThpEntryExists(lines: seq<Fields>, zones: Zones, free: Nested<Free>, numa: string)
    requires Recorded(lines, zones, free) && numa in zones
    ensures ThpEntry(zones, free, numa).Some? <==>
              LastRow(lines, numa, MOVABLE).Some? || LastRow(lines, numa, NORMAL).Some?
  {
    assert Lookup(free, numa, MOVABLE) == FreeAt(lines, numa, MOVABLE);
    assert Lookup(free, numa, NORMAL) == FreeAt(lines, numa, NORMAL);
  }

  lemma AcceptableOnlyIf(lines: seq<Fields>, zones: Zones, free: Nested<Free>)
    requires Recorded(lines, zones, free) && Acceptable(lines)
    ensures zones != map[] && forall numa | numa in zones :: ThpEntry(zones, free, numa).Some?
  {
    var f :| f in lines && IsZone(f);
    NumaHasRow(lines, zones, free, TrimComma(f[1]));
    forall numa | numa in zones
      ensures ThpEntry(zones, free, numa).Some?
    {
      NumaHasRow(lines, zones, free, numa);
      ThpEntryExists(lines, zones, free, numa);
    }
  }

  lemma AcceptableIf(lines: seq<Fields>, zones: Zones, free: Nested<Free>)
    requires Recorded(lines, zones, free)
    requires zones != map[] && forall numa | numa in zones :: ThpEntry(zones, free, numa).Some?
    ensures Acceptable(lines)
  {
    var numa :| numa in zones;
    NumaHasRow(lines, zones, free, numa);
    forall f | f in lines && IsZone(f)
      ensures LastRow(lines, TrimComma(f[1]), MOVABLE).Some? || LastRow(lines, TrimComma(f[1]), NORMAL).Some?
    {
      NumaHasRow(lines, zones, free, TrimComma(f[1]));
      ThpEntryExists(lines, zones, free, TrimComma(f[1]));
    }
  }

  lemma RecordedZones(lines: seq<Fields>, zones: Zones, free: Nested<Free>)
    requires Recorded(lines, zones, free)
    ensures ZonesOf(zones, lines)
  {
    forall numa, zone
      ensures numa in zones && zone in zones[numa] <==> LastRow(lines, numa, zone).Some?
    {
      assert Lookup(free, numa, zone) == FreeAt(lines, numa, zone);
    }
  }

  lemma RecordedThp(lines: seq<Fields>, zones: Zones, free: Nested<Free>, m: map<string, Buddy>)
    requires Recorded(lines, zones, free) && forall numa | numa in zones :: ThpEntry(zones, free, numa).Some?
    requires m == map numa | numa in zones :: ThpEntry(zones, free, numa).value
    ensures ThpOf(m, zones, lines)
  {
    forall numa | numa in m
      ensures m[numa].zone == ThpZone(zones[numa]) && FreeAt(lines, numa, m[numa].zone) == Some(m[numa].free)
    {
      assert Lookup(free, numa, m[numa].zone) == FreeAt(lines, numa, m[numa].zone);
    }
  }

  /** readBuddySnapshot. The file may be missing, and reading it may fail part-way. */
  method ReadBuddySnapshot(file: Option<seq<Fields>>, scanFails: bool) returns (r: Option<Snapshot>)
    ensures r.Some? <==> file.Some? && !scanFails && Acceptable(file.value)
    ensures r.Some? ==> IsSnapshot(r.value, file.value)
  {
    if file.None? {
      return None;
    }
    var lines := file.value;
    var ok, zones, free := ReadRows(lines);
    if !ok || scanFails {
      return None;
    }
    if Acceptable(lines) {
      AcceptableOnlyIf(lines, zones, free);
    }
    if zones == map[] {
      return None;
    }
    var rows := ThpRows(zones, free);
    if rows.None? {
      return None;
    }
    AcceptableIf(lines, zones, free);
    RecordedZones(lines, zones, free);
    RecordedThp(lines, zones, free, map numa | numa in zones :: ThpEntry(zones, free, numa).value);
    return Some(Snapshot(zones, rows.value));
  }
}
