/** Reading /proc/pagetypeinfo (pkg/cgroup/pagetypeinfo.go). A line is its text and what strings.Fields
    makes of it. */
module PagetypeInfo {
  import opened BuddyInfo
  import opened Common
  import opened FreeBytes
  import opened NumaRows

  datatype Line = Line(text: string, fields: Fields)

  datatype Kind = Unmovable | Isolate

  predicate Header(l: Line) {
    "Free pages count per migrate type" <= l.text
  }

  predicate Footer(l: Line) {
    "Number of blocks" <= l.text
  }

  /** Whether the lines end inside the section of free pages. */
  predicate InFree(lines: seq<Line>) {
    lines != [] &&
    var before, l := lines[..|lines| - 1], lines[|lines| - 1];
    Header(l) || (InFree(before) && !Footer(l))
  }

  function KindOf(f: Fields): (k: Option<Kind>) {
    if |f| < 7 || f[0] != "Node" || f[2] != "zone" || f[4] != "type" then None
    else if f[5] == "Unmovable" then Some(Unmovable)
    else if f[5] == "Isolate" then Some(Isolate)
    else None
  }

  /** The line after `before` is a row that counts. */
  predicate Counted(before: seq<Line>, l: Line)
    ensures Counted(before, l) ==> |l.fields| >= 7
  {
    InFree(before) && !Header(l) && !Footer(l) && l.text != "" && KindOf(l.fields).Some?
  }

  predicate RowFor(l: Line, zone: string, numa: string, k: Kind) {
    KindOf(l.fields) == Some(k) && TrimComma(l.fields[3]) == zone && TrimComma(l.fields[1]) == numa
  }

  predicate AllReadable(lines: seq<Line>) {
    lines == [] ||
    (var before, l := lines[..|lines| - 1], lines[|lines| - 1];
     AllReadable(before) && (Counted(before, l) ==> Readable(l.fields[6..], ParsePages)))
  }

  function RowFigures(l: Line): (f: Free)
    requires |l.fields| >= 7 && Readable(l.fields[6..], ParsePages)
  {
    Wrapped(Counts(l.fields[6..], ParsePages))
  }

  /** What the lines say about one kind of block: nothing, or the figures of the last row that counts. */
  function FiguresAt(lines: seq<Line>, zone: string, numa: string, k: Kind): (f: Option<Free>)
    requires AllReadable(lines)
  {
    if lines == [] then None
    else
      var before, l := lines[..|lines| - 1], lines[|lines| - 1];
      if Counted(before, l) && RowFor(l, zone, numa, k) then Some(RowFigures(l)) else FiguresAt(before, zone, numa, k)
  }

  function OrZero(f: Option<Free>): (g: Free) {
    if f.Some? then f.value else Free(0, 0)
  }

  /** The entry of a NUMA node: present if either kind has a row, a missing kind counting as zero. */
  function ExcludedAt(lines: seq<Line>, zone: string, numa: string): (e: Option<Excluded>)
    requires AllReadable(lines)
  {
    var u, i := FiguresAt(lines, zone, numa, Unmovable), FiguresAt(lines, zone, numa, Isolate);
    if u.None? && i.None? then None else Some(Excluded(OrZero(u), OrZero(i)))
  }

  /** Line h is a header, and no line after it starts the block counts. */
  predicate OpensAt(lines: seq<Line>, h: nat) {
    h < |lines| && Header(lines[h]) && forall j | h < j < |lines| :: !Footer(lines[j])
  }

  lemma OpensStep(lines: seq<Line>, n: nat, h: nat)
    requires |lines| == n + 1
    ensures OpensAt(lines, h) <==>
              if h < n then OpensAt(lines[..n], h) && !Footer(lines[n]) else h == n && Header(lines[n])
  {
  }

  /** The section starts at a header and lasts until a line that starts the block counts. */
  lemma {:induction false} InFreeMeaning(lines: seq<Line>)
    ensures InFree(lines) <==> exists h :: OpensAt(lines, h)
  {
    if lines != [] {
      var n := |lines| - 1;
      var early, last := lines[..n], lines[n];
      InFreeMeaning(early);
      assert InFree(lines) <==> Header(last) || (InFree(early) && !Footer(last));
      forall h: nat
        ensures OpensAt(lines, h) <==> if h < n then OpensAt(early, h) && !Footer(last) else h == n && Header(last)
      {
        OpensStep(lines, n, h);
      }
      assert Header(last) ==> OpensAt(lines, n);
    }
  }

  predicate RowAt(lines: seq<Line>, i: nat, zone: string, numa: string, k: Kind)
    requires i < |lines|
  {
    Counted(lines[..i], lines[i]) && RowFor(lines[i], zone, numa, k)
  }

  lemma RowAtPrefix(lines: seq<Line>, n: nat, i: nat, zone: string, numa: string, k: Kind)
    requires i < n <= |lines|
    ensures RowAt(lines[..n], i, zone, numa, k) == RowAt(lines, i, zone, numa, k)
  {
    assert lines[..n][..i] == lines[..i];
  }

  /** Row i gives these figures, and no later row does. */
  ghost predicate Decides(lines: seq<Line>, i: nat, zone: string, numa: string, k: Kind, f: Free)
    requires i < |lines|
  {
    && RowAt(lines, i, zone, numa, k) && Readable(lines[i].fields[6..], ParsePages) && f == RowFigures(lines[i])
    && forall j | i < j < |lines| :: !RowAt(lines, j, zone, numa, k)
  }

  lemma StillNone(lines: seq<Line>, n: nat, zone: string, numa: string, k: Kind)
    requires |lines| == n + 1 && !RowAt(lines, n, zone, numa, k)
    requires forall i | 0 <= i < n :: !RowAt(lines[..n], i, zone, numa, k)
    ensures forall i | 0 <= i <= n :: !RowAt(lines, i, zone, numa, k)
  {
    forall i | 0 <= i < n
      ensures !RowAt(lines, i, zone, numa, k)
    {
      RowAtPrefix(lines, n, i, zone, numa, k);
    }
  }

  lemma StillDecides(lines: seq<Line>, n: nat, i: nat, zone: string, numa: string, k: Kind, f: Free)
    requires |lines| == n + 1 && i < n && !RowAt(lines, n, zone, numa, k) && Decides(lines[..n], i, zone, numa, k, f)
    ensures Decides(lines, i, zone, numa, k, f)
  {
    RowAtPrefix(lines, n, i, zone, numa, k);
    assert lines[..n][i] == lines[i];
    forall j | i < j < n
      ensures !RowAt(lines, j, zone, numa, k)
    {
      RowAtPrefix(lines, n, j, zone, numa, k);
    }
  }

  /** The last row that counts overrides the earlier ones. */
  lemma {:induction false} FiguresMeaning(lines: seq<Line>, zone: string, numa: string, k: Kind)
    requires AllReadable(lines)
    ensures FiguresAt(lines, zone, numa, k).None? ==> forall i | 0 <= i < |lines| :: !RowAt(lines, i, zone, numa, k)
    ensures FiguresAt(lines, zone, numa, k).Some? ==>
              exists i :: 0 <= i < |lines| && Decides(lines, i, zone, numa, k, FiguresAt(lines, zone, numa, k).value)
  {
    if lines != [] {
      var n := |lines| - 1;
      FiguresMeaning(lines[..n], zone, numa, k);
      if RowAt(lines, n, zone, numa, k) {
        assert Decides(lines, n, zone, numa, k, RowFigures(lines[n]));
      } else {
        var early := FiguresAt(lines[..n], zone, numa, k);
        if early.None? {
          StillNone(lines, n, zone, numa, k);
        } else {
          var i :| 0 <= i < n && Decides(lines[..n], i, zone, numa, k, early.value);
          StillDecides(lines, n, i, zone, numa, k, early.value);
        }
      }
    }
  }

  // The parsing loop

  type ByZone = Nested<Excluded>

  /** The map holds what the lines say. */
  ghost predicate Recorded(lines: seq<Line>, byZone: ByZone) {
    && AllReadable(lines)
    && (forall zone, numa :: Lookup(byZone, zone, numa) == ExcludedAt(lines, zone, numa))
    && (forall zone | zone in byZone :: byZone[zone] != map[])
  }

  lemma FiguresStep(lines: seq<Line>, l: Line, zone: string, numa: string, k: Kind)
    requires AllReadable(lines) && (Counted(lines, l) ==> Readable(l.fields[6..], ParsePages))
    ensures AllReadable(lines + [l])
    ensures FiguresAt(lines + [l], zone, numa, k)
         == if Counted(lines, l) && RowFor(l, zone, numa, k) then Some(RowFigures(l))
            else FiguresAt(lines, zone, numa, k)
  {
    assert (lines + [l])[..|lines|] == lines;
  }

  function SetKind(e: Excluded, k: Kind, f: Free): (e': Excluded) {
    if k == Unmovable then e.(unmovable := f) else e.(isolate := f)
  }

  lemma SkipLine(lines: seq<Line>, l: Line, byZone: ByZone)
    requires Recorded(lines, byZone) && !Counted(lines, l)
    ensures Recorded(lines + [l], byZone)
  {
    FiguresStep(lines, l, "", "", Unmovable);
    forall zone, numa
      ensures Lookup(byZone, zone, numa) == ExcludedAt(lines + [l], zone, numa)
    {
      FiguresStep(lines, l, zone, numa, Unmovable);
      FiguresStep(lines, l, zone, numa, Isolate);
    }
  }

  lemma AddLine(lines: seq<Line>, l: Line, byZone: ByZone, entry: Excluded, k: Kind)
    requires Recorded(lines, byZone) && Counted(lines, l) && Readable(l.fields[6..], ParsePages)
             && KindOf(l.fields) == Some(k)
    requires var found := Lookup(byZone, TrimComma(l.fields[3]), TrimComma(l.fields[1]));
             entry == if found.Some? then found.value else NOTHING
    ensures Recorded(lines + [l],
                     Put(byZone, TrimComma(l.fields[3]), TrimComma(l.fields[1]), SetKind(entry, k, RowFigures(l))))
  {
    var zone0, numa0, v := TrimComma(l.fields[3]), TrimComma(l.fields[1]), SetKind(entry, k, RowFigures(l));
    FiguresStep(lines, l, "", "", Unmovable);
    forall zone, numa
      ensures Lookup(Put(byZone, zone0, numa0, v), zone, numa) == ExcludedAt(lines + [l], zone, numa)
    {
      FiguresStep(lines, l, zone, numa, Unmovable);
      FiguresStep(lines, l, zone, numa, Isolate);
      LookupPut(byZone, zone0, numa0, v, zone, numa);
    }
    assert numa0 in Put(byZone, zone0, numa0, v)[zone0];
  }

  lemma {:induction false} ReadablePrefix(lines: seq<Line>, n: nat)
    requires n <= |lines| && AllReadable(lines)
    ensures AllReadable(lines[..n])
    decreases |lines|
  {
    if n == |lines| {
      assert lines[..n] == lines;
    } else {
      ReadablePrefix(lines[..|lines| - 1], n);
      assert lines[..|lines| - 1][..n] == lines[..n];
    }
  }

  /** readPagetypeExcludedAllZones, for a file that could be opened. */
  method ReadLines(lines: seq<Line>) returns (r: Option<ByZone>)
    ensures r.Some? <==> AllReadable(lines)
    ensures r.Some? ==> Recorded(lines, r.value)
  {
    var byZone: ByZone := map[];
    var inFreeSection := false;
    for i := 0 to |lines|
      invariant inFreeSection == InFree(lines[..i]) && Recorded(lines[..i], byZone)
    {
      var l := lines[i];
      assert lines[..i + 1] == lines[..i] + [l] && lines[..i + 1][..i] == lines[..i];
      if Header(l) {
        inFreeSection := true;
        SkipLine(lines[..i], l, byZone);
        continue;
      }
      if !inFreeSection {
        SkipLine(lines[..i], l, byZone);
        continue;
      }
      if Footer(l) {
        inFreeSection := false;
        SkipLine(lines[..i], l, byZone);
        continue;
      }
      if l.text == "" || KindOf(l.fields).None? {
        SkipLine(lines[..i], l, byZone);
        continue;
      }
      var zone, numa, kind := TrimComma(l.fields[3]), TrimComma(l.fields[1]), KindOf(l.fields).value;
      var found := Lookup(byZone, zone, numa);
      var entry := if found.Some? then found.value else NOTHING;
      var sums := SumCounts(l.fields[6..], ParsePages);
      if sums.None? {
        if AllReadable(lines) {
          ReadablePrefix(lines, i + 1);
        }
        return None;
      }
      AddLine(lines[..i], l, byZone, entry, kind);
      byZone := Put(byZone, zone, numa, SetKind(entry, kind, sums.value));
    }
    assert lines[..|lines|] == lines;
    return Some(byZone);
  }

  /** When a read succeeds. */
  ghost predicate Acceptable(lines: seq<Line>) {
    AllReadable(lines) && exists zone, numa :: ExcludedAt(lines, zone, numa).Some?
  }

  lemma RecordedSome(lines: seq<Line>, byZone: ByZone)
    requires Recorded(lines, byZone)
    ensures Acceptable(lines) <==> byZone != map[]
  {
    if byZone != map[] {
      var zone :| zone in byZone;
      var numa :| numa in byZone[zone];
      assert Lookup(byZone, zone, numa) == ExcludedAt(lines, zone, numa);
    }
    if Acceptable(lines) {
      var zone, numa :| ExcludedAt(lines, zone, numa).Some?;
      assert Lookup(byZone, zone, numa) == ExcludedAt(lines, zone, numa);
    }
  }

  method ReadAllZones(file: Option<seq<Line>>, scanFails: bool) returns (r: Option<ByZone>)
    ensures r.Some? <==> file.Some? && !scanFails && Acceptable(file.value)
    ensures r.Some? ==> Recorded(file.value, r.value)
  {
    if file.None? {
      return None;
    }
    r := ReadLines(file.value);
    if r.None? || scanFails {
      return None;
    }
    RecordedSome(file.value, r.value);
    if r.value == map[] {
      return None;
    }
  }

  // The excluded rows

  /** pagetypeExcludedForZone */
  method ExcludedForZone(byZone: ByZone, zone: string) returns (r: Option<seq<Row<Excluded>>>)
    ensures r.Some? <==> zone in byZone && byZone[zone] != map[]
    ensures r.Some? ==> Lists(r.value, byZone[zone])
  {
    if zone !in byZone || byZone[zone] == map[] {
      return None;
    }
    var rows := Listing(byZone[zone]);
    return Some(rows);
  }

  /** Every THP zone has an excluded row for some node. */
  ghost predicate ZonesKnown(byZone: ByZone, zonesByNuma: Zones, numas: set<string>)
    requires numas <= zonesByNuma.Keys
  {
    forall numa | numa in numas :: ThpZone(zonesByNuma[numa]) in byZone && byZone[ThpZone(zonesByNuma[numa])] != map[]
  }

  /** The first loop of pagetypeExcludedTHPZone: the entries of every zone needed, each looked up once. */
  method ZoneEntries(byZone: ByZone, zonesByNuma: Zones) returns (r: Option<ByZone>)
    ensures r.Some? <==> ZonesKnown(byZone, zonesByNuma, zonesByNuma.Keys)
    ensures r.Some? ==> forall numa | numa in zonesByNuma ::
                          var zone := ThpZone(zonesByNuma[numa]);
                          zone in r.value && zone in byZone && r.value[zone] == byZone[zone]
  {
    var entries: ByZone := map[];
    var todo := zonesByNuma.Keys;
    while todo != {}
      invariant todo <= zonesByNuma.Keys
      invariant forall zone | zone in entries ::
                  zone in byZone && entries[zone] == byZone[zone] && byZone[zone] != map[]
      invariant forall numa | numa in zonesByNuma && numa !in todo :: ThpZone(zonesByNuma[numa]) in entries
      decreases todo
    {
      var numa :| numa in todo;
      todo := todo - {numa};
      var zone := ThpZone(zonesByNuma[numa]);
      if zone in entries {
        continue;
      }
      var rows := ExcludedForZone(byZone, zone);
      if rows.None? {
        return None;
      }
      var m := ToMap(rows.value);
      ListedUnique(rows.value, byZone[zone], m);
      entries := entries[zone := m];
    }
    return Some(entries);
  }

  /** A NUMA node's excluded memory in its THP zone; no row counts as nothing. */
  function ThpExcluded(byZone: ByZone, zonesByNuma: Zones, numa: string): (e: Excluded)
    requires numa in zonesByNuma
  {
    var found := Lookup(byZone, ThpZone(zonesByNuma[numa]), numa);
    if found.Some? then found.value else NOTHING
  }

  ghost function ThpExcludedMap(byZone: ByZone, zonesByNuma: Zones): (m: map<string, Excluded>) {
    map numa | numa in zonesByNuma :: ThpExcluded(byZone, zonesByNuma, numa)
  }

  /** pagetypeExcludedTHPZone: one row for every node of buddyinfo, from the same zone. */
  method ExcludedThpZone(byZone: ByZone, zonesByNuma: Zones) returns (r: Option<seq<Row<Excluded>>>)
    ensures r.Some? <==> ZonesKnown(byZone, zonesByNuma, zonesByNuma.Keys)
    ensures r.Some? ==> Lists(r.value, ThpExcludedMap(byZone, zonesByNuma))
  {
    var entries := ZoneEntries(byZone, zonesByNuma);
    if entries.None? {
      return None;
    }
    var rows := [];
    var todo := zonesByNuma.Keys;
    while todo != {}
      invariant todo <= zonesByNuma.Keys && DistinctNumas(rows)
      invariant forall row | row in rows ::
                  row.numa in zonesByNuma && row.numa !in todo
                  && row.value == ThpExcluded(byZone, zonesByNuma, row.numa)
      invariant forall numa | numa in zonesByNuma && numa !in todo ::
                  Row(numa, ThpExcluded(byZone, zonesByNuma, numa)) in rows
      decreases todo
    {
      var numa :| numa in todo;
      todo := todo - {numa};
      var zone := ThpZone(zonesByNuma[numa]);
      var found := Lookup(entries.value, zone, numa);
      rows := rows + [Row(numa, if found.Some? then found.value else NOTHING)];
    }
    rows := SortRows(rows);
    return Some(rows);
  }

  function AddFree(a: Free, b: Free): (c: Free) {
    Free(Add64(a.orderGe9, b.orderGe9), Add64(a.allOrders, b.allOrders))
  }

  /** addPagetypeExcluded */
  function AddExcluded(a: Excluded, b: Excluded): (c: Excluded) {
    Excluded(AddFree(a.unmovable, b.unmovable), AddFree(a.isolate, b.isolate))
  }

  function Inner(byZone: ByZone, zone: string): (m: map<string, Excluded>) {
    if zone in byZone then byZone[zone] else map[]
  }

  /** What Normal and Movable exclude together on a node that appears in either. */
  function BothZones(byZone: ByZone, numa: string): (e: Option<Excluded>) {
    var n, m := Lookup(byZone, NORMAL, numa), Lookup(byZone, MOVABLE, numa);
    if n.Some? && m.Some? then Some(AddExcluded(n.value, m.value)) else if n.Some? then n else m
  }

  ghost function BothMap(byZone: ByZone): (m: map<string, Excluded>) {
    map numa | numa in Inner(byZone, NORMAL).Keys + Inner(byZone, MOVABLE).Keys :: BothZones(byZone, numa).value
  }

  /** The merging loops of pagetypeUnmovableSum, in any order. */
  method MergeZones(normal: map<string, Excluded>, movable: map<string, Excluded>)
    returns (byNuma: map<string, Excluded>)
    ensures byNuma.Keys == normal.Keys + movable.Keys
    ensures forall numa | numa in byNuma ::
              byNuma[numa] == if numa in normal && numa in movable then AddExcluded(normal[numa], movable[numa])
                              else if numa in normal then normal[numa] else movable[numa]
  {
    byNuma := map[];
    var todo := normal.Keys;
    while todo != {}
      invariant todo <= normal.Keys && byNuma.Keys == normal.Keys - todo
      invariant forall numa | numa in byNuma :: byNuma[numa] == normal[numa]
      decreases todo
    {
      var numa :| numa in todo;
      todo := todo - {numa};
      byNuma := byNuma[numa := normal[numa]];
    }
    todo := movable.Keys;
    while todo != {}
      invariant todo <= movable.Keys && byNuma.Keys == normal.Keys + (movable.Keys - todo)
      invariant forall numa | numa in byNuma ::
                  byNuma[numa] == if numa in normal && numa in movable && numa !in todo then
                                    AddExcluded(normal[numa], movable[numa])
                                  else if numa in normal then normal[numa] else movable[numa]
      decreases todo
    {
      var numa :| numa in todo;
      todo := todo - {numa};
      byNuma := byNuma[numa := if numa in byNuma then AddExcluded(byNuma[numa], movable[numa]) else movable[numa]];
    }
  }

  /** pagetypeUnmovableSum */
  method UnmovableSum(byZone: ByZone) returns (rows: seq<Row<Excluded>>)
    ensures Lists(rows, BothMap(byZone))
  {
    var normal, movable := Inner(byZone, NORMAL), Inner(byZone, MOVABLE);
    if normal == map[] && movable == map[] {
      return [];
    }
    var byNuma := MergeZones(normal, movable);
    assert byNuma == BothMap(byZone);
    rows := Listing(byNuma);
  }
}
