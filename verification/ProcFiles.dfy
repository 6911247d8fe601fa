/** What the readers make of the files the kernel prints (mm/vmstat.c of Linux, as in the fixtures of
    pkg/cgroup/collector_test.go and pkg/cgroup/testdata): from the free blocks of a machine to /proc/buddyinfo and
    /proc/pagetypeinfo, and from there to the figures reported for each NUMA node. */
module ProcFiles {
  import opened Bits
  import opened BuddyInfo
  import opened Common
  import opened FreeBytes
  import opened NumaRows
  import opened CgroupCollector
  import P = PagetypeInfo

  // Numbers

  /** A number in decimal. */
  function Show(n: nat): (s: string)
    ensures s != "" && Digits(s) && Value(s) == n
  {
    var last := [('0' as int + n % 10) as char];
    if n < 10 then last
    else
      var s := Show(n / 10) + last;
      assert s[..|s| - 1] == Show(n / 10);
      s
  }

  lemma SameShown(m: nat, n: nat)
    requires Show(m) == Show(n)
    ensures m == n
  {
    assert Value(Show(m)) == Value(Show(n));
  }

  /** A count of free blocks in pagetypeinfo: the kernel stops counting at 100000. */
  function ShowBlocks(n: nat): (s: string) {
    if n >= 100000 then ">100000" else Show(n)
  }

  function Capped(n: nat): (m: nat) {
    if n >= 100000 then 100000 else n
  }

  lemma ShowParses(n: nat)
    ensures ParseUint(Show(n)) == if n < 0x1_0000_0000_0000_0000 then Some(n) else None
    ensures ParsePages(ShowBlocks(n)) == Some(Capped(n))
  {
    assert '0' <= Show(n)[0] <= '9';
  }

  function CappedAll(blocks: seq<nat>): (c: seq<nat>)
    ensures |c| == |blocks| && forall i | 0 <= i < |c| :: c[i] == Capped(blocks[i])
  {
    seq(|blocks|, i requires 0 <= i < |blocks| => Capped(blocks[i]))
  }

  function ShowAll(blocks: seq<nat>): (f: Fields)
    ensures |f| == |blocks| && forall i | 0 <= i < |f| :: f[i] == Show(blocks[i])
  {
    seq(|blocks|, i requires 0 <= i < |blocks| => Show(blocks[i]))
  }

  function ShowAllBlocks(blocks: seq<nat>): (f: Fields)
    ensures |f| == |blocks| && forall i | 0 <= i < |f| :: f[i] == ShowBlocks(blocks[i])
  {
    seq(|blocks|, i requires 0 <= i < |blocks| => ShowBlocks(blocks[i]))
  }

  lemma AllParse(blocks: seq<nat>)
    requires forall n | n in blocks :: n < 0x1_0000_0000_0000_0000
    ensures Readable(ShowAll(blocks), ParseUint) && Counts(ShowAll(blocks), ParseUint) == blocks
  {
    forall i | 0 <= i < |blocks|
      ensures ParseUint(ShowAll(blocks)[i]) == Some(blocks[i])
    {
      assert blocks[i] in blocks;
      ShowParses(blocks[i]);
    }
  }

  lemma AllBlocksParse(blocks: seq<nat>)
    ensures Readable(ShowAllBlocks(blocks), ParsePages)
    ensures Counts(ShowAllBlocks(blocks), ParsePages) == CappedAll(blocks)
  {
    forall i | 0 <= i < |blocks|
      ensures ParsePages(ShowAllBlocks(blocks)[i]) == Some(Capped(blocks[i]))
    {
      ShowParses(blocks[i]);
    }
  }

  // Bytes

  /** Bytes in these blocks: a block of order 0 is a page, one of each further order twice as large. */
  function BytesIn(blocks: seq<nat>): (n: nat) {
    if blocks == [] then 0 else 4096 * blocks[0] + 2 * BytesIn(blocks[1..])
  }

  /** Bytes in blocks of order 9 and above, 2 MiB and more each. */
  function HugeBytesIn(blocks: seq<nat>): (n: nat) {
    if |blocks| <= 9 then 0 else 512 * BytesIn(blocks[9..])
  }

  lemma {:induction false} SumShifts(blocks: seq<nat>, hi: nat)
    requires blocks != []
    ensures Sum(blocks, 1, hi + 1) == 2 * Sum(blocks[1..], 0, hi)
  {
    if hi > 0 {
      SumShifts(blocks, hi - 1);
      var c := CountAt(blocks, hi);
      assert c == CountAt(blocks[1..], hi - 1) && Pow2(hi) == 2 * Pow2(hi - 1);
      assert c * (4096 * Pow2(hi)) == 2 * (c * (4096 * Pow2(hi - 1)));
    }
  }

  lemma {:induction false} AllOrdersIsBytes(blocks: seq<nat>)
    ensures AllOrders(blocks) == BytesIn(blocks)
  {
    if blocks != [] {
      AllOrdersIsBytes(blocks[1..]);
      SumShifts(blocks, |blocks| - 1);
      SumSplits(blocks, 1, |blocks|);
      assert Pow2(0) == 1 && Sum(blocks, 0, 1) == Bytes(blocks[0], 0);
    }
  }

  lemma {:induction false} Pow2Adds(m: nat, n: nat)
    ensures Pow2(m + n) == Pow2(m) * Pow2(n)
  {
    if n > 0 {
      Pow2Adds(m, n - 1);
    }
  }

  lemma Regroup(c: nat, p: nat, q: nat)
    ensures c * (4096 * (p * q)) == p * (c * (4096 * q))
  {
    var x := 4096 * q;
    assert 4096 * (p * q) == p * x;
    assert c * (p * x) == p * (c * x);
  }

  /** The bytes of a block grow with its order. */
  lemma BytesShift(c: nat, k: nat, order: nat)
    ensures Bytes(c, k + order) == Pow2(k) * Bytes(c, order)
  {
    Pow2Adds(k, order);
    Regroup(c, Pow2(k), Pow2(order));
  }

  lemma Distributes(k: nat, x: nat, y: nat)
    ensures k * (x + y) == k * x + k * y
  {
  }

  lemma {:induction false} SumFrom(blocks: seq<nat>, k: nat, hi: nat)
    requires k <= |blocks|
    ensures Sum(blocks, k, k + hi) == Pow2(k) * Sum(blocks[k..], 0, hi)
  {
    if hi > 0 {
      SumFrom(blocks, k, hi - 1);
      assert CountAt(blocks, k + hi - 1) == CountAt(blocks[k..], hi - 1);
      BytesShift(CountAt(blocks[k..], hi - 1), k, hi - 1);
      Distributes(Pow2(k), Sum(blocks[k..], 0, hi - 1), Bytes(CountAt(blocks[k..], hi - 1), hi - 1));
    }
  }

  lemma OrderGe9IsHuge(blocks: seq<nat>)
    ensures OrderGe9(blocks) == HugeBytesIn(blocks)
  {
    if |blocks| > 9 {
      SumFrom(blocks, 9, |blocks| - 9);
      AllOrdersIsBytes(blocks[9..]);
      assert Pow2(9) == 512;
    }
  }

  /** Both figures of a row, when they fit 64 bits. */
  lemma WrappedIsBytes(blocks: seq<nat>)
    requires BytesIn(blocks) < 0x1_0000_0000_0000_0000
    ensures Wrapped(blocks).allOrders == BytesIn(blocks) && Wrapped(blocks).orderGe9 == HugeBytesIn(blocks)
  {
    AllOrdersIsBytes(blocks);
    OrderGe9IsHuge(blocks);
    GeNinePart(blocks, |blocks| + 9);
    Small(AllOrders(blocks));
    Small(OrderGe9(blocks));
  }

  // The machine

  /** Free blocks of one migrate type, by order. */
  datatype Stock = Stock(kind: string, blocks: seq<nat>)

  /** A memory zone of a NUMA node. */
  datatype Zone = Zone(node: nat, name: string, stocks: seq<Stock>)

  /** Free blocks of all types together, by order. */
  function AllBlocks(stocks: seq<Stock>, orders: nat): (blocks: seq<nat>)
    requires forall s | s in stocks :: |s.blocks| == orders
    ensures |blocks| == orders
  {
    if stocks == [] then seq(orders, i => 0)
    else
      var early, last := AllBlocks(stocks[..|stocks| - 1], orders), stocks[|stocks| - 1].blocks;
      seq(orders, i requires 0 <= i < orders => early[i] + last[i])
  }

  /** The free blocks of one type, none if the zone does not have it. */
  function Blocks(stocks: seq<Stock>, kind: string): (blocks: seq<nat>) {
    if stocks == [] then []
    else if stocks[|stocks| - 1].kind == kind then stocks[|stocks| - 1].blocks
    else Blocks(stocks[..|stocks| - 1], kind)
  }

  /** Bytes free for movable allocations: of every type but two. */
  function MovableBytes(stocks: seq<Stock>): (n: nat) {
    if stocks == [] then 0
    else
      var last := stocks[|stocks| - 1];
      MovableBytes(stocks[..|stocks| - 1]) + if last.kind in {"Unmovable", "Isolate"} then 0 else BytesIn(last.blocks)
  }

  function MovableHugeBytes(stocks: seq<Stock>): (n: nat) {
    if stocks == [] then 0
    else
      var last := stocks[|stocks| - 1];
      MovableHugeBytes(stocks[..|stocks| - 1])
      + if last.kind in {"Unmovable", "Isolate"} then 0 else HugeBytesIn(last.blocks)
  }

  /** A name does not end in the comma that pagetypeinfo puts after it. */
  predicate NoComma(name: string) {
    name != "" ==> name[|name| - 1] != ','
  }

  ghost predicate ZoneOk(z: Zone, orders: nat) {
    && NoComma(z.name)
    && (forall s | s in z.stocks :: |s.blocks| == orders)
    && (forall i, j | 0 <= i < j < |z.stocks| :: z.stocks[i].kind != z.stocks[j].kind)
    && BytesIn(AllBlocks(z.stocks, orders)) < 0x1_0000_0000_0000_0000
  }

  /** The zones of a machine with this many orders: different zones on a node have different names, different
      stocks of a zone different types, and everything fits 64 bits. */
  ghost predicate Machine(zones: seq<Zone>, orders: nat) {
    && orders > 0
    && (forall i, j | 0 <= i < j < |zones| :: zones[i].node != zones[j].node || zones[i].name != zones[j].name)
    && (forall i | 0 <= i < |zones| :: ZoneOk(zones[i], orders))
  }

  // /proc/buddyinfo

  /** "Node %d, zone %8s " and a count for each order. */
  function BuddyLine(z: Zone, orders: nat): (f: Fields)
    requires forall s | s in z.stocks :: |s.blocks| == orders
  {
    ["Node", Show(z.node) + ",", "zone", z.name] + ShowAll(AllBlocks(z.stocks, orders))
  }

  ghost predicate BuddyFile(lines: seq<Fields>, zones: seq<Zone>, orders: nat)
    requires Machine(zones, orders)
  {
    |lines| == |zones| && forall k | 0 <= k < |lines| :: lines[k] == BuddyLine(zones[k], orders)
  }

  lemma {:induction false} CountsFit(blocks: seq<nat>, n: nat)
    requires n in blocks
    ensures n <= BytesIn(blocks)
  {
    if blocks[0] != n {
      CountsFit(blocks[1..], n);
    }
  }

  /** A printed line is read back as the zone it shows. */
  lemma BuddyLineReads(z: Zone, orders: nat)
    requires orders > 0 && ZoneOk(z, orders)
    ensures var f := BuddyLine(z, orders);
            && RowOf(f, Show(z.node), z.name) && RowReadable(f)
            && RowFree(f) == Wrapped(AllBlocks(z.stocks, orders))
  {
    var f, all := BuddyLine(z, orders), AllBlocks(z.stocks, orders);
    assert f[1] == Show(z.node) + "," && f[1][..|f[1]| - 1] == Show(z.node);
    assert f[4..] == ShowAll(all);
    forall n | n in all
      ensures n < 0x1_0000_0000_0000_0000
    {
      CountsFit(all, n);
    }
    AllParse(all);
  }

  lemma BuddyLineOnly(z: Zone, orders: nat, numa: string, zone: string)
    requires orders > 0 && ZoneOk(z, orders) && RowOf(BuddyLine(z, orders), numa, zone)
    ensures numa == Show(z.node) && zone == z.name
  {
    BuddyLineReads(z, orders);
  }

  lemma BuddyReadable(lines: seq<Fields>, zones: seq<Zone>, orders: nat)
    requires Machine(zones, orders) && BuddyFile(lines, zones, orders)
    ensures forall f | f in lines :: RowReadable(f)
  {
    forall f | f in lines
      ensures RowReadable(f)
    {
      var i :| 0 <= i < |lines| && lines[i] == f;
      BuddyLineReads(zones[i], orders);
    }
  }

  /** The row of a zone is its own line. */
  lemma BuddyRow(lines: seq<Fields>, zones: seq<Zone>, orders: nat, k: nat)
    requires Machine(zones, orders) && BuddyFile(lines, zones, orders) && k < |zones|
    ensures LastRow(lines, Show(zones[k].node), zones[k].name) == Some(BuddyLine(zones[k], orders))
  {
    var numa, zone := Show(zones[k].node), zones[k].name;
    BuddyLineReads(zones[k], orders);
    assert lines[k] in lines && RowOf(lines[k], numa, zone);
    var f := LastRow(lines, numa, zone).value;
    var i :| 0 <= i < |lines| && lines[i] == f;
    BuddyLineOnly(zones[i], orders, numa, zone);
    SameShown(zones[i].node, zones[k].node);
    assert i == k;
  }

  /** buddyinfo gives each zone all its free blocks. */
  lemma BuddyRoundTrip(lines: seq<Fields>, zones: seq<Zone>, orders: nat, k: nat)
    requires Machine(zones, orders) && BuddyFile(lines, zones, orders) && k < |zones|
    ensures forall f | f in lines :: RowReadable(f)
    ensures FreeAt(lines, Show(zones[k].node), zones[k].name) == Some(Wrapped(AllBlocks(zones[k].stocks, orders)))
  {
    BuddyReadable(lines, zones, orders);
    BuddyRow(lines, zones, orders, k);
    BuddyLineReads(zones[k], orders);
  }

  // /proc/pagetypeinfo

  /** "Node %4d, zone %8s, type %12s " and a count for each order. */
  function PagetypeFields(z: Zone, s: Stock): (f: Fields) {
    ["Node", Show(z.node) + ",", "zone", z.name + ",", "type", s.kind] + ShowAllBlocks(s.blocks)
  }

  /** What a line of pagetypeinfo is: the start of a section of free pages, the start of a section of block counts,
      a stock of a zone, or anything else that is not a row by type. */
  datatype Printed = Opens | Closes | Shows(zone: nat, stock: nat) | Else

  predicate LineIs(l: P.Line, what: Printed, zones: seq<Zone>) {
    match what
    case Opens => "Free pages count per migrate type" <= l.text
    case Closes => "Number of blocks" <= l.text
    case Shows(k, t) =>
      && "Node" <= l.text && k < |zones| && t < |zones[k].stocks|
      && l.fields == PagetypeFields(zones[k], zones[k].stocks[t])
    case Else =>
      && !("Free pages count per migrate type" <= l.text) && !("Number of blocks" <= l.text)
      && !(|l.fields| > 4 && l.fields[4] == "type")
  }

  /** Line i is within a section of free pages that line h opened. */
  predicate OpenSince(script: seq<Printed>, h: nat, i: nat) {
    h < i <= |script| && script[h] == Opens && forall j | h < j < i :: script[j] != Closes
  }

  /** Every stock of every zone is shown once, within a section of free pages; sections may be as many as the kernel
      likes, with anything else around the rows. */
  ghost predicate PagetypeFile(lines: seq<P.Line>, script: seq<Printed>, zones: seq<Zone>) {
    && |script| == |lines| && (forall i | 0 <= i < |lines| :: LineIs(lines[i], script[i], zones))
    && (forall i | 0 <= i < |script| && script[i].Shows? :: exists h :: OpenSince(script, h, i))
    && (forall i, j | 0 <= i < j < |script| && script[i].Shows? :: script[i] != script[j])
    && (forall k, t | 0 <= k < |zones| && 0 <= t < |zones[k].stocks| :: Shows(k, t) in script)
  }

  lemma StartsWith(prefix: string, text: string, i: nat)
    requires i < |prefix|
    ensures prefix <= text ==> i < |text| && text[i] == prefix[i]
  {
  }

  lemma HeadingsApart(l: P.Line)
    ensures !(P.Header(l) && P.Footer(l))
    ensures "Node" <= l.text ==> !P.Header(l) && !P.Footer(l) && l.text != ""
  {
    StartsWith("Free pages count per migrate type", l.text, 0);
    StartsWith("Number of blocks", l.text, 0);
    StartsWith("Number of blocks", l.text, 1);
    StartsWith("Node", l.text, 0);
    StartsWith("Node", l.text, 1);
  }

  lemma SectionIsOpen(lines: seq<P.Line>, script: seq<Printed>, zones: seq<Zone>, h: nat, i: nat)
    requires PagetypeFile(lines, script, zones) && OpenSince(script, h, i)
    ensures P.InFree(lines[..i])
  {
    forall j | h < j < i
      ensures !P.Footer(lines[j])
    {
      assert LineIs(lines[j], script[j], zones);
      HeadingsApart(lines[j]);
    }
    assert LineIs(lines[h], script[h], zones);
    assert P.OpensAt(lines[..i], h);
    P.InFreeMeaning(lines[..i]);
  }

  function KindName(k: P.Kind): (name: string) {
    if k.Unmovable? then "Unmovable" else "Isolate"
  }

  /** A shown stock is read back as what it is. */
  lemma StockReads(z: Zone, s: Stock, l: P.Line, k: P.Kind)
    requires s.blocks != [] && NoComma(z.name) && l.fields == PagetypeFields(z, s)
    ensures P.KindOf(l.fields) == Some(k) <==> s.kind == KindName(k)
    ensures TrimComma(l.fields[1]) == Show(z.node) && TrimComma(l.fields[3]) == z.name
    ensures Readable(l.fields[6..], ParsePages) && P.RowFigures(l) == Wrapped(CappedAll(s.blocks))
  {
    var f := l.fields;
    assert f[1] == Show(z.node) + "," && f[1][..|f[1]| - 1] == Show(z.node);
    assert f[3] == z.name + "," && f[3][..|f[3]| - 1] == z.name;
    assert f[6..] == ShowAllBlocks(s.blocks);
    AllBlocksParse(s.blocks);
  }

  /** Only shown stocks count. */
  lemma CountedIsShown(lines: seq<P.Line>, script: seq<Printed>, zones: seq<Zone>, orders: nat, i: nat)
    requires Machine(zones, orders) && PagetypeFile(lines, script, zones) && i < |lines|
    requires P.Counted(lines[..i], lines[i])
    ensures script[i].Shows? && Readable(lines[i].fields[6..], ParsePages)
  {
    assert LineIs(lines[i], script[i], zones);
    if script[i].Shows? {
      var z := zones[script[i].zone];
      assert ZoneOk(z, orders) && z.stocks[script[i].stock] in z.stocks;
      StockReads(z, z.stocks[script[i].stock], lines[i], P.Unmovable);
    }
  }

  lemma {:induction false} FileReadable(lines: seq<P.Line>, script: seq<Printed>, zones: seq<Zone>, orders: nat, n: nat)
    requires Machine(zones, orders) && PagetypeFile(lines, script, zones) && n <= |lines|
    ensures P.AllReadable(lines[..n])
  {
    if n > 0 {
      FileReadable(lines, script, zones, orders, n - 1);
      assert lines[..n][..n - 1] == lines[..n - 1];
      if P.Counted(lines[..n - 1], lines[n - 1]) {
        CountedIsShown(lines, script, zones, orders, n - 1);
      }
    }
  }

  /** The line that shows a stock is the one row for it. */
  lemma RowIsStock(lines: seq<P.Line>, script: seq<Printed>, zones: seq<Zone>, orders: nat, i: nat, z: nat, k: P.Kind)
    requires Machine(zones, orders) && PagetypeFile(lines, script, zones) && i < |lines| && z < |zones|
    requires P.RowAt(lines, i, zones[z].name, Show(zones[z].node), k)
    ensures script[i].Shows? && script[i].zone == z && script[i].stock < |zones[z].stocks|
    ensures zones[z].stocks[script[i].stock].kind == KindName(k)
    ensures Readable(lines[i].fields[6..], ParsePages)
            && P.RowFigures(lines[i]) == Wrapped(CappedAll(zones[z].stocks[script[i].stock].blocks))
  {
    CountedIsShown(lines, script, zones, orders, i);
    assert LineIs(lines[i], script[i], zones);
    var y := zones[script[i].zone];
    assert ZoneOk(y, orders) && y.stocks[script[i].stock] in y.stocks;
    StockReads(y, y.stocks[script[i].stock], lines[i], k);
    SameShown(y.node, zones[z].node);
  }

  lemma StockIsRow(lines: seq<P.Line>, script: seq<Printed>, zones: seq<Zone>, orders: nat, i: nat, k: P.Kind)
    requires Machine(zones, orders) && PagetypeFile(lines, script, zones) && i < |lines| && script[i].Shows?
    requires script[i].zone < |zones| && script[i].stock < |zones[script[i].zone].stocks|
    requires zones[script[i].zone].stocks[script[i].stock].kind == KindName(k)
    ensures P.RowAt(lines, i, zones[script[i].zone].name, Show(zones[script[i].zone].node), k)
  {
    var z := zones[script[i].zone];
    assert LineIs(lines[i], script[i], zones);
    assert ZoneOk(z, orders) && z.stocks[script[i].stock] in z.stocks;
    StockReads(z, z.stocks[script[i].stock], lines[i], k);
    HeadingsApart(lines[i]);
    var h :| OpenSince(script, h, i);
    SectionIsOpen(lines, script, zones, h, i);
  }

  lemma {:induction false} BlocksAt(stocks: seq<Stock>, t: nat)
    requires t < |stocks| && forall i, j | 0 <= i < j < |stocks| :: stocks[i].kind != stocks[j].kind
    ensures Blocks(stocks, stocks[t].kind) == stocks[t].blocks
  {
    var n := |stocks| - 1;
    if t < n {
      assert forall i | 0 <= i < n :: stocks[..n][i] == stocks[i];
      BlocksAt(stocks[..n], t);
    }
  }

  lemma {:induction false} BlocksNone(stocks: seq<Stock>, kind: string)
    requires forall i | 0 <= i < |stocks| :: stocks[i].kind != kind
    ensures Blocks(stocks, kind) == []
  {
    if stocks != [] {
      BlocksNone(stocks[..|stocks| - 1], kind);
    }
  }

  ghost predicate HasStock(stocks: seq<Stock>, kind: string) {
    exists t :: 0 <= t < |stocks| && stocks[t].kind == kind
  }

  lemma StockFound(lines: seq<P.Line>, script: seq<Printed>, zones: seq<Zone>, orders: nat, z: nat, t: nat, k: P.Kind)
    requires Machine(zones, orders) && PagetypeFile(lines, script, zones) && P.AllReadable(lines)
    requires z < |zones| && t < |zones[z].stocks| && zones[z].stocks[t].kind == KindName(k)
    ensures P.FiguresAt(lines, zones[z].name, Show(zones[z].node), k).Some?
  {
    assert Shows(z, t) in script;
    var i :| 0 <= i < |script| && script[i] == Shows(z, t);
    StockIsRow(lines, script, zones, orders, i, k);
    P.FiguresMeaning(lines, zones[z].name, Show(zones[z].node), k);
  }

  /** Figures are those of a stock. */
  lemma FiguresAreStock(lines: seq<P.Line>, script: seq<Printed>, zones: seq<Zone>, orders: nat, z: nat, k: P.Kind)
    requires Machine(zones, orders) && PagetypeFile(lines, script, zones) && P.AllReadable(lines) && z < |zones|
    requires P.FiguresAt(lines, zones[z].name, Show(zones[z].node), k).Some?
    ensures HasStock(zones[z].stocks, KindName(k))
    ensures P.FiguresAt(lines, zones[z].name, Show(zones[z].node), k).value
         == Wrapped(CappedAll(Blocks(zones[z].stocks, KindName(k))))
  {
    var name, numa := zones[z].name, Show(zones[z].node);
    P.FiguresMeaning(lines, name, numa, k);
    var i :| 0 <= i < |lines| && P.Decides(lines, i, name, numa, k, P.FiguresAt(lines, name, numa, k).value);
    RowIsStock(lines, script, zones, orders, i, z, k);
    assert ZoneOk(zones[z], orders);
    BlocksAt(zones[z].stocks, script[i].stock);
  }

  /** pagetypeinfo gives each zone its stock of either kind, capped, and nothing where it has none. */
  lemma PagetypeRoundTrip(lines: seq<P.Line>, script: seq<Printed>, zones: seq<Zone>, orders: nat, z: nat, k: P.Kind)
    requires Machine(zones, orders) && PagetypeFile(lines, script, zones) && z < |zones|
    ensures P.AllReadable(lines)
    ensures P.FiguresAt(lines, zones[z].name, Show(zones[z].node), k)
         == if !HasStock(zones[z].stocks, KindName(k)) then None
            else Some(Wrapped(CappedAll(Blocks(zones[z].stocks, KindName(k)))))
  {
    FileReadable(lines, script, zones, orders, |lines|);
    assert lines[..|lines|] == lines;
    if HasStock(zones[z].stocks, KindName(k)) {
      var t :| 0 <= t < |zones[z].stocks| && zones[z].stocks[t].kind == KindName(k);
      StockFound(lines, script, zones, orders, z, t, k);
    }
    if P.FiguresAt(lines, zones[z].name, Show(zones[z].node), k).Some? {
      FiguresAreStock(lines, script, zones, orders, z, k);
    }
  }

  // Adding up the stocks of a zone

  lemma {:induction false} BytesAdd(a: seq<nat>, b: seq<nat>, c: seq<nat>)
    requires |a| == |b| == |c| && forall i | 0 <= i < |c| :: c[i] == a[i] + b[i]
    ensures BytesIn(c) == BytesIn(a) + BytesIn(b) && HugeBytesIn(c) == HugeBytesIn(a) + HugeBytesIn(b)
    decreases |c|
  {
    if c != [] {
      assert forall i | 0 <= i < |c| - 1 :: c[1..][i] == c[i + 1] && a[1..][i] == a[i + 1] && b[1..][i] == b[i + 1];
      BytesAdd(a[1..], b[1..], c[1..]);
    }
    if |c| > 9 {
      assert forall i | 0 <= i < |c| - 9 :: c[9..][i] == c[i + 9] && a[9..][i] == a[i + 9] && b[9..][i] == b[i + 9];
      BytesAdd(a[9..], b[9..], c[9..]);
    }
  }

  lemma {:induction false} NoBytes(n: nat)
    ensures BytesIn(seq(n, i => 0)) == 0 && HugeBytesIn(seq(n, i => 0)) == 0
  {
    if n > 0 {
      assert seq(n, i => 0)[1..] == seq(n - 1, i => 0);
      NoBytes(n - 1);
    }
    if n > 9 {
      assert seq(n, i => 0)[9..] == seq(n - 9, i => 0);
      NoBytes(n - 9);
    }
  }

  /** The stocks of one zone, of different types and with the same orders. */
  predicate StocksOk(stocks: seq<Stock>, orders: nat) {
    && (forall s | s in stocks :: |s.blocks| == orders)
    && (forall i, j | 0 <= i < j < |stocks| :: stocks[i].kind != stocks[j].kind)
  }

  lemma StocksPrefix(stocks: seq<Stock>, orders: nat)
    requires StocksOk(stocks, orders) && stocks != []
    ensures var n := |stocks| - 1;
            && StocksOk(stocks[..n], orders) && |stocks[n].blocks| == orders
            && Blocks(stocks[..n], stocks[n].kind) == []
  {
    var n := |stocks| - 1;
    assert forall i | 0 <= i < n :: stocks[..n][i] == stocks[i] && stocks[..n][i] in stocks[..n];
    assert forall s | s in stocks[..n] :: s in stocks;
    BlocksNone(stocks[..n], stocks[n].kind);
  }

  /** All free memory of a zone is movable, unmovable or isolated. */
  lemma {:induction false} StocksAddUp(stocks: seq<Stock>, orders: nat)
    requires StocksOk(stocks, orders)
    ensures var all, u, v := AllBlocks(stocks, orders), Blocks(stocks, "Unmovable"), Blocks(stocks, "Isolate");
            && BytesIn(all) == MovableBytes(stocks) + BytesIn(u) + BytesIn(v)
            && HugeBytesIn(all) == MovableHugeBytes(stocks) + HugeBytesIn(u) + HugeBytesIn(v)
  {
    if stocks == [] {
      NoBytes(orders);
    } else {
      var n := |stocks| - 1;
      StocksPrefix(stocks, orders);
      StocksAddUp(stocks[..n], orders);
      BytesAdd(AllBlocks(stocks[..n], orders), stocks[n].blocks, AllBlocks(stocks, orders));
    }
  }

  lemma {:induction false} BlocksWithin(stocks: seq<Stock>, orders: nat, i: nat)
    requires StocksOk(stocks, orders)
    ensures CountAt(Blocks(stocks, "Unmovable"), i) + CountAt(Blocks(stocks, "Isolate"), i)
            <= CountAt(AllBlocks(stocks, orders), i)
  {
    if stocks != [] {
      StocksPrefix(stocks, orders);
      BlocksWithin(stocks[..|stocks| - 1], orders, i);
    }
  }

  lemma CappedWithin(stocks: seq<Stock>, orders: nat)
    requires StocksOk(stocks, orders)
    ensures Within(CappedAll(Blocks(stocks, "Unmovable")), CappedAll(Blocks(stocks, "Isolate")),
                   AllBlocks(stocks, orders))
  {
    forall i: nat
      ensures CountAt(CappedAll(Blocks(stocks, "Unmovable")), i) + CountAt(CappedAll(Blocks(stocks, "Isolate")), i)
              <= CountAt(AllBlocks(stocks, orders), i)
    {
      BlocksWithin(stocks, orders, i);
    }
  }

  /** No count is more than the kernel shows. */
  predicate Shown(blocks: seq<nat>) {
    forall i | 0 <= i < |blocks| :: blocks[i] <= 100000
  }

  lemma {:induction false} CappedBytes(blocks: seq<nat>)
    ensures BytesIn(CappedAll(blocks)) <= BytesIn(blocks)
    ensures BytesIn(CappedAll(blocks)) == BytesIn(blocks) <==> Shown(blocks)
  {
    if blocks != [] {
      CappedBytes(blocks[1..]);
      assert CappedAll(blocks)[1..] == CappedAll(blocks[1..]);
      assert Shown(blocks) <==> blocks[0] <= 100000 && Shown(blocks[1..]) by {
        assert forall i | 0 < i < |blocks| :: blocks[i] == blocks[1..][i - 1];
      }
    }
  }

  lemma CappedHugeBytes(blocks: seq<nat>)
    ensures HugeBytesIn(CappedAll(blocks)) <= HugeBytesIn(blocks)
    ensures HugeBytesIn(CappedAll(blocks)) == HugeBytesIn(blocks) <==> |blocks| <= 9 || Shown(blocks[9..])
  {
    if |blocks| > 9 {
      assert CappedAll(blocks)[9..] == CappedAll(blocks[9..]);
      CappedBytes(blocks[9..]);
    }
  }

  // What is reported

  /** Zone z is the one its node is reported from. */
  predicate ThpIs(zones: seq<Zone>, z: nat) {
    && z < |zones|
    && (zones[z].name == "Movable" ||
        (zones[z].name == "Normal" &&
         forall y | 0 <= y < |zones| && zones[y].node == zones[z].node :: zones[y].name != "Movable"))
  }

  lemma ThpZoneRead(lines: seq<Fields>, zones: seq<Zone>, orders: nat, z: nat)
    requires Machine(zones, orders) && BuddyFile(lines, zones, orders) && ThpIs(zones, z)
    ensures ZoneIn(lines, Show(zones[z].node)) == zones[z].name
  {
    var numa := Show(zones[z].node);
    var row := LastRow(lines, numa, "Movable");
    if row.Some? {
      var i :| 0 <= i < |lines| && lines[i] == row.value;
      BuddyLineOnly(zones[i], orders, numa, "Movable");
      SameShown(zones[i].node, zones[z].node);
    }
    BuddyRow(lines, zones, orders, z);
  }

  lemma NoneIsZero(stocks: seq<Stock>, kind: string)
    ensures !HasStock(stocks, kind) ==> Wrapped(CappedAll(Blocks(stocks, kind))) == Free(0, 0)
  {
    if !HasStock(stocks, kind) {
      BlocksNone(stocks, kind);
      assert CappedAll([]) == [];
    }
  }

  /** Everything both files say about the zone a node is reported from. */
  lemma ZoneRead(lines: seq<Fields>, pagetype: seq<P.Line>, script: seq<Printed>, zones: seq<Zone>, orders: nat, z: nat)
    requires Machine(zones, orders) && BuddyFile(lines, zones, orders) && ThpIs(zones, z)
    requires PagetypeFile(pagetype, script, zones)
    ensures (forall f | f in lines :: RowReadable(f)) && P.AllReadable(pagetype)
    ensures var numa, zone, stocks := Show(zones[z].node), zones[z].name, zones[z].stocks;
            && ZoneIn(lines, numa) == zone && ZoneOk(zones[z], orders)
            && FreeAt(lines, numa, zone) == Some(Wrapped(AllBlocks(stocks, orders)))
            && P.OrZero(P.FiguresAt(pagetype, zone, numa, P.Unmovable))
               == Wrapped(CappedAll(Blocks(stocks, "Unmovable")))
            && P.OrZero(P.FiguresAt(pagetype, zone, numa, P.Isolate)) == Wrapped(CappedAll(Blocks(stocks, "Isolate")))
  {
    ThpZoneRead(lines, zones, orders, z);
    BuddyRoundTrip(lines, zones, orders, z);
    NoneIsZero(zones[z].stocks, "Unmovable");
    NoneIsZero(zones[z].stocks, "Isolate");
    PagetypeRoundTrip(pagetype, script, zones, orders, z, P.Unmovable);
    PagetypeRoundTrip(pagetype, script, zones, orders, z, P.Isolate);
  }

  lemma MovableIs(all: seq<nat>, u: seq<nat>, v: seq<nat>, stocks: seq<Stock>, orders: nat)
    requires StocksOk(stocks, orders) && all == AllBlocks(stocks, orders)
    requires u == Blocks(stocks, "Unmovable") && v == Blocks(stocks, "Isolate")
    requires BytesIn(all) < 0x1_0000_0000_0000_0000
    ensures Within(CappedAll(u), CappedAll(v), all) && AllOrders(all) < TWO_64
    ensures Wrapped(all).allOrders == BytesIn(all) && Wrapped(all).orderGe9 == HugeBytesIn(all)
    ensures var m := AllOrders(all) - AllOrders(CappedAll(u)) - AllOrders(CappedAll(v));
            m >= MovableBytes(stocks) && (m == MovableBytes(stocks) <==> Shown(u) && Shown(v))
    ensures var m := OrderGe9(all) - OrderGe9(CappedAll(u)) - OrderGe9(CappedAll(v));
            m >= MovableHugeBytes(stocks) && (Shown(u) && Shown(v) ==> m == MovableHugeBytes(stocks))
  {
    StocksAddUp(stocks, orders);
    CappedWithin(stocks, orders);
    WrappedIsBytes(all);
    AllOrdersIsBytes(all);
    AllOrdersIsBytes(CappedAll(u));
    AllOrdersIsBytes(CappedAll(v));
    OrderGe9IsHuge(all);
    OrderGe9IsHuge(CappedAll(u));
    OrderGe9IsHuge(CappedAll(v));
    CappedBytes(u);
    CappedBytes(v);
    CappedHugeBytes(u);
    CappedHugeBytes(v);
  }

  // The unmovable memory of a node

  /** What pagetypeinfo shows as unmovable in a zone of a node, none if there is no such zone. */
  function ShownUnmovable(zones: seq<Zone>, node: nat, name: string): (blocks: seq<nat>) {
    if zones == [] then []
    else
      var last := zones[|zones| - 1];
      if last.node == node && last.name == name then CappedAll(Blocks(last.stocks, "Unmovable"))
      else ShownUnmovable(zones[..|zones| - 1], node, name)
  }

  lemma {:induction false} ShownAt(zones: seq<Zone>, z: nat)
    requires z < |zones|
    requires forall i, j | 0 <= i < j < |zones| :: zones[i].node != zones[j].node || zones[i].name != zones[j].name
    ensures ShownUnmovable(zones, zones[z].node, zones[z].name) == CappedAll(Blocks(zones[z].stocks, "Unmovable"))
  {
    var n := |zones| - 1;
    if z < n {
      assert forall i | 0 <= i < n :: zones[..n][i] == zones[i];
      ShownAt(zones[..n], z);
    }
  }

  lemma {:induction false} ShownNowhere(zones: seq<Zone>, node: nat, name: string)
    requires forall i | 0 <= i < |zones| :: !(zones[i].node == node && zones[i].name == name)
    ensures ShownUnmovable(zones, node, name) == []
  {
    if zones != [] {
      ShownNowhere(zones[..|zones| - 1], node, name);
    }
  }

  /** Figures are those of a zone there is. */
  lemma FiguresHaveZone(lines: seq<P.Line>, script: seq<Printed>, zones: seq<Zone>, orders: nat, node: nat,
                        name: string)
    requires Machine(zones, orders) && PagetypeFile(lines, script, zones) && P.AllReadable(lines)
    requires P.FiguresAt(lines, name, Show(node), P.Unmovable).Some?
    ensures exists z :: 0 <= z < |zones| && zones[z].node == node && zones[z].name == name
  {
    P.FiguresMeaning(lines, name, Show(node), P.Unmovable);
    var f := P.FiguresAt(lines, name, Show(node), P.Unmovable).value;
    var i :| 0 <= i < |lines| && P.Decides(lines, i, name, Show(node), P.Unmovable, f);
    CountedIsShown(lines, script, zones, orders, i);
    assert LineIs(lines[i], script[i], zones);
    var z := zones[script[i].zone];
    assert ZoneOk(z, orders) && z.stocks[script[i].stock] in z.stocks;
    StockReads(z, z.stocks[script[i].stock], lines[i], P.Unmovable);
    SameShown(z.node, node);
  }

  lemma ZoneUnmovable(lines: seq<P.Line>, script: seq<Printed>, zones: seq<Zone>, orders: nat, z: nat)
    requires Machine(zones, orders) && PagetypeFile(lines, script, zones) && P.AllReadable(lines) && z < |zones|
    ensures P.OrZero(P.FiguresAt(lines, zones[z].name, Show(zones[z].node), P.Unmovable))
         == Wrapped(ShownUnmovable(zones, zones[z].node, zones[z].name))
  {
    ShownAt(zones, z);
    NoneIsZero(zones[z].stocks, "Unmovable");
    PagetypeRoundTrip(lines, script, zones, orders, z, P.Unmovable);
  }

  lemma NoUnmovable(lines: seq<P.Line>, script: seq<Printed>, zones: seq<Zone>, orders: nat, node: nat, name: string)
    requires Machine(zones, orders) && PagetypeFile(lines, script, zones) && P.AllReadable(lines)
    requires forall z | 0 <= z < |zones| :: !(zones[z].node == node && zones[z].name == name)
    ensures P.OrZero(P.FiguresAt(lines, name, Show(node), P.Unmovable)) == Wrapped(ShownUnmovable(zones, node, name))
  {
    ShownNowhere(zones, node, name);
    if P.FiguresAt(lines, name, Show(node), P.Unmovable).Some? {
      FiguresHaveZone(lines, script, zones, orders, node, name);
    }
  }

  lemma UnmovableRead(lines: seq<P.Line>, script: seq<Printed>, zones: seq<Zone>, orders: nat, node: nat, name: string)
    requires Machine(zones, orders) && PagetypeFile(lines, script, zones)
    ensures P.AllReadable(lines)
    ensures OrNothing(P.ExcludedAt(lines, name, Show(node))).unmovable == Wrapped(ShownUnmovable(zones, node, name))
  {
    FileReadable(lines, script, zones, orders, |lines|);
    assert lines[..|lines|] == lines;
    if z :| 0 <= z < |zones| && zones[z].node == node && zones[z].name == name {
      ZoneUnmovable(lines, script, zones, orders, z);
    } else {
      NoUnmovable(lines, script, zones, orders, node, name);
    }
  }

  lemma SumsAdd(n: seq<nat>, m: seq<nat>)
    ensures P.AddFree(Wrapped(n), Wrapped(m)).allOrders == (BytesIn(n) + BytesIn(m)) % 0x1_0000_0000_0000_0000
  {
    AllOrdersIsBytes(n);
    AllOrdersIsBytes(m);
    AddWraps(BytesIn(n), BytesIn(m));
  }

  lemma HugeSumsAdd(n: seq<nat>, m: seq<nat>)
    ensures P.AddFree(Wrapped(n), Wrapped(m)).orderGe9 == (HugeBytesIn(n) + HugeBytesIn(m)) % 0x1_0000_0000_0000_0000
  {
    OrderGe9IsHuge(n);
    OrderGe9IsHuge(m);
    AddWraps(HugeBytesIn(n), HugeBytesIn(m));
  }

  /** What the kernel shows as unmovable in both zones of a node. */
  ghost predicate UnmovableIs(f: Free, zones: seq<Zone>, node: nat) {
    var n, m := ShownUnmovable(zones, node, "Normal"), ShownUnmovable(zones, node, "Movable");
    && f.allOrders == (BytesIn(n) + BytesIn(m)) % 0x1_0000_0000_0000_0000
    && f.orderGe9 == (HugeBytesIn(n) + HugeBytesIn(m)) % 0x1_0000_0000_0000_0000
  }

  /** Reported unmovable memory is what the kernel shows of both zones. */
  lemma UnmovableTruth(lines: seq<P.Line>, script: seq<Printed>, zones: seq<Zone>, orders: nat, node: nat)
    requires Machine(zones, orders) && PagetypeFile(lines, script, zones)
    ensures P.AllReadable(lines)
    ensures UnmovableIs(UnmovableIn(lines, Show(node)), zones, node)
  {
    SumsAdd(ShownUnmovable(zones, node, "Normal"), ShownUnmovable(zones, node, "Movable"));
    HugeSumsAdd(ShownUnmovable(zones, node, "Normal"), ShownUnmovable(zones, node, "Movable"));
    UnmovableRead(lines, script, zones, orders, node, "Normal");
    UnmovableRead(lines, script, zones, orders, node, "Movable");
  }

  // What is reported

  /** The report of a zone against its stocks: all free memory, and as movable whatever is neither unmovable nor
      isolated. That is exact if and only if no count is past what the kernel shows; otherwise it is too high. */
  ghost predicate TrueReport(r: Report, stocks: seq<Stock>, orders: nat)
    requires forall s | s in stocks :: |s.blocks| == orders
  {
    var all, u, v := AllBlocks(stocks, orders), Blocks(stocks, "Unmovable"), Blocks(stocks, "Isolate");
    && r.Joined? && r.pagetype.Some?
    && r.buddy.allOrders == BytesIn(all) && r.buddy.orderGe9 == HugeBytesIn(all)
    && var m := r.pagetype.value.movable;
    && m.allOrders >= MovableBytes(stocks) && m.orderGe9 >= MovableHugeBytes(stocks)
    && (m.allOrders == MovableBytes(stocks) <==> Shown(u) && Shown(v))
    && (Shown(u) && Shown(v) ==> m.orderGe9 == MovableHugeBytes(stocks))
  }

  lemma ReportedTruth(lines: seq<Fields>, pagetype: seq<P.Line>, script: seq<Printed>, zones: seq<Zone>, orders: nat,
                      z: nat)
    requires Machine(zones, orders) && BuddyFile(lines, zones, orders) && ThpIs(zones, z)
    requires PagetypeFile(pagetype, script, zones)
    ensures (forall f | f in lines :: RowReadable(f)) && P.AllReadable(pagetype) && ZoneOk(zones[z], orders)
    ensures FreeAt(lines, Show(zones[z].node), ZoneIn(lines, Show(zones[z].node))).Some?
    ensures TrueReport(ReportFor(lines, Some(pagetype), Show(zones[z].node)), zones[z].stocks, orders)
  {
    ZoneRead(lines, pagetype, script, zones, orders, z);
    var stocks := zones[z].stocks;
    var all, u, v := AllBlocks(stocks, orders), Blocks(stocks, "Unmovable"), Blocks(stocks, "Isolate");
    MovableIs(all, u, v, stocks, orders);
    ReportedMovable(lines, pagetype, Show(zones[z].node), all, CappedAll(u), CappedAll(v));
  }

  /** A zone with one more unmovable page than the kernel shows, and nothing else free. */
  const FULL := Zone(0, "Normal", [Stock("Unmovable", [100001])])

  const FULL_PAGETYPE: seq<P.Line> := [P.Line("Free pages count per migrate type", []),
                                       P.Line("Node", PagetypeFields(FULL, Stock("Unmovable", [100001])))]

  lemma FullIsMachine()
    ensures Machine([FULL], 1) && MovableBytes(FULL.stocks) == 0 && !Shown(Blocks(FULL.stocks, "Unmovable"))
  {
    assert FULL.stocks[..0] == [] && MovableBytes([]) == 0;
    StocksAddUp(FULL.stocks, 1);
    assert Blocks(FULL.stocks, "Unmovable") == [100001] && Blocks(FULL.stocks, "Isolate") == [];
    assert [100001][1..] == [] && BytesIn([100001]) == 4096 * 100001;
    assert [100001][0] > 100000;
  }

  lemma FullIsPrinted()
    ensures PagetypeFile(FULL_PAGETYPE, [Opens, Shows(0, 0)], [FULL])
  {
    assert OpenSince([Opens, Shows(0, 0)], 0, 1);
  }

  /** A page of it is reported as movable. */
  lemma CapOverstates()
    ensures var lines := [BuddyLine(FULL, 1)];
            && (forall f | f in lines :: RowReadable(f)) && P.AllReadable(FULL_PAGETYPE)
            && FreeAt(lines, Show(0), ZoneIn(lines, Show(0))).Some? && MovableBytes(FULL.stocks) == 0
            && ReportFor(lines, Some(FULL_PAGETYPE), Show(0)).pagetype.value.movable.allOrders > 0
  {
    FullIsMachine();
    FullIsPrinted();
    ReportedTruth([BuddyLine(FULL, 1)], FULL_PAGETYPE, [Opens, Shows(0, 0)], [FULL], 1, 0);
  }

  /** The node of zone i has a zone to be reported from. */
  ghost predicate HasHome(zones: seq<Zone>, i: nat)
    requires i < |zones|
  {
    exists z :: 0 <= z < |zones| && zones[z].node == zones[i].node && zones[z].name in {"Normal", "Movable"}
  }

  /** Every zone is on a node that can be reported, and has an unmovable stock, be it empty. */
  ghost predicate Reportable(zones: seq<Zone>) {
    && zones != []
    && forall i | 0 <= i < |zones| :: HasHome(zones, i) && HasStock(zones[i].stocks, "Unmovable")
  }

  lemma ThpOfNode(zones: seq<Zone>, i: nat) returns (z: nat)
    requires i < |zones| && HasHome(zones, i)
    ensures ThpIs(zones, z) && zones[z].node == zones[i].node
  {
    if y :| 0 <= y < |zones| && zones[y].node == zones[i].node && zones[y].name == "Movable" {
      z := y;
    } else {
      z :| 0 <= z < |zones| && zones[z].node == zones[i].node && zones[z].name in {"Normal", "Movable"};
    }
  }

  /** The nodes with a row are those of the machine. */
  lemma RowHasNode(lines: seq<Fields>, zones: seq<Zone>, orders: nat, f: Fields) returns (i: nat)
    requires Machine(zones, orders) && BuddyFile(lines, zones, orders) && f in lines
    ensures i < |zones| && f == BuddyLine(zones[i], orders) && IsZone(f) && TrimComma(f[1]) == Show(zones[i].node)
  {
    i :| 0 <= i < |lines| && lines[i] == f;
    BuddyLineReads(zones[i], orders);
  }

  lemma LineAccepted(lines: seq<Fields>, zones: seq<Zone>, orders: nat, f: Fields) returns (z: nat)
    requires Machine(zones, orders) && Reportable(zones) && BuddyFile(lines, zones, orders) && f in lines
    ensures IsZone(f) && ThpIs(zones, z) && TrimComma(f[1]) == Show(zones[z].node)
    ensures LastRow(lines, TrimComma(f[1]), MOVABLE).Some? || LastRow(lines, TrimComma(f[1]), NORMAL).Some?
    ensures ZoneIn(lines, TrimComma(f[1])) == zones[z].name
  {
    var i := RowHasNode(lines, zones, orders, f);
    z := ThpOfNode(zones, i);
    BuddyRow(lines, zones, orders, z);
    ThpZoneRead(lines, zones, orders, z);
  }

  lemma LineHasZone(lines: seq<Fields>, zones: seq<Zone>, orders: nat, f: Fields)
    requires Machine(zones, orders) && Reportable(zones) && BuddyFile(lines, zones, orders) && f in lines
    ensures IsZone(f)
    ensures LastRow(lines, TrimComma(f[1]), MOVABLE).Some? || LastRow(lines, TrimComma(f[1]), NORMAL).Some?
  {
    var z := LineAccepted(lines, zones, orders, f);
  }

  lemma BuddyAccepted(lines: seq<Fields>, zones: seq<Zone>, orders: nat)
    requires Machine(zones, orders) && Reportable(zones) && BuddyFile(lines, zones, orders)
    ensures Acceptable(lines)
  {
    BuddyReadable(lines, zones, orders);
    LineHasZone(lines, zones, orders, lines[0]);
    forall f | f in lines
      ensures IsZone(f)
      ensures LastRow(lines, TrimComma(f[1]), MOVABLE).Some? || LastRow(lines, TrimComma(f[1]), NORMAL).Some?
    {
      LineHasZone(lines, zones, orders, f);
    }
  }

  lemma ZoneCovered(pagetype: seq<P.Line>, script: seq<Printed>, zones: seq<Zone>, orders: nat, z: nat)
    requires Machine(zones, orders) && PagetypeFile(pagetype, script, zones)
    requires z < |zones| && HasStock(zones[z].stocks, "Unmovable")
    ensures P.AllReadable(pagetype) && P.ExcludedAt(pagetype, zones[z].name, Show(zones[z].node)).Some?
  {
    PagetypeRoundTrip(pagetype, script, zones, orders, z, P.Unmovable);
  }

  /** Both files of such a machine are read without an error. */
  lemma FilesAccepted(lines: seq<Fields>, pagetype: seq<P.Line>, script: seq<Printed>, zones: seq<Zone>, orders: nat)
    requires Machine(zones, orders) && Reportable(zones) && BuddyFile(lines, zones, orders)
    requires PagetypeFile(pagetype, script, zones)
    ensures Acceptable(lines) && P.Acceptable(pagetype) && Covered(lines, pagetype)
  {
    BuddyAccepted(lines, zones, orders);
    ZoneCovered(pagetype, script, zones, orders, 0);
    forall numa | HasRow(lines, numa)
      ensures exists other :: P.ExcludedAt(pagetype, ZoneIn(lines, numa), other).Some?
    {
      var f :| f in lines && IsZone(f) && TrimComma(f[1]) == numa;
      var z := LineAccepted(lines, zones, orders, f);
      ZoneCovered(pagetype, script, zones, orders, z);
    }
  }

  /** A row that is the truth about zone z. */
  ghost predicate RowTells(row: Row<Report>, zones: seq<Zone>, orders: nat, z: nat)
    requires Machine(zones, orders)
  {
    && ThpIs(zones, z) && row.numa == Show(zones[z].node)
    && ZoneOk(zones[z], orders) && TrueReport(row.value, zones[z].stocks, orders)
    && UnmovableIs(row.value.pagetype.value.unmovable, zones, zones[z].node)
  }

  lemma NodeOfRow(lines: seq<Fields>, zones: seq<Zone>, orders: nat, numa: string) returns (z: nat)
    requires Machine(zones, orders) && Reportable(zones) && BuddyFile(lines, zones, orders) && HasRow(lines, numa)
    ensures ThpIs(zones, z) && numa == Show(zones[z].node)
  {
    var f :| f in lines && IsZone(f) && TrimComma(f[1]) == numa;
    z := LineAccepted(lines, zones, orders, f);
  }

  lemma ReportTold(lines: seq<Fields>, pagetype: seq<P.Line>, script: seq<Printed>, zones: seq<Zone>, orders: nat,
                   z: nat)
    requires Machine(zones, orders) && BuddyFile(lines, zones, orders) && ThpIs(zones, z)
    requires PagetypeFile(pagetype, script, zones)
    ensures (forall f | f in lines :: RowReadable(f)) && P.AllReadable(pagetype) && ZoneOk(zones[z], orders)
    ensures FreeAt(lines, Show(zones[z].node), ZoneIn(lines, Show(zones[z].node))).Some?
    ensures var r := ReportFor(lines, Some(pagetype), Show(zones[z].node));
            && TrueReport(r, zones[z].stocks, orders)
            && UnmovableIs(r.pagetype.value.unmovable, zones, zones[z].node)
  {
    ReportedTruth(lines, pagetype, script, zones, orders, z);
    UnmovableTruth(pagetype, script, zones, orders, zones[z].node);
  }

  lemma RowTold(row: Row<Report>, lines: seq<Fields>, pagetype: seq<P.Line>, script: seq<Printed>, zones: seq<Zone>,
                orders: nat) returns (z: nat)
    requires Machine(zones, orders) && Reportable(zones) && BuddyFile(lines, zones, orders)
    requires PagetypeFile(pagetype, script, zones) && Acceptable(lines) && P.Acceptable(pagetype)
    requires HasRow(lines, row.numa) && FreeAt(lines, row.numa, ZoneIn(lines, row.numa)).Some?
    requires row.value == ReportFor(lines, Some(pagetype), row.numa)
    ensures RowTells(row, zones, orders, z)
  {
    z := NodeOfRow(lines, zones, orders, row.numa);
    ReportTold(lines, pagetype, script, zones, orders, z);
  }

  lemma ReportedRow(rows: seq<Row<Report>>, lines: seq<Fields>, pagetype: Option<seq<P.Line>>, row: Row<Report>)
    requires (forall f | f in lines :: RowReadable(f)) && (pagetype.Some? ==> P.AllReadable(pagetype.value))
    requires Reports(rows, lines, pagetype) && row in rows
    ensures HasRow(lines, row.numa) && FreeAt(lines, row.numa, ZoneIn(lines, row.numa)).Some?
    ensures row.value == ReportFor(lines, pagetype, row.numa)
  {
    var m :| Lists(rows, m) && ReportsOf(m, lines, pagetype);
  }

  lemma NodeReported(rows: seq<Row<Report>>, lines: seq<Fields>, pagetype: Option<seq<P.Line>>, numa: string)
    requires (forall f | f in lines :: RowReadable(f)) && (pagetype.Some? ==> P.AllReadable(pagetype.value))
    requires Reports(rows, lines, pagetype) && HasRow(lines, numa)
    ensures exists row :: row in rows && row.numa == numa
  {
    var m :| Lists(rows, m) && ReportsOf(m, lines, pagetype);
    assert Row(numa, m[numa]) in rows;
  }

  lemma NodeHasRow(lines: seq<Fields>, zones: seq<Zone>, orders: nat, i: nat)
    requires Machine(zones, orders) && BuddyFile(lines, zones, orders) && i < |zones|
    ensures HasRow(lines, Show(zones[i].node))
  {
    BuddyLineReads(zones[i], orders);
    assert lines[i] in lines;
  }

  /** From the free blocks of a machine to what Collect emits: each row is true of the zone its node is reported
      from. */
  lemma CollectedTruth(rows: seq<Row<Report>>, lines: seq<Fields>, pagetype: seq<P.Line>, script: seq<Printed>,
                       zones: seq<Zone>, orders: nat, row: Row<Report>) returns (z: nat)
    requires Machine(zones, orders) && Reportable(zones) && BuddyFile(lines, zones, orders)
    requires PagetypeFile(pagetype, script, zones) && Acceptable(lines) && P.Acceptable(pagetype)
    requires Reports(rows, lines, Some(pagetype)) && row in rows
    ensures RowTells(row, zones, orders, z)
  {
    ReportedRow(rows, lines, Some(pagetype), row);
    z := RowTold(row, lines, pagetype, script, zones, orders);
  }

  /** And there is one for each node. */
  lemma CollectedNodes(rows: seq<Row<Report>>, lines: seq<Fields>, pagetype: Option<seq<P.Line>>, zones: seq<Zone>,
                       orders: nat, i: nat)
    requires Machine(zones, orders) && BuddyFile(lines, zones, orders) && i < |zones| && Acceptable(lines)
    requires pagetype.Some? ==> P.AllReadable(pagetype.value)
    requires Reports(rows, lines, pagetype)
    ensures exists row :: row in rows && row.numa == Show(zones[i].node)
  {
    NodeHasRow(lines, zones, orders, i);
    NodeReported(rows, lines, pagetype, Show(zones[i].node));
  }
}
