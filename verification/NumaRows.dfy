/** Rows keyed by NUMA node: Go's string order, and the sorted listing of a map, which is the same in
    whatever order the map was walked. */
module NumaRows {
  /** Go compares strings byte by byte; for UTF-8 that is the order of the code points. */
  predicate LexLess(a: string, b: string)
    decreases |a|
  {
    b != "" && (a == "" || a[0] < b[0] || (a[0] == b[0] && LexLess(a[1..], b[1..])))
  }

  /** a is a proper prefix of b, or comes first where they first differ. */
  ghost predicate ComesFirst(a: string, b: string) {
    a < b || exists i :: 0 <= i < |a| && i < |b| && a[..i] == b[..i] && a[i] < b[i]
  }

  lemma FirstApart(a: string, b: string)
    requires a != "" && b != ""
    ensures ComesFirst(a, b) <==> a[0] < b[0] || (a[0] == b[0] && ComesFirst(a[1..], b[1..]))
  {
    assert a == [a[0]] + a[1..] && b == [b[0]] + b[1..];
    if a[0] < b[0] {
      assert a[..0] == b[..0];
    }
    if i :| 0 <= i < |a| && i < |b| && a[..i] == b[..i] && a[i] < b[i] {
      if i > 0 {
        assert a[0] == a[..i][0] == b[..i][0] == b[0];
        assert a[1..][..i - 1] == a[..i][1..] && b[1..][..i - 1] == b[..i][1..] && a[1..][i - 1] < b[1..][i - 1];
      }
    }
    if a[0] == b[0] {
      if i :| 0 <= i < |a| - 1 && i < |b| - 1 && a[1..][..i] == b[1..][..i] && a[1..][i] < b[1..][i] {
        assert a[..i + 1] == [a[0]] + a[1..][..i] && b[..i + 1] == [b[0]] + b[1..][..i] && a[i + 1] < b[i + 1];
      }
    }
  }

  /** The order is that of a dictionary. */
  lemma {:induction false} LexMeaning(a: string, b: string)
    ensures LexLess(a, b) <==> ComesFirst(a, b)
    decreases |a|
  {
    if a != "" && b != "" {
      LexMeaning(a[1..], b[1..]);
      FirstApart(a, b);
    }
  }

  lemma {:induction false} LexIrreflexive(a: string)
    ensures !LexLess(a, a)
    decreases |a|
  {
    if a != "" {
      LexIrreflexive(a[1..]);
    }
  }

  lemma {:induction false} LexTransitive(a: string, b: string, c: string)
    requires LexLess(a, b) && LexLess(b, c)
    ensures LexLess(a, c)
    decreases |a|
  {
    if a != "" && a[0] == b[0] && b[0] == c[0] {
      LexTransitive(a[1..], b[1..], c[1..]);
    }
  }

  lemma {:induction false} LexTotal(a: string, b: string)
    ensures LexLess(a, b) || LexLess(b, a) || a == b
    decreases |a|
  {
    if a != "" && b != "" && a[0] == b[0] {
      LexTotal(a[1..], b[1..]);
      assert a == [a[0]] + a[1..] && b == [b[0]] + b[1..];
    }
  }

  datatype Row<T> = Row(numa: string, value: T)

  predicate Sorted<T>(rows: seq<Row<T>>) {
    forall i, j | 0 <= i < j < |rows| :: LexLess(rows[i].numa, rows[j].numa)
  }

  predicate DistinctNumas<T>(rows: seq<Row<T>>) {
    forall i, j | 0 <= i < j < |rows| :: rows[i].numa != rows[j].numa
  }

  /** The rows are the entries of the map, in order of NUMA node. */
  ghost predicate Lists<T>(rows: seq<Row<T>>, m: map<string, T>) {
    && Sorted(rows)
    && (forall r | r in rows :: r.numa in m && m[r.numa] == r.value)
    && (forall numa | numa in m :: Row(numa, m[numa]) in rows)
  }

  /** The first row of any listing comes before every other NUMA node. */
  lemma FirstIsLeast<T>(rows: seq<Row<T>>, m: map<string, T>, numa: string)
    requires Lists(rows, m) && numa in m
    ensures rows != [] && (rows[0].numa == numa || LexLess(rows[0].numa, numa))
  {
    var i :| 0 <= i < |rows| && rows[i] == Row(numa, m[numa]);
  }

  lemma ListsRest<T>(rows: seq<Row<T>>, m: map<string, T>)
    requires Lists(rows, m) && rows != []
    ensures Lists(rows[1..], m - {rows[0].numa})
  {
    forall r | r in rows[1..]
      ensures r.numa != rows[0].numa
    {
      LexIrreflexive(r.numa);
    }
    forall numa | numa in m && numa != rows[0].numa
      ensures Row(numa, m[numa]) in rows[1..]
    {
      var i :| 0 <= i < |rows| && rows[i] == Row(numa, m[numa]);
      assert rows[1..][i - 1] == rows[i];
    }
  }

  lemma FirstRowsAgree<T>(s: seq<Row<T>>, t: seq<Row<T>>, m: map<string, T>)
    requires Lists(s, m) && Lists(t, m) && s != [] && t != []
    ensures s[0] == t[0]
  {
    assert s[0] in s && t[0] in t;
    FirstIsLeast(t, m, s[0].numa);
    FirstIsLeast(s, m, t[0].numa);
    if s[0].numa != t[0].numa {
      LexTransitive(s[0].numa, t[0].numa, s[0].numa);
      LexIrreflexive(s[0].numa);
    }
  }

  lemma EmptyListing<T>(rows: seq<Row<T>>, m: map<string, T>)
    requires Lists(rows, m)
    ensures rows == [] <==> m == map[]
  {
    if rows != [] {
      assert rows[0] in rows;
    }
  }

  /** There is only one listing. */
  lemma {:induction false} ListsUnique<T>(s: seq<Row<T>>, t: seq<Row<T>>, m: map<string, T>)
    requires Lists(s, m) && Lists(t, m)
    ensures s == t
    decreases |s|
  {
    EmptyListing(s, m);
    EmptyListing(t, m);
    if s != [] {
      FirstRowsAgree(s, t, m);
      ListsRest(s, m);
      ListsRest(t, m);
      ListsUnique(s[1..], t[1..], m - {s[0].numa});
      assert s == [s[0]] + s[1..] && t == [t[0]] + t[1..];
    }
  }

  method Insert<T>(sorted: seq<Row<T>>, r: Row<T>) returns (more: seq<Row<T>>)
    requires Sorted(sorted) && forall i | 0 <= i < |sorted| :: sorted[i].numa != r.numa
    ensures Sorted(more) && forall x :: x in more <==> x in sorted || x == r
  {
    var i := 0;
    while i < |sorted| && LexLess(sorted[i].numa, r.numa)
      invariant 0 <= i <= |sorted| && forall j | 0 <= j < i :: LexLess(sorted[j].numa, r.numa)
    {
      i := i + 1;
    }
    forall j | i <= j < |sorted|
      ensures LexLess(r.numa, sorted[j].numa)
    {
      LexTotal(sorted[i].numa, r.numa);
      if i < j {
        LexTransitive(r.numa, sorted[i].numa, sorted[j].numa);
      }
    }
    more := sorted[..i] + [r] + sorted[i..];
    assert sorted == sorted[..i] + sorted[i..];
  }

  /** sort.Slice by NUMA node, for rows of distinct nodes. */
  method SortRows<T>(rows: seq<Row<T>>) returns (sorted: seq<Row<T>>)
    requires DistinctNumas(rows)
    ensures Sorted(sorted) && forall r :: r in sorted <==> r in rows
  {
    sorted := [];
    for i := 0 to |rows|
      invariant Sorted(sorted) && forall r :: r in sorted <==> r in rows[..i]
    {
      assert forall j | 0 <= j < |sorted| :: sorted[j] in sorted;
      sorted := Insert(sorted, rows[i]);
      assert rows[..i + 1] == rows[..i] + [rows[i]];
    }
    assert rows[..|rows|] == rows;
  }

  /** Walk a map in any order, collect its entries and sort them. */
  method Listing<T>(m: map<string, T>) returns (rows: seq<Row<T>>)
    ensures Lists(rows, m)
  {
    rows := [];
    var todo := m.Keys;
    while todo != {}
      invariant todo <= m.Keys && DistinctNumas(rows)
      invariant forall r | r in rows :: r.numa in m && r.numa !in todo && m[r.numa] == r.value
      invariant forall numa | numa in m && numa !in todo :: Row(numa, m[numa]) in rows
      decreases todo
    {
      var numa :| numa in todo;
      todo := todo - {numa};
      rows := rows + [Row(numa, m[numa])];
    }
    rows := SortRows(rows);
  }

  lemma SortedDistinct<T>(rows: seq<Row<T>>)
    requires Sorted(rows)
    ensures DistinctNumas(rows)
  {
    forall i, j | 0 <= i < j < |rows|
      ensures rows[i].numa != rows[j].numa
    {
      LexIrreflexive(rows[i].numa);
    }
  }

  /** Nor does a listing list two maps. */
  lemma ListedUnique<T>(rows: seq<Row<T>>, m: map<string, T>, n: map<string, T>)
    requires Lists(rows, m) && Lists(rows, n)
    ensures m == n
  {
    forall numa
      ensures numa in m <==> numa in n
      ensures numa in m && numa in n ==> m[numa] == n[numa]
    {
      assert numa in m ==> Row(numa, m[numa]) in rows;
      assert numa in n ==> Row(numa, n[numa]) in rows;
    }
    assert m.Keys == n.Keys;
  }

  /** excludedByNUMAMap: a listing turned back into its map. */
  method ToMap<T>(rows: seq<Row<T>>) returns (m: map<string, T>)
    ensures forall numa :: numa in m <==> exists r :: r in rows && r.numa == numa
    ensures Sorted(rows) ==> Lists(rows, m)
  {
    m := map[];
    if Sorted(rows) {
      SortedDistinct(rows);
    }
    for i := 0 to |rows|
      invariant forall numa :: numa in m <==> exists r :: r in rows[..i] && r.numa == numa
      invariant Sorted(rows) ==> forall j | 0 <= j < i :: rows[j].numa in m && m[rows[j].numa] == rows[j].value
    {
      assert rows[..i + 1] == rows[..i] + [rows[i]];
      m := m[rows[i].numa := rows[i].value];
    }
    assert rows[..|rows|] == rows;
  }
}
