/** Which drops are reported, each how often, and when one report can be compared with another. */
module CoverageAlertLaws {
  import opened Wrappers
  import opened Sequences
  import opened Sorting
  import opened SourceCoverage
  import opened CoverageAlerts
  import opened CoverageCounting

  /** What the current items show in a slice; nothing where the slice has no row. */
  function SeenNow(items: seq<Item>, slice: Slice): nat {
    if slice == ALL then Total(items).seen else At(Tallied(items), slice).seen
  }

  /** Fallen to half or less of a baseline of at least five. */
  ghost predicate Dropped(previous: map<Slice, int>, items: seq<Item>, slice: Slice) {
    && slice in previous && previous[slice] >= BASELINE
    && (slice.dimension == "total" ==> slice == ALL)
    && 2 * SeenNow(items, slice) <= previous[slice]
  }

  function Naming(slice: Slice): Alert -> bool {
    (a: Alert) => a.slice == slice
  }

  // ---------------------------------------------------------------- what a stored report is read as

  function Named(name: string): string {
    if name == "" then "unknown" else name
  }

  lemma {:induction false} RowsRead(normalise: string -> string, name: string, rows: seq<RowPayload>, e: Entry)
    ensures e in RowEntries(normalise, name, rows) <==>
      exists r :: r in rows && r.seen == Some(e.seen) && e.slice == Slice(name, Named(normalise(r.key)))
  {
    if rows != [] {
      var init, last := rows[..|rows| - 1], rows[|rows| - 1];
      assert rows == init + [last];
      RowsRead(normalise, name, init, e);
    }
  }

  /** Dimension d of a stored report holds a readable row that comes out as e. */
  ghost predicate ReadFrom(normalise: string -> string, d: DimensionPayload, e: Entry) {
    exists r :: r in d.rows && r.seen == Some(e.seen)
                && e.slice == Slice(Named(normalise(d.name)), Named(normalise(r.key)))
  }

  lemma {:induction false} DimensionsRead(normalise: string -> string, dimensions: seq<DimensionPayload>, e: Entry)
    ensures e in DimensionEntries(normalise, dimensions) <==> exists d :: d in dimensions && ReadFrom(normalise, d, e)
  {
    hide ReadFrom;
    if dimensions != [] {
      var init, last := dimensions[..|dimensions| - 1], dimensions[|dimensions| - 1];
      assert dimensions == init + [last];
      DimensionsRead(normalise, init, e);
      LastRead(normalise, last, e);
    }
  }

  lemma LastRead(normalise: string -> string, d: DimensionPayload, e: Entry)
    ensures e in RowEntries(normalise, OrUnknown(normalise(d.name)), d.rows) <==> ReadFrom(normalise, d, e)
  {
    RowsRead(normalise, OrUnknown(normalise(d.name)), d.rows, e);
  }

  /** A stored report is read as its total, if it has one, and its rows whose figure is readable, under
      normalised names, the empty one read as "unknown". */
  lemma PayloadRead(normalise: string -> string, payload: Option<Payload>, e: Entry)
    ensures e in Entries(normalise, payload) <==>
      && payload.Some?
      && (|| (payload.value.total == Some(e.seen) && e.slice == Slice("total", "all"))
          || exists d :: d in payload.value.dimensions && ReadFrom(normalise, d, e))
  {
    hide ReadFrom;
    if payload.Some? { DimensionsRead(normalise, payload.value.dimensions, e); }
  }

  // ---------------------------------------------------------------- probes

  ghost predicate DistinctProbes(probes: seq<Probe>) {
    forall i, j :: 0 <= i < j < |probes| ==> probes[i].slice != probes[j].slice
  }

  ghost predicate DistinctRows(rows: seq<Row>) {
    forall i, j :: 0 <= i < j < |rows| ==> rows[i].slice != rows[j].slice
  }

  lemma AlertFor(previous: map<Slice, int>, p: Probe, slice: Slice)
    ensures Filter(Naming(slice), MaybeAlert(previous, p)) == if p.slice == slice then MaybeAlert(previous, p) else []
  {
    var m := MaybeAlert(previous, p);
    if m != [] { assert m[..0] == []; }
  }

  lemma {:induction false} RaisedFor(previous: map<Slice, int>, probes: seq<Probe>, p: Probe)
    requires DistinctProbes(probes)
    requires forall q :: q in probes && q.slice == p.slice ==> q == p
    ensures Filter(Naming(p.slice), Raised(previous, probes)) == if p in probes then MaybeAlert(previous, p) else []
  {
    hide MaybeAlert, Naming, Filter;
    NoAlerts(p.slice);
    if probes != [] {
      var init, last := probes[..|probes| - 1], probes[|probes| - 1];
      assert probes == init + [last];
      RaisedFor(previous, init, p);
      FilterConcat(Naming(p.slice), Raised(previous, init), MaybeAlert(previous, last));
      AlertFor(previous, last, p.slice);
      assert last.slice == p.slice ==> p !in init;
    }
  }

  lemma NoAlerts(slice: Slice)
    ensures Filter(Naming(slice), []) == []
  {
  }

  function Rows(items: seq<Item>): seq<Row> {
    Flatten(RowsByDimension(Tallied(items), SlicesIn(items)))
  }

  lemma DimensionRowsDistinct(dimension: string, items: seq<Item>)
    ensures var rows := DimensionRows(dimension, Tallied(items), SlicesIn(items));
      && DistinctRows(rows)
      && (forall r :: r in rows <==>
            r.slice.dimension == dimension && r.slice in SlicesIn(items) && r == RowFrom(Tallied(items))(r.slice))
  {
    hide Tallied, SlicesIn, Sort, Filter;
    var keys := RowKeys(dimension, SlicesIn(items));
    var listed := MapSeq(RowFrom(Tallied(items)), keys);
    var rows := DimensionRows(dimension, Tallied(items), SlicesIn(items));
    FilterDistinct(OfDimension(dimension), SlicesIn(items));
    SortPermutes(RowLeq, listed);
    SameElements(listed, rows);
    assert Distinct(listed) by {
      assert forall i :: 0 <= i < |listed| ==> listed[i].slice == keys[i];
    }
    DistinctKept(listed, rows);
    forall r: Row | r.slice in keys && r == RowFrom(Tallied(items))(r.slice) ensures r in listed {
      var i :| 0 <= i < |keys| && keys[i] == r.slice;
      assert listed[i] == r;
    }
    forall r | r in listed
      ensures r.slice.dimension == dimension && r.slice in SlicesIn(items) && r == RowFrom(Tallied(items))(r.slice)
    {
      var i :| 0 <= i < |listed| && listed[i] == r;
      assert keys[i] in keys;
    }
  }

  lemma FlattenFour(d: seq<seq<Row>>)
    requires |d| == 4
    ensures Flatten(d) == d[0] + d[1] + d[2] + d[3]
  {
    assert d[..3][..2] == d[..2] && d[..2][..1] == d[..1] && d[..1][..0] == [];
    assert Flatten(d[..1]) == Flatten([]) + d[0];
    assert Flatten(d[..2]) == Flatten(d[..1]) + d[1];
    assert Flatten(d[..3]) == Flatten(d[..2]) + d[2];
  }

  /** The rows of the report are the slices met, each once. */
  lemma RowsMeaning(items: seq<Item>)
    ensures DistinctRows(Rows(items))
    ensures forall r :: r in Rows(items) <==> r.slice in SlicesIn(items) && r == RowFrom(Tallied(items))(r.slice)
  {
    hide Tallied, SlicesIn, DimensionRows, Flatten;
    var d := RowsByDimension(Tallied(items), SlicesIn(items));
    FlattenFour(d);
    assert d[0] == DimensionRows("language", Tallied(items), SlicesIn(items));
    assert d[1] == DimensionRows("source_family", Tallied(items), SlicesIn(items));
    assert d[2] == DimensionRows("source_tier", Tallied(items), SlicesIn(items));
    assert d[3] == DimensionRows("topic", Tallied(items), SlicesIn(items));
    DimensionRowsDistinct("language", items);
    DimensionRowsDistinct("source_family", items);
    DimensionRowsDistinct("source_tier", items);
    DimensionRowsDistinct("topic", items);
    SlicesKnown(items);
    JoinRows(d[0], d[1], "language", "source_family");
    JoinRows(d[2], d[3], "source_tier", "topic");
    JoinDistinct(d[0] + d[1], d[2] + d[3]);
    assert d[0] + d[1] + d[2] + d[3] == (d[0] + d[1]) + (d[2] + d[3]);
  }

  lemma {:induction false} SlicesMet(items: seq<Item>, slice: Slice)
    ensures slice in SlicesIn(items) <==> exists item :: item in items && slice in SlicesOf(item)
  {
    hide SlicesOf;
    if items != [] {
      var init, last := items[..|items| - 1], items[|items| - 1];
      assert items == init + [last];
      SlicesMet(init, slice);
    }
  }

  lemma RowCounts(items: seq<Item>, row: Row)
    requires row in Rows(items)
    ensures CountEach(row.counts, Filter(Within(row.slice), items))
    ensures exists item :: item in items && row.slice in SlicesOf(item)
  {
    hide Rows, CountEach, SlicesOf, Filter, Tallied, SlicesIn;
    RowsMeaning(items);
    SliceCountsEach(items, row.slice);
    SlicesMet(items, row.slice);
  }

  /** There is one row for each slice an item belongs to, and it counts the slice's own items. */
  lemma RowsCountEach(items: seq<Item>)
    ensures DistinctRows(Rows(items))
    ensures forall row :: row in Rows(items) ==> CountEach(row.counts, Filter(Within(row.slice), items))
    ensures forall slice :: (slice in RowSlices(Rows(items)) <==>
                               exists item :: item in items && slice in SlicesOf(item))
  {
    hide CountEach, SlicesOf, Filter, Tallied, SlicesIn, Rows, Within;
    RowsMeaning(items);
    forall row | row in Rows(items) ensures CountEach(row.counts, Filter(Within(row.slice), items)) {
      RowCounts(items, row);
    }
    forall slice ensures slice in RowSlices(Rows(items)) <==> slice in SlicesIn(items) {
      if slice in SlicesIn(items) { assert RowFrom(Tallied(items))(slice) in Rows(items); }
    }
    forall slice ensures slice in SlicesIn(items) <==> exists item :: item in items && slice in SlicesOf(item) {
      SlicesMet(items, slice);
    }
  }

  /** The report shows a total that counts the items, those rows by dimension, and the first twenty alerts. */
  lemma ReportShows(normalise: string -> string, items: seq<Item>, payload: Option<Payload>)
    ensures var r, alerts := ReportOf(normalise, items, payload), AlertsFor(normalise, items, payload);
      && CountEach(r.total, items) && r.alerts == (if |alerts| <= 20 then alerts else alerts[..20])
      && |r.dimensions| == 4
      && r.dimensions[0] + r.dimensions[1] + r.dimensions[2] + r.dimensions[3] == Rows(items)
      && (forall row :: row in r.dimensions[0] ==> row.slice.dimension == "language")
      && (forall row :: row in r.dimensions[1] ==> row.slice.dimension == "source_family")
      && (forall row :: row in r.dimensions[2] ==> row.slice.dimension == "source_tier")
      && (forall row :: row in r.dimensions[3] ==> row.slice.dimension == "topic")
  {
    hide CountEach, Total, Tallied, SlicesIn, DimensionRows, AlertsFor, Flatten;
    var d := RowsByDimension(Tallied(items), SlicesIn(items));
    TotalCountsEach(items);
    FlattenFour(d);
    DimensionRowsDistinct("language", items);
    DimensionRowsDistinct("source_family", items);
    DimensionRowsDistinct("source_tier", items);
    DimensionRowsDistinct("topic", items);
    assert d[0] == DimensionRows("language", Tallied(items), SlicesIn(items));
    assert d[1] == DimensionRows("source_family", Tallied(items), SlicesIn(items));
    assert d[2] == DimensionRows("source_tier", Tallied(items), SlicesIn(items));
    assert d[3] == DimensionRows("topic", Tallied(items), SlicesIn(items));
  }

  lemma JoinRows(a: seq<Row>, b: seq<Row>, c: string, d: string)
    requires DistinctRows(a) && DistinctRows(b) && c != d
    requires (forall r :: r in a ==> r.slice.dimension == c) && (forall r :: r in b ==> r.slice.dimension == d)
    ensures DistinctRows(a + b) && forall r :: r in a + b ==> r.slice.dimension in {c, d}
  {
    JoinDistinct(a, b);
  }

  lemma JoinDistinct(a: seq<Row>, b: seq<Row>)
    requires DistinctRows(a) && DistinctRows(b)
    requires forall r, t :: r in a && t in b ==> r.slice.dimension != t.slice.dimension
    ensures DistinctRows(a + b)
  {
    forall i, j | 0 <= i < |a| && 0 <= j < |b| ensures a[i].slice != b[j].slice {
      assert a[i] in a && b[j] in b;
    }
  }

  lemma {:induction false} SlicesKnown(items: seq<Item>)
    ensures forall s :: s in SlicesIn(items) ==> s.dimension in DIMENSIONS
  {
    hide SlicesOf;
    if items != [] {
      SlicesKnown(items[..|items| - 1]);
      SlicesDistinct(items[|items| - 1]);
    }
  }

  ghost predicate RowsFit(items: seq<Item>, rows: seq<Row>) {
    && DistinctRows(rows)
    && (forall r :: r in rows ==> r.slice.dimension != "total" && r.counts.seen == SeenNow(items, r.slice))
    && (forall s :: s != ALL && s !in RowSlices(rows) ==> SeenNow(items, s) == 0)
  }

  lemma RowsDoFit(items: seq<Item>)
    ensures RowsFit(items, Rows(items))
  {
    hide Total, Tallied, SlicesIn, Filter, Rows, At;
    RowsMeaning(items);
    SlicesKnown(items);
    forall s | s in SlicesIn(items) ensures s in RowSlices(Rows(items)) {
      assert RowFrom(Tallied(items))(s) in Rows(items);
    }
    forall s | s !in SlicesIn(items) ensures At(Tallied(items), s) == NOTHING {
      AbsentSlice(items, s);
    }
  }

  /** No slice is looked at twice, and each with what is seen in it now. */
  lemma ProbesDistinct(items: seq<Item>, rows: seq<Row>, order: seq<Slice>)
    requires Distinct(order) && RowsFit(items, rows)
    ensures var probes := Probes(Total(items), rows, order);
      && DistinctProbes(probes)
      && (forall p :: p in probes ==> p.current == SeenNow(items, p.slice))
      && (forall p :: p in probes ==> (p.slice.dimension == "total" ==> p.slice == ALL))
  {
    hide Total, Tallied, Filter, At;
    var segments := {ALL} + RowSlices(rows);
    var gone := Filter(Vanished(segments), order);
    FilterDistinct(Vanished(segments), order);
    forall i | 0 <= i < |rows| ensures rows[i] in rows && rows[i].slice in segments && rows[i].slice != ALL {
    }
    forall i | 0 <= i < |gone|
      ensures gone[i] in gone && gone[i] !in segments && gone[i] != ALL && gone[i].dimension != "total"
    {
    }
  }

  /** Every slice of the previous snapshot is looked at, except stray ones of a dimension "total". */
  lemma ProbesCover(items: seq<Item>, rows: seq<Row>, order: seq<Slice>, s: Slice)
    requires RowsFit(items, rows) && s in order && (s.dimension == "total" ==> s == ALL)
    ensures Probe(s, SeenNow(items, s)) in Probes(Total(items), rows, order)
  {
    hide Total, Tallied, Filter, At;
    var segments := {ALL} + RowSlices(rows);
    var gone := Filter(Vanished(segments), order);
    var probes := Probes(Total(items), rows, order);
    if s == ALL {
      assert probes[0] == Probe(s, SeenNow(items, s));
    } else if s in RowSlices(rows) {
      var i :| 0 <= i < |rows| && rows[i].slice == s;
      assert rows[i] in rows;
      assert probes[1 + i] == Probe(s, SeenNow(items, s));
    } else {
      assert s in gone;
      var i :| 0 <= i < |gone| && gone[i] == s;
      assert probes[1 + |rows| + i] == Probe(s, SeenNow(items, s));
    }
  }

  lemma AbsentSlice(items: seq<Item>, slice: Slice)
    requires slice !in SlicesIn(items)
    ensures At(Tallied(items), slice) == NOTHING
  {
    TalliedIsTotal(items, slice);
  }

  // ---------------------------------------------------------------- the alerts

  lemma {:induction false} IndexedLast(entries: seq<Entry>, slice: Slice)
    ensures slice in Indexed(entries) <==> slice in Keys(SliceOf(), entries)
    ensures slice in Indexed(entries) ==> Entry(slice, Indexed(entries)[slice]) in entries
  {
    if entries != [] {
      var init, last := entries[..|entries| - 1], entries[|entries| - 1];
      assert entries == init + [last];
      IndexedLast(init, slice);
    }
  }

  lemma AlertMeaning(previous: map<Slice, int>, p: Probe)
    ensures MaybeAlert(previous, p) ==
      if p.slice in previous && previous[p.slice] >= BASELINE && 2 * p.current <= previous[p.slice]
      then [Alert(5 * p.current <= previous[p.slice], p.slice, p.current, previous[p.slice])] else []
  {
    if p.slice in previous && previous[p.slice] >= BASELINE {
      RatioAtMost(p.current, previous[p.slice], 5, CRITICAL_RATIO);
      RatioAtMost(p.current, previous[p.slice], 2, WARN_RATIO);
    }
  }

  lemma RatioAtMost(a: nat, b: int, n: int, ratio: real)
    requires b > 0 && n > 0 && ratio * n as real == 1.0
    ensures a as real / b as real <= ratio <==> n * a <= b
  {
    var q := a as real / b as real;
    assert q * b as real == a as real;
    if q <= ratio {
      ScaledUp(q, ratio, b as real);
      ScaledUp(a as real, ratio * b as real, n as real);
      assert ratio * b as real * n as real == ratio * n as real * b as real;
    } else {
      StrictlyUp(ratio, q, b as real);
      StrictlyUp(ratio * b as real, a as real, n as real);
      assert ratio * b as real * n as real == ratio * n as real * b as real;
    }
  }

  lemma ScaledUp(x: real, y: real, k: real)
    requires x <= y && k > 0.0
    ensures x * k <= y * k
  {
  }

  lemma StrictlyUp(x: real, y: real, k: real)
    requires x < y && k > 0.0
    ensures x * k < y * k
  {
  }

  /** The untruncated alerts against any previous snapshot: each slice that dropped is named exactly
      once, vanished ones included, with both figures and the right severity; no other slice is named. */
  lemma DropsNamedOnce(normalise: string -> string, items: seq<Item>, payload: Option<Payload>, slice: Slice)
    ensures var previous := Indexed(Entries(normalise, payload));
      var alerts := AlertsFor(normalise, items, payload);
      Filter(Naming(slice), alerts) ==
        if Dropped(previous, items, slice)
        then [Alert(5 * SeenNow(items, slice) <= previous[slice], slice, SeenNow(items, slice), previous[slice])]
        else []
  {
    hide Total, Tallied, SlicesIn, Filter, Entries, Indexed, Probes, Raised, MaybeAlert, RowsByDimension, Sort,
        SeenNow, RowsFit;
    var entries := Entries(normalise, payload);
    var previous, order := Indexed(entries), Keys(SliceOf(), entries);
    var probes := Probes(Total(items), Rows(items), order);
    var p := Probe(slice, SeenNow(items, slice));
    RowsDoFit(items);
    ProbesDistinct(items, Rows(items), order);
    RaisedFor(previous, probes, p);
    AlertMeaning(previous, p);
    IndexedLast(entries, slice);
    if slice in order && (slice.dimension == "total" ==> slice == ALL) {
      ProbesCover(items, Rows(items), order, slice);
    }
    SortPermutes(AlertLeq, Raised(previous, probes));
    FilterPermutes(Naming(slice), Sort(AlertLeq, Raised(previous, probes)), Raised(previous, probes));
    AtMostOne(Filter(Naming(slice), Sort(AlertLeq, Raised(previous, probes))),
              Filter(Naming(slice), Raised(previous, probes)));
  }

  lemma AtMostOne<T>(a: seq<T>, b: seq<T>)
    requires multiset(a) == multiset(b) && |a| == |b| <= 1
    ensures a == b
  {
    if |a| == 1 {
      assert a[0] in multiset(b);
    }
  }

  lemma AlertOrder()
    ensures TotalPreorder(AlertLeq)
  {
    forall x: Alert, y: Alert ensures AlertLeq(x, y) || AlertLeq(y, x) {
      StringLeqTotal(x.slice.dimension, y.slice.dimension);
      StringLeqTotal(x.slice.key, y.slice.key);
    }
    forall x: Alert, y: Alert, z: Alert | AlertLeq(x, y) && AlertLeq(y, z) ensures AlertLeq(x, z) {
      StringsTransitive(x.slice.dimension, y.slice.dimension, z.slice.dimension);
      StringsTransitive(x.slice.key, y.slice.key, z.slice.key);
      StringLeqTotal(x.slice.dimension, y.slice.dimension);
    }
  }

  lemma StringsTransitive(a: string, b: string, c: string)
    ensures StringLeq(a, b) && StringLeq(b, c) ==> StringLeq(a, c)
  {
    if StringLeq(a, b) && StringLeq(b, c) { StringLeqTransitive(a, b, c); }
  }

  /** The report keeps the twenty gravest: no alert it omits is graver than one it shows. */
  lemma CapKeepsGravest(normalise: string -> string, total: Counts, dimensions: seq<seq<Row>>,
      payload: Option<Payload>, i: nat, j: nat)
    requires var alerts := AllAlerts(normalise, total, dimensions, payload); i < |Capped(alerts)| <= j < |alerts|
    ensures var alerts := AllAlerts(normalise, total, dimensions, payload);
      && Capped(alerts)[i] == alerts[i] && AlertLeq(alerts[i], alerts[j])
      && (alerts[j].critical ==> alerts[i].critical)
      && (alerts[j].critical == alerts[i].critical ==>
            alerts[i].previous - alerts[i].current >= alerts[j].previous - alerts[j].current)
      && |Capped(alerts)| == 20
  {
    AlertOrder();
    var entries := Entries(normalise, payload);
    SortSorted(AlertLeq, Raised(Indexed(entries), Probes(total, Flatten(dimensions), Keys(SliceOf(), entries))));
  }

  // ---------------------------------------------------------------- one report after another

  function RowPayloadOf(): Row -> RowPayload {
    (r: Row) => RowPayload(r.slice.key, Some(r.counts.seen))
  }

  function DimensionPayloadOf(dimension: string, rows: seq<Row>): DimensionPayload {
    DimensionPayload(dimension, MapSeq(RowPayloadOf(), rows))
  }

  /** What is stored of a report: `serialize_coverage_report`, as far as it is read back. */
  function Stored(items: seq<Item>): Payload {
    var d := RowsByDimension(Tallied(items), SlicesIn(items));
    Payload(Some(Total(items).seen), StoredDimensions(d, |DIMENSIONS|))
  }

  function StoredDimensions(d: seq<seq<Row>>, n: nat): seq<DimensionPayload>
    requires n <= |d| == |DIMENSIONS|
  {
    seq(n, i requires 0 <= i < n => DimensionPayloadOf(DIMENSIONS[i], d[i]))
  }

  /** A row as the index files it: under the normalised form of its key. */
  function Filed(normalise: string -> string): Row -> Entry {
    (r: Row) => Entry(Slice(r.slice.dimension, OrUnknown(normalise(r.slice.key))), r.counts.seen)
  }

  ghost predicate NamesDimensions(normalise: string -> string) {
    forall d :: d in DIMENSIONS ==> normalise(d) == d
  }

  lemma {:induction false} RowsFiled(normalise: string -> string, dimension: string, rows: seq<Row>)
    requires forall r :: r in rows ==> r.slice.dimension == dimension
    ensures RowEntries(normalise, dimension, MapSeq(RowPayloadOf(), rows)) == MapSeq(Filed(normalise), rows)
  {
    if rows != [] {
      var init, last := rows[..|rows| - 1], rows[|rows| - 1];
      assert last in rows;
      RowsFiled(normalise, dimension, init);
      var stored := MapSeq(RowPayloadOf(), rows);
      assert stored[..|stored| - 1] == MapSeq(RowPayloadOf(), init);
      assert MapSeq(Filed(normalise), rows) == MapSeq(Filed(normalise), init) + [Filed(normalise)(last)];
    }
  }

  lemma EntriesOfOneMore(normalise: string -> string, stored: seq<DimensionPayload>, last: DimensionPayload)
    ensures DimensionEntries(normalise, stored + [last])
         == DimensionEntries(normalise, stored) + RowEntries(normalise, OrUnknown(normalise(last.name)), last.rows)
    ensures DimensionEntries(normalise, []) == []
  {
    assert (stored + [last])[..|stored|] == stored;
  }

  lemma FlattenOneMore(d: seq<seq<Row>>, n: nat)
    requires n < |d|
    ensures Flatten(d[..n + 1]) == Flatten(d[..n]) + d[n] && Flatten(d[..0]) == []
  {
    assert d[..n + 1][..n] == d[..n];
  }

  lemma {:induction false} DimensionsFiled(normalise: string -> string, d: seq<seq<Row>>, n: nat)
    requires n <= |d| == |DIMENSIONS| && NamesDimensions(normalise)
    requires forall i :: 0 <= i < |d| ==> forall r :: r in d[i] ==> r.slice.dimension == DIMENSIONS[i]
    ensures DimensionEntries(normalise, StoredDimensions(d, n)) == MapSeq(Filed(normalise), Flatten(d[..n]))
  {
    hide Filed, DimensionEntries, RowEntries, Flatten;
    FlattenOneMore(d, if n > 0 then n - 1 else 0);
    EntriesOfOneMore(normalise, [], DimensionPayload("", []));
    if n > 0 {
      var name, last := DIMENSIONS[n - 1], d[n - 1];
      DimensionsFiled(normalise, d, n - 1);
      assert StoredDimensions(d, n) == StoredDimensions(d, n - 1) + [DimensionPayloadOf(name, last)];
      EntriesOfOneMore(normalise, StoredDimensions(d, n - 1), DimensionPayloadOf(name, last));
      assert normalise(name) == name != "";
      RowsFiled(normalise, name, last);
      MapConcat(Filed(normalise), Flatten(d[..n - 1]), last);
    } else {
      assert StoredDimensions(d, 0) == [] && d[..0] == [];
      assert MapSeq(Filed(normalise), []) == [];
    }
  }

  lemma MapConcat<T, U>(f: T -> U, a: seq<T>, b: seq<T>)
    ensures MapSeq(f, a + b) == MapSeq(f, a) + MapSeq(f, b)
  {
  }

  /** Reading back a stored report finds the total and every row, under their normalised keys. */
  lemma StoredEntries(normalise: string -> string, items: seq<Item>)
    requires NamesDimensions(normalise)
    ensures Entries(normalise, Some(Stored(items))) == [Entry(ALL, Total(items).seen)]
        + MapSeq(Filed(normalise), Rows(items))
  {
    hide Total, Tallied, SlicesIn, Filed, DimensionRows, Flatten;
    var d := RowsByDimension(Tallied(items), SlicesIn(items));
    forall i | 0 <= i < |d| ensures forall r: Row :: r in d[i] ==> r.slice.dimension == DIMENSIONS[i] {
      DimensionRowsDistinct(DIMENSIONS[i], items);
    }
    DimensionsFiled(normalise, d, |d|);
    assert d[..|d|] == d;
  }

  function FiledSlice(normalise: string -> string, s: Slice): Slice {
    Slice(s.dimension, OrUnknown(normalise(s.key)))
  }

  lemma RowSeen(items: seq<Item>, r: Row)
    requires r in Rows(items)
    ensures r.slice in SlicesIn(items) && r.counts.seen == SeenNow(items, r.slice)
  {
    hide Rows, Tallied, SlicesIn, At;
    RowsMeaning(items);
    SlicesKnown(items);
  }

  lemma RowOf(items: seq<Item>, t: Slice) returns (r: Row)
    requires t in SlicesIn(items)
    ensures r in Rows(items) && r.slice == t
  {
    hide Rows, Tallied, SlicesIn, At;
    RowsMeaning(items);
    r := RowFrom(Tallied(items))(t);
  }

  /** What the index of a stored report holds comes from the total or from a row filed there. */
  lemma StoredIndex(normalise: string -> string, items: seq<Item>, x: Slice) returns (t: Slice)
    requires NamesDimensions(normalise)
    ensures var previous := Indexed(Entries(normalise, Some(Stored(items))));
      x in previous ==>
        || (x == ALL && previous[x] == SeenNow(items, ALL))
        || (t in SlicesIn(items) && FiledSlice(normalise, t) == x && previous[x] == SeenNow(items, t))
  {
    hide Total, SlicesIn, Entries, Stored, Rows, Indexed;
    StoredEntries(normalise, items);
    var rows, entries := Rows(items), Entries(normalise, Some(Stored(items)));
    IndexedLast(entries, x);
    t := x;
    if x in Indexed(entries) {
      var k :| 0 <= k < |entries| && entries[k] == Entry(x, Indexed(entries)[x]);
      if k > 0 {
        RowSeen(items, rows[k - 1]);
        t := rows[k - 1].slice;
        assert entries[k] == Filed(normalise)(rows[k - 1]);
      }
    }
  }

  lemma StoredHas(normalise: string -> string, items: seq<Item>, t: Slice)
    requires NamesDimensions(normalise)
    ensures var previous := Indexed(Entries(normalise, Some(Stored(items))));
      ALL in previous && (t in SlicesIn(items) ==> FiledSlice(normalise, t) in previous)
  {
    hide Total, SlicesIn, Entries, Stored, Rows, Indexed, FiledSlice;
    StoredEntries(normalise, items);
    var rows, entries := Rows(items), Entries(normalise, Some(Stored(items)));
    assert entries[0] in entries;
    EntryIndexed(entries, entries[0]);
    if t in SlicesIn(items) {
      var r := RowOf(items, t);
      var i :| 0 <= i < |rows| && rows[i] == r;
      assert entries[1 + i] == Filed(normalise)(r) && entries[1 + i] in entries;
      EntryIndexed(entries, entries[1 + i]);
      assert FiledSlice(normalise, t) == entries[1 + i].slice by { FiledMeaning(normalise, r); }
    }
  }

  lemma FiledMeaning(normalise: string -> string, r: Row)
    ensures Filed(normalise)(r) == Entry(FiledSlice(normalise, r.slice), r.counts.seen)
  {
  }

  lemma EntryIndexed(entries: seq<Entry>, e: Entry)
    requires e in entries
    ensures e.slice in Indexed(entries)
  {
    IndexedLast(entries, e.slice);
    assert SliceOf()(e) in Keys(SliceOf(), entries);
  }

  /** Every key of the report is its own normal form. */
  ghost predicate NormalKeys(normalise: string -> string, items: seq<Item>) {
    forall s :: s in SlicesIn(items) ==> s.key != "" && normalise(s.key) == s.key
  }

  /** With normalised keys the round trip through storage is exact: the index holds what the
      earlier report saw in the total and in each of its rows, and nothing else. */
  lemma StoredRoundTrip(normalise: string -> string, items: seq<Item>, slice: Slice)
    requires NamesDimensions(normalise) && NormalKeys(normalise, items)
    ensures var previous := Indexed(Entries(normalise, Some(Stored(items))));
      && (slice in previous <==> slice == ALL || slice in SlicesIn(items))
      && (slice in previous ==> previous[slice] == SeenNow(items, slice))
  {
    hide SlicesIn, Entries, Stored, Indexed, SeenNow;
    SlicesKnown(items);
    var t := StoredIndex(normalise, items, slice);
    StoredHas(normalise, items, slice);
  }

  /** Report after report, keys normalised: a slice is named if and only if the earlier report saw
      at least five items there and the later one half as many or fewer. */
  lemma ConsecutiveReports(normalise: string -> string, earlier: seq<Item>, later: seq<Item>, slice: Slice)
    requires NamesDimensions(normalise) && NormalKeys(normalise, earlier)
    ensures var alerts := AlertsFor(normalise, later, Some(Stored(earlier)));
      var seen := SeenNow(earlier, slice);
      |Filter(Naming(slice), alerts)| == if seen >= 5 && 2 * SeenNow(later, slice) <= seen then 1 else 0
  {
    hide Total, Tallied, SlicesIn, Filter, Entries, Stored, AlertsFor, Indexed, At;
    DropsNamedOnce(normalise, later, Some(Stored(earlier)), slice);
    StoredRoundTrip(normalise, earlier, slice);
    SlicesKnown(earlier);
    if slice !in SlicesIn(earlier) { AbsentSlice(earlier, slice); }
  }

  /** Without normalised keys it fails: a row whose key has another normal form, under which the
      report has no row, is reported as vanished even against the report's own snapshot. */
  lemma UnnormalisedKeyAlarms(normalise: string -> string, items: seq<Item>, s: Slice)
    requires NamesDimensions(normalise) && s in SlicesIn(items) && SeenNow(items, s) >= 5
    requires var filed := FiledSlice(normalise, s);
      && filed !in SlicesIn(items)
      && forall t :: t in SlicesIn(items) && t != s ==> FiledSlice(normalise, t) != filed
    ensures var filed := FiledSlice(normalise, s);
      Alert(true, filed, 0, SeenNow(items, s))
      in AlertsFor(normalise, items, Some(Stored(items)))
  {
    hide Total, Tallied, SlicesIn, Entries, Stored, AlertsFor, Indexed, At;
    var filed := FiledSlice(normalise, s);
    SlicesKnown(items);
    AbsentSlice(items, filed);
    var t := StoredIndex(normalise, items, filed);
    StoredHas(normalise, items, s);
    DropsNamedOnce(normalise, items, Some(Stored(items)), filed);
    var alerts := AlertsFor(normalise, items, Some(Stored(items)));
    assert Filter(Naming(filed), alerts)[0] in alerts;
  }

  // ---------------------------------------------------------------- a report against itself

  /** Whether row i is the last one filed under its normalised slice. */
  ghost predicate LastFiled(normalise: string -> string, rows: seq<Row>, i: nat)
    requires i < |rows|
  {
    forall j :: i < j < |rows| ==> FiledSlice(normalise, rows[j].slice) != FiledSlice(normalise, rows[i].slice)
  }

  /** The slice row i is filed under still shows more than half of what the row saw. */
  ghost predicate StillSeen(normalise: string -> string, items: seq<Item>, i: nat)
    requires i < |Rows(items)|
  {
    var r := Rows(items)[i];
    LastFiled(normalise, Rows(items), i) && r.counts.seen >= BASELINE ==>
      2 * SeenNow(items, FiledSlice(normalise, r.slice)) > r.counts.seen
  }

  lemma {:induction false} IndexedAt(entries: seq<Entry>, k: nat)
    requires k < |entries| && forall j :: k < j < |entries| ==> entries[j].slice != entries[k].slice
    ensures entries[k].slice in Indexed(entries) && Indexed(entries)[entries[k].slice] == entries[k].seen
  {
    if k < |entries| - 1 { IndexedAt(entries[..|entries| - 1], k); }
  }

  lemma {:induction false} LastEntry(entries: seq<Entry>, x: Slice) returns (k: nat)
    requires x in Indexed(entries)
    ensures k < |entries| && entries[k].slice == x && forall j :: k < j < |entries| ==> entries[j].slice != x
  {
    k := |entries| - 1;
    if entries[k].slice != x { k := LastEntry(entries[..k], x); }
  }

  lemma FiledEntry(normalise: string -> string, items: seq<Item>, i: nat)
    requires NamesDimensions(normalise) && i < |Rows(items)|
    ensures var r, entries := Rows(items)[i], Entries(normalise, Some(Stored(items)));
      && |entries| == 1 + |Rows(items)|
      && entries[0] == Entry(ALL, Total(items).seen)
      && entries[1 + i] == Entry(FiledSlice(normalise, r.slice), r.counts.seen)
      && r.slice.dimension != "total"
  {
    hide Rows, Total, Stored, Entries, SlicesIn;
    StoredEntries(normalise, items);
    FiledMeaning(normalise, Rows(items)[i]);
    RowSeen(items, Rows(items)[i]);
    SlicesKnown(items);
  }

  /** A row filed last under its slice is what the index holds there. */
  lemma RowIndexed(normalise: string -> string, items: seq<Item>, i: nat)
    requires NamesDimensions(normalise) && i < |Rows(items)| && LastFiled(normalise, Rows(items), i)
    ensures var r, previous := Rows(items)[i], Indexed(Entries(normalise, Some(Stored(items))));
      var x := FiledSlice(normalise, r.slice);
      x in previous && previous[x] == r.counts.seen && x.dimension != "total"
  {
    hide Rows, Total, Stored, Entries, FiledSlice, Indexed;
    var entries := Entries(normalise, Some(Stored(items)));
    FiledEntry(normalise, items, i);
    forall j | 1 + i < j < |entries| ensures entries[j].slice != entries[1 + i].slice {
      FiledEntry(normalise, items, j - 1);
    }
    IndexedAt(entries, 1 + i);
    assert FiledSlice(normalise, Rows(items)[i].slice).dimension == Rows(items)[i].slice.dimension by {
      SameDimension(normalise, Rows(items)[i].slice);
    }
  }

  lemma SameDimension(normalise: string -> string, s: Slice)
    ensures FiledSlice(normalise, s).dimension == s.dimension
  {
  }

  /** What the index holds comes from the total or from the row filed last there. */
  lemma IndexedRow(normalise: string -> string, items: seq<Item>, x: Slice) returns (i: nat)
    requires NamesDimensions(normalise) && x in Indexed(Entries(normalise, Some(Stored(items)))) && x != ALL
    ensures i < |Rows(items)| && LastFiled(normalise, Rows(items), i)
        && FiledSlice(normalise, Rows(items)[i].slice) == x
  {
    hide Rows, Total, Stored, FiledSlice, Indexed, Entries;
    var entries := Entries(normalise, Some(Stored(items)));
    var k := LastEntry(entries, x);
    StoredEntries(normalise, items);
    i := k - 1;
    FiledEntry(normalise, items, i);
    forall j | i < j < |Rows(items)|
      ensures FiledSlice(normalise, Rows(items)[j].slice) != FiledSlice(normalise, Rows(items)[i].slice)
    {
      FiledEntry(normalise, items, j);
      assert entries[1 + j].slice != x;
    }
  }

  lemma NoAlertsIff(normalise: string -> string, items: seq<Item>, payload: Option<Payload>)
    ensures AlertsFor(normalise, items, payload) == []
       <==> forall x :: !Dropped(Indexed(Entries(normalise, payload)), items, x)
  {
    hide Total, Tallied, SlicesIn, AlertsFor, Indexed, Entries, SeenNow, Dropped, Filter;
    var alerts := AlertsFor(normalise, items, payload);
    var previous := Indexed(Entries(normalise, payload));
    forall x ensures Dropped(previous, items, x) ==> alerts != [] {
      DropsNamedOnce(normalise, items, payload, x);
      NoAlerts(x);
    }
    if alerts != [] {
      DropsNamedOnce(normalise, items, payload, alerts[0].slice);
      assert alerts[0] in Filter(Naming(alerts[0].slice), alerts);
    }
  }

  /** A report is silent about its own snapshot if and only if, for every row of at least five that
      is the last one filed under its normalised slice, that slice shows more than half as many now.
      Where several rows file under one slice the last one wins; the others cannot alarm. */
  lemma OwnSnapshotSilentIff(normalise: string -> string, items: seq<Item>)
    requires NamesDimensions(normalise)
    ensures AlertsFor(normalise, items, Some(Stored(items))) == []
       <==> forall i: nat :: i < |Rows(items)| ==> StillSeen(normalise, items, i)
  {
    hide Total, Tallied, SlicesIn, AlertsFor, Indexed, Entries, SeenNow, Rows, FiledSlice, LastFiled;
    var previous := Indexed(Entries(normalise, Some(Stored(items))));
    NoAlertsIff(normalise, items, Some(Stored(items)));
    TotalNeverDrops(normalise, items);
    forall i: nat | i < |Rows(items)|
      ensures StillSeen(normalise, items, i) || Dropped(previous, items, FiledSlice(normalise, Rows(items)[i].slice))
    {
      if !StillSeen(normalise, items, i) { RowIndexed(normalise, items, i); }
    }
    if x :| Dropped(previous, items, x) {
      var i := IndexedRow(normalise, items, x);
      RowIndexed(normalise, items, i);
      assert !StillSeen(normalise, items, i);
    }
  }

  lemma TotalNeverDrops(normalise: string -> string, items: seq<Item>)
    requires NamesDimensions(normalise)
    ensures !Dropped(Indexed(Entries(normalise, Some(Stored(items)))), items, ALL)
  {
    hide Stored, Total, Rows, SlicesIn;
    StoredEntries(normalise, items);
    var entries := Entries(normalise, Some(Stored(items)));
    forall j | 0 < j < |entries| ensures entries[j].slice != ALL {
      FiledEntry(normalise, items, j - 1);
      SameDimension(normalise, Rows(items)[j - 1].slice);
    }
    IndexedAt(entries, 0);
  }

  /** No two rows file under one slice. */
  ghost predicate FiledApart(normalise: string -> string, items: seq<Item>) {
    forall s, t :: s in SlicesIn(items) && t in SlicesIn(items) && s != t ==>
      FiledSlice(normalise, s) != FiledSlice(normalise, t)
  }

  /** A normal form is its own normal form. */
  ghost predicate Idempotent(normalise: string -> string) {
    normalise("unknown") == "unknown" && forall k :: normalise(normalise(k)) == normalise(k)
  }

  lemma FiledTwice(normalise: string -> string, s: Slice)
    requires Idempotent(normalise)
    ensures FiledSlice(normalise, FiledSlice(normalise, s)) == FiledSlice(normalise, s)
  {
  }

  /** Where rows are filed apart the condition is the keys': a report is silent about its own
      snapshot if and only if every row of at least five is filed under its own key. */
  lemma OwnSnapshotKeysIff(normalise: string -> string, items: seq<Item>)
    requires NamesDimensions(normalise) && Idempotent(normalise) && FiledApart(normalise, items)
    ensures AlertsFor(normalise, items, Some(Stored(items))) == []
       <==> forall s :: s in SlicesIn(items) && SeenNow(items, s) >= 5 ==> FiledSlice(normalise, s) == s
  {
    hide Total, Tallied, SlicesIn, AlertsFor, Rows, FiledSlice, SeenNow, FiledApart, At, StillSeen;
    OwnSnapshotSilentIff(normalise, items);
    forall s | s in SlicesIn(items)
      ensures exists i: nat :: i < |Rows(items)| && Rows(items)[i].slice == s
    {
      var r := RowOf(items, s);
      var i: nat :| i < |Rows(items)| && Rows(items)[i] == r;
    }
    forall i: nat | i < |Rows(items)|
      ensures var s := Rows(items)[i].slice;
        && s in SlicesIn(items)
        && (StillSeen(normalise, items, i) <==> (SeenNow(items, s) >= 5 ==> FiledSlice(normalise, s) == s))
    {
      StillSeenApart(normalise, items, i);
    }
  }

  lemma StillSeenApart(normalise: string -> string, items: seq<Item>, i: nat)
    requires Idempotent(normalise) && FiledApart(normalise, items) && i < |Rows(items)|
    ensures var s := Rows(items)[i].slice;
      && s in SlicesIn(items)
      && (StillSeen(normalise, items, i) <==> (SeenNow(items, s) >= 5 ==> FiledSlice(normalise, s) == s))
  {
    hide Total, Tallied, SlicesIn, Rows, FiledSlice, At, Idempotent;
    var rows, s := Rows(items), Rows(items)[i].slice;
    RowsMeaning(items);
    RowSeen(items, rows[i]);
    forall j | i < j < |rows| ensures FiledSlice(normalise, rows[j].slice) != FiledSlice(normalise, s) {
      RowSeen(items, rows[j]);
    }
    var x := FiledSlice(normalise, s);
    FiledTwice(normalise, s);
    SlicesKnown(items);
    SameDimension(normalise, s);
    if x != s { AbsentSlice(items, x); }
  }

  // ---------------------------------------------------------------- such a key, concretely

  const SPACED_ITEM: Item := RawItem("pending", "", "x ", "rss", "wire", ["unconfigured"])

  /** The text normaliser on the keys at hand: it strips the trailing space. */
  function Stripped(): string -> string {
    key => if key == "x " then "x" else key
  }

  lemma OneSeen(item: Item)
    ensures CountsForItem(item).seen == 1
  {
  }

  lemma {:induction false} SeenIsLength(items: seq<Item>)
    ensures Total(items).seen == |items|
  {
    hide CountsForItem;
    if items != [] {
      SeenIsLength(items[..|items| - 1]);
      OneSeen(items[|items| - 1]);
    }
  }

  lemma {:induction false} SameItems(items: seq<Item>, item: Item, slice: Slice)
    requires forall i :: 0 <= i < |items| ==> items[i] == item
    ensures slice in SlicesIn(items) <==> items != [] && slice in SlicesOf(item)
    ensures slice in SlicesOf(item) ==> Filter(Within(slice), items) == items
  {
    hide SlicesOf;
    if items != [] {
      var init, last := items[..|items| - 1], items[|items| - 1];
      SameItems(init, item, slice);
      assert slice in SlicesOf(item) ==> Filter(Within(slice), items) == init + [last] == items;
    }
  }

  /** Five items in the language "x y", whose key is cut to "x ", against their own snapshot: the
      slice "x" is reported as vanished. */
  lemma SpacedKeyAlarms(items: seq<Item>)
    requires |items| == 5 && forall i :: 0 <= i < |items| ==> items[i] == SPACED_ITEM
    ensures Alert(true, Slice("language", "x"), 0, 5)
      in AlertsFor(Stripped(), items, Some(Stored(items)))
  {
    hide Total, Tallied, SlicesIn, AlertsFor, Stored, Filter, CountsForItem;
    var s := Slice("language", "x ");
    assert SlicesOf(SPACED_ITEM)
        == [s, Slice("source_family", "rss"), Slice("source_tier", "wire"), Slice("topic", "unconfigured")];
    forall t ensures t in SlicesIn(items) <==> t in SlicesOf(SPACED_ITEM) {
      SameItems(items, SPACED_ITEM, t);
    }
    SeenIsLength(items);
    SameItems(items, SPACED_ITEM, s);
    TalliedIsTotal(items, s);
    UnnormalisedKeyAlarms(Stripped(), items, s);
  }
}
