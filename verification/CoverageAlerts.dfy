/** Drop alerts: the current report against the snapshot before it. */
module CoverageAlerts {
  import opened Wrappers
  import opened Sequences
  import opened Sorting
  import opened SourceCoverage

  const BASELINE: int := 5
  const WARN_RATIO: real := 0.5
  const CRITICAL_RATIO: real := 0.2
  const MAX_ALERTS: nat := 20

  /** A stored report as it is read back; None where a part is missing or has the wrong shape. */
  datatype RowPayload = RowPayload(key: string, seen: Option<int>)
  datatype DimensionPayload = DimensionPayload(name: string, rows: seq<RowPayload>)
  datatype Payload = Payload(total: Option<int>, dimensions: seq<DimensionPayload>)

  datatype Entry = Entry(slice: Slice, seen: int)

  datatype Alert = Alert(critical: bool, slice: Slice, current: nat, previous: int)

  datatype Report = Report(total: Counts, dimensions: seq<seq<Row>>, alerts: seq<Alert>)

  const ALL: Slice := Slice("total", "all")

  // ---------------------------------------------------------------- the previous snapshot

  function OrUnknown(s: string): string {
    if s == "" then "unknown" else s
  }

  function RowEntries(normalise: string -> string, dimension: string, rows: seq<RowPayload>): seq<Entry> {
    if rows == [] then []
    else
      var last := rows[|rows| - 1];
      RowEntries(normalise, dimension, rows[..|rows| - 1])
      + (if last.seen.Some? then [Entry(Slice(dimension, OrUnknown(normalise(last.key))), last.seen.value)] else [])
  }

  function DimensionEntries(normalise: string -> string, dimensions: seq<DimensionPayload>): seq<Entry> {
    if dimensions == [] then []
    else
      var last := dimensions[|dimensions| - 1];
      DimensionEntries(normalise, dimensions[..|dimensions| - 1])
      + RowEntries(normalise, OrUnknown(normalise(last.name)), last.rows)
  }

  /** Everything the stored report says was seen, in reading order. */
  function Entries(normalise: string -> string, payload: Option<Payload>): seq<Entry> {
    if payload.None? then []
    else
      (if payload.value.total.Some? then [Entry(ALL, payload.value.total.value)] else [])
      + DimensionEntries(normalise, payload.value.dimensions)
  }

  function SliceOf(): Entry -> Slice {
    (e: Entry) => e.slice
  }

  /** The last entry of each slice. */
  function Indexed(entries: seq<Entry>): map<Slice, int> {
    if entries == [] then map[]
    else
      var last := entries[|entries| - 1];
      Indexed(entries[..|entries| - 1])[last.slice := last.seen]
  }

  // ---------------------------------------------------------------- alerts

  /** A slice and what is seen in it now. */
  datatype Probe = Probe(slice: Slice, current: nat)

  function MaybeAlert(previous: map<Slice, int>, p: Probe): seq<Alert> {
    if p.slice !in previous || previous[p.slice] < BASELINE then []
    else
      var ratio := p.current as real / previous[p.slice] as real;
      if p.current == 0 || ratio <= CRITICAL_RATIO then [Alert(true, p.slice, p.current, previous[p.slice])]
      else if ratio <= WARN_RATIO then [Alert(false, p.slice, p.current, previous[p.slice])]
      else []
  }

  function Raised(previous: map<Slice, int>, probes: seq<Probe>): seq<Alert> {
    if probes == [] then []
    else Raised(previous, probes[..|probes| - 1]) + MaybeAlert(previous, probes[|probes| - 1])
  }

  function RowProbe(): Row -> Probe {
    (r: Row) => Probe(r.slice, r.counts.seen)
  }

  function Flatten(dimensions: seq<seq<Row>>): seq<Row> {
    if dimensions == [] then [] else Flatten(dimensions[..|dimensions| - 1]) + dimensions[|dimensions| - 1]
  }

  function RowSlices(rows: seq<Row>): set<Slice> {
    set r | r in rows :: r.slice
  }

  predicate Vanishes(segments: set<Slice>, slice: Slice) {
    slice !in segments && slice.dimension != "total"
  }

  function Vanished(segments: set<Slice>): Slice -> bool {
    s => Vanishes(segments, s)
  }

  function Gone(): Slice -> Probe {
    s => Probe(s, 0)
  }

  /** Everything that is looked at: the total, every row, and every previous slice that has no row now. */
  function Probes(total: Counts, rows: seq<Row>, previousOrder: seq<Slice>): seq<Probe> {
    [Probe(ALL, total.seen)] + MapSeq(RowProbe(), rows)
    + MapSeq(Gone(), Filter(Vanished({ALL} + RowSlices(rows)), previousOrder))
  }

  /** Critical first, then the larger drop, then by name. */
  predicate AlertLeq(a: Alert, b: Alert) {
    var x, y := a.previous - a.current, b.previous - b.current;
    if a.critical != b.critical then a.critical
    else if x != y then x > y
    else if a.slice.dimension != b.slice.dimension then StringLeq(a.slice.dimension, b.slice.dimension)
    else StringLeq(a.slice.key, b.slice.key)
  }

  function AllAlerts(
      normalise: string -> string, total: Counts, dimensions: seq<seq<Row>>, payload: Option<Payload>): seq<Alert>
  {
    var entries := Entries(normalise, payload);
    Sort(AlertLeq, Raised(Indexed(entries), Probes(total, Flatten(dimensions), Keys(SliceOf(), entries))))
  }

  function Capped(alerts: seq<Alert>): seq<Alert> {
    if |alerts| <= MAX_ALERTS then alerts else alerts[..MAX_ALERTS]
  }

  function RowsByDimension(view: map<Slice, Counts>, order: seq<Slice>): seq<seq<Row>> {
    seq(|DIMENSIONS|, i requires 0 <= i < |DIMENSIONS| => DimensionRows(DIMENSIONS[i], view, order))
  }

  /** The untruncated alerts of the report on `items`. */
  function AlertsFor(normalise: string -> string, items: seq<Item>, payload: Option<Payload>): seq<Alert> {
    AllAlerts(normalise, Total(items), RowsByDimension(Tallied(items), SlicesIn(items)), payload)
  }

  function ReportOf(normalise: string -> string, items: seq<Item>, payload: Option<Payload>): Report {
    Report(Total(items), RowsByDimension(Tallied(items), SlicesIn(items)), Capped(AlertsFor(normalise, items, payload)))
  }

  /** `_index_previous_seen`. */
  method IndexPreviousSeen(normalise: string -> string, payload: Option<Payload>)
    returns (order: seq<Slice>, seen: map<Slice, int>)
    ensures var entries := Entries(normalise, payload); order == Keys(SliceOf(), entries) && seen == Indexed(entries)
  {
    hide Keys, Indexed, RowEntries, DimensionEntries;
    ghost var done: seq<Entry> := [];
    order, seen := [], map[];
    NoEntries();
    NoDimensions(normalise);
    if payload.None? {
      return;
    }
    if payload.value.total.Some? {
      order, seen := [ALL], map[ALL := payload.value.total.value];
      done := [Entry(ALL, payload.value.total.value)];
      EntryStep([], done[0]);
      assert [] + [done[0]] == done;
    }
    ghost var head := done;
    var dimensions := payload.value.dimensions;
    for i := 0 to |dimensions|
      invariant done == head + DimensionEntries(normalise, dimensions[..i])
      invariant order == Keys(SliceOf(), done) && seen == Indexed(done)
    {
      DimensionsNext(normalise, dimensions, i);
      var name := OrUnknown(normalise(dimensions[i].name));
      order, seen := IndexRows(normalise, name, dimensions[i].rows, done, order, seen);
      ghost var more := RowEntries(normalise, name, dimensions[i].rows);
      assert done + more == head + (DimensionEntries(normalise, dimensions[..i]) + more);
      done := done + more;
    }
    assert dimensions[..|dimensions|] == dimensions;
  }

  lemma NoDimensions(normalise: string -> string)
    ensures DimensionEntries(normalise, []) == []
  {
  }

  lemma DimensionsNext(normalise: string -> string, dimensions: seq<DimensionPayload>, i: nat)
    requires i < |dimensions|
    ensures DimensionEntries(normalise, dimensions[..i + 1])
         == DimensionEntries(normalise, dimensions[..i])
            + RowEntries(normalise, OrUnknown(normalise(dimensions[i].name)), dimensions[i].rows)
  {
    assert dimensions[..i + 1][..i] == dimensions[..i];
  }

  /** The loop over the rows of one stored dimension. */
  method IndexRows(normalise: string -> string, name: string, rows: seq<RowPayload>, ghost done: seq<Entry>,
      order: seq<Slice>, seen: map<Slice, int>)
    returns (order': seq<Slice>, seen': map<Slice, int>)
    requires order == Keys(SliceOf(), done) && seen == Indexed(done)
    ensures var all := done + RowEntries(normalise, name, rows); order' == Keys(SliceOf(), all) && seen' == Indexed(all)
  {
    hide Keys, Indexed;
    order', seen' := order, seen;
    ghost var all := done;
    for j := 0 to |rows|
      invariant all == done + RowEntries(normalise, name, rows[..j])
      invariant order' == Keys(SliceOf(), all) && seen' == Indexed(all)
    {
      assert rows[..j + 1][..j] == rows[..j];
      if rows[j].seen.Some? {
        var slice := Slice(name, OrUnknown(normalise(rows[j].key)));
        EntryStep(all, Entry(slice, rows[j].seen.value));
        order' := if slice in seen' then order' else order' + [slice];
        seen' := seen'[slice := rows[j].seen.value];
        all := all + [Entry(slice, rows[j].seen.value)];
      }
    }
    assert rows[..|rows|] == rows;
  }

  lemma NoEntries()
    ensures Keys(SliceOf(), []) == [] && Indexed([]) == map[]
  {
  }

  lemma EntryStep(done: seq<Entry>, e: Entry)
    ensures Keys(SliceOf(), done + [e]) == AddKey(Keys(SliceOf(), done), e.slice)
    ensures Indexed(done + [e]) == Indexed(done)[e.slice := e.seen]
    ensures e.slice in Indexed(done) <==> e.slice in Keys(SliceOf(), done)
  {
    assert (done + [e])[..|done|] == done;
    IndexedKeys(done, e.slice);
  }

  lemma {:induction false} IndexedKeys(entries: seq<Entry>, slice: Slice)
    ensures slice in Indexed(entries) <==> slice in Keys(SliceOf(), entries)
  {
    if entries != [] { IndexedKeys(entries[..|entries| - 1], slice); }
  }

  lemma RaisedStep(previous: map<Slice, int>, probes: seq<Probe>, p: Probe)
    ensures Raised(previous, probes + [p]) == Raised(previous, probes) + MaybeAlert(previous, p)
  {
    assert (probes + [p])[..|probes|] == probes;
  }

  /** `_build_alerts`. */
  method BuildAlerts(normalise: string -> string, total: Counts, dimensions: seq<seq<Row>>, payload: Option<Payload>)
    returns (alerts: seq<Alert>)
    ensures alerts == Capped(AllAlerts(normalise, total, dimensions, payload))
  {
    hide MaybeAlert, Raised, Sort, Keys, Indexed, Entries, Filter, RowSlices;
    var order, previous := IndexPreviousSeen(normalise, payload);
    NoFlatRows();
    ghost var probes := [Probe(ALL, total.seen)];
    RaisedStep(previous, [], Probe(ALL, total.seen));
    NoProbes(previous);
    assert [] + [Probe(ALL, total.seen)] == probes;
    alerts := MaybeAlert(previous, Probe(ALL, total.seen));
    var segments := {ALL};
    for i := 0 to |dimensions|
      invariant probes == [Probe(ALL, total.seen)] + MapSeq(RowProbe(), Flatten(dimensions[..i]))
      invariant alerts == Raised(previous, probes) && segments == {ALL} + RowSlices(Flatten(dimensions[..i]))
    {
      assert dimensions[..i + 1][..i] == dimensions[..i];
      ghost var done := Flatten(dimensions[..i]);
      alerts, segments, probes := CheckRows(previous, dimensions[i], done, alerts, segments, probes);
    }
    assert dimensions[..|dimensions|] == dimensions;
    alerts := CheckVanished(previous, order, segments, alerts, probes);
    alerts := Sort(AlertLeq, alerts);
    alerts := Capped(alerts);
  }

  lemma NoFlatRows()
    ensures Flatten([]) == [] && RowSlices([]) == {}
  {
  }

  lemma NoneGone(segments: set<Slice>)
    ensures MapSeq(Gone(), Filter(Vanished(segments), [])) == []
  {
  }

  lemma GoneNext(segments: set<Slice>, order: seq<Slice>, i: nat)
    requires i < |order|
    ensures MapSeq(Gone(), Filter(Vanished(segments), order[..i + 1]))
         == MapSeq(Gone(), Filter(Vanished(segments), order[..i]))
            + if Vanishes(segments, order[i]) then [Probe(order[i], 0)] else []
  {
    assert order[..i + 1][..i] == order[..i];
  }

  /** The loop over the slices of the previous snapshot. */
  method CheckVanished(
      previous: map<Slice, int>, order: seq<Slice>, segments: set<Slice>, alerts: seq<Alert>, ghost probes: seq<Probe>)
    returns (alerts': seq<Alert>)
    requires alerts == Raised(previous, probes)
    ensures alerts' == Raised(previous, probes + MapSeq(Gone(), Filter(Vanished(segments), order)))
  {
    hide MaybeAlert, Raised, Filter;
    alerts' := alerts;
    ghost var seen := probes;
    NoneGone(segments);
    for i := 0 to |order|
      invariant seen == probes + MapSeq(Gone(), Filter(Vanished(segments), order[..i]))
      invariant alerts' == Raised(previous, seen)
    {
      GoneNext(segments, order, i);
      if Vanishes(segments, order[i]) {
        RaisedStep(previous, seen, Probe(order[i], 0));
        alerts' := alerts' + MaybeAlert(previous, Probe(order[i], 0));
        seen := seen + [Probe(order[i], 0)];
      }
    }
    assert order[..|order|] == order;
  }

  lemma NoProbes(previous: map<Slice, int>)
    ensures Raised(previous, []) == []
  {
  }

  /** The loop over the rows of one dimension. */
  method CheckRows(previous: map<Slice, int>, rows: seq<Row>, ghost done: seq<Row>, alerts: seq<Alert>,
      segments: set<Slice>, ghost probes: seq<Probe>)
    returns (alerts': seq<Alert>, segments': set<Slice>, ghost probes': seq<Probe>)
    requires probes != [] && probes == [Probe(ALL, probes[0].current)] + MapSeq(RowProbe(), done)
    requires alerts == Raised(previous, probes) && segments == {ALL} + RowSlices(done)
    ensures probes' == [Probe(ALL, probes[0].current)] + MapSeq(RowProbe(), done + rows)
    ensures alerts' == Raised(previous, probes') && segments' == {ALL} + RowSlices(done + rows)
  {
    hide MaybeAlert, Raised;
    alerts', segments', probes' := alerts, segments, probes;
    assert done + rows[..0] == done;
    for j := 0 to |rows|
      invariant probes' == [Probe(ALL, probes[0].current)] + MapSeq(RowProbe(), done + rows[..j])
      invariant alerts' == Raised(previous, probes') && segments' == {ALL} + RowSlices(done + rows[..j])
    {
      var row := rows[j];
      assert done + rows[..j + 1] == done + rows[..j] + [row];
      RaisedStep(previous, probes', Probe(row.slice, row.counts.seen));
      segments' := segments' + {row.slice};
      alerts' := alerts' + MaybeAlert(previous, Probe(row.slice, row.counts.seen));
      probes' := probes' + [Probe(row.slice, row.counts.seen)];
    }
    assert rows[..|rows|] == rows;
  }

  method BuildSourceCoverageReport(normalise: string -> string, items: seq<Item>, payload: Option<Payload>)
    returns (report: Report)
    ensures report == ReportOf(normalise, items, payload)
  {
    var total, accumulators := Accumulate(items);
    var counts, view := total.Value(), accumulators.View();
    var dimensions := RowsByDimension(view, accumulators.order);
    var alerts := BuildAlerts(normalise, counts, dimensions, payload);
    report := Report(counts, dimensions, alerts);
  }
}
