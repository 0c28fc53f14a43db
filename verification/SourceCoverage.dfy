/** Coverage health: recent intake counted per slice and compared with the previous snapshot. */
module SourceCoverage {
  import opened Sequences
  import opened Sorting

  datatype Counts = Counts(
    seen: nat, processable: nat, processed: nat, deferred: nat, skippedByLanguage: nat,
    pendingProcessable: nat, processing: nat, classified: nat, noise: nat, error: nat)

  const NOTHING: Counts := Counts(0, 0, 0, 0, 0, 0, 0, 0, 0, 0)

  function Plus(a: Counts, b: Counts): Counts {
    Counts(a.seen + b.seen, a.processable + b.processable, a.processed + b.processed, a.deferred + b.deferred,
           a.skippedByLanguage + b.skippedByLanguage, a.pendingProcessable + b.pendingProcessable,
           a.processing + b.processing, a.classified + b.classified, a.noise + b.noise, a.error + b.error)
  }

  /** One raw item with its texts normalised; `topics` comes from a sorted set and is never empty. */
  datatype RawItem = RawItem(
    status: string, errorMessage: string, language: string, sourceFamily: string, sourceTier: string,
    topics: seq<string>)

  type Item = i: RawItem | Distinct(i.topics) && i.topics != [] witness RawItem("", "", "", "", "", ["unconfigured"])

  predicate EndsWith(s: string, tail: string) {
    |tail| <= |s| && s[|s| - |tail|..] == tail
  }

  predicate LanguagePolicyMarker(message: string, mode: string) {
    "unsupported_language:" <= message && EndsWith(message, ":" + mode)
  }

  function One(b: bool): nat {
    if b then 1 else 0
  }

  function Status(item: RawItem): string {
    if item.status == "" then "pending" else item.status
  }

  function CountsForItem(item: RawItem): Counts {
    var status := Status(item);
    var skipped := LanguagePolicyMarker(item.errorMessage, "skip");
    var deferred := LanguagePolicyMarker(item.errorMessage, "defer");
    var processable := !skipped && !deferred;
    var processed := processable && status in {"classified", "noise", "error"};
    Counts(1, One(processable), One(processed), One(deferred), One(skipped),
           One(processable && status == "pending"), One(processable && status == "processing"),
           One(processable && status == "classified"), One(processable && status == "noise"),
           One(processable && status == "error"))
  }

  /** One row of one dimension. */
  datatype Slice = Slice(dimension: string, key: string)

  const DIMENSIONS: seq<string> := ["language", "source_family", "source_tier", "topic"]

  function TopicSlice(): string -> Slice {
    key => Slice("topic", key)
  }

  /** The slices an item is counted in, in the order the loops visit them. */
  function SlicesOf(item: RawItem): seq<Slice> {
    [Slice("language", item.language), Slice("source_family", item.sourceFamily), Slice("source_tier", item.sourceTier)]
    + MapSeq(TopicSlice(), item.topics)
  }

  // ---------------------------------------------------------------- accumulation

  class CoverageCounts {
    var seen: nat
    var processable: nat
    var processed: nat
    var deferred: nat
    var skippedByLanguage: nat
    var pendingProcessable: nat
    var processing: nat
    var classified: nat
    var noise: nat
    var error: nat

    /** The slice this object counts. */
    ghost const home: Slice

    constructor (ghost home: Slice)
      ensures Value() == NOTHING && this.home == home
    {
      this.home := home;
      seen, processable, processed, deferred, skippedByLanguage := 0, 0, 0, 0, 0;
      pendingProcessable, processing, classified, noise, error := 0, 0, 0, 0, 0;
    }

    function Value(): Counts
      reads this
    {
      Counts(seen, processable, processed, deferred, skippedByLanguage,
             pendingProcessable, processing, classified, noise, error)
    }

    method Apply(delta: Counts)
      modifies this
      ensures Value() == Plus(old(Value()), delta)
    {
      seen := seen + delta.seen;
      processable := processable + delta.processable;
      processed := processed + delta.processed;
      deferred := deferred + delta.deferred;
      skippedByLanguage := skippedByLanguage + delta.skippedByLanguage;
      pendingProcessable := pendingProcessable + delta.pendingProcessable;
      processing := processing + delta.processing;
      classified := classified + delta.classified;
      noise := noise + delta.noise;
      error := error + delta.error;
    }
  }

  /** The counts of the items that satisfy a slice, added up from scratch. */
  function Total(items: seq<Item>): Counts {
    if items == [] then NOTHING else Plus(Total(items[..|items| - 1]), CountsForItem(items[|items| - 1]))
  }

  function Within(slice: Slice): Item -> bool {
    item => slice in SlicesOf(item)
  }

  function AddKeys(keys: seq<Slice>, more: seq<Slice>): (r: seq<Slice>)
    requires Distinct(keys)
    ensures Distinct(r) && forall x :: x in r <==> x in keys || x in more
  {
    if more == [] then keys
    else
      assert more == more[..|more| - 1] + [more[|more| - 1]];
      AddKey(AddKeys(keys, more[..|more| - 1]), more[|more| - 1])
  }

  /** The slices met so far, in order of first appearance. */
  function SlicesIn(items: seq<Item>): (r: seq<Slice>)
    ensures Distinct(r)
  {
    if items == [] then [] else AddKeys(SlicesIn(items[..|items| - 1]), SlicesOf(items[|items| - 1]))
  }

  /** `accumulators`: one counter object per slice, created on first use. */
  class Accumulators {
    var buckets: map<Slice, CoverageCounts>
    var order: seq<Slice>

    constructor ()
      ensures Valid() && order == [] && buckets == map[] && View() == map[]
    {
      buckets, order := map[], [];
    }

    ghost predicate Valid()
      reads this
    {
      && Distinct(order)
      && (forall s :: s in order <==> s in buckets)
      && (forall s :: s in buckets ==> buckets[s].home == s)
    }

    /** What each counter stands at. */
    function View(): map<Slice, Counts>
      reads this, buckets.Values
    {
      map s | s in buckets :: buckets[s].Value()
    }

    /** `setdefault(key, CoverageCounts())`. */
    method Bucket(slice: Slice)
      requires Valid()
      modifies this
      ensures Valid() && order == AddKey(old(order), slice)
      ensures slice in buckets && View() == old(View())[slice := At(old(View()), slice)]
      ensures Owned(old(buckets))
    {
      hide CoverageCounts.Value, Plus;
      if slice !in buckets {
        var made := new CoverageCounts(slice);
        assert forall s :: s in buckets ==> buckets[s].Value() == old(buckets[s].Value());
        buckets, order := buckets[slice := made], order + [slice];
        assert View() == old(View())[slice := NOTHING];
      } else {
        assert View() == old(View())[slice := At(old(View()), slice)];
      }
    }

    /** `setdefault(key, CoverageCounts()).apply(counts)`. */
    method Count(slice: Slice, delta: Counts)
      requires Valid()
      modifies this, buckets.Values
      ensures Valid() && order == AddKey(old(order), slice)
      ensures View() == Counted(old(View()), slice, delta)
      ensures Owned(old(buckets))
    {
      hide Plus, Distinct, CoverageCounts.Value;
      Bucket(slice);
      Update(slice, delta);
    }

    /** `buckets[key].apply(counts)` on a counter that is there. */
    method Update(slice: Slice, delta: Counts)
      requires Valid() && slice in buckets
      modifies buckets[slice]
      ensures Valid() && View() == old(View())[slice := Plus(old(View())[slice], delta)]
    {
      hide Plus, Distinct, CoverageCounts.Value;
      buckets[slice].Apply(delta);
      assert forall s :: s in buckets && s != slice ==> buckets[s].Value() == old(buckets[s].Value());
    }

    /** Every counter was made here or held before. */
    twostate predicate Owned(before: map<Slice, CoverageCounts>)
      reads this
    {
      forall s :: s in buckets ==> fresh(buckets[s]) || (s in before && buckets[s] == before[s])
    }

    /** One item counted in every slice it belongs to. */
    method CountItem(item: Item)
      requires Valid()
      modifies this, buckets.Values
      ensures Valid() && order == AddKeys(old(order), SlicesOf(item))
      ensures View() == CountedIn(old(View()), SlicesOf(item), CountsForItem(item))
      ensures Owned(old(buckets))
    {
      hide Counted, View, Distinct, AddKey, CountsForItem, SlicesOf;
      var slices, delta := SlicesOf(item), CountsForItem(item);
      for j := 0 to |slices|
        invariant Valid() && order == AddKeys(old(order), slices[..j])
        invariant View() == CountedIn(old(View()), slices[..j], delta)
        invariant Owned(old(buckets))
      {
        assert slices[..j + 1][..j] == slices[..j];
        Count(slices[j], delta);
      }
      assert slices[..|slices|] == slices;
    }
  }

  function At(view: map<Slice, Counts>, slice: Slice): Counts {
    if slice in view then view[slice] else NOTHING
  }

  function Counted(view: map<Slice, Counts>, slice: Slice, delta: Counts): map<Slice, Counts> {
    view[slice := Plus(At(view, slice), delta)]
  }

  function CountedIn(view: map<Slice, Counts>, slices: seq<Slice>, delta: Counts): map<Slice, Counts> {
    if slices == [] then view
    else Counted(CountedIn(view, slices[..|slices| - 1], delta), slices[|slices| - 1], delta)
  }

  /** The counters after a list of items, item by item. */
  function Tallied(items: seq<Item>): map<Slice, Counts> {
    if items == [] then map[]
    else
      var last := items[|items| - 1];
      CountedIn(Tallied(items[..|items| - 1]), SlicesOf(last), CountsForItem(last))
  }

  lemma {:induction false} CountedOnce(view: map<Slice, Counts>, slices: seq<Slice>, delta: Counts, slice: Slice)
    requires Distinct(slices)
    ensures At(CountedIn(view, slices, delta), slice)
         == if slice in slices then Plus(At(view, slice), delta) else At(view, slice)
    ensures slice in CountedIn(view, slices, delta) <==> slice in view || slice in slices
  {
    hide Plus;
    if slices != [] {
      var init, last := slices[..|slices| - 1], slices[|slices| - 1];
      assert slices == init + [last];
      CountedOnce(view, init, delta, slice);
    }
  }

  lemma SlicesDistinct(item: Item)
    ensures Distinct(SlicesOf(item))
    ensures forall s :: s in SlicesOf(item) ==> s.dimension in DIMENSIONS
  {
  }

  /** Counting item by item is adding up, slice by slice, the items that belong there. */
  lemma {:induction false} TalliedIsTotal(items: seq<Item>, slice: Slice)
    ensures At(Tallied(items), slice) == Total(Filter(Within(slice), items))
    ensures slice in Tallied(items) <==> slice in SlicesIn(items)
  {
    hide Plus, CountsForItem, SlicesOf, CountedIn, AddKeys;
    if items != [] {
      var init, last := items[..|items| - 1], items[|items| - 1];
      TalliedIsTotal(init, slice);
      SlicesDistinct(last);
      CountedOnce(Tallied(init), SlicesOf(last), CountsForItem(last), slice);
      var before := Filter(Within(slice), init);
      assert (before + [last])[..|before|] == before && before + [] == before;
    }
  }

  /** The accumulation loop over the items of the window. */
  method Accumulate(items: seq<Item>) returns (total: CoverageCounts, accumulators: Accumulators)
    ensures total.Value() == Total(items)
    ensures accumulators.Valid() && accumulators.order == SlicesIn(items)
    ensures accumulators.View() == Tallied(items)
  {
    hide Plus, CountsForItem, SlicesOf, AddKeys, CountedIn, CoverageCounts.Value, Accumulators.View;
    total := new CoverageCounts(Slice("total", "all"));
    accumulators := new Accumulators();
    for i := 0 to |items|
      invariant fresh(total) && fresh(accumulators) && accumulators.Valid()
      invariant forall s :: s in accumulators.buckets ==>
        fresh(accumulators.buckets[s]) && accumulators.buckets[s] != total
      invariant total.Value() == Total(items[..i]) && accumulators.order == SlicesIn(items[..i])
      invariant accumulators.View() == Tallied(items[..i])
    {
      assert items[..i + 1][..i] == items[..i];
      total.Apply(CountsForItem(items[i]));
      accumulators.CountItem(items[i]);
    }
    assert items[..|items|] == items;
  }

  // ---------------------------------------------------------------- rows

  datatype Row = Row(slice: Slice, counts: Counts)

  function RowFrom(view: map<Slice, Counts>): Slice -> Row {
    slice => Row(slice, At(view, slice))
  }

  function OfDimension(dimension: string): Slice -> bool {
    (s: Slice) => s.dimension == dimension
  }

  function RowKeys(dimension: string, order: seq<Slice>): seq<Slice> {
    Filter(OfDimension(dimension), order)
  }

  /** Most seen first, ties by key. */
  predicate RowLeq(a: Row, b: Row) {
    a.counts.seen > b.counts.seen || (a.counts.seen == b.counts.seen && StringLeq(a.slice.key, b.slice.key))
  }

  function DimensionRows(dimension: string, view: map<Slice, Counts>, order: seq<Slice>): seq<Row> {
    Sort(RowLeq, MapSeq(RowFrom(view), RowKeys(dimension, order)))
  }
}
