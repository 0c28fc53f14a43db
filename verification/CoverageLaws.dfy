/** Conservation: what the coverage counters add up to, in the total, in each row and across rows. */
module CoverageLaws {
  import opened Sequences
  import opened Sorting
  import opened Sums
  import opened SourceCoverage

  /** The equations that hold whatever the items are. */
  ghost predicate Splits(c: Counts) {
    && c.seen == c.processable + c.deferred + c.skippedByLanguage
    && c.processed == c.classified + c.noise + c.error
    && c.processable >= c.pendingProcessable + c.processing + c.processed
  }

  ghost predicate Balanced(c: Counts) {
    Splits(c) && c.processable == c.pendingProcessable + c.processing + c.processed
  }

  ghost predicate ValidStatus(item: Item) {
    Status(item) in {"pending", "processing", "classified", "noise", "error"}
  }

  /** The language policy holds the item back. */
  ghost predicate Held(item: Item) {
    LanguagePolicyMarker(item.errorMessage, "skip") || LanguagePolicyMarker(item.errorMessage, "defer")
  }

  /** Items held back are not looked at further. */
  ghost predicate Accounted(item: Item) {
    ValidStatus(item) || Held(item)
  }

  lemma LastOfTail(s: string, tail: string)
    requires tail != []
    ensures EndsWith(s, tail) ==> s != [] && s[|s| - 1] == tail[|tail| - 1]
  {
  }

  lemma MarkersExclude(message: string)
    ensures !(LanguagePolicyMarker(message, "skip") && LanguagePolicyMarker(message, "defer"))
  {
    LastOfTail(message, ":" + "skip");
    LastOfTail(message, ":" + "defer");
  }

  /** What one item with these flags counts as. */
  function Flagged(ok: bool, skipped: bool, deferred: bool, pending: bool, processing: bool, classified: bool,
      noise: bool, error: bool): Counts {
    Counts(1, One(ok), One(ok && (classified || noise || error)), One(deferred), One(skipped), One(ok && pending),
           One(ok && processing), One(ok && classified), One(ok && noise), One(ok && error))
  }

  /** An item held back counts nowhere else. */
  lemma HeldBack(skipped: bool, pending: bool, processing: bool, classified: bool, noise: bool, error: bool)
    ensures Balanced(Flagged(false, skipped, !skipped, pending, processing, classified, noise, error))
  {
  }

  /** One let through counts by its status, and nowhere if it has none. */
  lemma LetThrough(pending: bool, processing: bool, classified: bool, noise: bool, error: bool)
    requires One(pending) + One(processing) + One(classified) + One(noise) + One(error) <= 1
    ensures var c := Flagged(true, false, false, pending, processing, classified, noise, error);
      Splits(c) && (Balanced(c) <==> pending || processing || classified || noise || error)
  {
  }

  lemma StatusesExclude(status: string)
    ensures One(status == "pending") + One(status == "processing") + One(status == "classified")
            + One(status == "noise") + One(status == "error") <= 1
  {
    if status == "processing" { assert status[0] == 'p'; }
    if status == "noise" { assert status[0] == 'n'; }
  }

  lemma HeldBalances(item: Item)
    requires Held(item)
    ensures Balanced(CountsForItem(item))
  {
    hide LanguagePolicyMarker, One, Splits, Balanced, Status;
    var status := Status(item);
    MarkersExclude(item.errorMessage);
    HeldBack(LanguagePolicyMarker(item.errorMessage, "skip"), status == "pending", status == "processing",
             status == "classified", status == "noise", status == "error");
  }

  /** One item let through splits in any case, and balances if and only if its status is valid. */
  lemma OpenSplits(item: Item)
    requires !Held(item)
    ensures Splits(CountsForItem(item))
  {
    hide LanguagePolicyMarker, One, Splits, Balanced, Status;
    var status := Status(item);
    StatusesExclude(status);
    LetThrough(status == "pending", status == "processing", status == "classified", status == "noise",
               status == "error");
  }

  lemma OpenBalancedIff(item: Item)
    requires !Held(item)
    ensures Balanced(CountsForItem(item)) <==> ValidStatus(item)
  {
    hide LanguagePolicyMarker, One, Splits, Balanced, Status;
    var status := Status(item);
    StatusesExclude(status);
    LetThrough(status == "pending", status == "processing", status == "classified", status == "noise",
               status == "error");
  }

  lemma BalancedSplits(c: Counts)
    ensures Balanced(c) ==> Splits(c)
  {
  }

  lemma PlusSplits(a: Counts, b: Counts)
    requires Splits(a) && Splits(b)
    ensures Splits(Plus(a, b)) && (Balanced(Plus(a, b)) <==> Balanced(a) && Balanced(b))
  {
  }

  /** Any list of items splits into its parts; it balances exactly when every item that the
      language policy lets through has one of the five statuses. */
  lemma {:induction false} TotalBalancedIff(items: seq<Item>)
    ensures Splits(Total(items))
    ensures Balanced(Total(items)) <==> forall item :: item in items ==> Accounted(item)
  {
    hide Balanced, Splits, Held, ValidStatus, Plus, CountsForItem;
    if items == [] {
      NothingBalanced();
    } else {
      var init, last := items[..|items| - 1], items[|items| - 1];
      assert items == init + [last];
      TotalBalancedIff(init);
      if Held(last) {
        HeldBalances(last);
      } else {
        OpenSplits(last);
        OpenBalancedIff(last);
      }
      BalancedSplits(CountsForItem(last));
      assert Balanced(CountsForItem(last)) <==> Accounted(last);
      AllOfMore(init, last);
      PlusSplits(Total(init), CountsForItem(last));
    }
  }

  lemma AllOfMore(init: seq<Item>, last: Item)
    ensures (forall item :: item in init + [last] ==> Accounted(item))
       <==> Accounted(last) && forall item :: item in init ==> Accounted(item)
  {
    hide Accounted;
  }

  lemma NothingBalanced()
    ensures Balanced(NOTHING)
  {
  }

  /** A row's counters are those of its own items. */
  lemma OwnItems(items: seq<Item>, slice: Slice)
    ensures forall item ::
      item in Filter(Within(slice), items) <==> item in items && slice in SlicesOf(item)
  {
    hide SlicesOf;
  }

  /** The same for every row of the report. */
  lemma RowSplits(items: seq<Item>, slice: Slice)
    ensures Splits(At(Tallied(items), slice))
  {
    hide Balanced, Splits, Accounted, SlicesOf;
    TalliedIsTotal(items, slice);
    TotalBalancedIff(Filter(Within(slice), items));
  }

  lemma RowBalancedIff(items: seq<Item>, slice: Slice)
    ensures Balanced(At(Tallied(items), slice)) <==>
      forall item :: item in items && slice in SlicesOf(item) ==> Accounted(item)
  {
    hide Balanced, Splits, Accounted, SlicesOf;
    TalliedIsTotal(items, slice);
    TotalBalancedIff(Filter(Within(slice), items));
    OwnItems(items, slice);
  }

  // ---------------------------------------------------------------- rows against the total

  datatype Field = Seen | Processable | Processed | Deferred | SkippedByLanguage
                 | PendingProcessable | Processing | Classified | Noise | Error

  function Get(c: Counts, f: Field): nat {
    match f
    case Seen => c.seen
    case Processable => c.processable
    case Processed => c.processed
    case Deferred => c.deferred
    case SkippedByLanguage => c.skippedByLanguage
    case PendingProcessable => c.pendingProcessable
    case Processing => c.processing
    case Classified => c.classified
    case Noise => c.noise
    case Error => c.error
  }

  lemma GetPlus(a: Counts, b: Counts, f: Field)
    ensures Get(Plus(a, b), f) == Get(a, f) + Get(b, f) && Get(NOTHING, f) == 0
  {
  }

  function Figure(f: Field): Row -> real {
    (r: Row) => Get(r.counts, f) as real
  }

  function OneOf(slices: seq<Slice>): Slice -> bool {
    s => s in slices
  }

  /** The sum of one figure over the rows of `keys`. */
  function Across(f: Field, items: seq<Item>, keys: seq<Slice>): real {
    Sum(Figure(f), MapSeq(RowFrom(Tallied(items)), keys))
  }

  lemma AcrossAppend(f: Field, items: seq<Item>, keys: seq<Slice>)
    ensures keys == [] ==> Across(f, items, keys) == 0.0
    ensures keys != [] ==>
      Across(f, items, keys) == Across(f, items, keys[..|keys| - 1])
        + Get(At(Tallied(items), keys[|keys| - 1]), f) as real
  {
    hide Tallied, At, Get;
    if keys != [] {
      var g := RowFrom(Tallied(items));
      assert MapSeq(g, keys) == MapSeq(g, keys[..|keys| - 1]) + [g(keys[|keys| - 1])];
      SumAppend(Figure(f), MapSeq(g, keys[..|keys| - 1]), g(keys[|keys| - 1]));
    }
  }

  lemma AtStep(done: seq<Item>, item: Item, slice: Slice)
    ensures At(Tallied(done + [item]), slice)
         == if slice in SlicesOf(item) then Plus(At(Tallied(done), slice), CountsForItem(item))
            else At(Tallied(done), slice)
  {
    hide Plus, CountsForItem, SlicesOf, CountedIn, At;
    assert (done + [item])[..|done|] == done;
    SlicesDistinct(item);
    CountedOnce(Tallied(done), SlicesOf(item), CountsForItem(item), slice);
  }

  /** A figure taken n times. */
  function Times(n: nat, c: Counts, f: Field): real {
    n as real * Get(c, f) as real
  }

  lemma TimesNext(n: nat, c: Counts, f: Field)
    ensures Times(n + 1, c, f) == Times(n, c, f) + Get(c, f) as real && Times(0, c, f) == 0.0
    ensures Times(n + 1, c, f) >= Get(c, f) as real
  {
    hide Get;
  }

  /** One more item adds its figure to every row it belongs to. */
  lemma {:induction false} AcrossStep(f: Field, done: seq<Item>, item: Item, keys: seq<Slice>)
    ensures Across(f, done + [item], keys)
         == Across(f, done, keys) + Times(|Filter(OneOf(SlicesOf(item)), keys)|, CountsForItem(item), f)
    decreases keys
  {
    hide Across, Tallied, At, Get, Plus, CountsForItem, SlicesOf, Times;
    AcrossAppend(f, done + [item], keys);
    AcrossAppend(f, done, keys);
    TimesNext(0, CountsForItem(item), f);
    if keys != [] {
      var init, last := keys[..|keys| - 1], keys[|keys| - 1];
      AcrossStep(f, done, item, init);
      AtStep(done, item, last);
      GetPlus(At(Tallied(done), last), CountsForItem(item), f);
      TimesNext(|Filter(OneOf(SlicesOf(item)), init)|, CountsForItem(item), f);
    }
  }

  /** Each item's figure as many times as the item has rows among `keys`. */
  function Weighted(f: Field, items: seq<Item>, keys: seq<Slice>): real {
    if items == [] then 0.0
    else
      var last := items[|items| - 1];
      Weighted(f, items[..|items| - 1], keys)
      + Times(|Filter(OneOf(SlicesOf(last)), keys)|, CountsForItem(last), f)
  }

  lemma {:induction false} EmptyAcross(f: Field, keys: seq<Slice>)
    ensures Across(f, [], keys) == 0.0
  {
    hide Across;
    AcrossAppend(f, [], keys);
    if keys != [] { EmptyAcross(f, keys[..|keys| - 1]); }
  }

  lemma {:induction false} AcrossIsWeighted(f: Field, items: seq<Item>, keys: seq<Slice>)
    ensures Across(f, items, keys) == Weighted(f, items, keys)
  {
    hide Across, Times, CountsForItem, SlicesOf, Filter;
    if items == [] {
      EmptyAcross(f, keys);
    } else {
      var init, last := items[..|items| - 1], items[|items| - 1];
      assert items == init + [last];
      AcrossIsWeighted(f, init, keys);
      AcrossStep(f, init, last, keys);
    }
  }

  /** How many rows of a dimension one item is counted in. */
  function Multiplicity(dimension: string, item: Item): nat {
    if dimension == "topic" then |item.topics| else 1
  }

  function OwnSlices(dimension: string, item: Item): seq<Slice> {
    if dimension == "language" then [Slice("language", item.language)]
    else if dimension == "source_family" then [Slice("source_family", item.sourceFamily)]
    else if dimension == "source_tier" then [Slice("source_tier", item.sourceTier)]
    else MapSeq(TopicSlice(), item.topics)
  }

  lemma OwnSlicesMeaning(dimension: string, item: Item)
    requires dimension in DIMENSIONS
    ensures |OwnSlices(dimension, item)| == Multiplicity(dimension, item) && Distinct(OwnSlices(dimension, item))
    ensures forall s :: s in OwnSlices(dimension, item) <==> s in SlicesOf(item) && s.dimension == dimension
  {
  }

  lemma {:induction false} SlicesInAll(items: seq<Item>, item: Item)
    requires item in items
    ensures forall s :: s in SlicesOf(item) ==> s in SlicesIn(items)
  {
    hide SlicesOf;
    var init, last := items[..|items| - 1], items[|items| - 1];
    assert items == init + [last];
    if item in init { SlicesInAll(init, item); }
  }

  /** An item is counted once per row of its own in the dimension, no more. */
  lemma RowsOfItem(dimension: string, items: seq<Item>, item: Item)
    requires dimension in DIMENSIONS && item in items
    ensures |Filter(OneOf(SlicesOf(item)), RowKeys(dimension, SlicesIn(items)))| == Multiplicity(dimension, item)
  {
    hide SlicesOf, OwnSlices, Filter, Multiplicity;
    var keys := RowKeys(dimension, SlicesIn(items));
    var mine, own := Filter(OneOf(SlicesOf(item)), keys), OwnSlices(dimension, item);
    FilterDistinct(OfDimension(dimension), SlicesIn(items));
    FilterDistinct(OneOf(SlicesOf(item)), keys);
    OwnSlicesMeaning(dimension, item);
    SlicesInAll(items, item);
    DistinctPermutes(mine, own);
    assert |multiset(mine)| == |mine| && |multiset(own)| == |own|;
  }

  /** Each item's figure as many times as it has keys in the dimension. */
  function Spread(f: Field, dimension: string, items: seq<Item>): real {
    if items == [] then 0.0
    else
      var last := items[|items| - 1];
      Spread(f, dimension, items[..|items| - 1]) + Times(Multiplicity(dimension, last), CountsForItem(last), f)
  }

  lemma {:induction false} WeightedIsSpread(f: Field, dimension: string, items: seq<Item>, all: seq<Item>)
    requires dimension in DIMENSIONS && forall item :: item in items ==> item in all
    ensures Weighted(f, items, RowKeys(dimension, SlicesIn(all))) == Spread(f, dimension, items)
    decreases items
  {
    hide SlicesOf, Filter, RowKeys, Times, CountsForItem, Multiplicity;
    if items != [] {
      var init, last := items[..|items| - 1], items[|items| - 1];
      assert items == init + [last];
      WeightedIsSpread(f, dimension, init, all);
      RowsOfItem(dimension, all, last);
    }
  }

  /** Field by field, the rows of a dimension add up to each item times its number of keys there. */
  lemma RowsAddUp(f: Field, dimension: string, items: seq<Item>)
    requires dimension in DIMENSIONS
    ensures Sum(Figure(f), DimensionRows(dimension, Tallied(items), SlicesIn(items))) == Spread(f, dimension, items)
  {
    hide Get, CountsForItem, Spread, Weighted, Tallied, SlicesIn, Sort, Sum, RowKeys;
    var keys := RowKeys(dimension, SlicesIn(items));
    var rows := MapSeq(RowFrom(Tallied(items)), keys);
    SortPermutes(RowLeq, rows);
    SumPermutes(Figure(f), Sort(RowLeq, rows), rows);
    AcrossIsWeighted(f, items, keys);
    WeightedIsSpread(f, dimension, items, items);
  }

  /** For a single-valued dimension that is the total exactly; for topics it is at least the total. */
  lemma {:induction false} SpreadAgainstTotal(f: Field, dimension: string, items: seq<Item>)
    ensures dimension != "topic" ==> Spread(f, dimension, items) == Get(Total(items), f) as real
    ensures Spread(f, dimension, items) >= Get(Total(items), f) as real
  {
    hide Get, CountsForItem, Plus, Times;
    GetPlus(NOTHING, NOTHING, f);
    if items != [] {
      var init, last := items[..|items| - 1], items[|items| - 1];
      SpreadAgainstTotal(f, dimension, init);
      GetPlus(Total(init), CountsForItem(last), f);
      TimesNext(0, CountsForItem(last), f);
      TimesNext(Multiplicity(dimension, last) - 1, CountsForItem(last), f);
    }
  }

  /** Rows against the total, as the report shows them. */
  lemma RowsAgainstTotal(f: Field, dimension: string, items: seq<Item>)
    requires dimension in DIMENSIONS
    ensures var rows := DimensionRows(dimension, Tallied(items), SlicesIn(items));
      && (dimension != "topic" ==> Sum(Figure(f), rows) == Get(Total(items), f) as real)
      && Sum(Figure(f), rows) >= Get(Total(items), f) as real
  {
    RowsAddUp(f, dimension, items);
    SpreadAgainstTotal(f, dimension, items);
  }

  lemma RowOrder()
    ensures TotalPreorder(RowLeq)
  {
    forall x: Row, y: Row ensures RowLeq(x, y) || RowLeq(y, x) { StringLeqTotal(x.slice.key, y.slice.key); }
    forall x: Row, y: Row, z: Row | RowLeq(x, y) && RowLeq(y, z) ensures RowLeq(x, z) {
      if x.counts.seen == z.counts.seen { StringLeqTransitive(x.slice.key, y.slice.key, z.slice.key); }
    }
  }

  /** The rows of a dimension come most seen first. */
  lemma RowsMostSeenFirst(dimension: string, items: seq<Item>, i: nat, j: nat)
    requires i < j < |DimensionRows(dimension, Tallied(items), SlicesIn(items))|
    ensures var rows := DimensionRows(dimension, Tallied(items), SlicesIn(items));
      && rows[i].counts.seen >= rows[j].counts.seen
      && (rows[i].counts.seen == rows[j].counts.seen ==> StringLeq(rows[i].slice.key, rows[j].slice.key))
  {
    hide Tallied, SlicesIn, RowKeys;
    RowOrder();
    var rows := DimensionRows(dimension, Tallied(items), SlicesIn(items));
    SortSorted(RowLeq, MapSeq(RowFrom(Tallied(items)), RowKeys(dimension, SlicesIn(items))));
    assert RowLeq(rows[i], rows[j]);
  }
}
