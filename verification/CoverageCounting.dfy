/** What each coverage counter counts, and where. */
module CoverageCounting {
  import opened Sequences
  import opened SourceCoverage

  /** The language policy has left its mark: "unsupported_language:...:mode". */
  predicate Marked(item: Item, mode: string) {
    var m, tail := item.errorMessage, ":" + mode;
    "unsupported_language:" <= m && |m| >= |tail| && m[|m| - |tail|..] == tail
  }

  function Deferred(): Item -> bool {
    (i: Item) => Marked(i, "defer")
  }

  function Skipped(): Item -> bool {
    (i: Item) => Marked(i, "skip")
  }

  predicate LetIn(item: Item) {
    !Marked(item, "skip") && !Marked(item, "defer")
  }

  function Open(): Item -> bool {
    (i: Item) => LetIn(i)
  }

  /** Let through by the policy, with this status. */
  function In(status: string): Item -> bool {
    (i: Item) => LetIn(i) && i.status == status
  }

  function Pending(): Item -> bool {
    (i: Item) => LetIn(i) && (i.status == "" || i.status == "pending")
  }

  function Done(): Item -> bool {
    (i: Item) => LetIn(i) && (i.status == "classified" || i.status == "noise" || i.status == "error")
  }

  /** Each counter is the number of items that meet its own condition. */
  ghost predicate CountEach(c: Counts, items: seq<Item>) {
    && c.seen == |items|
    && c.processable == |Filter(Open(), items)|
    && c.processed == |Filter(Done(), items)|
    && c.deferred == |Filter(Deferred(), items)|
    && c.skippedByLanguage == |Filter(Skipped(), items)|
    && c.pendingProcessable == |Filter(Pending(), items)|
    && c.processing == |Filter(In("processing"), items)|
    && c.classified == |Filter(In("classified"), items)|
    && c.noise == |Filter(In("noise"), items)|
    && c.error == |Filter(In("error"), items)|
  }

  lemma OneMore(p: Item -> bool, items: seq<Item>, item: Item)
    ensures |Filter(p, items + [item])| == |Filter(p, items)| + One(p(item))
    ensures Filter(p, []) == []
  {
    assert (items + [item])[..|items|] == items;
  }

  lemma ItemCounts(item: Item)
    ensures var c := CountsForItem(item);
      && c.seen == 1 && c.processable == One(Open()(item)) && c.processed == One(Done()(item))
      && c.deferred == One(Deferred()(item)) && c.skippedByLanguage == One(Skipped()(item))
      && c.pendingProcessable == One(Pending()(item)) && c.processing == One(In("processing")(item))
      && c.classified == One(In("classified")(item)) && c.noise == One(In("noise")(item))
      && c.error == One(In("error")(item))
  {
  }

  lemma CountNext(c: Counts, items: seq<Item>, item: Item)
    requires CountEach(c, items)
    ensures CountEach(Plus(c, CountsForItem(item)), items + [item])
  {
    hide Filter, CountsForItem, One, Open, Done, Deferred, Skipped, Pending, In;
    ItemCounts(item);
    OneMore(Open(), items, item);
    OneMore(Done(), items, item);
    OneMore(Deferred(), items, item);
    OneMore(Skipped(), items, item);
    OneMore(Pending(), items, item);
    OneMore(In("processing"), items, item);
    OneMore(In("classified"), items, item);
    OneMore(In("noise"), items, item);
    OneMore(In("error"), items, item);
  }

  /** For every list of items. */
  lemma {:induction false} TotalCountsEach(items: seq<Item>)
    ensures CountEach(Total(items), items)
  {
    hide CountsForItem, Plus, CountEach;
    if items == [] {
      NothingCounted();
    } else {
      var init, last := items[..|items| - 1], items[|items| - 1];
      assert items == init + [last];
      TotalCountsEach(init);
      CountNext(Total(init), init, last);
    }
  }

  lemma NothingCounted()
    ensures CountEach(NOTHING, [])
  {
  }

  /** An item is counted under its language, its source's family and tier, and each of its topics,
      and nowhere else. */
  lemma SlicesAre(item: Item, slice: Slice)
    ensures slice in SlicesOf(item) <==>
      || slice == Slice("language", item.language)
      || slice == Slice("source_family", item.sourceFamily)
      || slice == Slice("source_tier", item.sourceTier)
      || (slice.dimension == "topic" && slice.key in item.topics)
  {
    var topics := MapSeq(TopicSlice(), item.topics);
    if slice.dimension == "topic" && slice.key in item.topics {
      var i :| 0 <= i < |item.topics| && item.topics[i] == slice.key;
      assert topics[i] == slice;
    }
  }

  /** In every slice the counters count the slice's own items. */
  lemma SliceCountsEach(items: seq<Item>, slice: Slice)
    ensures CountEach(At(Tallied(items), slice), Filter(Within(slice), items))
  {
    hide CountEach, Tallied, Filter;
    TalliedIsTotal(items, slice);
    TotalCountsEach(Filter(Within(slice), items));
  }
}
