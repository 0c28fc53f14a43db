/** What the provenance summary means, and that the order of the observations has no part in it. */
module ProvenanceLaws {
  import opened Wrappers
  import opened Sequences
  import opened Sorting
  import opened Sums
  import opened Provenance

  function KeyOf(s: seq<Observation>, o: Observation): string {
    GroupIdentity(FingerprintCounts(s), o).0
  }

  function MembersOf(s: seq<Observation>, key: string): seq<Observation> {
    Filter(Belongs(FingerprintCounts(s), key), s)
  }

  function Size(): Group -> real {
    (g: Group) => g.members as real
  }

  lemma GroupOrder()
    ensures TotalPreorder(GroupLeq)
  {
    forall x: Group, y: Group ensures GroupLeq(x, y) || GroupLeq(y, x) { StringLeqTotal(x.key, y.key); }
    forall x: Group, y: Group, z: Group | GroupLeq(x, y) && GroupLeq(y, z) ensures GroupLeq(x, z) {
      if x.members == z.members { StringLeqTransitive(x.key, y.key, z.key); }
    }
  }

  // ---------------------------------------------------------------- what the figures mean

  function Carries(f: string): Observation -> bool {
    (o: Observation) => o.fingerprint == Some(f)
  }

  /** A fingerprint counts as often as observations carry it. */
  lemma {:induction false} FingerprintsCounted(s: seq<Observation>, f: string)
    ensures FingerprintCounts(s)[f] == |Filter(Carries(f), s)|
  {
    if s != [] { FingerprintsCounted(s[..|s| - 1], f); }
  }

  lemma NamesAre(attribute: Observation -> Option<string>, s: seq<Observation>, x: string)
    ensures x in Names(attribute, s) <==> x != "" && exists o :: o in s && attribute(o) == Some(x)
    ensures x in SourceIds(s) <==> exists o :: o in s && o.sourceId == x
  {
  }

  ghost predicate Member(s: seq<Observation>, key: string, o: Observation) {
    o in s && KeyOf(s, o) == key
  }

  /** A group names the sources, families and reporting types of its members, and no others. */
  lemma GroupNames(s: seq<Observation>, g: Group, x: string)
    requires g in Ordered(s)
    ensures x in g.sourceIds <==> exists o :: Member(s, g.key, o) && o.sourceId == x
    ensures x in g.families <==> x != "" && exists o :: Member(s, g.key, o) && o.family == Some(x)
    ensures x in g.reportingTypes <==> x != "" && exists o :: Member(s, g.key, o) && o.reporting == Some(x)
  {
    hide GroupIdentity, FingerprintCounts, TopWeight, KindOf, Ordered, Names, SourceIds, ReportingWeight;
    var _ := GroupMeaning(s, g);
    var members := MembersOf(s, g.key);
    assert forall o :: o in members <==> Member(s, g.key, o);
    NamesAre(FamilyOf(), members, x);
    NamesAre(ReportingOf(), members, x);
  }

  /** The plain figures: counts that callers pass are cut off at zero, families are counted once each,
      and without observations the event counts as many sources as callers know of, at least one. */
  lemma SummaryFigures(s: seq<Observation>, raw: int, unique: int)
    ensures var r := Summarize(s, raw, unique);
      && r.rawSources == (if raw >= 0 then raw else 0) && r.uniqueSources == (if unique >= 0 then unique else 0)
      && (r.provenanceAware <==> s != [])
      && (s != [] ==> r.familyCount == |set o | o in s && o.family.Some? && o.family.value != "" :: o.family.value|)
      && (s == [] ==>
            && r.groups == [] && r.familyCount == r.syndicationGroups == r.nearDuplicateGroups == r.truncated == 0
            && r.score == r.independent as real && r.independent >= 1
            && (unique >= 1 ==> r.independent == unique) && (unique < 0 ==> r.independent == 1)
            && (unique == 0 ==> r.independent == if raw >= 1 then raw else 1))
  {
    hide Ordered, Sum, Filter, Round4;
    var families := set o | o in s && o.family.Some? && o.family.value != "" :: o.family.value;
    assert Names(FamilyOf(), s) == families;
  }

  // ---------------------------------------------------------------- the groups are a partition

  lemma GroupFacts(counts: multiset<string>, s: seq<Observation>, key: string)
    ensures var g, members := GroupFor(counts, s)(key), Filter(Belongs(counts, key), s);
      g.key == key && g.members == |members| && g.weight == TopWeight(members)
  {
  }

  lemma MembersSplit(counts: multiset<string>, s: seq<Observation>, key: string)
    requires s != []
    ensures GroupFor(counts, s)(key).members
         == GroupFor(counts, s[..|s| - 1])(key).members + (if KeyIn(counts)(s[|s| - 1]) == key then 1 else 0)
  {
    hide GroupIdentity, GroupOf;
    GroupFacts(counts, s, key);
    GroupFacts(counts, s[..|s| - 1], key);
  }

  /** The members of the groups under `keys`. */
  function Sizes(counts: multiset<string>, keys: seq<string>, s: seq<Observation>): real {
    Sum(Size(), MapSeq(GroupFor(counts, s), keys))
  }

  lemma SizesCons(counts: multiset<string>, keys: seq<string>, s: seq<Observation>)
    ensures keys == [] ==> Sizes(counts, keys, s) == 0.0
    ensures keys != [] ==>
      Sizes(counts, keys, s) == GroupFor(counts, s)(keys[0]).members as real + Sizes(counts, keys[1..], s)
  {
    hide GroupFor;
    if keys != [] {
      assert MapSeq(GroupFor(counts, s), keys)[1..] == MapSeq(GroupFor(counts, s), keys[1..]);
    }
  }

  lemma {:induction false} SizesSplit(counts: multiset<string>, keys: seq<string>, s: seq<Observation>)
    requires s != []
    ensures Sizes(counts, keys, s)
         == Sizes(counts, keys, s[..|s| - 1]) + multiset(keys)[KeyIn(counts)(s[|s| - 1])] as real
    decreases keys
  {
    hide Sizes, GroupFor, KeyIn;
    SizesCons(counts, keys, s);
    SizesCons(counts, keys, s[..|s| - 1]);
    if keys != [] {
      SizesSplit(counts, keys[1..], s);
      MembersSplit(counts, s, keys[0]);
      assert keys == [keys[0]] + keys[1..];
    }
  }

  lemma {:induction false} NoSizes(counts: multiset<string>, keys: seq<string>)
    ensures Sizes(counts, keys, []) == 0.0
  {
    hide Sizes, GroupFor;
    SizesCons(counts, keys, []);
    if keys != [] {
      NoSizes(counts, keys[1..]);
      GroupFacts(counts, [], keys[0]);
    }
  }

  lemma {:induction false} SizesFill(counts: multiset<string>, keys: seq<string>, s: seq<Observation>)
    requires Distinct(keys) && forall o :: o in s ==> KeyIn(counts)(o) in keys
    ensures Sizes(counts, keys, s) == |s| as real
    decreases s
  {
    hide Sizes, KeyIn;
    if s == [] {
      NoSizes(counts, keys);
    } else {
      var init, last := s[..|s| - 1], s[|s| - 1];
      assert last in s;
      SizesFill(counts, keys, init);
      SizesSplit(counts, keys, s);
      DistinctBag(keys, KeyIn(counts)(last));
    }
  }

  lemma OrderedIsSorted(s: seq<Observation>)
    ensures multiset(Ordered(s)) == multiset(Groups(FingerprintCounts(s), s))
    ensures Sorted(GroupLeq, Ordered(s))
    ensures |Ordered(s)| == |Keys(KeyIn(FingerprintCounts(s)), s)|
    ensures forall g :: g in Ordered(s) <==> g in Groups(FingerprintCounts(s), s)
  {
    GroupOrder();
    SortPermutes(GroupLeq, Groups(FingerprintCounts(s), s));
    SortSorted(GroupLeq, Groups(FingerprintCounts(s), s));
    SameElements(Ordered(s), Groups(FingerprintCounts(s), s));
  }

  /** No observation is lost and none is counted in two groups. */
  lemma MemberCountsAddUp(s: seq<Observation>)
    ensures Sum(Size(), Ordered(s)) == |s| as real
  {
    var counts := FingerprintCounts(s);
    OrderedIsSorted(s);
    SumPermutes(Size(), Ordered(s), Groups(counts, s));
    SizesFill(counts, Keys(KeyIn(counts), s), s);
  }

  lemma HeaviestMember(counts: multiset<string>, s: seq<Observation>, key: string) returns (best: Observation)
    requires key in Keys(KeyIn(counts), s)
    ensures best in s && KeyIn(counts)(best) == key
    ensures var members := Filter(Belongs(counts, key), s);
      && members != [] && TopWeight(members) == ReportingWeight(best.reporting)
      && (forall o :: o in s && KeyIn(counts)(o) == key ==>
            o in members && ReportingWeight(o.reporting) <= TopWeight(members))
  {
    hide ReportingWeight, GroupIdentity, TopWeight, Filter;
    var members := Filter(Belongs(counts, key), s);
    var i :| 0 <= i < |s| && KeyIn(counts)(s[i]) == key;
    assert s[i] in members;
    best :| best in members && ReportingWeight(best.reporting) == TopWeight(members);
  }

  /** Every group is one key's members, not empty, and weighs what its heaviest member weighs. */
  lemma GroupMeaning(s: seq<Observation>, g: Group) returns (best: Observation)
    requires g in Ordered(s)
    ensures g == GroupFor(FingerprintCounts(s), s)(g.key) && g.members == |MembersOf(s, g.key)| > 0
    ensures best in s && KeyOf(s, best) == g.key && g.weight == ReportingWeight(best.reporting)
    ensures forall o :: o in s && KeyOf(s, o) == g.key ==> ReportingWeight(o.reporting) <= g.weight
  {
    hide ReportingWeight, GroupIdentity, GroupFor, Ordered, Groups;
    var counts := FingerprintCounts(s);
    OrderedIsSorted(s);
    var key := KeyOfGroup(counts, s, g);
    GroupFacts(counts, s, key);
    best := HeaviestMember(counts, s, key);
    forall o | o in s && KeyOf(s, o) == key ensures ReportingWeight(o.reporting) <= g.weight {
      assert KeyIn(counts)(o) == key;
    }
  }

  lemma KeyOfGroup(counts: multiset<string>, s: seq<Observation>, g: Group) returns (key: string)
    requires g in Groups(counts, s)
    ensures key in Keys(KeyIn(counts), s) && g == GroupFor(counts, s)(key)
  {
    hide GroupFor, KeyIn;
    var keys := Keys(KeyIn(counts), s);
    var k :| 0 <= k < |keys| && Groups(counts, s)[k] == g;
    key := keys[k];
  }

  lemma GroupOfKey(counts: multiset<string>, s: seq<Observation>, key: string)
    requires key in Keys(KeyIn(counts), s)
    ensures GroupFor(counts, s)(key) in Groups(counts, s)
  {
    hide GroupFor, KeyIn;
    var keys := Keys(KeyIn(counts), s);
    var k :| 0 <= k < |keys| && keys[k] == key;
    assert Groups(counts, s)[k] == GroupFor(counts, s)(key);
  }

  /** Every observation has its group in the summary, and only one. */
  lemma GroupOfEach(s: seq<Observation>, o: Observation)
    requires o in s
    ensures GroupFor(FingerprintCounts(s), s)(KeyOf(s, o)) in Ordered(s)
    ensures forall g :: g in Ordered(s) && g.key == KeyOf(s, o) ==> g == GroupFor(FingerprintCounts(s), s)(KeyOf(s, o))
    ensures Distinct(Ordered(s))
  {
    hide GroupIdentity, GroupFor, Ordered, Groups;
    var counts := FingerprintCounts(s);
    OrderedIsSorted(s);
    GroupOfKey(counts, s, KeyIn(counts)(o));
    forall g | g in Ordered(s) && g.key == KeyOf(s, o) ensures g == GroupFor(counts, s)(KeyOf(s, o)) {
      var key := KeyOfGroup(counts, s, g);
      GroupFacts(counts, s, key);
    }
    GroupsDistinct(counts, s);
    DistinctKept(Groups(counts, s), Ordered(s));
  }

  lemma GroupsDistinct(counts: multiset<string>, s: seq<Observation>)
    ensures Distinct(Groups(counts, s))
  {
    var keys := Keys(KeyIn(counts), s);
    assert forall i :: 0 <= i < |keys| ==> Groups(counts, s)[i].key == keys[i];
  }

  // ---------------------------------------------------------------- the figures

  lemma {:induction false} WeightsBounded(groups: seq<Group>)
    requires forall g :: g in groups ==> 0.35 <= g.weight <= 1.0
    ensures 0.35 * |groups| as real <= Sum(Weight(), groups) <= |groups| as real
  {
    if groups != [] { WeightsBounded(groups[1..]); }
  }

  function Twentieth(k: int): real {
    k as real / 20.0
  }

  ghost predicate Twentieths(x: real) {
    exists k :: x == Twentieth(k)
  }

  lemma TwentiethsAdd(x: real, y: real)
    requires Twentieths(x) && Twentieths(y)
    ensures Twentieths(x + y)
  {
    var m :| x == Twentieth(m);
    var n :| y == Twentieth(n);
    assert x + y == Twentieth(m + n);
  }

  /** Rounding to four decimals does nothing to a multiple of five hundredths. */
  lemma TwentiethsStand(x: real)
    requires Twentieths(x)
    ensures Round4(x) == x
  {
    var k :| x == Twentieth(k);
    HalfDown(500 * k);
    assert x * 10000.0 == (500 * k) as real;
  }

  lemma HalfDown(n: int)
    ensures (n as real + 0.5).Floor == n
  {
  }

  lemma {:induction false} WeightsInTwentieths(groups: seq<Group>)
    requires forall g :: g in groups ==> Twentieths(g.weight)
    ensures Twentieths(Sum(Weight(), groups))
  {
    hide Twentieths;
    if groups == [] {
      NoTwentieths();
    } else {
      WeightsInTwentieths(groups[1..]);
      TwentiethsAdd(groups[0].weight, Sum(Weight(), groups[1..]));
    }
  }

  lemma NoTwentieths()
    ensures Twentieths(0.0)
  {
    assert 0.0 == Twentieth(0);
  }

  lemma WeightInTwentieths(reporting: Option<string>)
    ensures Twentieths(ReportingWeight(reporting))
  {
    assert 1.0 == Twentieth(20) && 0.6 == Twentieth(12) && 0.35 == Twentieth(7) && 0.5 == Twentieth(10);
  }

  /** The score is the plain sum of the group weights: neither the floor of 0.1 nor the rounding
      ever changes it, and it lies between 0.35 and 1 per independent group. */
  lemma ScoreIsSum(s: seq<Observation>, raw: int, unique: int)
    requires s != []
    ensures var r := Summarize(s, raw, unique);
      && r.score == Sum(Weight(), Ordered(s))
      && 0.35 * r.independent as real <= r.score <= r.independent as real
      && r.independent == |Ordered(s)| >= 1
  {
    hide ReportingWeight, Ordered, Round4, Twentieths, GroupIdentity;
    forall g | g in Ordered(s) ensures 0.35 <= g.weight <= 1.0 && Twentieths(g.weight) {
      var best := GroupMeaning(s, g);
      WeightInTwentieths(best.reporting);
    }
    WeightsBounded(Ordered(s));
    WeightsInTwentieths(Ordered(s));
    GroupOfEach(s, s[0]);
    TwentiethsStand(Sum(Weight(), Ordered(s)));
  }

  /** The payload is the largest groups: shown and truncated together are the independent count,
      and nothing left out is larger than anything shown. */
  lemma PayloadIsLargest(s: seq<Observation>, raw: int, unique: int, g: Group)
    requires s != []
    ensures var r := Summarize(s, raw, unique);
      && |r.groups| + r.truncated == r.independent
      && |r.groups| <= 20 && (r.truncated > 0 ==> |r.groups| == 20)
      && (g in Ordered(s) && g !in r.groups ==> forall shown :: shown in r.groups ==> g.members <= shown.members)
  {
    hide Ordered, Sum, Round4, GroupLeq, Filter, FingerprintCounts, Groups, Names, Sorted;
    ScoreIsSum(s, raw, unique);
    OrderedIsSorted(s);
    var r, t := Summarize(s, raw, unique), Ordered(s);
    if g in t && g !in r.groups {
      var j :| 0 <= j < |t| && t[j] == g;
      forall shown | shown in r.groups ensures g.members <= shown.members {
        var i :| 0 <= i < |r.groups| && r.groups[i] == shown;
        EarlierIsLarger(t, i, j, |r.groups|);
      }
    }
  }

  lemma EarlierIsLarger(t: seq<Group>, i: nat, j: nat, n: nat)
    requires Sorted(GroupLeq, t) && i < n <= |t| && j < |t| && t[j] !in t[..n]
    ensures t[j].members <= t[i].members
  {
    assert GroupLeq(t[i], t[j]);
  }

  function Origins(counts: multiset<string>, s: seq<Observation>): set<Origin> {
    set o | o in s :: OriginOf(counts, o)
  }

  lemma NewKeyNewOrigin(counts: multiset<string>, s: seq<Observation>, o: Observation)
    requires PlainProvider(o) && forall x :: x in s ==> PlainProvider(x)
    ensures KeyIn(counts)(o) in Keys(KeyIn(counts), s) <==> OriginOf(counts, o) in Origins(counts, s)
    ensures Origins(counts, s + [o]) == Origins(counts, s) + {OriginOf(counts, o)}
  {
    hide GroupIdentity, OriginOf, PlainProvider, Keys;
    forall x | x in s ensures KeyIn(counts)(x) == KeyIn(counts)(o) <==> OriginOf(counts, x) == OriginOf(counts, o) {
      KeysSeparateOrigins(counts, x, o);
    }
    if KeyIn(counts)(o) in Keys(KeyIn(counts), s) {
      var i :| 0 <= i < |s| && KeyIn(counts)(s[i]) == KeyIn(counts)(o);
      assert s[i] in s;
    }
    assert forall x :: x in s + [o] <==> x in s || x == o;
  }

  lemma {:induction false} AsManyOrigins(counts: multiset<string>, s: seq<Observation>)
    requires forall o :: o in s ==> PlainProvider(o)
    ensures |Keys(KeyIn(counts), s)| == |Origins(counts, s)|
  {
    hide PlainProvider, KeyIn, OriginOf;
    if s == [] {
      assert Origins(counts, s) == {};
    } else {
      var init, last := s[..|s| - 1], s[|s| - 1];
      assert s == init + [last];
      AsManyOrigins(counts, init);
      NewKeyNewOrigin(counts, init, last);
    }
  }

  /** The independent-evidence count is the number of different origins. */
  lemma IndependentIsOrigins(s: seq<Observation>, raw: int, unique: int)
    requires s != [] && forall o :: o in s ==> PlainProvider(o)
    ensures Summarize(s, raw, unique).independent == |Origins(FingerprintCounts(s), s)|
  {
    ScoreIsSum(s, raw, unique);
    OrderedIsSorted(s);
    AsManyOrigins(FingerprintCounts(s), s);
  }

  function KindIs(kind: Kind): string -> bool {
    key => KindOf(key) == kind
  }

  function KindOfOrigin(o: Origin): Kind {
    match o
    case FromSource(_) => BySource
    case Wire(_, _) => Syndication
    case Story(_) => NearDuplicate
    case Outlet(_) => SourceFamily
  }

  function OriginsOfKind(counts: multiset<string>, s: seq<Observation>, kind: Kind): set<Origin> {
    set o | o in Origins(counts, s) && KindOfOrigin(o) == kind
  }

  lemma {:induction false} KindsOfGroups(counts: multiset<string>, s: seq<Observation>, keys: seq<string>, kind: Kind)
    ensures |Filter(OfKind(kind), MapSeq(GroupFor(counts, s), keys))| == |Filter(KindIs(kind), keys)|
    decreases keys
  {
    hide Belongs, Filter;
    FilterLast(KindIs(kind), keys);
    var groups := MapSeq(GroupFor(counts, s), keys);
    FilterLast(OfKind(kind), groups);
    if keys != [] {
      KindsOfGroups(counts, s, keys[..|keys| - 1], kind);
      assert groups[..|groups| - 1] == MapSeq(GroupFor(counts, s), keys[..|keys| - 1]);
    }
  }

  lemma FilterLast<T(!new)>(p: T -> bool, s: seq<T>)
    ensures |Filter(p, s)| == if s == [] then 0 else |Filter(p, s[..|s| - 1])| + (if p(s[|s| - 1]) then 1 else 0)
  {
  }

  lemma KindOfKey(counts: multiset<string>, o: Observation)
    ensures KindOf(KeyIn(counts)(o)) == KindOfOrigin(OriginOf(counts, o))
  {
    KindFromKey(counts, o);
  }

  lemma {:induction false} AsManyOfKind(counts: multiset<string>, s: seq<Observation>, kind: Kind)
    requires forall o :: o in s ==> PlainProvider(o)
    ensures |Filter(KindIs(kind), Keys(KeyIn(counts), s))| == |OriginsOfKind(counts, s, kind)|
  {
    hide PlainProvider, KeyIn, OriginsOfKind, Filter, KindIs;
    if s == [] {
      NoOrigins(counts, kind);
    } else {
      var init, last := s[..|s| - 1], s[|s| - 1];
      assert s == init + [last];
      AsManyOfKind(counts, init, kind);
      FilterAddKey(KindIs(kind), Keys(KeyIn(counts), init), KeyIn(counts)(last));
      KindStep(counts, init, last, kind);
    }
  }

  lemma FilterAddKey(p: string -> bool, keys: seq<string>, key: string)
    requires Distinct(keys)
    ensures |Filter(p, AddKey(keys, key))| == |Filter(p, keys)| + (if key !in keys && p(key) then 1 else 0)
  {
    assert (keys + [key])[..|keys|] == keys;
  }

  lemma KindStep(counts: multiset<string>, init: seq<Observation>, last: Observation, kind: Kind)
    requires PlainProvider(last) && forall o :: o in init ==> PlainProvider(o)
    ensures |OriginsOfKind(counts, init + [last], kind)| == |OriginsOfKind(counts, init, kind)|
      + (if KeyIn(counts)(last) !in Keys(KeyIn(counts), init) && KindIs(kind)(KeyIn(counts)(last)) then 1 else 0)
  {
    hide PlainProvider, KeyIn, OriginOf, KindOf, KindOfOrigin, Origins, Keys, OriginsOfKind;
    NewKeyNewOrigin(counts, init, last);
    KindOfKey(counts, last);
    OriginOfKind(counts, init, last, kind);
    OneMore(OriginsOfKind(counts, init, kind), OriginOf(counts, last));
  }

  lemma OriginOfKind(counts: multiset<string>, init: seq<Observation>, last: Observation, kind: Kind)
    requires Origins(counts, init + [last]) == Origins(counts, init) + {OriginOf(counts, last)}
    ensures OriginOf(counts, last) in OriginsOfKind(counts, init, kind) <==>
      OriginOf(counts, last) in Origins(counts, init) && KindOfOrigin(OriginOf(counts, last)) == kind
    ensures OriginsOfKind(counts, init + [last], kind) == OriginsOfKind(counts, init, kind)
      + (if KindOfOrigin(OriginOf(counts, last)) == kind then {OriginOf(counts, last)} else {})
  {
    hide Origins, OriginOf, KindOfOrigin;
  }

  lemma OneMore<T>(s: set<T>, x: T)
    ensures |s + {x}| == |s| + if x in s then 0 else 1
    ensures s + {} == s
  {
    if x in s { assert s + {x} == s; }
  }

  lemma NoOrigins(counts: multiset<string>, kind: Kind)
    ensures OriginsOfKind(counts, [], kind) == {} && Filter(KindIs(kind), Keys(KeyIn(counts), [])) == []
  {
    assert Origins(counts, []) == {};
  }

  /** The two special group counts are the numbers of different wire stories and of different
      repeated stories. */
  lemma KindCountsAreOrigins(s: seq<Observation>, raw: int, unique: int)
    requires s != [] && forall o :: o in s ==> PlainProvider(o)
    ensures var r, counts := Summarize(s, raw, unique), FingerprintCounts(s);
      && r.syndicationGroups == |OriginsOfKind(counts, s, Syndication)|
      && r.nearDuplicateGroups == |OriginsOfKind(counts, s, NearDuplicate)|
  {
    hide Ordered, PlainProvider, Filter, OriginsOfKind, Sum, Round4, FingerprintCounts;
    var counts := FingerprintCounts(s);
    OrderedIsSorted(s);
    KindCount(s, Syndication);
    KindCount(s, NearDuplicate);
  }

  lemma KindCount(s: seq<Observation>, kind: Kind)
    requires forall o :: o in s ==> PlainProvider(o)
    ensures |Filter(OfKind(kind), Ordered(s))| == |OriginsOfKind(FingerprintCounts(s), s, kind)|
  {
    hide Ordered, PlainProvider, Filter, OriginsOfKind;
    var counts := FingerprintCounts(s);
    OrderedIsSorted(s);
    FilterPermutes(OfKind(kind), Ordered(s), Groups(counts, s));
    KindsOfGroups(counts, s, Keys(KeyIn(counts), s), kind);
    AsManyOfKind(counts, s, kind);
  }

  // ---------------------------------------------------------------- order does not matter

  function Printed(f: string): Observation -> bool {
    (o: Observation) => o.fingerprint == Some(f)
  }

  lemma {:induction false} CountIsTally(s: seq<Observation>, f: string)
    ensures FingerprintCounts(s)[f] == |Filter(Printed(f), s)|
  {
    if s != [] { CountIsTally(s[..|s| - 1], f); }
  }

  lemma CountsPermute(a: seq<Observation>, b: seq<Observation>)
    requires multiset(a) == multiset(b)
    ensures FingerprintCounts(a) == FingerprintCounts(b)
  {
    forall f ensures FingerprintCounts(a)[f] == FingerprintCounts(b)[f] {
      CountIsTally(a, f);
      CountIsTally(b, f);
      FilterPermutes(Printed(f), a, b);
    }
  }

  lemma TopWeightPermutes(a: seq<Observation>, b: seq<Observation>)
    requires forall o :: o in a <==> o in b
    ensures TopWeight(a) == TopWeight(b)
  {
    hide ReportingWeight;
    if a == [] {
      assert forall o :: o in b ==> o in a;
      assert b == [] || b[0] in b;
    } else {
      assert a[0] in b;
    }
  }

  lemma GroupPermutes(key: string, a: seq<Observation>, b: seq<Observation>)
    requires multiset(a) == multiset(b)
    ensures GroupOf(key, a) == GroupOf(key, b)
  {
    hide TopWeight;
    SameElements(a, b);
    TopWeightPermutes(a, b);
    assert |a| == |multiset(a)| && |b| == |multiset(b)|;
  }

  lemma GroupsPermute(counts: multiset<string>, a: seq<Observation>, b: seq<Observation>)
    requires multiset(a) == multiset(b)
    ensures multiset(Groups(counts, a)) == multiset(Groups(counts, b))
  {
    hide GroupOf, Filter, GroupIdentity;
    KeysPermute(KeyIn(counts), a, b);
    MapPermutes(GroupFor(counts, a), Keys(KeyIn(counts), a), Keys(KeyIn(counts), b));
    var keys := Keys(KeyIn(counts), b);
    forall k ensures GroupFor(counts, a)(k) == GroupFor(counts, b)(k) {
      FilterPermutes(Belongs(counts, k), a, b);
      GroupPermutes(k, Filter(Belongs(counts, k), a), Filter(Belongs(counts, k), b));
    }
    assert MapSeq(GroupFor(counts, a), keys) == MapSeq(GroupFor(counts, b), keys);
  }

  lemma GroupsUntied(counts: multiset<string>, s: seq<Observation>)
    ensures forall x, y :: x in Groups(counts, s) && y in Groups(counts, s) && x.key == y.key ==> x == y
  {
  }

  lemma OrderedPermutes(a: seq<Observation>, b: seq<Observation>)
    requires multiset(a) == multiset(b)
    ensures Ordered(a) == Ordered(b)
  {
    hide Ordered, TotalPreorder, Sorted;
    CountsPermute(a, b);
    GroupsPermute(FingerprintCounts(a), a, b);
    OrderedIsSorted(a);
    OrderedIsSorted(b);
    GroupOrder();
    GroupsUntied(FingerprintCounts(a), a);
    forall x, y | x in Ordered(a) && y in Ordered(a) && GroupLeq(x, y) && GroupLeq(y, x) ensures x == y {
      StringLeqTotal(x.key, y.key);
    }
    SortedUnique(GroupLeq, Ordered(a), Ordered(b));
  }

  /** The whole summary is the same for any arrangement of the observations. */
  lemma SummaryPermutes(a: seq<Observation>, b: seq<Observation>, raw: int, unique: int)
    requires multiset(a) == multiset(b)
    ensures Summarize(a, raw, unique) == Summarize(b, raw, unique)
  {
    hide Ordered, Report;
    SameElements(a, b);
    assert |multiset(a)| == |a| && |multiset(b)| == |b|;
    OrderedPermutes(a, b);
    assert Names(FamilyOf(), a) == Names(FamilyOf(), b);
  }
}
