/** Independent-evidence counting: observations of one event grouped by where they really come from. */
module Provenance {
  import opened Numbers
  import opened Wrappers
  import opened Sequences
  import opened Sorting
  import opened Sums

  const PAYLOAD_LIMIT: nat := 20

  /** One item of an event. The story fingerprint, the syndicator and the source family are what
      the text and URL rules make of the item; the reporting type is trimmed and lower-case. */
  datatype Observation = Observation(
    sourceId: string, reporting: Option<string>, fingerprint: Option<string>,
    syndicator: Option<string>, family: Option<string>)

  datatype Kind = BySource | Syndication | NearDuplicate | SourceFamily

  /** A finished group. The lists of the source's `as_dict` are sorted from these sets. */
  datatype Group = Group(
    key: string, kind: Kind, weight: real, members: nat,
    sourceIds: set<string>, families: set<string>, reportingTypes: set<string>)

  datatype Summary = Summary(
    provenanceAware: bool, rawSources: int, uniqueSources: int, independent: int, score: real,
    familyCount: nat, syndicationGroups: nat, nearDuplicateGroups: nat, groups: seq<Group>, truncated: nat)

  function ReportingWeight(reporting: Option<string>): (w: real)
    ensures 0.35 <= w <= 1.0
    ensures w == 1.0 <==> reporting == Some("firsthand")
    ensures w == 0.6 <==> reporting == Some("secondary")
    ensures w == 0.35 <==> reporting == Some("aggregator")
    ensures w == 0.5 <==> reporting !in {Some("firsthand"), Some("secondary"), Some("aggregator")}
  {
    if reporting == Some("firsthand") then 1.0
    else if reporting == Some("secondary") then 0.6
    else if reporting == Some("aggregator") then 0.35
    else 0.5
  }

  // ---------------------------------------------------------------- group identity

  /** `Counter` over the fingerprints that are present. */
  function FingerprintCounts(s: seq<Observation>): multiset<string> {
    if s == [] then multiset{}
    else
      var last := s[|s| - 1];
      FingerprintCounts(s[..|s| - 1])
      + (if last.fingerprint.Some? then multiset{last.fingerprint.value} else multiset{})
  }

  function GroupIdentity(counts: multiset<string>, o: Observation): (string, Kind) {
    if o.reporting == Some("firsthand") then ("source:" + o.sourceId, BySource)
    else if o.syndicator.Some? && o.fingerprint.Some? then
      ("syndication:" + o.syndicator.value + ":" + o.fingerprint.value, Syndication)
    else if o.fingerprint.Some? && counts[o.fingerprint.value] > 1 then
      ("near-duplicate:" + o.fingerprint.value, NearDuplicate)
    else if o.family.Some? then ("family:" + o.family.value, SourceFamily)
    else ("source:" + o.sourceId, BySource)
  }

  function KeyIn(counts: multiset<string>): Observation -> string {
    o => GroupIdentity(counts, o).0
  }

  function Belongs(counts: multiset<string>, key: string): Observation -> bool {
    o => GroupIdentity(counts, o).0 == key
  }

  function KindOf(key: string): Kind {
    if |key| < 2 || key[1] == 'o' then BySource
    else if key[1] == 'y' then Syndication
    else if key[1] == 'e' then NearDuplicate
    else SourceFamily
  }

  /** What makes two observations the same piece of evidence. */
  datatype Origin =
    | FromSource(id: string) | Wire(provider: string, story: string) | Story(story: string) | Outlet(family: string)

  function OriginOf(counts: multiset<string>, o: Observation): Origin {
    if o.reporting == Some("firsthand") then FromSource(o.sourceId)
    else if o.syndicator.Some? && o.fingerprint.Some? then Wire(o.syndicator.value, o.fingerprint.value)
    else if o.fingerprint.Some? && counts[o.fingerprint.value] > 1 then Story(o.fingerprint.value)
    else if o.family.Some? then Outlet(o.family.value)
    else FromSource(o.sourceId)
  }

  ghost predicate PlainProvider(o: Observation) {
    o.syndicator.Some? ==> ':' !in o.syndicator.value
  }

  /** The flat string keys never merge two origins, as long as provider names hold no colon,
      and each key determines the kind of its group. */
  lemma KeysSeparateOrigins(counts: multiset<string>, a: Observation, b: Observation)
    requires PlainProvider(a) && PlainProvider(b)
    ensures GroupIdentity(counts, a).0 == GroupIdentity(counts, b).0 <==> OriginOf(counts, a) == OriginOf(counts, b)
    ensures GroupIdentity(counts, a).1 == KindOf(GroupIdentity(counts, a).0)
  {
    KindFromKey(counts, a);
    KindFromKey(counts, b);
    var k, l := GroupIdentity(counts, a).0, GroupIdentity(counts, b).0;
    if k == l {
      var x, y := OriginOf(counts, a), OriginOf(counts, b);
      match x {
        case FromSource(i) => TailsAgree("source:", i, y.id);
        case Wire(p, f) =>
          assert k == "syndication:" + (p + ":" + f) && l == "syndication:" + (y.provider + ":" + y.story);
          TailsAgree("syndication:", p + ":" + f, y.provider + ":" + y.story);
          FirstColon(p, f, y.provider, y.story);
        case Story(f) => TailsAgree("near-duplicate:", f, y.story);
        case Outlet(f) => TailsAgree("family:", f, y.family);
      }
    }
  }

  lemma KindFromKey(counts: multiset<string>, o: Observation)
    ensures var (key, kind) := GroupIdentity(counts, o); KindOf(key) == kind
    ensures match OriginOf(counts, o)
            case FromSource(i) => GroupIdentity(counts, o) == ("source:" + i, BySource)
            case Wire(p, f) => GroupIdentity(counts, o) == ("syndication:" + p + ":" + f, Syndication)
            case Story(f) => GroupIdentity(counts, o) == ("near-duplicate:" + f, NearDuplicate)
            case Outlet(f) => GroupIdentity(counts, o) == ("family:" + f, SourceFamily)
  {
  }

  lemma TailsAgree(prefix: string, a: string, b: string)
    requires prefix + a == prefix + b
    ensures a == b
  {
    assert a == (prefix + a)[|prefix|..] && b == (prefix + b)[|prefix|..];
  }

  lemma {:induction false} FirstColon(p: string, f: string, q: string, g: string)
    requires ':' !in p && ':' !in q && p + ":" + f == q + ":" + g
    ensures p == q && f == g
  {
    assert (p + ":" + f)[|p|] == ':' && (q + ":" + g)[|q|] == ':';
    assert p == (p + ":" + f)[..|p|] && q == (q + ":" + g)[..|q|];
    assert f == (p + ":" + f)[|p| + 1..] && g == (q + ":" + g)[|q| + 1..];
  }

  // ---------------------------------------------------------------- groups and summary

  function TopWeight(s: seq<Observation>): (w: real)
    ensures forall o :: o in s ==> ReportingWeight(o.reporting) <= w
    ensures s != [] ==> exists o :: o in s && ReportingWeight(o.reporting) == w
  {
    if s == [] then 0.0
    else
      var init, last := s[..|s| - 1], s[|s| - 1];
      assert s == init + [last];
      MaxReal(TopWeight(init), ReportingWeight(last.reporting))
  }

  function MaxReal(a: real, b: real): real {
    if a >= b then a else b
  }

  /** The values of one attribute over the members, absent and empty ones left out. */
  function Names(attribute: Observation -> Option<string>, s: seq<Observation>): set<string> {
    set o | o in s && attribute(o).Some? && attribute(o).value != "" :: attribute(o).value
  }

  function FamilyOf(): Observation -> Option<string> {
    (o: Observation) => o.family
  }

  function ReportingOf(): Observation -> Option<string> {
    (o: Observation) => o.reporting
  }

  function SourceIds(s: seq<Observation>): set<string> {
    set o | o in s :: o.sourceId
  }

  /** A group described by its members alone. */
  function GroupOf(key: string, members: seq<Observation>): Group {
    Group(key, KindOf(key), TopWeight(members), |members|,
          SourceIds(members), Names(FamilyOf(), members), Names(ReportingOf(), members))
  }

  function GroupFor(counts: multiset<string>, s: seq<Observation>): string -> Group {
    key => GroupOf(key, Filter(Belongs(counts, key), s))
  }

  function Groups(counts: multiset<string>, s: seq<Observation>): seq<Group> {
    MapSeq(GroupFor(counts, s), Keys(KeyIn(counts), s))
  }

  /** Larger groups first, ties by key. */
  predicate GroupLeq(a: Group, b: Group) {
    a.members > b.members || (a.members == b.members && StringLeq(a.key, b.key))
  }

  function Weight(): Group -> real {
    (g: Group) => g.weight
  }

  function OfKind(kind: Kind): Group -> bool {
    (g: Group) => g.kind == kind
  }

  function Round4(x: real): real {
    (x * 10000.0 + 0.5).Floor as real / 10000.0
  }

  function Fallback(raw: int, unique: int): Summary {
    var count := Max(1, if unique != 0 then unique else if raw != 0 then raw else 1);
    Summary(false, Max(0, raw), Max(0, unique), count, count as real, 0, 0, 0, [], 0)
  }

  function Ordered(s: seq<Observation>): seq<Group> {
    Sort(GroupLeq, Groups(FingerprintCounts(s), s))
  }

  function Report(ordered: seq<Group>, families: nat, raw: int, unique: int): Summary {
    var shown := if |ordered| <= PAYLOAD_LIMIT then ordered else ordered[..PAYLOAD_LIMIT];
    Summary(true, Max(0, raw), Max(0, unique), Max(1, |ordered|),
            Round4(MaxReal(0.1, Sum(Weight(), ordered))), families,
            |Filter(OfKind(Syndication), ordered)|, |Filter(OfKind(NearDuplicate), ordered)|,
            shown, Max(0, |ordered| - |shown|))
  }

  function Summarize(s: seq<Observation>, raw: int, unique: int): Summary {
    if s == [] then Fallback(raw, unique) else Report(Ordered(s), |Names(FamilyOf(), s)|, raw, unique)
  }

  // ---------------------------------------------------------------- the accumulators

  class GroupAccumulator {
    const key: string
    const kind: Kind
    var weight: real
    var sourceIds: set<string>
    var families: set<string>
    var reportingTypes: set<string>
    var members: nat

    constructor (key: string, kind: Kind, weight: real)
      ensures this.key == key && AsGroup() == Group(key, kind, weight, 0, {}, {}, {})
    {
      this.key, this.kind, this.weight := key, kind, weight;
      sourceIds, families, reportingTypes, members := {}, {}, {}, 0;
    }

    function AsGroup(): Group
      reads this
    {
      Group(key, kind, weight, members, sourceIds, families, reportingTypes)
    }

    /** Adding the next member to a group of `before`; the first one finds the accumulator just made for it. */
    method Add(o: Observation, ghost before: seq<Observation>)
      requires KindOf(key) == kind
      requires if before == [] then AsGroup() == Group(key, kind, ReportingWeight(o.reporting), 0, {}, {}, {})
               else AsGroup() == GroupOf(key, before)
      modifies this
      ensures AsGroup() == GroupOf(key, before + [o])
    {
      hide KindOf, GroupOf, ReportingWeight;
      GroupGrows(key, before, o);
      assert ReportingWeight(o.reporting) >= 0.35;
      members := members + 1;
      sourceIds := sourceIds + {o.sourceId};
      if o.family.Some? && o.family.value != "" {
        families := families + {o.family.value};
      }
      if o.reporting.Some? && o.reporting.value != "" {
        reportingTypes := reportingTypes + {o.reporting.value};
      }
      weight := MaxReal(weight, ReportingWeight(o.reporting));
    }
  }

  function Present(v: Option<string>): set<string> {
    if v.Some? && v.value != "" then {v.value} else {}
  }

  lemma NamesGrow(attribute: Observation -> Option<string>, before: seq<Observation>, o: Observation)
    ensures Names(attribute, before + [o]) == Names(attribute, before) + Present(attribute(o))
    ensures SourceIds(before + [o]) == SourceIds(before) + {o.sourceId}
    ensures Names(attribute, []) == {} == SourceIds([])
  {
    assert forall x :: x in before + [o] <==> x in before || x == o;
  }

  /** What one more member changes in the description of a group. */
  lemma GroupGrows(key: string, before: seq<Observation>, o: Observation)
    ensures var g := GroupOf(key, before);
      GroupOf(key, before + [o]) == Group(
        key, KindOf(key), MaxReal(g.weight, ReportingWeight(o.reporting)), g.members + 1, g.sourceIds + {o.sourceId},
        g.families + Present(o.family), g.reportingTypes + Present(o.reporting))
    ensures before == [] ==> GroupOf(key, before) == Group(key, KindOf(key), 0.0, 0, {}, {}, {})
  {
    hide KindOf, ReportingWeight, SourceIds, Names;
    assert (before + [o])[..|before|] == before;
    NamesGrow(FamilyOf(), before, o);
    NamesGrow(ReportingOf(), before, o);
  }

  /** The accumulator under `key` holds exactly what `members` add up to. */
  ghost predicate Describes(a: GroupAccumulator, key: string, members: seq<Observation>)
    reads a
  {
    a.key == key && a.kind == KindOf(key) && a.AsGroup() == GroupOf(key, members)
  }

  /** The dictionary, with its keys in insertion order, after the observations `done`. */
  ghost predicate Grouping(groups: map<string, GroupAccumulator>, order: seq<string>, counts: multiset<string>,
      done: seq<Observation>)
    reads groups.Values
  {
    && order == Keys(KeyIn(counts), done)
    && (forall k :: k in order <==> k in groups)
    && forall k :: k in groups ==> Describes(groups[k], k, Filter(Belongs(counts, k), done))
  }

  /** One more observation extends the group its key names and leaves the others alone. */
  lemma GroupsStep(counts: multiset<string>, done: seq<Observation>, o: Observation, key: string)
    ensures var own := GroupIdentity(counts, o).0;
      var members := Filter(Belongs(counts, key), done);
      && Filter(Belongs(counts, key), done + [o]) == members + (if key == own then [o] else [])
      && (members == [] <==> key !in Keys(KeyIn(counts), done))
      && Keys(KeyIn(counts), done + [o]) == AddKey(Keys(KeyIn(counts), done), own)
      && KindOf(own) == GroupIdentity(counts, o).1
  {
    hide KindOf;
    assert (done + [o])[..|done|] == done;
    var p, f := Belongs(counts, key), KeyIn(counts);
    if key in Keys(f, done) {
      var j :| 0 <= j < |done| && f(done[j]) == key;
      assert done[j] in Filter(p, done);
    }
    assert Filter(p, done) != [] ==> Filter(p, done)[0] in done;
    KindFromKey(counts, o);
  }

  /** The body of the grouping loop: `setdefault`, then `add`. */
  method Place(groups: map<string, GroupAccumulator>, order: seq<string>, counts: multiset<string>,
      ghost done: seq<Observation>, o: Observation)
    returns (groups': map<string, GroupAccumulator>, order': seq<string>)
    requires Grouping(groups, order, counts, done)
    modifies groups.Values
    ensures Grouping(groups', order', counts, done + [o])
    ensures forall k :: k in groups' ==> (k in groups && groups'[k] == groups[k]) || fresh(groups'[k])
  {
    hide Filter, Keys, GroupIdentity, GroupOf, KindOf, ReportingWeight;
    var (key, kind) := GroupIdentity(counts, o);
    ghost var members := Filter(Belongs(counts, key), done);
    GroupsStep(counts, done, o, key);
    groups', order' := groups, order;
    if key !in groups {
      var made := new GroupAccumulator(key, kind, ReportingWeight(o.reporting));
      groups', order' := groups[key := made], order + [key];
    }
    groups'[key].Add(o, members);
    forall k | k in groups' && k != key
      ensures Describes(groups'[k], k, Filter(Belongs(counts, k), done + [o]))
    {
      GroupsStep(counts, done, o, k);
      ghost var others := Filter(Belongs(counts, k), done);
      assert others + [] == others;
      assert groups[k].key == k && groups'[key].key == key;
    }
  }

  lemma NoGroups(counts: multiset<string>)
    ensures Keys(KeyIn(counts), []) == [] && Names(FamilyOf(), []) == {}
  {
  }

  method GroupObservations(s: seq<Observation>, counts: multiset<string>)
    returns (groups: map<string, GroupAccumulator>, order: seq<string>, families: set<string>)
    ensures Grouping(groups, order, counts, s) && families == Names(FamilyOf(), s)
  {
    hide Filter, Keys, Names, GroupIdentity, GroupOf, KindOf;
    groups, order, families := map[], [], {};
    NoGroups(counts);
    for i := 0 to |s|
      invariant Grouping(groups, order, counts, s[..i]) && forall k :: k in groups ==> fresh(groups[k])
      invariant families == Names(FamilyOf(), s[..i])
    {
      var o := s[i];
      assert s[..i + 1] == s[..i] + [s[i]];
      NamesGrow(FamilyOf(), s[..i], o);
      if o.family.Some? && o.family.value != "" {
        families := families + {o.family.value};
      }
      groups, order := Place(groups, order, counts, s[..i], o);
    }
    assert s[..|s|] == s;
  }

  method ListGroups(groups: map<string, GroupAccumulator>, order: seq<string>, ghost counts: multiset<string>,
      ghost s: seq<Observation>)
    returns (listed: seq<Group>)
    requires Grouping(groups, order, counts, s)
    ensures listed == Groups(counts, s)
  {
    hide Filter, Keys, GroupIdentity, KindOf, GroupOf;
    listed := [];
    for i := 0 to |order|
      invariant |listed| == i && forall j :: 0 <= j < i ==> listed[j] == GroupFor(counts, s)(order[j])
    {
      assert order[i] in order;
      listed := listed + [groups[order[i]].AsGroup()];
    }
  }

  method SummarizeEventProvenance(s: seq<Observation>, raw: int, unique: int) returns (summary: Summary)
    ensures summary == Summarize(s, raw, unique)
  {
    hide Filter, Keys, Names, GroupIdentity, KindOf, Sort, Report, Groups, Grouping;
    if s == [] {
      return Fallback(raw, unique);
    }
    var counts := CountFingerprints(s);
    var groups, order, families := GroupObservations(s, counts);
    var listed := ListGroups(groups, order, counts, s);
    summary := Report(Sort(GroupLeq, listed), |families|, raw, unique);
  }

  method CountFingerprints(s: seq<Observation>) returns (counts: multiset<string>)
    ensures counts == FingerprintCounts(s)
  {
    counts := multiset{};
    for i := 0 to |s|
      invariant counts == FingerprintCounts(s[..i])
    {
      assert s[..i + 1][..i] == s[..i];
      if s[i].fingerprint.Some? {
        counts := counts[s[i].fingerprint.value := counts[s[i].fingerprint.value] + 1];
      }
    }
    assert s[..|s|] == s;
  }
}
