/** The in-memory index of latest evidence per (trend, signal), kept across source refreshes. */
module NoveltySnapshot {
  import opened Wrappers
  import opened Sorting

  type Id = nat

  datatype Key = Key(trend: Id, signal: string)

  datatype Evidence = Evidence(key: Key, event: Id, createdAt: Option<int>, invalidated: bool)

  /** One event and when its evidence was last seen. */
  datatype Seen = Seen(event: Id, at: int)

  type Snapshot = map<Key, seq<Seen>>

  /** One row of the per-event refresh query. */
  datatype Found = Found(key: Key, createdAt: Option<int>)

  function Latest(a: Option<int>, b: Option<int>): Option<int> {
    if a.None? then b else if b.None? || b.value <= a.value then a else b
  }

  predicate LaterFirst(a: Seen, b: Seen) {
    a.at >= b.at
  }

  function EntriesOf(s: Snapshot, key: Key): seq<Seen> {
    if key in s then s[key] else []
  }

  // ---------------------------------------------------------------- loading

  /** `entries.get` then overwrite when newer: a dictionary in insertion order. */
  function Note(entries: seq<Seen>, event: Id, at: int): seq<Seen> {
    if entries == [] then [Seen(event, at)]
    else if entries[0].event == event then
      [Seen(event, if at > entries[0].at then at else entries[0].at)] + entries[1..]
    else [entries[0]] + Note(entries[1..], event, at)
  }

  function Group(grouped: Snapshot, e: Evidence): Snapshot {
    if e.invalidated || e.createdAt.None? then grouped
    else grouped[e.key := Note(EntriesOf(grouped, e.key), e.event, e.createdAt.value)]
  }

  function Grouped(rows: seq<Evidence>): Snapshot {
    if rows == [] then map[] else Group(Grouped(rows[..|rows| - 1]), rows[|rows| - 1])
  }

  function Loaded(rows: seq<Evidence>): Snapshot {
    var grouped := Grouped(rows);
    map key | key in grouped :: Sort(LaterFirst, grouped[key])
  }

  method LoadSnapshot(rows: seq<Evidence>) returns (snapshot: Snapshot)
    ensures snapshot == Loaded(rows)
  {
    var grouped: Snapshot := map[];
    for i := 0 to |rows|
      invariant grouped == Grouped(rows[..i])
    {
      assert rows[..i + 1][..i] == rows[..i];
      var e := rows[i];
      if !e.invalidated && e.createdAt.Some? {
        var entries := if e.key in grouped then grouped[e.key] else [];
        grouped := grouped[e.key := Note(entries, e.event, e.createdAt.value)];
      }
    }
    assert rows[..|rows|] == rows;
    snapshot := map key | key in grouped :: Sort(LaterFirst, grouped[key]);
  }

  /** The snapshot path of the novelty lookup: the first entry of another event. */
  function FirstOther(entries: seq<Seen>, event: Id): Option<int> {
    if entries == [] then None
    else if entries[0].event != event then Some(entries[0].at)
    else FirstOther(entries[1..], event)
  }

  function LastSeen(s: Snapshot, key: Key, event: Id): Option<int> {
    FirstOther(EntriesOf(s, key), event)
  }

  /** The query path: SELECT max(created_at) over live rows of the key from other events. */
  function MaxOfOthers(rows: seq<Evidence>, key: Key, event: Id): Option<int> {
    if rows == [] then None
    else
      var e := rows[|rows| - 1];
      Latest(MaxOfOthers(rows[..|rows| - 1], key, event),
             if e.key == key && e.event != event && !e.invalidated then e.createdAt else None)
  }

  /** A live row of another event under the key. */
  ghost predicate LiveOther(e: Evidence, key: Key, event: Id) {
    e.key == key && e.event != event && !e.invalidated && e.createdAt.Some?
  }

  /** The query answers the latest stamp of such rows, if there are any. */
  lemma {:induction false} QueryIsLatest(rows: seq<Evidence>, key: Key, event: Id)
    ensures MaxOfOthers(rows, key, event).Some? <==> exists e :: e in rows && LiveOther(e, key, event)
    ensures var m := MaxOfOthers(rows, key, event);
      m.Some? ==>
        && (exists e :: e in rows && LiveOther(e, key, event) && e.createdAt == m)
        && (forall e :: e in rows && LiveOther(e, key, event) ==> e.createdAt.value <= m.value)
  {
    if rows != [] {
      var init, last := rows[..|rows| - 1], rows[|rows| - 1];
      assert rows == init + [last];
      QueryIsLatest(init, key, event);
      assert last in rows && forall e :: e in rows <==> e in init || e == last;
      if MaxOfOthers(init, key, event).Some? {
        var e :| e in init && LiveOther(e, key, event) && e.createdAt == MaxOfOthers(init, key, event);
        assert e in rows && LiveOther(e, key, event);
      }
      if LiveOther(last, key, event) { assert last in rows && LiveOther(last, key, event); }
    }
  }

  function MaxExcept(entries: seq<Seen>, event: Id): Option<int> {
    if entries == [] then None
    else Latest(if entries[0].event != event then Some(entries[0].at) else None, MaxExcept(entries[1..], event))
  }

  ghost predicate DistinctEvents(entries: seq<Seen>) {
    forall i, j :: 0 <= i < j < |entries| ==> entries[i].event != entries[j].event
  }

  lemma {:induction false} NoteMax(entries: seq<Seen>, event: Id, at: int, asking: Id)
    ensures MaxExcept(Note(entries, event, at), asking)
         == Latest(MaxExcept(entries, asking), if event != asking then Some(at) else None)
  {
    if entries == [] {
      assert [Seen(event, at)][1..] == [];
    } else if entries[0].event != event {
      NoteMax(entries[1..], event, at, asking);
    }
  }

  lemma {:induction false} NoteDistinct(entries: seq<Seen>, event: Id, at: int)
    requires DistinctEvents(entries)
    ensures var r := Note(entries, event, at);
      DistinctEvents(r) && r != [] &&
      (forall k :: 0 <= k < |r| ==>
         r[k].event == event || exists j :: 0 <= j < |entries| && entries[j].event == r[k].event)
  {
    if entries != [] && entries[0].event != event {
      NoteDistinct(entries[1..], event, at);
      var rest := Note(entries[1..], event, at);
      forall k | 0 <= k < |rest|
        ensures rest[k].event != entries[0].event
        ensures rest[k].event == event || exists j :: 0 <= j < |entries| && entries[j].event == rest[k].event
      {
        if rest[k].event != event {
          var j :| 0 <= j < |entries[1..]| && entries[1..][j].event == rest[k].event;
          assert entries[j + 1].event == rest[k].event;
        }
      }
    } else if entries != [] {
      var r := Note(entries, event, at);
      forall k | 0 <= k < |r| ensures r[k].event == entries[k].event {}
    }
  }

  lemma {:induction false} GroupedMax(rows: seq<Evidence>, key: Key, event: Id)
    ensures MaxExcept(EntriesOf(Grouped(rows), key), event) == MaxOfOthers(rows, key, event)
    ensures DistinctEvents(EntriesOf(Grouped(rows), key))
    ensures key in Grouped(rows) ==> Grouped(rows)[key] != []
  {
    if rows != [] {
      var e := rows[|rows| - 1];
      GroupedMax(rows[..|rows| - 1], key, event);
      if e.key == key && e.createdAt.Some? {
        var before := EntriesOf(Grouped(rows[..|rows| - 1]), key);
        NoteMax(before, e.event, e.createdAt.value, event);
        NoteDistinct(before, e.event, e.createdAt.value);
      }
    }
  }

  lemma {:induction false} MaxExceptAppend(a: seq<Seen>, b: seq<Seen>, event: Id)
    ensures MaxExcept(a + b, event) == Latest(MaxExcept(a, event), MaxExcept(b, event))
  {
    if a == [] {
      assert a + b == b;
    } else {
      assert (a + b)[1..] == a[1..] + b;
      MaxExceptAppend(a[1..], b, event);
    }
  }

  lemma {:induction false} InsertMax(x: Seen, s: seq<Seen>, event: Id)
    ensures MaxExcept(Insert(LaterFirst, x, s), event) == Latest(MaxExcept(s, event), MaxExcept([x], event))
  {
    if s != [] {
      var init, last := s[..|s| - 1], s[|s| - 1];
      assert s == init + [last];
      MaxExceptAppend(init, [last], event);
      if LaterFirst(last, x) {
        MaxExceptAppend(s, [x], event);
      } else {
        InsertMax(x, init, event);
        MaxExceptAppend(Insert(LaterFirst, x, init), [last], event);
      }
    }
  }

  lemma {:induction false} SortMax(s: seq<Seen>, event: Id)
    ensures MaxExcept(Sort(LaterFirst, s), event) == MaxExcept(s, event)
  {
    if s != [] {
      SortMax(s[..|s| - 1], event);
      InsertMax(s[|s| - 1], Sort(LaterFirst, s[..|s| - 1]), event);
      MaxExceptAppend(s[..|s| - 1], [s[|s| - 1]], event);
      assert s == s[..|s| - 1] + [s[|s| - 1]];
    }
  }

  lemma {:induction false} FirstIsMax(s: seq<Seen>, event: Id)
    requires Sorted(LaterFirst, s)
    ensures FirstOther(s, event) == MaxExcept(s, event)
    ensures s != [] && MaxExcept(s, event).Some? ==> MaxExcept(s, event).value <= s[0].at
  {
    if s != [] {
      var rest := s[1..];
      assert Sorted(LaterFirst, rest);
      FirstIsMax(rest, event);
      assert rest != [] ==> rest[0] == s[1] && LaterFirst(s[0], s[1]);
    }
  }

  /** For every evidence table, whatever the row order, the snapshot answers every novelty lookup
      as the query over the table would. */
  lemma SnapshotAnswersQuery(rows: seq<Evidence>, key: Key, event: Id)
    ensures LastSeen(Loaded(rows), key, event) == MaxOfOthers(rows, key, event)
  {
    GroupedMax(rows, key, event);
    if key in Grouped(rows) {
      LaterFirstPreorder();
      SortSorted(LaterFirst, Grouped(rows)[key]);
      SortMax(Grouped(rows)[key], event);
      FirstIsMax(Sort(LaterFirst, Grouped(rows)[key]), event);
    }
  }

  lemma LaterFirstPreorder()
    ensures TotalPreorder(LaterFirst)
  {}

  // ---------------------------------------------------------------- well-formedness

  ghost predicate EntriesOk(entries: seq<Seen>) {
    entries != [] && Sorted(LaterFirst, entries) && DistinctEvents(entries)
  }

  /** One entry per event, newest first, and no empty group. */
  ghost predicate WellFormed(s: Snapshot) {
    forall key :: key in s ==> EntriesOk(s[key])
  }

  lemma {:induction false} InsertDistinct(x: Seen, s: seq<Seen>)
    requires DistinctEvents(s + [x])
    ensures DistinctEvents(Insert(LaterFirst, x, s))
  {
    if s != [] && !LaterFirst(s[|s| - 1], x) {
      var init, last := s[..|s| - 1], s[|s| - 1];
      forall i, j | 0 <= i < j < |init + [x]| ensures (init + [x])[i].event != (init + [x])[j].event {
        assert (s + [x])[i].event != (s + [x])[if j == |init| then |s| else j].event;
      }
      InsertDistinct(x, init);
      InsertPermutes(LaterFirst, x, init);
      var r := Insert(LaterFirst, x, init);
      forall i | 0 <= i < |r| ensures r[i].event != last.event {
        assert r[i] in multiset(r);
        if r[i] == x {
          assert (s + [x])[|init|].event != (s + [x])[|s|].event;
        } else {
          assert r[i] in init;
          var k :| 0 <= k < |init| && init[k] == r[i];
          assert (s + [x])[k].event != (s + [x])[|init|].event;
        }
      }
    }
  }

  lemma {:induction false} SortDistinct(s: seq<Seen>)
    requires DistinctEvents(s)
    ensures DistinctEvents(Sort(LaterFirst, s))
  {
    if s != [] {
      var init, last := s[..|s| - 1], s[|s| - 1];
      SortDistinct(init);
      SortPermutes(LaterFirst, init);
      var r := Sort(LaterFirst, init);
      forall i | 0 <= i < |r| ensures r[i].event != last.event {
        assert r[i] in multiset(r);
        assert r[i] in init;
        var k :| 0 <= k < |init| && init[k] == r[i];
        assert s[k].event != s[|s| - 1].event;
      }
      InsertDistinct(last, r);
    }
  }

  lemma LoadedWellFormed(rows: seq<Evidence>)
    ensures WellFormed(Loaded(rows))
  {
    forall key | key in Loaded(rows) ensures EntriesOk(Loaded(rows)[key]) {
      GroupedMax(rows, key, 0);
      LaterFirstPreorder();
      SortSorted(LaterFirst, Grouped(rows)[key]);
      SortDistinct(Grouped(rows)[key]);
    }
  }

  // ---------------------------------------------------------------- syncing one event

  function Others(entries: seq<Seen>, event: Id): seq<Seen> {
    if entries == [] then []
    else
      var last := entries[|entries| - 1];
      Others(entries[..|entries| - 1], event) + if last.event != event then [last] else []
  }

  /** The timestamp an entry list holds for an event. */
  function TimeOf(entries: seq<Seen>, event: Id): Option<int> {
    if entries == [] then None
    else
      var last := entries[|entries| - 1];
      if last.event == event then Some(last.at) else TimeOf(entries[..|entries| - 1], event)
  }

  function FoundAt(found: seq<Found>, key: Key): Option<int> {
    if found == [] then None
    else
      var row := found[|found| - 1];
      if row.key == key && row.createdAt.Some? then row.createdAt else FoundAt(found[..|found| - 1], key)
  }

  /** The event's own entry: its old timestamp if it had one under this key, else the new one. */
  function Kept(entries: seq<Seen>, event: Id, found: Option<int>): seq<Seen> {
    match found
    case None => []
    case Some(at) => [Seen(event, if TimeOf(entries, event).Some? then TimeOf(entries, event).value else at)]
  }

  function SyncedEntries(entries: seq<Seen>, event: Id, found: Option<int>): seq<Seen> {
    Sort(LaterFirst, Others(entries, event) + Kept(entries, event, found))
  }

  function FoundKeys(found: seq<Found>): set<Key> {
    set i | 0 <= i < |found| :: found[i].key
  }

  function Synced(s: Snapshot, event: Id, found: seq<Found>): Snapshot {
    map key | key in s.Keys + FoundKeys(found) && SyncedEntries(EntriesOf(s, key), event, FoundAt(found, key)) != []
      :: SyncedEntries(EntriesOf(s, key), event, FoundAt(found, key))
  }

  ghost predicate DistinctKeys(found: seq<Found>) {
    forall i, j :: 0 <= i < j < |found| ==> found[i].key != found[j].key
  }

  lemma {:induction false} NotFound(found: seq<Found>, key: Key)
    requires key !in FoundKeys(found)
    ensures FoundAt(found, key) == None
  {
    if found != [] {
      assert found[|found| - 1].key in FoundKeys(found);
      forall k | k in FoundKeys(found[..|found| - 1]) ensures k in FoundKeys(found) {
        var i :| 0 <= i < |found| - 1 && found[..|found| - 1][i].key == k;
        assert found[i].key == k;
      }
      NotFound(found[..|found| - 1], key);
    }
  }

  lemma OthersNext(init: seq<Seen>, last: Seen, event: Id)
    ensures Others(init + [last], event)
         == if last.event == event then Others(init, event) else Others(init, event) + [last]
    ensures TimeOf(init + [last], event) == if last.event == event then Some(last.at) else TimeOf(init, event)
    ensures Others([], event) == [] && TimeOf([], event) == None
  {
    assert (init + [last])[..|init|] == init;
    assert Others(init, event) + [] == Others(init, event);
  }

  lemma {:induction false} OthersOfAbsent(entries: seq<Seen>, event: Id)
    ensures forall k :: 0 <= k < |Others(entries, event)| ==> Others(entries, event)[k].event != event
    ensures (forall k :: 0 <= k < |entries| ==> entries[k].event != event)
            ==> Others(entries, event) == entries && TimeOf(entries, event) == None
  {
    hide Others, TimeOf;
    if entries == [] {
      OthersNext([], Seen(event, 0), event);
    } else {
      var init, last := entries[..|entries| - 1], entries[|entries| - 1];
      assert entries == init + [last];
      OthersOfAbsent(init, event);
      OthersNext(init, last, event);
      assert forall k :: 0 <= k < |init| ==> init[k] == entries[k];
    }
  }

  lemma {:induction false} OthersBefore(entries: seq<Seen>, event: Id, last: Seen)
    requires forall k :: 0 <= k < |entries| ==> LaterFirst(entries[k], last) && entries[k].event != last.event
    ensures forall k :: 0 <= k < |Others(entries, event)| ==>
      LaterFirst(Others(entries, event)[k], last) && Others(entries, event)[k].event != last.event
  {
    if entries != [] { OthersBefore(entries[..|entries| - 1], event, last); }
  }

  lemma {:induction false} OthersOk(entries: seq<Seen>, event: Id)
    requires Sorted(LaterFirst, entries) && DistinctEvents(entries)
    ensures Sorted(LaterFirst, Others(entries, event)) && DistinctEvents(Others(entries, event))
  {
    if entries != [] {
      var init, last := entries[..|entries| - 1], entries[|entries| - 1];
      OthersOk(init, event);
      OthersBefore(init, event, last);
    }
  }

  lemma {:induction false} SortOfSorted(s: seq<Seen>)
    requires Sorted(LaterFirst, s)
    ensures Sort(LaterFirst, s) == s
  {
    if s != [] {
      SortOfSorted(s[..|s| - 1]);
      assert s == s[..|s| - 1] + [s[|s| - 1]];
    }
  }

  lemma {:induction false} InsertOwn(x: Seen, s: seq<Seen>)
    requires forall k :: 0 <= k < |s| ==> s[k].event != x.event
    ensures Others(Insert(LaterFirst, x, s), x.event) == s
    ensures TimeOf(Insert(LaterFirst, x, s), x.event) == Some(x.at)
  {
    if s == [] {
      assert [x][..0] == [];
    } else if LaterFirst(s[|s| - 1], x) {
      assert (s + [x])[..|s|] == s;
      OthersOfAbsent(s, x.event);
    } else {
      var init, last := s[..|s| - 1], s[|s| - 1];
      InsertOwn(x, init);
      assert (Insert(LaterFirst, x, init) + [last])[..|s|] == Insert(LaterFirst, x, init);
      assert s == init + [last];
    }
  }

  lemma Appended(others: seq<Seen>, x: Seen)
    requires DistinctEvents(others) && forall k :: 0 <= k < |others| ==> others[k].event != x.event
    ensures DistinctEvents(others + [x])
  {
  }

  /** One group through one sync: still well-formed if anything is left, other events' entries
      are untouched, and the event itself keeps its first timestamp while its row lives. */
  lemma SyncEntries(entries: seq<Seen>, event: Id, found: Option<int>)
    requires Sorted(LaterFirst, entries) && DistinctEvents(entries)
    ensures var r := SyncedEntries(entries, event, found);
      && (r != [] ==> EntriesOk(r))
      && Others(r, event) == Others(entries, event)
      && TimeOf(r, event) == (if found.None? then None
                              else if TimeOf(entries, event).Some? then TimeOf(entries, event) else found)
  {
    hide Sort, Insert, Others, TimeOf, Sorted, DistinctEvents;
    var others := Others(entries, event);
    OthersOk(entries, event);
    OthersOfAbsent(entries, event);
    OthersOfAbsent(others, event);
    SortOfSorted(others);
    LaterFirstPreorder();
    match found {
      case None =>
        assert others + [] == others;
      case Some(_) =>
        var x := Kept(entries, event, found)[0];
        SortAppend(LaterFirst, others, x);
        Appended(others, x);
        InsertOwn(x, others);
        InsertSorted(LaterFirst, x, others);
        InsertDistinct(x, others);
    }
  }

  /** The draft after the first rows of the refresh query were appended. */
  function Draft(s: Snapshot, event: Id, found: seq<Found>): Snapshot {
    if found == [] then map key | key in s :: Others(s[key], event)
    else
      var draft, row := Draft(s, event, found[..|found| - 1]), found[|found| - 1];
      if row.createdAt.None? then draft
      else draft[row.key := EntriesOf(draft, row.key) + Kept(EntriesOf(s, row.key), event, row.createdAt)]
  }

  method SyncSnapshot(snapshot: Snapshot, event: Id, found: seq<Found>) returns (next: Snapshot)
    requires DistinctKeys(found)
    ensures next == Synced(snapshot, event, found)
  {
    hide Others, TimeOf, Synced, Sort, DistinctKeys;
    var draft: Snapshot := map key | key in snapshot :: Others(snapshot[key], event);
    for i := 0 to |found|
      invariant draft == Draft(snapshot, event, found[..i])
    {
      var row := found[i];
      assert found[..i + 1][..i] == found[..i];
      if row.createdAt.Some? {
        var existing := TimeOf(EntriesOf(snapshot, row.key), event);
        var at := if existing.Some? then existing.value else row.createdAt.value;
        draft := draft[row.key := EntriesOf(draft, row.key) + [Seen(event, at)]];
      }
    }
    assert found[..|found|] == found;
    DraftIsSynced(snapshot, event, found);
    next := map key | key in draft && draft[key] != [] :: Sort(LaterFirst, draft[key]);
  }

  lemma {:induction false} DraftEntries(s: Snapshot, event: Id, found: seq<Found>, key: Key)
    requires DistinctKeys(found)
    ensures EntriesOf(Draft(s, event, found), key)
         == Others(EntriesOf(s, key), event) + Kept(EntriesOf(s, key), event, FoundAt(found, key))
    ensures key in Draft(s, event, found) ==> key in s.Keys + FoundKeys(found)
  {
    if found == [] {
      assert Others(EntriesOf(s, key), event) + [] == Others(EntriesOf(s, key), event);
    } else {
      var init, row := found[..|found| - 1], found[|found| - 1];
      DraftEntries(s, event, init, key);
      forall k | k in FoundKeys(init) ensures k in FoundKeys(found) {
        var i :| 0 <= i < |init| && init[i].key == k;
        assert found[i].key == k;
      }
      assert row.key in FoundKeys(found);
      if row.key == key {
        FirstTime(found, |found| - 1);
        assert Others(EntriesOf(s, key), event) + [] == Others(EntriesOf(s, key), event);
      }
    }
  }

  lemma DraftIsSynced(s: Snapshot, event: Id, found: seq<Found>)
    requires DistinctKeys(found)
    ensures var draft := Draft(s, event, found);
      (map key | key in draft && draft[key] != [] :: Sort(LaterFirst, draft[key])) == Synced(s, event, found)
  {
    hide Others, Kept, FoundAt, Sort, Draft;
    var draft := Draft(s, event, found);
    forall key: Key
      ensures key in draft && draft[key] != [] <==>
        key in s.Keys + FoundKeys(found) && SyncedEntries(EntriesOf(s, key), event, FoundAt(found, key)) != []
      ensures key in draft ==>
        Sort(LaterFirst, draft[key]) == SyncedEntries(EntriesOf(s, key), event, FoundAt(found, key))
    {
      DraftEntries(s, event, found, key);
      var entries := Others(EntriesOf(s, key), event) + Kept(EntriesOf(s, key), event, FoundAt(found, key));
      assert |Sort(LaterFirst, entries)| == |entries|;
    }
  }

  lemma FirstTime(found: seq<Found>, i: nat)
    requires i < |found| && DistinctKeys(found)
    ensures FoundAt(found[..i], found[i].key) == None
  {
    forall k | k in FoundKeys(found[..i]) ensures k != found[i].key {
      var j :| 0 <= j < i && found[..i][j].key == k;
      assert found[j].key != found[i].key;
    }
    NotFound(found[..i], found[i].key);
  }

  // ---------------------------------------------------------------- any series of syncs

  datatype Sync = Sync(event: Id, found: seq<Found>)

  function AfterSyncs(s: Snapshot, syncs: seq<Sync>): Snapshot {
    if syncs == [] then s
    else
      var last := syncs[|syncs| - 1];
      Synced(AfterSyncs(s, syncs[..|syncs| - 1]), last.event, last.found)
  }

  lemma SyncKey(s: Snapshot, event: Id, found: seq<Found>, key: Key)
    requires WellFormed(s)
    ensures EntriesOf(Synced(s, event, found), key) == SyncedEntries(EntriesOf(s, key), event, FoundAt(found, key))
  {
    if key !in s.Keys + FoundKeys(found) {
      NotFound(found, key);
    }
  }

  /** One sync: the snapshot stays well-formed, no other event's entries move, the lookups made
      for the event itself are unchanged, and its timestamp survives while its row does. */
  lemma SyncProperties(s: Snapshot, event: Id, found: seq<Found>, key: Key)
    requires WellFormed(s)
    ensures WellFormed(Synced(s, event, found))
    ensures var before, after := EntriesOf(s, key), EntriesOf(Synced(s, event, found), key);
      && Others(after, event) == Others(before, event)
      && LastSeen(Synced(s, event, found), key, event) == LastSeen(s, key, event)
      && TimeOf(after, event) == (if FoundAt(found, key).None? then None
                                  else if TimeOf(before, event).Some? then TimeOf(before, event)
                                  else FoundAt(found, key))
  {
    forall k | k in Synced(s, event, found) ensures EntriesOk(Synced(s, event, found)[k]) {
      EmptyOk(s, k);
      SyncEntries(EntriesOf(s, k), event, FoundAt(found, k));
    }
    EmptyOk(s, key);
    SyncKey(s, event, found, key);
    SyncEntries(EntriesOf(s, key), event, FoundAt(found, key));
    FirstOfOthers(EntriesOf(s, key), event);
    FirstOfOthers(EntriesOf(Synced(s, event, found), key), event);
  }

  lemma EmptyOk(s: Snapshot, key: Key)
    requires WellFormed(s)
    ensures Sorted(LaterFirst, EntriesOf(s, key)) && DistinctEvents(EntriesOf(s, key))
  {}

  lemma {:induction false} FirstOfOthers(entries: seq<Seen>, event: Id)
    ensures FirstOther(entries, event)
         == if Others(entries, event) == [] then None else Some(Others(entries, event)[0].at)
  {
    if entries != [] {
      FirstOfOthers(entries[..|entries| - 1], event);
      FirstOtherAppend(entries[..|entries| - 1], entries[|entries| - 1], event);
      assert entries == entries[..|entries| - 1] + [entries[|entries| - 1]];
    }
  }

  lemma {:induction false} FirstOtherAppend(entries: seq<Seen>, last: Seen, event: Id)
    ensures FirstOther(entries + [last], event)
         == if FirstOther(entries, event).Some? then FirstOther(entries, event)
            else if last.event != event then Some(last.at) else None
  {
    if entries != [] {
      assert (entries + [last])[1..] == entries[1..] + [last];
      FirstOtherAppend(entries[1..], last, event);
    } else {
      assert (entries + [last])[1..] == [];
    }
  }

  lemma {:induction false} TimeOfOthers(entries: seq<Seen>, event: Id, other: Id)
    requires event != other
    ensures TimeOf(Others(entries, event), other) == TimeOf(entries, other)
  {
    if entries != [] {
      var init, last := entries[..|entries| - 1], entries[|entries| - 1];
      TimeOfOthers(init, event, other);
      assert Others(init, event) + [] == Others(init, event);
      if last.event != event {
        assert (Others(init, event) + [last])[..|Others(init, event)|] == Others(init, event);
      }
    }
  }

  /** Over any series of syncs the snapshot stays well-formed, and an event keeps its original
      timestamp under a key as long as every sync of that event still finds the key. */
  lemma {:induction false} TimestampKept(s: Snapshot, syncs: seq<Sync>, event: Id, key: Key)
    requires WellFormed(s)
    ensures WellFormed(AfterSyncs(s, syncs))
    ensures TimeOf(EntriesOf(s, key), event).Some?
      && (forall i :: 0 <= i < |syncs| && syncs[i].event == event ==> FoundAt(syncs[i].found, key).Some?)
      ==> TimeOf(EntriesOf(AfterSyncs(s, syncs), key), event) == TimeOf(EntriesOf(s, key), event)
  {
    if syncs != [] {
      var init, last := syncs[..|syncs| - 1], syncs[|syncs| - 1];
      TimestampKept(s, init, event, key);
      var before := AfterSyncs(s, init);
      SyncProperties(before, last.event, last.found, key);
      if last.event != event {
        TimeOfOthers(EntriesOf(before, key), last.event, event);
        TimeOfOthers(EntriesOf(Synced(before, last.event, last.found), key), last.event, event);
      }
    }
  }
}
