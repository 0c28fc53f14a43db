/** The evidence table that a synced snapshot answers for: the loaded one, with the rows of each
    refreshed event replaced by the rows found, under the stamps the event had first. */
module NoveltyTable {
  import opened Wrappers
  import opened Sequences
  import opened Sorting
  import opened NoveltySnapshot

  /** When a table last has live evidence of one event under a key. */
  function StampIn(rows: seq<Evidence>, key: Key, event: Id): Option<int> {
    if rows == [] then None
    else
      var e := rows[|rows| - 1];
      Latest(StampIn(rows[..|rows| - 1], key, event),
             if e.key == key && e.event == event && !e.invalidated then e.createdAt else None)
  }

  function Without(rows: seq<Evidence>, event: Id): seq<Evidence> {
    if rows == [] then []
    else
      var e := rows[|rows| - 1];
      Without(rows[..|rows| - 1], event) + if e.event == event then [] else [e]
  }

  /** The stamp an event has under a key it already had, else the one just found. */
  function FirstStamp(rows: seq<Evidence>, key: Key, event: Id, at: int): int {
    if StampIn(rows, key, event).Some? then StampIn(rows, key, event).value else at
  }

  function FoundRows(rows: seq<Evidence>, event: Id, found: seq<Found>): seq<Evidence> {
    if found == [] then []
    else
      var f := found[|found| - 1];
      FoundRows(rows, event, found[..|found| - 1])
      + if f.createdAt.None? then []
        else [Evidence(f.key, event, Some(FirstStamp(rows, f.key, event, f.createdAt.value)), false)]
  }

  /** The table after one event was refreshed, first stamps kept. */
  function Restamped(rows: seq<Evidence>, sync: Sync): seq<Evidence> {
    Without(rows, sync.event) + FoundRows(rows, sync.event, sync.found)
  }

  function RestampedAll(rows: seq<Evidence>, syncs: seq<Sync>): seq<Evidence> {
    if syncs == [] then rows else Restamped(RestampedAll(rows, syncs[..|syncs| - 1]), syncs[|syncs| - 1])
  }

  // ---------------------------------------------------------------- times in entry lists

  lemma {:induction false} TimeIsEntry(s: seq<Seen>, event: Id, at: int)
    requires DistinctEvents(s)
    ensures TimeOf(s, event) == Some(at) <==> Seen(event, at) in s
  {
    if s != [] {
      var init, last := s[..|s| - 1], s[|s| - 1];
      assert s == init + [last];
      TimeIsEntry(init, event, at);
      assert forall x :: x in init ==> x.event != last.event;
    }
  }

  lemma SortTimes(s: seq<Seen>, event: Id)
    requires DistinctEvents(s) && DistinctEvents(Sort(LaterFirst, s))
    ensures TimeOf(Sort(LaterFirst, s), event) == TimeOf(s, event)
  {
    hide TimeOf, DistinctEvents, Sort;
    SortPermutes(LaterFirst, s);
    SameElements(s, Sort(LaterFirst, s));
    var a, b := TimeOf(s, event), TimeOf(Sort(LaterFirst, s), event);
    if a.Some? {
      TimeIsEntry(s, event, a.value);
      TimeIsEntry(Sort(LaterFirst, s), event, a.value);
    } else if b.Some? {
      TimeIsEntry(s, event, b.value);
      TimeIsEntry(Sort(LaterFirst, s), event, b.value);
    }
  }

  lemma {:induction false} TimeOfFront(x: Seen, rest: seq<Seen>, event: Id)
    ensures TimeOf([x] + rest, event)
         == if TimeOf(rest, event).Some? then TimeOf(rest, event) else if x.event == event then Some(x.at) else None
  {
    if rest == [] {
      assert ([x] + rest)[..0] == [];
    } else {
      assert ([x] + rest)[..|rest|] == [x] + rest[..|rest| - 1];
      TimeOfFront(x, rest[..|rest| - 1], event);
    }
  }

  lemma NoTimes(event: Id)
    ensures TimeOf([], event) == None
  {
  }

  lemma {:induction false} NoteTime(entries: seq<Seen>, event: Id, at: int, asked: Id)
    requires DistinctEvents(entries)
    ensures TimeOf(Note(entries, event, at), asked)
         == Latest(TimeOf(entries, asked), if asked == event then Some(at) else None)
  {
    hide TimeOf;
    NoTimes(asked);
    if entries == [] {
      TimeOfFront(Seen(event, at), [], asked);
      assert [Seen(event, at)] + [] == [Seen(event, at)];
    } else {
      var head, rest := entries[0], entries[1..];
      assert entries == [head] + rest;
      TimeOfFront(head, rest, asked);
      if head.event == event {
        OthersOfAbsent(rest, event);
        TimeOfFront(Seen(event, if at > head.at then at else head.at), rest, asked);
      } else {
        NoteTime(rest, event, at, asked);
        TimeOfFront(head, Note(rest, event, at), asked);
        OthersOfAbsent(rest, head.event);
      }
    }
  }

  lemma {:induction false} GroupedTimes(rows: seq<Evidence>, key: Key, event: Id)
    ensures TimeOf(EntriesOf(Grouped(rows), key), event) == StampIn(rows, key, event)
  {
    hide Note, TimeOf;
    if rows == [] {
      NoTimes(event);
    } else {
      var init, e := rows[..|rows| - 1], rows[|rows| - 1];
      GroupedTimes(init, key, event);
      if e.key == key && e.createdAt.Some? {
        GroupedMax(init, key, event);
        NoteTime(EntriesOf(Grouped(init), key), e.event, e.createdAt.value, event);
      }
    }
  }

  // ---------------------------------------------------------------- the snapshot stands for a table

  /** The snapshot holds, per key and event, the table's stamp, and nothing else. */
  ghost predicate StandsFor(s: Snapshot, rows: seq<Evidence>) {
    WellFormed(s) && forall key, event :: TimeOf(EntriesOf(s, key), event) == StampIn(rows, key, event)
  }

  lemma LoadedStands(rows: seq<Evidence>)
    ensures StandsFor(Loaded(rows), rows)
  {
    hide TimeOf, Sort, WellFormed, StampIn, DistinctEvents;
    LoadedWellFormed(rows);
    forall key, event ensures TimeOf(EntriesOf(Loaded(rows), key), event) == StampIn(rows, key, event) {
      GroupedTimes(rows, key, event);
      GroupedMax(rows, key, event);
      if key in Grouped(rows) {
        SortDistinct(Grouped(rows)[key]);
        SortTimes(Grouped(rows)[key], event);
      }
    }
  }

  lemma {:induction false} StampConcat(a: seq<Evidence>, b: seq<Evidence>, key: Key, event: Id)
    ensures StampIn(a + b, key, event) == Latest(StampIn(a, key, event), StampIn(b, key, event))
  {
    if b == [] {
      assert a + b == a;
    } else {
      assert (a + b)[..|a + b| - 1] == a + b[..|b| - 1];
      StampConcat(a, b[..|b| - 1], key, event);
    }
  }

  lemma StampOne(e: Evidence, key: Key, event: Id)
    ensures StampIn([e], key, event) == if e.key == key && e.event == event && !e.invalidated then e.createdAt else None
  {
    assert [e][..0] == [];
  }

  lemma {:induction false} StampWithout(rows: seq<Evidence>, gone: Id, key: Key, event: Id)
    ensures StampIn(Without(rows, gone), key, event) == if event == gone then None else StampIn(rows, key, event)
  {
    if rows != [] {
      var init, e := rows[..|rows| - 1], rows[|rows| - 1];
      StampWithout(init, gone, key, event);
      var kept := if e.event == gone then [] else [e];
      StampConcat(Without(init, gone), kept, key, event);
      StampOne(e, key, event);
    }
  }

  lemma {:induction false} StampFound(rows: seq<Evidence>, event: Id, found: seq<Found>, key: Key, asked: Id)
    requires DistinctKeys(found)
    ensures StampIn(FoundRows(rows, event, found), key, asked)
         == if asked != event || FoundAt(found, key).None? then None
            else Some(FirstStamp(rows, key, event, FoundAt(found, key).value))
  {
    hide FirstStamp;
    if found != [] {
      var init, f := found[..|found| - 1], found[|found| - 1];
      StampFound(rows, event, init, key, asked);
      if f.createdAt.Some? {
        var e := Evidence(f.key, event, Some(FirstStamp(rows, f.key, event, f.createdAt.value)), false);
        StampConcat(FoundRows(rows, event, init), [e], key, asked);
        StampOne(e, key, asked);
        FirstTime(found, |found| - 1);
      } else {
        assert FoundRows(rows, event, init) + [] == FoundRows(rows, event, init);
      }
    }
  }

  lemma SyncStands(s: Snapshot, rows: seq<Evidence>, sync: Sync)
    requires StandsFor(s, rows) && DistinctKeys(sync.found)
    ensures StandsFor(Synced(s, sync.event, sync.found), Restamped(rows, sync))
  {
    hide Synced, TimeOf, StampIn, WellFormed, DistinctKeys, Without, FoundRows;
    var s' := Synced(s, sync.event, sync.found);
    forall key, event
      ensures TimeOf(EntriesOf(s', key), event) == StampIn(Restamped(rows, sync), key, event) && WellFormed(s')
    {
      SyncProperties(s, sync.event, sync.found, key);
      StampConcat(Without(rows, sync.event), FoundRows(rows, sync.event, sync.found), key, event);
      StampWithout(rows, sync.event, key, event);
      StampFound(rows, sync.event, sync.found, key, event);
      if event != sync.event {
        TimeOfOthers(EntriesOf(s, key), sync.event, event);
        TimeOfOthers(EntriesOf(s', key), sync.event, event);
      }
    }
    SyncProperties(s, sync.event, sync.found, Key(0, ""));
  }

  // ---------------------------------------------------------------- lookups

  lemma {:induction false} MaxExceptIs(s: seq<Seen>, asking: Id)
    ensures var m := MaxExcept(s, asking);
      && (m.Some? ==> exists x :: x in s && x.event != asking && x.at == m.value)
      && (forall x :: x in s && x.event != asking ==> m.Some? && x.at <= m.value)
  {
    if s != [] {
      MaxExceptIs(s[1..], asking);
      assert s == [s[0]] + s[1..];
      assert forall x :: x in s[1..] ==> x in s;
    }
  }

  lemma {:induction false} MaxOfOthersIs(rows: seq<Evidence>, key: Key, asking: Id)
    ensures var m := MaxOfOthers(rows, key, asking);
      && (m.Some? ==> exists event: Id :: event != asking && StampIn(rows, key, event) == m)
      && (forall event: Id :: event != asking && StampIn(rows, key, event).Some? ==>
            m.Some? && StampIn(rows, key, event).value <= m.value)
  {
    if rows != [] {
      var init, e := rows[..|rows| - 1], rows[|rows| - 1];
      MaxOfOthersIs(init, key, asking);
      var m := MaxOfOthers(rows, key, asking);
      if m.Some? && m == MaxOfOthers(init, key, asking) {
        var event: Id :| event != asking && StampIn(init, key, event) == m;
        assert StampIn(rows, key, event) == m;
      } else if m.Some? {
        assert StampIn(rows, key, e.event) == m;
      }
    }
  }

  lemma LookupIsQuery(s: Snapshot, rows: seq<Evidence>, key: Key, asking: Id)
    requires StandsFor(s, rows)
    ensures LastSeen(s, key, asking) == MaxOfOthers(rows, key, asking)
  {
    hide TimeOf, StampIn, MaxExcept, MaxOfOthers, FirstOther, DistinctEvents, Sorted;
    var entries := EntriesOf(s, key);
    EmptyOk(s, key);
    FirstIsMax(entries, asking);
    MaxExceptIs(entries, asking);
    MaxOfOthersIs(rows, key, asking);
    var a, b := MaxExcept(entries, asking), MaxOfOthers(rows, key, asking);
    if a.Some? {
      var x :| x in entries && x.event != asking && x.at == a.value;
      TimeIsEntry(entries, x.event, x.at);
      assert StampIn(rows, key, x.event) == Some(x.at);
    }
    if b.Some? {
      var event: Id :| event != asking && StampIn(rows, key, event) == b;
      TimeIsEntry(entries, event, b.value);
    }
  }

  /** Over any series of syncs after loading, every lookup, for whichever event, is the query over
      the table with each refreshed event's rows at the stamps they had first. */
  lemma {:induction false} SyncedAnswersQuery(rows: seq<Evidence>, syncs: seq<Sync>, key: Key, asking: Id)
    requires forall i :: 0 <= i < |syncs| ==> DistinctKeys(syncs[i].found)
    ensures StandsFor(AfterSyncs(Loaded(rows), syncs), RestampedAll(rows, syncs))
    ensures LastSeen(AfterSyncs(Loaded(rows), syncs), key, asking)
        == MaxOfOthers(RestampedAll(rows, syncs), key, asking)
  {
    hide StandsFor, Loaded, Synced, Restamped, DistinctKeys, LastSeen, MaxOfOthers;
    if syncs == [] {
      LoadedStands(rows);
    } else {
      var init, last := syncs[..|syncs| - 1], syncs[|syncs| - 1];
      SyncedAnswersQuery(rows, init, key, asking);
      SyncStands(AfterSyncs(Loaded(rows), init), RestampedAll(rows, init), last);
    }
    LookupIsQuery(AfterSyncs(Loaded(rows), syncs), RestampedAll(rows, syncs), key, asking);
  }
}
