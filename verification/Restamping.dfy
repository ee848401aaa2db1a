/** Why a repaired route is served from the cache again: its index rows are stamped anew. */
module Restamping {
  import opened Wrappers
  import opened JsonTree
  import opened Documents
  import opened Storage
  import opened LastWriter
  import opened Reader
  import opened LiveCopy

  /** No index row these writes carry is stamped before this time. */
  ghost predicate StampedFrom(writes: seq<Write>, now: int) {
    forall w :: w in writes && w.RouteIndex? ==> w.updatedAt >= now
  }

  lemma {:induction false} StampedRows(log: seq<Write>, writes: seq<Write>, now: int, r: RouteRow)
    requires StampedFrom(writes, now)
    ensures r in RouteKeys(writes) ==> r in RoutesOf(log + writes) && RoutesOf(log + writes)[r] >= now
  {
    if writes != [] {
      var front, last := writes[..|writes| - 1], writes[|writes| - 1];
      SplitLast(writes);
      AppendIsAssociative(log, front, [last]);
      assert StampedFrom(front, now);
      StampedRows(log, front, now, r);
      ReplayOne(log + front, last);
      assert r in RouteKeys(writes) ==> r in RouteKeys(front) || (last.RouteIndex? && last.route == r);
    }
  }

  lemma StampsJoin(a: seq<Write>, b: seq<Write>, now: int)
    requires StampedFrom(a, now) && StampedFrom(b, now)
    ensures StampedFrom(a + b, now)
  {
  }

  lemma EntryIsStamped(action: Action, operator: string, entry: Json, now: int)
    ensures StampedFrom(WritesOf(action, operator, entry, now), now)
  {
    if StorableEntry(action, operator, entry) && action != BusMap {
      var id := IdentifiersOf(operator, entry.members);
      StampsJoin(DocumentWrites(id, entry.members), IndexWrites(id, entry.members, now), now);
      StampsJoin(DocumentWrites(id, entry.members) + IndexWrites(id, entry.members, now),
                 BusMapWrites(id, entry.members), now);
    }
  }

  lemma {:induction false} RequestIsStamped(action: Action, operator: string, entries: seq<Json>, clock: nat -> int,
                                            now: int)
    requires forall k :: clock(k) >= now
    ensures StampedFrom(AllWrites(action, operator, entries, clock), now)
  {
    if entries != [] {
      var front, last, own := entries[..|entries| - 1], entries[|entries| - 1], clock(|entries| - 1);
      RequestIsStamped(action, operator, front, clock, now);
      EntryIsStamped(action, operator, last, own);
      assert StampedFrom(WritesOf(action, operator, last, own), now);
      StampsJoin(AllWrites(action, operator, front, clock), WritesOf(action, operator, last, own), now);
    }
  }

  function StoredAt(action: Action, operator: string, entry: Json, now: int): StoredEntry
    requires entry.Obj?
  {
    StoredEntry(action, IdentifiersOf(operator, entry.members), entry.members, now)
  }

  lemma {:induction false} EveryEntryIndexesItsRows(action: Action, operator: string, entries: seq<Json>,
                                                    clock: nat -> int, i: nat, r: RouteRow)
    requires i < |entries| && AllStorable(action, operator, entries)
    requires StorableEntry(action, operator, entries[i]) && Indexes(StoredAt(action, operator, entries[i], clock(i)), r)
    ensures r in RouteKeys(AllWrites(action, operator, entries, clock))
  {
    var front, last := entries[..|entries| - 1], entries[|entries| - 1];
    RouteKeysOfAppend(AllWrites(action, operator, front, clock),
                      WritesOf(action, operator, last, clock(|entries| - 1)));
    if i == |entries| - 1 {
      RowsOfEntry(StoredAt(action, operator, last, clock(i)), r);
    } else {
      EveryEntryIndexesItsRows(action, operator, front, clock, i, r);
    }
  }

  /**
   * A completely stored request that indexes a row of the route makes the route serve from the cache
   * until its first stamp is older than both age limits, whatever its other rows say.
   */
  lemma RepairedRouteIsNotCold(log: seq<Write>, action: Action, operator: string, entries: seq<Json>, clock: nat -> int,
                               now: int, i: nat, r: RouteRow, lookup: Lookup, rows: seq<RouteRow>, newest: int,
                               later: int, hotMaxAge: int, warmMaxAge: int)
    requires i < |entries| && AllStorable(action, operator, entries) && forall k :: clock(k) >= now
    requires StorableEntry(action, operator, entries[i]) && Indexes(StoredAt(action, operator, entries[i], clock(i)), r)
    requires RowMatches(r, lookup) && Lists(rows, RoutesOf(log + AllWrites(action, operator, entries, clock)), lookup)
    requires IsNewest(newest, rows, RoutesOf(log + AllWrites(action, operator, entries, clock)))
    requires now > ZERO_TIME && (later - now <= hotMaxAge || later - now <= warmMaxAge)
    ensures ClassifyFreshness(newest, later, hotMaxAge, warmMaxAge) != Cold
  {
    var writes := AllWrites(action, operator, entries, clock);
    RequestIsStamped(action, operator, entries, clock, now);
    EveryEntryIndexesItsRows(action, operator, entries, clock, i, r);
    StampedRows(log, writes, now, r);
    ColdMeansEveryRowIsStale(rows, RoutesOf(log + writes), newest, later, hotMaxAge, warmMaxAge);
    assert r in rows && !Stale(RoutesOf(log + writes)[r], later, hotMaxAge, warmMaxAge);
  }
}
