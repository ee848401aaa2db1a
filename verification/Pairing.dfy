/** Matching the cached entries of one lookup with the live ones, and counting what differs. */
module Pairing {
  import opened Wrappers
  import opened JsonTree
  import opened Canonical
  import opened ContentRelation
  import opened Paths
  import opened Collector

  /**
   * One raw entry: its bytes, the tree the number-preserving decoder reads from them, and whether
   * they also decode into a plain object, which is what the identity is read from.
   */
  datatype Entry = Entry(text: string, tree: Option<Json>, readable: bool)

  const NO_IDENTITY := EntryIdentity("", "", "")

  /** EntryIdentityOf: missing or non-string components read blank. */
  function IdentityOf(e: Entry): EntryIdentity {
    if e.readable && e.tree.Some? && e.tree.value.Obj? then
      var members := e.tree.value.members;
      EntryIdentity(StringField(members, "operatorCode"), StringField(members, "tripCode"),
                    StringField(members, "tripStageCode"))
    else NO_IDENTITY
  }

  /** Entries that cannot be read, whatever they hold, all have the blank identity and so pair with each other. */
  lemma UnreadableEntriesPair(a: Entry, b: Entry)
    requires !a.readable && !b.readable
    ensures IdentityOf(a) == IdentityOf(b) == EntryIdentity("", "", "")
  {
  }

  ghost function Identities(entries: seq<Entry>): set<EntryIdentity> {
    set e | e in entries :: IdentityOf(e)
  }

  /** The cached entry an identity stands for: the last one written under it. */
  function LastWith(entries: seq<Entry>, identity: EntryIdentity): Option<Entry> {
    if entries == [] then None
    else if IdentityOf(entries[|entries| - 1]) == identity then Some(entries[|entries| - 1])
    else LastWith(entries[..|entries| - 1], identity)
  }

  lemma {:induction false} LastWithFindsIdentities(entries: seq<Entry>, identity: EntryIdentity)
    ensures LastWith(entries, identity).Some? <==> identity in Identities(entries)
    ensures LastWith(entries, identity).Some? ==>
              LastWith(entries, identity).value in entries && IdentityOf(LastWith(entries, identity).value) == identity
  {
    if entries != [] {
      LastWithFindsIdentities(entries[..|entries| - 1], identity);
      assert entries == entries[..|entries| - 1] + [entries[|entries| - 1]];
    }
  }

  // ---------- what one live entry contributes ----------

  ghost predicate Unpaired(cached: seq<Entry>, live: Entry) {
    IdentityOf(live) !in Identities(cached)
  }

  /** The comparison total of a live entry that has a cached partner; one if either cannot be decoded. */
  ghost function PairTotal(cached: seq<Entry>, live: Entry): nat
    requires !Unpaired(cached, live)
  {
    LastWithFindsIdentities(cached, IdentityOf(live));
    var partner := LastWith(cached, IdentityOf(live)).value;
    if partner.tree.None? || live.tree.None? then 1
    else |EntryDifferences(IdentityOf(live), partner.tree.value, live.tree.value)|
  }

  ghost function LiveDifferences(cached: seq<Entry>, live: Entry): seq<DifferenceEntry> {
    var identity := IdentityOf(live);
    match LastWith(cached, identity)
    case None => [DifferenceEntry(identity, ROOT_PATH, MissingInCache, "", live.text)]
    case Some(partner) =>
      if partner.tree.None? || live.tree.None? then [DifferenceEntry(identity, ROOT_PATH, ValueMismatch, "", "")]
      else Capped(EntryDifferences(identity, partner.tree.value, live.tree.value))
  }

  // ---------- totals over lists ----------

  ghost function CountUnpaired(cached: seq<Entry>, live: seq<Entry>): nat {
    if live == [] then 0
    else CountUnpaired(cached, live[..|live| - 1]) + (if Unpaired(cached, live[|live| - 1]) then 1 else 0)
  }

  ghost function SumPaired(cached: seq<Entry>, live: seq<Entry>): nat {
    if live == [] then 0
    else SumPaired(cached, live[..|live| - 1])
         + (if Unpaired(cached, live[|live| - 1]) then 0 else PairTotal(cached, live[|live| - 1]))
  }

  ghost function AllLiveDifferences(cached: seq<Entry>, live: seq<Entry>): seq<DifferenceEntry> {
    if live == [] then []
    else AllLiveDifferences(cached, live[..|live| - 1]) + LiveDifferences(cached, live[|live| - 1])
  }

  /** Cached identities in the order they first appear. */
  ghost function FirstAppearances(entries: seq<Entry>): seq<EntryIdentity> {
    if entries == [] then []
    else
      var front, identity := entries[..|entries| - 1], IdentityOf(entries[|entries| - 1]);
      if identity in Identities(front) then FirstAppearances(front) else FirstAppearances(front) + [identity]
  }

  /** One difference for every identity of the list that no live entry has, in list order. */
  ghost function MissingInLive(cached: seq<Entry>, live: seq<Entry>, order: seq<EntryIdentity>): seq<DifferenceEntry> {
    if order == [] then []
    else
      var identity := order[|order| - 1];
      var front := MissingInLive(cached, live, order[..|order| - 1]);
      if identity in Identities(live) then front
      else
        var last := LastWith(cached, identity);
        front + [DifferenceEntry(identity, ROOT_PATH, MissingInBits, if last.Some? then last.value.text else "", "")]
  }

  lemma {:induction false} FirstAppearancesListsIdentities(entries: seq<Entry>)
    ensures forall id :: id in FirstAppearances(entries) <==> id in Identities(entries)
    ensures forall i, j :: 0 <= i < j < |FirstAppearances(entries)| ==>
        FirstAppearances(entries)[i] != FirstAppearances(entries)[j]
  {
    if entries != [] {
      var front, last := entries[..|entries| - 1], entries[|entries| - 1];
      FirstAppearancesListsIdentities(front);
      assert entries == front + [last];
    }
  }

  ghost function IdentitySet(order: seq<EntryIdentity>): set<EntryIdentity> {
    set id | id in order
  }

  lemma OneMoreDistinct(order: seq<EntryIdentity>, ids: set<EntryIdentity>)
    requires order != [] && forall i, j :: 0 <= i < j < |order| ==> order[i] != order[j]
    ensures |IdentitySet(order) - ids|
            == |IdentitySet(order[..|order| - 1]) - ids| + (if order[|order| - 1] in ids then 0 else 1)
  {
    var front, last := order[..|order| - 1], order[|order| - 1];
    SplitLast(order);
    var before := IdentitySet(front) - ids;
    assert last !in front;
    assert IdentitySet(order) == IdentitySet(front) + {last};
    if last in ids {
      assert IdentitySet(order) - ids == before;
    } else {
      assert IdentitySet(order) - ids == before + {last};
    }
  }

  /** Distinct identities: the differences of the tail count a set. */
  lemma {:induction false} MissingInOrderCounts(cached: seq<Entry>, live: seq<Entry>, order: seq<EntryIdentity>)
    requires forall i, j :: 0 <= i < j < |order| ==> order[i] != order[j]
    ensures |MissingInLive(cached, live, order)| == |IdentitySet(order) - Identities(live)|
  {
    if order == [] {
      assert IdentitySet(order) - Identities(live) == {};
    } else {
      MissingInOrderCounts(cached, live, order[..|order| - 1]);
      OneMoreDistinct(order, Identities(live));
    }
  }

  lemma MissingInLiveCounts(cached: seq<Entry>, live: seq<Entry>)
    ensures |MissingInLive(cached, live, FirstAppearances(cached))| == |Identities(cached) - Identities(live)|
  {
    var order := FirstAppearances(cached);
    FirstAppearancesListsIdentities(cached);
    MissingInOrderCounts(cached, live, order);
    assert IdentitySet(order) == Identities(cached);
  }

  /** The map holds, for every identity, the last cached entry under it. */
  ghost predicate IndexedBy(cached: seq<Entry>, byIdentity: map<EntryIdentity, Entry>) {
    && byIdentity.Keys == Identities(cached)
    && forall id | id in byIdentity :: LastWith(cached, id) == Some(byIdentity[id])
  }

  lemma IdentitiesGrow(entries: seq<Entry>, i: nat)
    requires i < |entries|
    ensures Identities(entries[..i + 1]) == Identities(entries[..i]) + {IdentityOf(entries[i])}
  {
    assert entries[..i + 1] == entries[..i] + [entries[i]];
  }

  lemma OneMoreCached(cached: seq<Entry>, i: nat)
    requires i < |cached|
    ensures Identities(cached[..i + 1]) == Identities(cached[..i]) + {IdentityOf(cached[i])}
    ensures FirstAppearances(cached[..i + 1])
            == if IdentityOf(cached[i]) in Identities(cached[..i]) then FirstAppearances(cached[..i])
               else FirstAppearances(cached[..i]) + [IdentityOf(cached[i])]
    ensures forall id :: LastWith(cached[..i + 1], id)
                         == if IdentityOf(cached[i]) == id then Some(cached[i]) else LastWith(cached[..i], id)
  {
    IdentitiesGrow(cached, i);
    var upTo := cached[..i + 1];
    assert upTo[..|upTo| - 1] == cached[..i];
    forall id
      ensures LastWith(upTo, id) == if IdentityOf(cached[i]) == id then Some(cached[i]) else LastWith(cached[..i], id)
    {
      assert upTo[|upTo| - 1] == cached[i];
    }
  }

  method IndexCached(cached: seq<Entry>) returns (byIdentity: map<EntryIdentity, Entry>, order: seq<EntryIdentity>)
    ensures IndexedBy(cached, byIdentity)
    ensures order == FirstAppearances(cached)
  {
    byIdentity, order := map[], [];
    for i := 0 to |cached|
      invariant IndexedBy(cached[..i], byIdentity)
      invariant order == FirstAppearances(cached[..i])
    {
      var identity := IdentityOf(cached[i]);
      OneMoreCached(cached, i);
      if identity !in byIdentity {
        order := order + [identity];
      }
      byIdentity := byIdentity[identity := cached[i]];
    }
    assert cached[..|cached|] == cached;
  }

  /** What one live entry adds to the total. */
  ghost function LiveTotal(cached: seq<Entry>, live: Entry): nat {
    if Unpaired(cached, live) then 1 else PairTotal(cached, live)
  }

  method CompareLive(ghost cached: seq<Entry>, byIdentity: map<EntryIdentity, Entry>, live: Entry)
    returns (differences: seq<DifferenceEntry>, total: nat)
    requires IndexedBy(cached, byIdentity)
    ensures total == LiveTotal(cached, live)
    ensures differences == LiveDifferences(cached, live)
  {
    var identity := IdentityOf(live);
    LastWithFindsIdentities(cached, identity);
    if identity !in byIdentity {
      return [DifferenceEntry(identity, ROOT_PATH, MissingInCache, "", live.text)], 1;
    }
    var outcome := CompareEntries(identity, byIdentity[identity].tree, live.tree);
    match outcome
    case DecodeError =>
      differences, total := [DifferenceEntry(identity, ROOT_PATH, ValueMismatch, "", "")], 1;
    case Compared(entries, entryTotal) =>
      differences, total := entries, entryTotal;
  }

  lemma OneMoreLive(cached: seq<Entry>, live: seq<Entry>, i: nat)
    requires i < |live|
    ensures Identities(live[..i + 1]) == Identities(live[..i]) + {IdentityOf(live[i])}
    ensures CountUnpaired(cached, live[..i + 1]) + SumPaired(cached, live[..i + 1])
            == CountUnpaired(cached, live[..i]) + SumPaired(cached, live[..i]) + LiveTotal(cached, live[i])
    ensures AllLiveDifferences(cached, live[..i + 1])
            == AllLiveDifferences(cached, live[..i]) + LiveDifferences(cached, live[i])
  {
    IdentitiesGrow(live, i);
    assert live[..i + 1][..i] == live[..i];
  }

  method CompareAllLive(ghost cached: seq<Entry>, byIdentity: map<EntryIdentity, Entry>, live: seq<Entry>)
    returns (differences: seq<DifferenceEntry>, total: nat, matched: set<EntryIdentity>)
    requires IndexedBy(cached, byIdentity)
    ensures total == CountUnpaired(cached, live) + SumPaired(cached, live)
    ensures differences == AllLiveDifferences(cached, live)
    ensures matched == Identities(live) * Identities(cached)
  {
    differences, total, matched := [], 0, {};
    for i := 0 to |live|
      invariant matched == Identities(live[..i]) * Identities(cached)
      invariant total == CountUnpaired(cached, live[..i]) + SumPaired(cached, live[..i])
      invariant differences == AllLiveDifferences(cached, live[..i])
    {
      OneMoreLive(cached, live, i);
      var entryDifferences, entryTotal := CompareLive(cached, byIdentity, live[i]);
      if IdentityOf(live[i]) in byIdentity {
        matched := matched + {IdentityOf(live[i])};
      }
      total := total + entryTotal;
      differences := differences + entryDifferences;
    }
    assert live[..|live|] == live;
  }

  lemma OneMoreMissing(cached: seq<Entry>, live: seq<Entry>, order: seq<EntryIdentity>, i: nat)
    requires i < |order| && forall id :: id in order ==> id in Identities(cached)
    ensures order[i] in Identities(cached) && LastWith(cached, order[i]).Some?
    ensures MissingInLive(cached, live, order[..i + 1])
            == if order[i] in Identities(live) then MissingInLive(cached, live, order[..i])
               else MissingInLive(cached, live, order[..i])
                    + [DifferenceEntry(order[i], ROOT_PATH, MissingInBits, LastWith(cached, order[i]).value.text, "")]
  {
    TakeOneMore(order, i);
    assert order[i] in order;
    LastWithFindsIdentities(cached, order[i]);
  }

  method ReportMissing(ghost cached: seq<Entry>, byIdentity: map<EntryIdentity, Entry>, ghost live: seq<Entry>,
                       order: seq<EntryIdentity>, matched: set<EntryIdentity>) returns (missing: seq<DifferenceEntry>)
    requires IndexedBy(cached, byIdentity) && order == FirstAppearances(cached)
    requires matched == Identities(live) * Identities(cached)
    ensures missing == MissingInLive(cached, live, order)
  {
    FirstAppearancesListsIdentities(cached);
    missing := [];
    for i := 0 to |order|
      invariant missing == MissingInLive(cached, live, order[..i])
    {
      OneMoreMissing(cached, live, order, i);
      if order[i] !in matched {
        missing := missing + [DifferenceEntry(order[i], ROOT_PATH, MissingInBits, byIdentity[order[i]].text, "")];
      }
    }
    assert order[..|order|] == order;
  }

  /** pairAndCompare. */
  method PairAndCompare(cached: seq<Entry>, live: seq<Entry>) returns (differences: seq<DifferenceEntry>, total: nat)
    ensures total == CountUnpaired(cached, live) + SumPaired(cached, live) + |Identities(cached) - Identities(live)|
    ensures differences == Listing(cached, live)
  {
    var byIdentity, order := IndexCached(cached);
    var liveDifferences, liveTotal, matched := CompareAllLive(cached, byIdentity, live);
    var missing := ReportMissing(cached, byIdentity, live, order, matched);
    differences, total := liveDifferences + missing, liveTotal + |missing|;
    MissingInLiveCounts(cached, live);
  }

  // ---------- what is listed, and as what ----------

  /** Everything a comparison lists. */
  ghost function Listing(cached: seq<Entry>, live: seq<Entry>): seq<DifferenceEntry> {
    AllLiveDifferences(cached, live) + MissingInLive(cached, live, FirstAppearances(cached))
  }

  lemma {:induction false} LiveDifferencesAreListed(cached: seq<Entry>, live: seq<Entry>, d: DifferenceEntry)
    ensures d in AllLiveDifferences(cached, live) <==> exists e :: e in live && d in LiveDifferences(cached, e)
  {
    if live != [] {
      SplitLast(live);
      LiveDifferencesAreListed(cached, live[..|live| - 1], d);
      assert forall e :: e in live <==> e in live[..|live| - 1] || e == live[|live| - 1];
    }
  }

  /** What a cached entry no live one has is listed as. */
  ghost function MissingEntry(cached: seq<Entry>, identity: EntryIdentity): DifferenceEntry {
    var last := LastWith(cached, identity);
    DifferenceEntry(identity, ROOT_PATH, MissingInBits, if last.Some? then last.value.text else "", "")
  }

  lemma {:induction false} MissingAreListed(cached: seq<Entry>, live: seq<Entry>, order: seq<EntryIdentity>,
                                            d: DifferenceEntry)
    ensures d in MissingInLive(cached, live, order)
            <==> d.identity in order && d.identity !in Identities(live) && d == MissingEntry(cached, d.identity)
  {
    if order != [] {
      SplitLast(order);
      MissingAreListed(cached, live, order[..|order| - 1], d);
      assert forall id :: id in order <==> id in order[..|order| - 1] || id == order[|order| - 1];
    }
  }

  lemma PairedEntriesMismatch(identity: EntryIdentity, a: Json, b: Json, d: DifferenceEntry)
    requires d in Capped(EntryDifferences(identity, a, b))
    ensures d.kind == ValueMismatch && d.identity == identity
  {
  }

  lemma LiveKinds(cached: seq<Entry>, e: Entry, d: DifferenceEntry)
    requires d in LiveDifferences(cached, e)
    ensures d.identity == IdentityOf(e) && d.kind != MissingInBits
    ensures d.kind == MissingInCache <==> Unpaired(cached, e)
    ensures d.kind == MissingInCache ==> d == DifferenceEntry(IdentityOf(e), ROOT_PATH, MissingInCache, "", e.text)
  {
    LastWithFindsIdentities(cached, IdentityOf(e));
    if !Unpaired(cached, e) {
      var partner := LastWith(cached, IdentityOf(e)).value;
      if partner.tree.Some? && e.tree.Some? {
        PairedEntriesMismatch(IdentityOf(e), partner.tree.value, e.tree.value, d);
      }
    }
  }

  /** A live entry is listed whole as missing in the cache exactly when no cached entry has its identity. */
  lemma ListedAsMissingInCache(cached: seq<Entry>, live: seq<Entry>, d: DifferenceEntry)
    ensures d in Listing(cached, live) && d.kind == MissingInCache
            <==> exists e :: && e in live && IdentityOf(e) !in Identities(cached)
                             && d == DifferenceEntry(IdentityOf(e), ROOT_PATH, MissingInCache, "", e.text)
  {
    LiveDifferencesAreListed(cached, live, d);
    MissingAreListed(cached, live, FirstAppearances(cached), d);
    forall e | e in live && d in LiveDifferences(cached, e) && d.kind == MissingInCache
      ensures IdentityOf(e) !in Identities(cached)
      ensures d == DifferenceEntry(IdentityOf(e), ROOT_PATH, MissingInCache, "", e.text)
    {
      LiveKinds(cached, e, d);
    }
    forall e | e in live && IdentityOf(e) !in Identities(cached)
      ensures LiveDifferences(cached, e) == [DifferenceEntry(IdentityOf(e), ROOT_PATH, MissingInCache, "", e.text)]
    {
      LastWithFindsIdentities(cached, IdentityOf(e));
    }
  }

  /** A cached entry is listed whole, by its last text, exactly when no live entry has its identity. */
  lemma ListedAsMissingInBits(cached: seq<Entry>, live: seq<Entry>, d: DifferenceEntry)
    ensures d in Listing(cached, live) && d.kind == MissingInBits
            <==> && d.identity in Identities(cached) && d.identity !in Identities(live)
                 && var last := LastWith(cached, d.identity);
                    last.Some? && d == DifferenceEntry(d.identity, ROOT_PATH, MissingInBits, last.value.text, "")
  {
    LastWithFindsIdentities(cached, d.identity);
    LiveDifferencesAreListed(cached, live, d);
    MissingAreListed(cached, live, FirstAppearances(cached), d);
    FirstAppearancesListsIdentities(cached);
    forall e | e in live && d in LiveDifferences(cached, e) ensures d.kind != MissingInBits {
      LiveKinds(cached, e, d);
    }
  }

  /** A mismatch is listed exactly for a live entry that differs from the last cached one of its identity. */
  ghost predicate Mismatch(cached: seq<Entry>, e: Entry, d: DifferenceEntry) {
    match LastWith(cached, IdentityOf(e))
    case None => false
    case Some(partner) =>
      if partner.tree.None? || e.tree.None? then d == DifferenceEntry(IdentityOf(e), ROOT_PATH, ValueMismatch, "", "")
      else d in Capped(EntryDifferences(IdentityOf(e), partner.tree.value, e.tree.value))
  }

  lemma ListedAsMismatch(cached: seq<Entry>, live: seq<Entry>, d: DifferenceEntry)
    ensures d in Listing(cached, live) && d.kind == ValueMismatch <==> exists e :: e in live && Mismatch(cached, e, d)
  {
    LiveDifferencesAreListed(cached, live, d);
    MissingAreListed(cached, live, FirstAppearances(cached), d);
    forall e | e in live
      ensures Mismatch(cached, e, d) <==> d in LiveDifferences(cached, e) && d.kind == ValueMismatch
    {
      LastWithFindsIdentities(cached, IdentityOf(e));
      if d in LiveDifferences(cached, e) {
        LiveKinds(cached, e, d);
      }
      if Mismatch(cached, e, d) {
        assert d in LiveDifferences(cached, e);
        LiveKinds(cached, e, d);
      }
    }
  }

  // ---------- when the total is zero ----------

  /** A live entry agrees with the cached entry of its identity. */
  ghost predicate Agrees(cached: seq<Entry>, live: Entry) {
    match LastWith(cached, IdentityOf(live))
    case None => false
    case Some(partner) =>
      partner.tree.Some? && live.tree.Some? && Related(Canonicalise(partner.tree.value), Canonicalise(live.tree.value))
  }

  lemma NothingCountedMeansAgrees(cached: seq<Entry>, live: Entry)
    ensures LiveTotal(cached, live) == 0 <==> Agrees(cached, live)
  {
    LastWithFindsIdentities(cached, IdentityOf(live));
    if !Unpaired(cached, live) {
      var partner := LastWith(cached, IdentityOf(live)).value;
      if partner.tree.Some? && live.tree.Some? {
        MatchMeansRelated(IdentityOf(live), partner.tree.value, live.tree.value);
      }
    }
  }

  lemma {:induction false} NothingCountedMeansAllAgree(cached: seq<Entry>, live: seq<Entry>)
    ensures CountUnpaired(cached, live) + SumPaired(cached, live) == 0 <==> forall e :: e in live ==> Agrees(cached, e)
  {
    if live != [] {
      var front, last := live[..|live| - 1], live[|live| - 1];
      SplitLast(live);
      assert forall e :: e in live <==> e in front || e == last;
      NothingCountedMeansAllAgree(cached, front);
      NothingCountedMeansAgrees(cached, last);
    }
  }

  /** A comparison counts nothing exactly when both sides hold the same identities and every live entry agrees. */
  lemma ZeroTotalMeansSameEntries(cached: seq<Entry>, live: seq<Entry>)
    ensures CountUnpaired(cached, live) + SumPaired(cached, live) + |Identities(cached) - Identities(live)| == 0
            <==> Identities(cached) == Identities(live) && forall e :: e in live ==> Agrees(cached, e)
  {
    NothingCountedMeansAllAgree(cached, live);
    if forall e :: e in live ==> Agrees(cached, e) {
      AgreeingEntriesAreCached(cached, live);
    }
    NoneMissing(Identities(cached), Identities(live));
  }

  lemma AgreeingEntriesAreCached(cached: seq<Entry>, live: seq<Entry>)
    requires forall e :: e in live ==> Agrees(cached, e)
    ensures Identities(live) <= Identities(cached)
  {
    forall id | id in Identities(live) ensures id in Identities(cached) {
      var e :| e in live && IdentityOf(e) == id;
      LastWithFindsIdentities(cached, id);
      assert Agrees(cached, e);
    }
  }

  lemma NoneMissing<T>(a: set<T>, b: set<T>)
    ensures |a - b| == 0 <==> a <= b
  {
    if |a - b| == 0 {
      assert a - b == {};
      assert forall x :: x in a ==> x in b || x in a - b;
    }
  }
}
