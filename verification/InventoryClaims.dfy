/** The in-flight claims of concurrent inventory calls. */
module InventoryClaims {
  import opened Wrappers
  import opened Text

  // ---------- the claim key ----------

  datatype Item = Item(operator: string, source: string, destination: string, date: string, trip: string)

  function LowerChar(c: char): char {
    if 'A' <= c <= 'Z' then (c as int + 32) as char else c
  }

  function Lower(s: string): string {
    seq(|s|, i requires 0 <= i < |s| => LowerChar(s[i]))
  }

  /** The route and trip an item is about: zone in lower case, operator, stations, date, trip, all trimmed. */
  function IdentityOf(zone: string, item: Item): seq<string> {
    [Lower(TrimSpace(zone)), TrimSpace(item.operator), TrimSpace(item.source), TrimSpace(item.destination),
     TrimSpace(item.date), TrimSpace(item.trip)]
  }

  /** dedupKey. */
  function DedupKey(zone: string, item: Item): string {
    Join(IdentityOf(zone, item), "|")
  }

  // ---------- when a key tells its route apart ----------

  predicate Trimmed(s: string) {
    s == "" || (!IsSpace(s[0]) && !IsSpace(s[|s| - 1]))
  }

  lemma TrimmedMeansNothingToTrim(s: string)
    ensures Trimmed(TrimSpace(s))
    ensures Trimmed(s) ==> TrimSpace(s) == s
  {
    var left := TrimLeft(s);
    TrimLeftHead(s);
    TrimRightLast(left);
    if left != "" {
      TrimRightKeepsHead(left);
    }
  }

  /** A bar with no blank beside it: where two trimmed fields could meet. */
  predicate TightAt(s: string, i: nat) {
    i < |s| && s[i] == '|' && Trimmed(s[..i]) && Trimmed(s[i + 1..])
  }

  ghost predicate HasTightBar(s: string) {
    exists i: nat :: TightAt(s, i)
  }

  ghost predicate AllTrimmed(fields: seq<string>) {
    forall f :: f in fields ==> Trimmed(f)
  }

  lemma {:induction false} JoinStartsTrimmed(fields: seq<string>)
    requires AllTrimmed(fields)
    ensures Join(fields, "|") == "" || !IsSpace(Join(fields, "|")[0])
  {
    if |fields| > 0 {
      assert fields[0] in fields;
    }
  }

  /** A shorter first field of the other side would stand at a tight bar inside the longer one. */
  lemma SplitInsideIsTight(x: string, y: string, rest: string, after: string)
    requires Trimmed(x) && Trimmed(y) && |x| < |y| && (rest == "" || !IsSpace(rest[0]))
    requires x + "|" + rest == y + after
    ensures TightAt(y, |x|) && y[..|x|] == x && y[|x| + 1..] + after == rest
  {
    var s := x + "|" + rest;
    assert y == s[..|y|] && after == s[|y|..];
    assert s[..|x|] == x && s[|x|] == '|' && s[|x| + 1..] == rest;
    assert y[..|x|] == x && y[|x|] == '|';
    var inner := y[|x| + 1..];
    assert inner + after == rest;
    if inner != "" {
      assert inner[0] == rest[0] && inner[|inner| - 1] == y[|y| - 1];
    }
  }

  /** Trimmed fields without tight bars are the only trimmed fields, of as many or more, with their joined text. */
  lemma {:induction false} JoinIsUnique(a: seq<string>, b: seq<string>)
    requires 1 <= |a| <= |b| && AllTrimmed(a) && AllTrimmed(b)
    requires forall f :: f in a ==> !HasTightBar(f)
    requires Join(a, "|") == Join(b, "|")
    ensures a == b
    decreases |a|
  {
    assert a[0] in a && b[0] in b;
    var restA, restB := Join(a[1..], "|"), Join(b[1..], "|");
    JoinStartsTrimmed(a[1..]);
    JoinStartsTrimmed(b[1..]);
    if |b| == 1 {
    } else if |a| == 1 {
      assert a[0] == b[0] + "|" + restB;
      assert |b[0]| < |a[0]|;
      assert b[0] + "|" + restB == a[0] + "";
      SplitInsideIsTight(b[0], a[0], restB, "");
      assert false;
    } else if |b[0]| < |a[0]| {
      assert b[0] + "|" + restB == a[0] + ("|" + restA);
      SplitInsideIsTight(b[0], a[0], restB, "|" + restA);
      assert false;
    } else if |a[0]| < |b[0]| {
      assert a[0] + "|" + restA == b[0] + ("|" + restB);
      SplitInsideIsTight(a[0], b[0], restA, "|" + restB);
      var inner := b[0][|a[0]| + 1..];
      var shifted := [inner] + b[1..];
      assert shifted[1..] == b[1..];
      assert Join(shifted, "|") == inner + "|" + restB;
      assert inner + "|" + restB == inner + ("|" + restB);
      JoinIsUnique(a[1..], shifted);
      assert false;
    } else {
      SameLengthPrefix(a[0], restA, b[0], restB);
      JoinIsUnique(a[1..], b[1..]);
      assert a == [a[0]] + a[1..] && b == [b[0]] + b[1..];
    }
  }

  lemma SameLengthPrefix(x: string, restX: string, y: string, restY: string)
    requires |x| == |y| && x + "|" + restX == y + "|" + restY
    ensures x == y && restX == restY
  {
    var s, t := x + "|" + restX, y + "|" + restY;
    assert s[..|x|] == x && t[..|y|] == y && s[|x| + 1..] == restX && t[|y| + 1..] == restY;
  }

  /** Moving what follows a bar of field f over to the next field leaves the joined text alone. */
  lemma {:induction false} ShiftKeepsJoin(fields: seq<string>, f: nat, i: nat)
    requires f + 1 < |fields| && i < |fields[f]| && fields[f][i] == '|'
    ensures Join(fields[f := fields[f][..i]][f + 1 := fields[f][i + 1..] + "|" + fields[f + 1]], "|")
            == Join(fields, "|")
    decreases f
  {
    var p, q := fields[f][..i], fields[f][i + 1..];
    var shifted := fields[f := p][f + 1 := q + "|" + fields[f + 1]];
    if f == 0 {
      assert fields[0] == p + "|" + q;
      var rest := fields[1..];
      assert shifted[1..] == [q + "|" + rest[0]] + rest[1..];
      JoinPrefix(q, rest);
      assert p + "|" + q + "|" + Join(rest, "|") == p + "|" + (q + "|" + Join(rest, "|"));
    } else {
      ShiftKeepsJoin(fields[1..], f - 1, i);
      assert shifted[1..] == fields[1..][f - 1 := p][f := q + "|" + fields[f + 1]];
    }
  }

  lemma JoinPrefix(q: string, fields: seq<string>)
    requires fields != []
    ensures Join([q + "|" + fields[0]] + fields[1..], "|") == q + "|" + Join(fields, "|")
  {
    var joined := [q + "|" + fields[0]] + fields[1..];
    if |fields| > 1 {
      assert joined[1..] == fields[1..];
      assert q + "|" + fields[0] + "|" + Join(fields[1..], "|") == q + "|" + (fields[0] + "|" + Join(fields[1..], "|"));
    }
  }

  lemma LowerKeepsBlanks(s: string)
    ensures Trimmed(s) ==> Trimmed(Lower(s))
    ensures Lower(Lower(s)) == Lower(s)
  {
  }

  lemma IdentitiesAreTrimmed(zone: string, item: Item)
    ensures AllTrimmed(IdentityOf(zone, item)) && |IdentityOf(zone, item)| == 6
    ensures Lower(IdentityOf(zone, item)[0]) == IdentityOf(zone, item)[0]
  {
    TrimmedMeansNothingToTrim(zone);
    LowerKeepsBlanks(TrimSpace(zone));
    TrimmedMeansNothingToTrim(item.operator);
    TrimmedMeansNothingToTrim(item.source);
    TrimmedMeansNothingToTrim(item.destination);
    TrimmedMeansNothingToTrim(item.date);
    TrimmedMeansNothingToTrim(item.trip);
  }

  /** The item with exactly these fields, its zone aside. */
  function ItemOf(fields: seq<string>): Item
    requires |fields| == 6
  {
    Item(fields[1], fields[2], fields[3], fields[4], fields[5])
  }

  lemma ItemHasItsFields(fields: seq<string>)
    requires |fields| == 6 && AllTrimmed(fields) && Lower(fields[0]) == fields[0]
    ensures IdentityOf(fields[0], ItemOf(fields)) == fields
  {
    forall i | 0 <= i < 6 ensures TrimSpace(fields[i]) == fields[i] {
      assert fields[i] in fields;
      TrimmedMeansNothingToTrim(fields[i]);
    }
  }

  lemma PlainItemIdentity(zone: string, item: Item)
    requires Lower(zone) == zone && Trimmed(zone) && Trimmed(item.operator) && Trimmed(item.source)
    requires Trimmed(item.destination) && Trimmed(item.date) && Trimmed(item.trip)
    ensures IdentityOf(zone, item) == [zone, item.operator, item.source, item.destination, item.date, item.trip]
  {
    TrimmedMeansNothingToTrim(zone);
    TrimmedMeansNothingToTrim(item.operator);
    TrimmedMeansNothingToTrim(item.source);
    TrimmedMeansNothingToTrim(item.destination);
    TrimmedMeansNothingToTrim(item.date);
    TrimmedMeansNothingToTrim(item.trip);
  }

  lemma BarsShift(fields: seq<string>, others: seq<string>)
    requires fields == ["z", "o", "A|B", "C", "d", "t"] && others == ["z", "o", "A", "B|C", "d", "t"]
    ensures fields[2] != others[2] && Join(fields, "|") == Join(others, "|")
  {
    ShiftKeepsJoin(fields, 2, 1);
    assert fields[2][..1] == "A" && fields[2][2..] + "|" + fields[3] == "B|C";
    assert fields[2 := "A"][3 := "B|C"] == others;
  }

  /** Two items whose source and destination differ by where a bar stands share a key. */
  lemma BarsMergeRoutes()
    ensures var a, b := Item("o", "A|B", "C", "d", "t"), Item("o", "A", "B|C", "d", "t");
            IdentityOf("z", a) != IdentityOf("z", b) && DedupKey("z", a) == DedupKey("z", b)
  {
    var a, b := Item("o", "A|B", "C", "d", "t"), Item("o", "A", "B|C", "d", "t");
    assert Lower("z") == "z";
    PlainItemIdentity("z", a);
    PlainItemIdentity("z", b);
    BarsShift(IdentityOf("z", a), IdentityOf("z", b));
  }

  lemma JoinedFieldsAreTrimmed(x: string, y: string)
    requires (x == "" || !IsSpace(x[0])) && (y == "" || !IsSpace(y[|y| - 1]))
    ensures Trimmed(x + "|" + y)
  {
  }

  /** A tight bar before the last field: what follows it moves to the next field. */
  lemma TightBarMovesOn(fields: seq<string>, f: nat, i: nat) returns (other: seq<string>)
    requires |fields| == 6 && AllTrimmed(fields) && Lower(fields[0]) == fields[0]
    requires f < 5 && TightAt(fields[f], i)
    ensures |other| == 6 && AllTrimmed(other) && Lower(other[0]) == other[0]
    ensures |other[f]| < |fields[f]| && Join(other, "|") == Join(fields, "|")
  {
    var p, q := fields[f][..i], fields[f][i + 1..];
    assert fields[f] in fields && fields[f + 1] in fields;
    other := fields[f := p][f + 1 := q + "|" + fields[f + 1]];
    ShiftKeepsJoin(fields, f, i);
    JoinedFieldsAreTrimmed(q, fields[f + 1]);
    LowerOfPrefix(fields[0], if f == 0 then i else |fields[0]|);
    FieldsStayTrimmed(fields, other, f, f + 1);
  }

  /** A tight bar in the last field: what stands before it moves to the field before. */
  lemma TightBarMovesBack(fields: seq<string>, i: nat) returns (other: seq<string>)
    requires |fields| == 6 && AllTrimmed(fields) && Lower(fields[0]) == fields[0] && TightAt(fields[5], i)
    ensures |other| == 6 && AllTrimmed(other) && Lower(other[0]) == other[0]
    ensures |other[5]| < |fields[5]| && Join(other, "|") == Join(fields, "|")
  {
    var p, q := fields[5][..i], fields[5][i + 1..];
    assert fields[4] in fields && fields[5] in fields;
    other := fields[4 := fields[4] + "|" + p][5 := q];
    JoinedFieldsAreTrimmed(fields[4], p);
    ShiftKeepsJoin(other, 4, |fields[4]|);
    assert other[4][..|fields[4]|] == fields[4] && other[4][|fields[4]| + 1..] == p;
    assert fields[5] == p + "|" + q;
    assert other[4 := fields[4]][5 := p + "|" + q] == fields;
    FieldsStayTrimmed(fields, other, 4, 5);
  }

  lemma FieldsStayTrimmed(fields: seq<string>, other: seq<string>, f: nat, g: nat)
    requires AllTrimmed(fields) && |fields| == |other| && f < |other| && g < |other|
    requires Trimmed(other[f]) && Trimmed(other[g])
    requires forall j :: 0 <= j < |other| && j != f && j != g ==> other[j] == fields[j]
    ensures AllTrimmed(other)
  {
    forall field | field in other ensures Trimmed(field) {
      var j :| 0 <= j < |other| && other[j] == field;
      assert fields[j] in fields;
    }
  }

  /** A tight bar in any field gives another item of the same key. */
  lemma TightBarsMergeRoutes(fields: seq<string>, f: nat, i: nat) returns (zone: string, item: Item)
    requires |fields| == 6 && AllTrimmed(fields) && Lower(fields[0]) == fields[0]
    requires f < 6 && TightAt(fields[f], i)
    ensures IdentityOf(zone, item) != fields && DedupKey(zone, item) == Join(fields, "|")
  {
    var other: seq<string>;
    if f < 5 {
      other := TightBarMovesOn(fields, f, i);
    } else {
      other := TightBarMovesBack(fields, i);
    }
    ItemHasItsFields(other);
    zone, item := other[0], ItemOf(other);
  }

  lemma LowerOfPrefix(s: string, i: nat)
    requires i <= |s| && Lower(s) == s
    ensures Lower(s[..i]) == s[..i] && s[..|s|] == s
  {
    assert forall j :: 0 <= j < i ==> Lower(s)[j] == LowerChar(s[j]) == s[j];
  }

  /**
   * A claim key stands for one route and trip only, if and only if none of its six fields has a bar with
   * no blank beside it.
   */
  lemma KeysIdentifyRoutes(zone: string, item: Item)
    ensures (forall otherZone, other :: DedupKey(otherZone, other) == DedupKey(zone, item) ==>
               IdentityOf(otherZone, other) == IdentityOf(zone, item))
            <==> forall field :: field in IdentityOf(zone, item) ==> !HasTightBar(field)
  {
    var fields := IdentityOf(zone, item);
    IdentitiesAreTrimmed(zone, item);
    if forall field :: field in fields ==> !HasTightBar(field) {
      forall otherZone, other | DedupKey(otherZone, other) == DedupKey(zone, item)
        ensures IdentityOf(otherZone, other) == fields
      {
        IdentitiesAreTrimmed(otherZone, other);
        JoinIsUnique(fields, IdentityOf(otherZone, other));
      }
    } else {
      var field :| field in fields && HasTightBar(field);
      var f :| 0 <= f < 6 && fields[f] == field;
      var i: nat :| TightAt(field, i);
      var otherZone, other := TightBarsMergeRoutes(fields, f, i);
      assert DedupKey(otherZone, other) == DedupKey(zone, item) && IdentityOf(otherZone, other) != fields;
    }
  }

  // ---------- one call on its own ----------

  /** What happens to one item: everything outside the claim. */
  datatype ItemWorld = ItemWorld(registerFails: bool, active: bool, referenceMissing: bool,
                                 buildFails: bool, saveFails: bool,
                                 publishFails: bool, markQueuedFails: bool, markDeadFails: bool)

  /** What a claimed item does to its row and the broker, as far as it succeeds. */
  datatype Deed = Saved(key: string) | Published(key: string) | MarkedDead(key: string) | MarkedQueued(key: string)

  function DeadMark(key: string, w: ItemWorld): seq<Deed> {
    if w.markDeadFails then [] else [MarkedDead(key)]
  }

  function Deeds(key: string, w: ItemWorld): seq<Deed> {
    if w.saveFails then []
    else if w.buildFails || w.publishFails then [Saved(key)] + DeadMark(key, w)
    else [Saved(key), Published(key)] + (if w.markQueuedFails then [] else [MarkedQueued(key)])
  }

  /** The item is queued, and the call goes on to the next. */
  predicate Queues(w: ItemWorld) {
    !w.buildFails && !w.saveFails && !w.publishFails && !w.markQueuedFails
  }

  /** Whether an item ends its call, given the routes in flight on arrival. */
  predicate EndsCall(inFlight: set<string>, key: string, w: ItemWorld) {
    w.registerFails || (w.active && (w.referenceMissing || (key !in inFlight && !Queues(w))))
  }

  function ItemDeeds(inFlight: set<string>, key: string, w: ItemWorld): seq<Deed> {
    if w.registerFails || !w.active || w.referenceMissing || key in inFlight then [] else Deeds(key, w)
  }

  function KeysOf(zone: string, items: seq<Item>): (keys: seq<string>)
    ensures |keys| == |items|
  {
    seq(|items|, i requires 0 <= i < |items| => DedupKey(zone, items[i]))
  }

  /** What the first n items of a call do. */
  ghost function CallDeeds(inFlight: set<string>, keys: seq<string>, worlds: seq<ItemWorld>, n: nat): seq<Deed>
    requires n <= |keys| == |worlds|
  {
    if n == 0 then []
    else CallDeeds(inFlight, keys, worlds, n - 1) + ItemDeeds(inFlight, keys[n - 1], worlds[n - 1])
  }

  /** None of the first n items ends the call. */
  ghost predicate GoesOn(inFlight: set<string>, keys: seq<string>, worlds: seq<ItemWorld>, n: nat)
    requires n <= |keys| == |worlds|
  {
    n == 0 || (GoesOn(inFlight, keys, worlds, n - 1) && !EndsCall(inFlight, keys[n - 1], worlds[n - 1]))
  }

  lemma PublishFollowsSave(key: string, w: ItemWorld, i: nat)
    requires i < |Deeds(key, w)| && Deeds(key, w)[i].Published?
    ensures i == 1 && Deeds(key, w)[0] == Saved(key) && Deeds(key, w)[1].key == key
  {
  }

  /** In a call, a route is published only right after its row was saved, and only when it was free on arrival. */
  lemma {:induction false} PublishesFollowSaves(inFlight: set<string>, keys: seq<string>, worlds: seq<ItemWorld>,
                                                n: nat, i: nat)
    requires n <= |keys| == |worlds| && i < |CallDeeds(inFlight, keys, worlds, n)|
    requires CallDeeds(inFlight, keys, worlds, n)[i].Published?
    ensures var deeds := CallDeeds(inFlight, keys, worlds, n);
            i > 0 && deeds[i - 1] == Saved(deeds[i].key) && deeds[i].key !in inFlight
  {
    var before, own := CallDeeds(inFlight, keys, worlds, n - 1), ItemDeeds(inFlight, keys[n - 1], worlds[n - 1]);
    if i < |before| {
      PublishesFollowSaves(inFlight, keys, worlds, n - 1, i);
    } else {
      assert own[i - |before|].Published?;
      PublishFollowsSave(keys[n - 1], worlds[n - 1], i - |before|);
    }
  }

  lemma OneMoreItem(start: seq<Deed>, inFlight: set<string>, keys: seq<string>, worlds: seq<ItemWorld>, n: nat)
    requires n < |keys| == |worlds|
    ensures start + CallDeeds(inFlight, keys, worlds, n) + ItemDeeds(inFlight, keys[n], worlds[n])
            == start + CallDeeds(inFlight, keys, worlds, n + 1)
  {
    AppendIsAssociative(start, CallDeeds(inFlight, keys, worlds, n), ItemDeeds(inFlight, keys[n], worlds[n]));
  }

  class InventoryEventService {
    var inFlight: set<string>
    var deeds: seq<Deed>

    constructor ()
      ensures inFlight == {} && deeds == []
    {
      inFlight, deeds := {}, [];
    }

    /** claimInFlight. */
    method ClaimInFlight(key: string) returns (claimed: bool)
      modifies this`inFlight
      ensures claimed <==> key !in old(inFlight)
      ensures inFlight == old(inFlight) + {key}
    {
      if key in inFlight {
        return false;
      }
      inFlight := inFlight + {key};
      claimed := true;
    }

    /** releaseInFlight. */
    method ReleaseInFlight(key: string)
      modifies this`inFlight
      ensures inFlight == old(inFlight) - {key}
    {
      inFlight := inFlight - {key};
    }

    /** markDead: a failing write is only logged. */
    method MarkDead(key: string, w: ItemWorld)
      modifies this`deeds
      ensures deeds == old(deeds) + DeadMark(key, w)
    {
      if !w.markDeadFails {
        deeds := deeds + [MarkedDead(key)];
      }
    }

    /** One claimed item: build, save, publish, mark; the claim is released on every way out. */
    method Process(key: string, w: ItemWorld) returns (ok: bool)
      requires key in inFlight
      modifies this
      ensures inFlight == old(inFlight) - {key}
      ensures deeds == old(deeds) + Deeds(key, w)
      ensures ok <==> MarkedQueued(key) in Deeds(key, w)
      ensures ok <==> Queues(w)
    {
      if w.buildFails {
        if w.saveFails {
          ReleaseInFlight(key);
          return false;
        }
        deeds := deeds + [Saved(key)];
        MarkDead(key, w);
        ReleaseInFlight(key);
        return false;
      }
      if w.saveFails {
        ReleaseInFlight(key);
        return false;
      }
      deeds := deeds + [Saved(key)];
      if w.publishFails {
        MarkDead(key, w);
        ReleaseInFlight(key);
        return false;
      }
      deeds := deeds + [Published(key)];
      if w.markQueuedFails {
        ReleaseInFlight(key);
        return false;
      }
      deeds := deeds + [MarkedQueued(key)];
      ReleaseInFlight(key);
      ok := true;
    }

    /** One item of a call. */
    method ReceiveItem(key: string, w: ItemWorld) returns (goesOn: bool)
      modifies this
      ensures inFlight == old(inFlight)
      ensures deeds == old(deeds) + ItemDeeds(inFlight, key, w)
      ensures goesOn <==> !EndsCall(inFlight, key, w)
    {
      assert deeds + [] == deeds;
      if w.registerFails {
        return false;
      }
      if !w.active {
        return true;
      }
      if w.referenceMissing {
        return false;
      }
      var claimed := ClaimInFlight(key);
      if !claimed {
        assert old(inFlight) + {key} == old(inFlight);
        return true;
      }
      goesOn := Process(key, w);
      assert old(inFlight) + {key} - {key} == old(inFlight);
    }

    /**
     * The item loop of ReceiveInventoryChange: items in order up to the first that ends the call; routes
     * in flight on arrival are skipped; whatever happens, the call leaves no claim behind.
     */
    method ReceiveInventoryChange(zone: string, items: seq<Item>, worlds: seq<ItemWorld>)
      returns (ok: bool, ghost reached: nat)
      requires |worlds| == |items|
      modifies this
      ensures inFlight == old(inFlight)
      ensures reached <= |items| && deeds == old(deeds) + CallDeeds(inFlight, KeysOf(zone, items), worlds, reached)
      ensures ok ==> reached == |items| && GoesOn(inFlight, KeysOf(zone, items), worlds, reached)
      ensures !ok ==> reached > 0 && GoesOn(inFlight, KeysOf(zone, items), worlds, reached - 1)
                      && EndsCall(inFlight, KeysOf(zone, items)[reached - 1], worlds[reached - 1])
    {
      ghost var start, keys := deeds, KeysOf(zone, items);
      for n := 0 to |items|
        invariant inFlight == old(inFlight)
        invariant deeds == start + CallDeeds(inFlight, keys, worlds, n)
        invariant GoesOn(inFlight, keys, worlds, n)
      {
        OneMoreItem(start, inFlight, keys, worlds, n);
        var goesOn := ReceiveItem(DedupKey(zone, items[n]), worlds[n]);
        if !goesOn {
          return false, n + 1;
        }
      }
      return true, |items|;
    }
  }

  // ---------- many calls at once ----------

  /** Where a call stands; from Building to Releasing it holds the claim of its key. */
  datatype Pc =
    | AtItem
    | Building(key: string)
    | SavingUnbuilt(key: string)
    | Saving(key: string)
    | Publishing(key: string)
    | MarkingDead(key: string)
    | MarkingQueued(key: string)
    | Releasing(key: string, last: bool)
    | Finished

  /** A call and the keys of its items still to come. */
  datatype Call = Call(pc: Pc, keys: seq<string>)

  datatype State = State(inFlight: set<string>, calls: map<nat, Call>)

  const INITIAL := State({}, map[])

  /** The next thing to happen: a call arrives, or one takes its next step with some outcome. */
  datatype Event = Arrive(id: nat, zone: string, items: seq<Item>) | Advance(id: nat, outcome: StepOutcome)

  /** Skipped is an inactive operator; it means failure everywhere else. */
  datatype StepOutcome = Fine | Failing | Skipped

  /** The step of one call: its new place, and the claims after it. Claiming and releasing are atomic. */
  function Advanced(c: Call, outcome: StepOutcome, inFlight: set<string>): (Call, set<string>) {
    match c.pc
    case AtItem =>
      if c.keys == [] || outcome == Failing then (Call(Finished, []), inFlight)
      else if outcome == Skipped || c.keys[0] in inFlight then (Call(AtItem, c.keys[1..]), inFlight)
      else (Call(Building(c.keys[0]), c.keys[1..]), inFlight + {c.keys[0]})
    case Building(key) => (c.(pc := if outcome == Fine then Saving(key) else SavingUnbuilt(key)), inFlight)
    case SavingUnbuilt(key) => (c.(pc := if outcome == Fine then MarkingDead(key) else Releasing(key, true)), inFlight)
    case Saving(key) => (c.(pc := if outcome == Fine then Publishing(key) else Releasing(key, true)), inFlight)
    case Publishing(key) => (c.(pc := if outcome == Fine then MarkingQueued(key) else MarkingDead(key)), inFlight)
    case MarkingDead(key) => (c.(pc := Releasing(key, true)), inFlight)
    case MarkingQueued(key) => (c.(pc := Releasing(key, outcome != Fine)), inFlight)
    case Releasing(key, last) => (if last then Call(Finished, []) else Call(AtItem, c.keys), inFlight - {key})
    case Finished => (c, inFlight)
  }

  function Step(s: State, e: Event): State {
    match e
    case Arrive(id, zone, items) =>
      if id in s.calls then s else s.(calls := s.calls[id := Call(AtItem, KeysOf(zone, items))])
    case Advance(id, outcome) =>
      if id !in s.calls then s
      else
        var (call, inFlight) := Advanced(s.calls[id], outcome, s.inFlight);
        State(inFlight, s.calls[id := call])
  }

  function Run(events: seq<Event>): State {
    if events == [] then INITIAL else Step(Run(events[..|events| - 1]), events[|events| - 1])
  }

  function Held(c: Call): Option<string> {
    if c.pc.AtItem? || c.pc.Finished? then None else Some(c.pc.key)
  }

  /** The claims are the keys held, one holder each. */
  ghost predicate ClaimsAreHeld(s: State) {
    && (forall id :: id in s.calls && Held(s.calls[id]).Some? ==> Held(s.calls[id]).value in s.inFlight)
    && (forall key :: key in s.inFlight ==> exists id :: id in s.calls && Held(s.calls[id]) == Some(key))
    && (forall i, j :: i in s.calls && j in s.calls && i != j && Held(s.calls[i]).Some? ==>
          Held(s.calls[i]) != Held(s.calls[j]))
  }

  /** A step keeps what its call holds, claims a free key, or gives its key back. */
  ghost predicate Effect(before: Option<string>, after: Option<string>, inFlight: set<string>, next: set<string>) {
    || (after == before && next == inFlight)
    || (before == None && after.Some? && after.value !in inFlight && next == inFlight + {after.value})
    || (before.Some? && after == None && next == inFlight - {before.value})
  }

  lemma AdvanceHasEffect(c: Call, outcome: StepOutcome, inFlight: set<string>)
    ensures Effect(Held(c), Held(Advanced(c, outcome, inFlight).0), inFlight, Advanced(c, outcome, inFlight).1)
  {
  }

  lemma EffectKeepsClaims(s: State, id: nat, call: Call, inFlight: set<string>)
    requires ClaimsAreHeld(s) && id in s.calls && Effect(Held(s.calls[id]), Held(call), s.inFlight, inFlight)
    ensures ClaimsAreHeld(State(inFlight, s.calls[id := call]))
  {
    var next := State(inFlight, s.calls[id := call]);
    forall key | key in inFlight
      ensures exists j :: j in next.calls && Held(next.calls[j]) == Some(key)
    {
      if Held(call) == Some(key) {
        assert Held(next.calls[id]) == Some(key);
      } else {
        var j :| j in s.calls && Held(s.calls[j]) == Some(key);
        assert Held(next.calls[j]) == Some(key);
      }
    }
  }

  lemma AdvanceKeepsClaims(s: State, id: nat, outcome: StepOutcome)
    requires ClaimsAreHeld(s) && id in s.calls
    ensures ClaimsAreHeld(Step(s, Advance(id, outcome)))
  {
    var (call, inFlight) := Advanced(s.calls[id], outcome, s.inFlight);
    AdvanceHasEffect(s.calls[id], outcome, s.inFlight);
    EffectKeepsClaims(s, id, call, inFlight);
  }

  lemma ArriveKeepsClaims(s: State, id: nat, zone: string, items: seq<Item>)
    requires ClaimsAreHeld(s)
    ensures ClaimsAreHeld(Step(s, Arrive(id, zone, items)))
  {
    var next := Step(s, Arrive(id, zone, items));
    forall key | key in next.inFlight
      ensures exists j :: j in next.calls && Held(next.calls[j]) == Some(key)
    {
      var j :| j in s.calls && Held(s.calls[j]) == Some(key);
      assert Held(next.calls[j]) == Some(key);
    }
  }

  /** Under any interleaving of calls and outcomes, the claims are exactly the keys held, one holder each. */
  lemma {:induction false} InterleavingsKeepClaims(events: seq<Event>)
    ensures ClaimsAreHeld(Run(events))
  {
    if events != [] {
      InterleavingsKeepClaims(events[..|events| - 1]);
      var s, e := Run(events[..|events| - 1]), events[|events| - 1];
      match e
      case Arrive(id, zone, items) => ArriveKeepsClaims(s, id, zone, items);
      case Advance(id, outcome) =>
        if id in s.calls {
          AdvanceKeepsClaims(s, id, outcome);
        }
    }
  }

  /** When no call is running, nothing is claimed. */
  lemma IdleMeansUnclaimed(events: seq<Event>)
    requires forall id :: id in Run(events).calls ==> Run(events).calls[id].pc.Finished?
    ensures Run(events).inFlight == {}
  {
    InterleavingsKeepClaims(events);
  }

  /** No two calls publish the same route at the same time. */
  lemma OnePublisherPerRoute(events: seq<Event>, i: nat, j: nat)
    requires i in Run(events).calls && j in Run(events).calls && i != j
    requires Run(events).calls[i].pc.Publishing? && Run(events).calls[j].pc.Publishing?
    ensures Run(events).calls[i].pc.key != Run(events).calls[j].pc.key
  {
    InterleavingsKeepClaims(events);
  }

  /** An upper bound on the steps a call still takes. */
  function StepsLeft(c: Call): nat {
    7 * |c.keys|
    + match c.pc
      case Finished => 0
      case AtItem => 1
      case Building(_) => 7
      case SavingUnbuilt(_) => 6
      case Saving(_) => 6
      case Publishing(_) => 5
      case MarkingDead(_) => 4
      case MarkingQueued(_) => 4
      case Releasing(_, _) => 3
  }

  /** One call's own steps, with the outcome and the claims each of them meets. */
  function OwnSteps(c: Call, met: seq<(StepOutcome, set<string>)>): Call
    decreases |met|
  {
    if met == [] then c else OwnSteps(Advanced(c, met[0].0, met[0].1).0, met[1..])
  }

  /** Whatever outcomes and claims it meets, every call finishes, so every claim is given back. */
  lemma {:induction false} EveryCallFinishes(c: Call, met: seq<(StepOutcome, set<string>)>)
    requires |met| >= StepsLeft(c) && (c.pc.Finished? ==> c.keys == [])
    ensures OwnSteps(c, met).pc.Finished? && Held(OwnSteps(c, met)) == None
    decreases |met|
  {
    if met != [] {
      EveryCallFinishes(Advanced(c, met[0].0, met[0].1).0, met[1..]);
    }
  }
}
