/** The collector that carries out the walk: exact total, capped list. */
module Collector {
  import opened Wrappers
  import opened Text
  import opened JsonTree
  import opened Canonical
  import opened Paths
  import opened Comparison
  import opened ContentRelation

  datatype EntryIdentity = EntryIdentity(operatorCode: string, tripCode: string, tripStageCode: string)

  datatype DifferenceKind = ValueMismatch | MissingInCache | MissingInBits

  datatype DifferenceEntry = DifferenceEntry(
    identity: EntryIdentity, path: string, kind: DifferenceKind, cacheValue: string, bitsValue: string)

  const MAX_COLLECTED_DIFFERENCES := 1000

  function Capped<T>(all: seq<T>): seq<T> {
    if |all| > MAX_COLLECTED_DIFFERENCES then all[..MAX_COLLECTED_DIFFERENCES] else all
  }

  /** A finding as it is stored. */
  function EntryFor(identity: EntryIdentity, f: Finding): DifferenceEntry {
    DifferenceEntry(identity, ReportedPath(f.at), ValueMismatch, Render(f.cache), Render(f.bits))
  }

  function EntriesFor(identity: EntryIdentity, findings: seq<Finding>): seq<DifferenceEntry> {
    seq(|findings|, i requires 0 <= i < |findings| => EntryFor(identity, findings[i]))
  }

  lemma EntriesForAppend(identity: EntryIdentity, front: seq<Finding>, back: seq<Finding>)
    ensures EntriesFor(identity, front + back) == EntriesFor(identity, front) + EntriesFor(identity, back)
  {
  }

  /** The sorted union of two name lists, each name once. */
  method UnionNames(left: seq<string>, right: seq<string>) returns (names: seq<string>)
    ensures names == SortedNames(Elements(left) + Elements(right))
  {
    var seen: set<string> := {};
    names := [];
    var all := left + right;
    for i := 0 to |all|
      invariant seen == Elements(names) == Elements(all[..i])
      invariant forall j, k :: 0 <= j < k < |names| ==> names[j] != names[k]
    {
      assert all[..i + 1] == all[..i] + [all[i]];
      ElementsOfAppend(all[..i], all[i]);
      ElementsOfAppend(names, all[i]);
      if all[i] !in seen {
        assert forall j :: 0 <= j < |names| ==> names[j] in Elements(names);
        seen := seen + {all[i]};
        names := names + [all[i]];
      }
    }
    assert all[..|all|] == all;
    assert Elements(all) == Elements(left) + Elements(right);
    ghost var unsorted := names;
    names := SortStrings(names);
    assert Elements(names) == Elements(unsorted);
    SortedListingIsUnique(names, SortedNames(Elements(left) + Elements(right)));
  }

  lemma ElementsOfAppend(s: seq<string>, x: string)
    ensures Elements(s + [x]) == Elements(s) + {x}
  {
  }

  class DifferenceCollector {
    const identity: EntryIdentity
    var entries: seq<DifferenceEntry>
    var total: nat
    ghost var found: seq<DifferenceEntry>

    /** The total counts everything found; the list is what fits under the cap. */
    ghost predicate Valid()
      reads this
    {
      total == |found| && entries == Capped(found)
    }

    constructor (identity: EntryIdentity)
      ensures Valid() && this.identity == identity && found == []
    {
      this.identity := identity;
      entries, total, found := [], 0, [];
    }

    method Add(path: string, kind: DifferenceKind, cacheValue: string, bitsValue: string)
      requires Valid()
      modifies this
      ensures Valid()
      ensures found == old(found)
                       + [DifferenceEntry(identity, if path == "" then ROOT_PATH else path,
                                          kind, cacheValue, bitsValue)]
    {
      total := total + 1;
      ghost var entry := DifferenceEntry(identity, if path == "" then ROOT_PATH else path, kind, cacheValue, bitsValue);
      found := found + [entry];
      if |entries| >= MAX_COLLECTED_DIFFERENCES {
        return;
      }
      var stored := path;
      if path == "" {
        stored := ROOT_PATH;
      }
      entries := entries + [DifferenceEntry(identity, stored, kind, cacheValue, bitsValue)];
    }

    method Walk(path: string, ghost at: seq<Step>, cache: Value, bits: Value)
      requires Valid() && path == PathText(at)
      modifies this
      ensures Valid()
      ensures found == old(found) + EntriesFor(identity, Comparison.Walk(at, cache, bits))
      decreases cache, 3
    {
      if IsEmpty(cache) && IsEmpty(bits) {
        return;
      }
      if cache.CObj? && bits.CObj? {
        WalkMembers(path, at, cache, bits);
        AfterIsTheWalk(old(found), identity, at, cache, bits, ChildSteps(cache, bits), |ChildSteps(cache, bits)|);
        return;
      }
      if cache.CArr? && bits.CArr? {
        WalkElements(path, at, cache, bits);
        AfterIsTheWalk(old(found), identity, at, cache, bits, ChildSteps(cache, bits), |ChildSteps(cache, bits)|);
        return;
      }
      var cacheRendered, bitsRendered := Render(cache), Render(bits);
      if cacheRendered != bitsRendered {
        Add(path, ValueMismatch, cacheRendered, bitsRendered);
      }
    }

    method WalkMembers(path: string, ghost at: seq<Step>, cache: Value, bits: Value)
      requires Valid() && path == PathText(at)
      requires BothObjects(cache, bits)
      modifies this
      ensures Valid()
      ensures found == After(old(found), identity, at, cache, bits, ChildSteps(cache, bits), |ChildSteps(cache, bits)|)
      decreases cache, 2
    {
      var names := UnionNames(SortedNames(cache.members.Keys), SortedNames(bits.members.Keys));
      ghost var steps, start := ChildSteps(cache, bits), found;
      MemberStepsFollowNames(cache, bits, names);
      for i := 0 to |names|
        invariant Valid()
        invariant found == After(start, identity, at, cache, bits, steps, i)
      {
        WalkMember(path, at, cache, bits, names[i]);
      }
    }

    method WalkMember(path: string, ghost at: seq<Step>, cache: Value, bits: Value, name: string)
      requires Valid() && path == PathText(at)
      requires BothObjects(cache, bits)
      modifies this
      ensures Valid()
      ensures found == old(found) + AtStep(identity, at, cache, bits, Member(name))
      decreases cache, 1
    {
      PathGrowsByMember(at, name);
      var inCache := if name in cache.members then Some(cache.members[name]) else None;
      var inBits := if name in bits.members then Some(bits.members[name]) else None;
      WalkSides(AppendMember(path, name), at, Member(name), cache, inCache, bits, inBits);
    }

    method WalkElements(path: string, ghost at: seq<Step>, cache: Value, bits: Value)
      requires Valid() && path == PathText(at)
      requires BothArrays(cache, bits)
      modifies this
      ensures Valid()
      ensures found == After(old(found), identity, at, cache, bits, ChildSteps(cache, bits), |ChildSteps(cache, bits)|)
      decreases cache, 2
    {
      var longest := |cache.elems|;
      if |bits.elems| > longest {
        longest := |bits.elems|;
      }
      ghost var steps, start := ChildSteps(cache, bits), found;
      for index := 0 to longest
        invariant Valid()
        invariant found == After(start, identity, at, cache, bits, steps, index)
      {
        WalkElement(path, at, cache, bits, index);
      }
    }

    method WalkElement(path: string, ghost at: seq<Step>, cache: Value, bits: Value, index: nat)
      requires Valid() && path == PathText(at)
      requires BothArrays(cache, bits)
      modifies this
      ensures Valid()
      ensures found == old(found) + AtStep(identity, at, cache, bits, Index(index))
      decreases cache, 1
    {
      PathGrowsByIndex(at, index);
      var inCache := if index < |cache.elems| then Some(cache.elems[index]) else None;
      var inBits := if index < |bits.elems| then Some(bits.elems[index]) else None;
      WalkSides(AppendIndex(path, index), at, Index(index), cache, inCache, bits, inBits);
    }

    /** One tried step: on both sides, or on one side only, where an empty value equals absence. */
    method WalkSides(path: string, ghost at: seq<Step>, ghost step: Step,
                     ghost cache: Value, inCache: Option<Value>, ghost bits: Value, inBits: Option<Value>)
      requires Valid() && path == PathText(at + [step])
      requires inCache == if Has(cache, step) then Some(Child(cache, step)) else None
      requires inBits == if Has(bits, step) then Some(Child(bits, step)) else None
      modifies this
      ensures Valid()
      ensures found == old(found) + AtStep(identity, at, cache, bits, step)
      decreases cache, 0
    {
      NonRootPathHead(at + [step]);
      match (inCache, inBits)
      case (Some(x), Some(y)) =>
        Walk(path, at + [step], x, y);
      case (Some(x), None) =>
        if !IsEmpty(x) {
          Add(path, ValueMismatch, Render(x), "null");
        }
      case (None, Some(y)) =>
        if !IsEmpty(y) {
          Add(path, ValueMismatch, "null", Render(y));
        }
      case (None, None) =>
    }
  }

  lemma MemberStepsFollowNames(a: Value, b: Value, names: seq<string>)
    requires BothObjects(a, b)
    requires names == SortedNames(Elements(SortedNames(a.members.Keys)) + Elements(SortedNames(b.members.Keys)))
    ensures var steps := ChildSteps(a, b);
            |steps| == |names| && forall i :: 0 <= i < |names| ==> steps[i] == Member(names[i])
  {
  }

  /** The stored differences of one tried step. */
  ghost function AtStep(identity: EntryIdentity, at: seq<Step>, a: Value, b: Value, step: Step): seq<DifferenceEntry> {
    EntriesFor(identity, WalkChild(at, a, b, step))
  }

  /** The list once the first k tried steps are done. */
  ghost function After(start: seq<DifferenceEntry>, identity: EntryIdentity, at: seq<Step>, a: Value, b: Value,
                       steps: seq<Step>, k: nat): seq<DifferenceEntry>
    requires k <= |steps|
  {
    if k == 0 then start else After(start, identity, at, a, b, steps, k - 1) + AtStep(identity, at, a, b, steps[k - 1])
  }

  lemma {:induction false} AfterIsTheWalk(start: seq<DifferenceEntry>, identity: EntryIdentity, at: seq<Step>,
                                          a: Value, b: Value, steps: seq<Step>, k: nat)
    requires k <= |steps|
    ensures After(start, identity, at, a, b, steps, k) == start + EntriesFor(identity, WalkChildren(at, a, b, steps, k))
  {
    if k == 0 {
      assert EntriesFor(identity, []) == [];
    } else {
      var front, own := WalkChildren(at, a, b, steps, k - 1), WalkChild(at, a, b, steps[k - 1]);
      AfterIsTheWalk(start, identity, at, a, b, steps, k - 1);
      EntriesForAppend(identity, front, own);
      AppendIsAssociative(start, EntriesFor(identity, front), EntriesFor(identity, own));
    }
  }

  /** All differences between two decoded entries, before the cap. */
  ghost function EntryDifferences(identity: EntryIdentity, cache: Json, bits: Json): seq<DifferenceEntry> {
    EntriesFor(identity, Walk([], Canonicalise(cache), Canonicalise(bits)))
  }

  datatype EntryComparison = DecodeError | Compared(entries: seq<DifferenceEntry>, total: nat)

  /** Compares one cached with one live entry; either may be undecodable. */
  method CompareEntries(identity: EntryIdentity, cache: Option<Json>, bits: Option<Json>) returns (r: EntryComparison)
    ensures r.DecodeError? <==> cache.None? || bits.None?
    ensures r.Compared? ==>
              var all := EntryDifferences(identity, cache.value, bits.value);
              r.total == |all| && r.entries == Capped(all)
  {
    if cache.None? || bits.None? {
      return DecodeError;
    }
    var collector := new DifferenceCollector(identity);
    collector.Walk("", [], Canonicalise(cache.value), Canonicalise(bits.value));
    r := Compared(collector.entries, collector.total);
  }

  // ---------- what the comparison depends on ----------

  /** Nothing is reported exactly when the canonical values are related. */
  lemma MatchMeansRelated(identity: EntryIdentity, cache: Json, bits: Json)
    ensures EntryDifferences(identity, cache, bits) == [] <==> Related(Canonicalise(cache), Canonicalise(bits))
  {
    NoFindingsIffRelated([], Canonicalise(cache), Canonicalise(bits));
    assert |EntryDifferences(identity, cache, bits)| == |Walk([], Canonicalise(cache), Canonicalise(bits))|;
  }

  /** Only content counts: spelling, null members and number formatting change no path, value or total. */
  lemma ComparisonDependsOnContent(identity: EntryIdentity, cache: Json, cache': Json, bits: Json, bits': Json)
    requires SameContent(cache, cache') && SameContent(bits, bits')
    ensures EntryDifferences(identity, cache, bits) == EntryDifferences(identity, cache', bits')
  {
    CanonicalFormIsContent(cache, cache');
    CanonicalFormIsContent(bits, bits');
  }

  /** Adding or removing a null member of an object leaves its content alone. */
  lemma NullMembersAreInvisible(members: map<string, Json>, name: string)
    requires name !in members
    ensures SameContent(Obj(members), Obj(members[name := Null]))
  {
    CanonicalFormIsContent(Obj(members), Obj(members[name := Null]));
    assert Canonicalise(Obj(members)).members == Canonicalise(Obj(members[name := Null])).members;
  }
}
