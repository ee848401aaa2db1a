/**
 * When the comparison finds nothing. `Related` is the content relation read off the rules; `Prune`
 * is the normal form those rules have in mind. They agree on tidy values, and in general a chain of
 * unreported differences connects two values exactly when their normal forms are equal.
 */
module ContentRelation {
  import opened Canonical
  import opened Paths
  import opened Comparison

  /** No difference: two empties, or member by member and position by position, or equal scalars. */
  ghost predicate Related(a: Value, b: Value) {
    || (IsEmpty(a) && IsEmpty(b))
    || match (a, b)
       case (CObj(m), CObj(n)) =>
         && (forall k | k in m && k in n :: Related(m[k], n[k]))
         && (forall k | k in m && k !in n :: IsEmpty(m[k]))
         && (forall k | k in n && k !in m :: IsEmpty(n[k]))
       case (CArr(x), CArr(y)) =>
         && (forall i | 0 <= i < |x| && i < |y| :: Related(x[i], y[i]))
         && (forall i | |y| <= i < |x| :: IsEmpty(x[i]))
         && (forall i | |x| <= i < |y| :: IsEmpty(y[i]))
       case _ => a == b
  }

  lemma RelatedToNull(v: Value)
    ensures Related(v, CNull) <==> IsEmpty(v)
    ensures Related(CNull, v) <==> IsEmpty(v)
  {
  }

  lemma RelatedSteps(a: Value, b: Value, step: Step)
    requires BothContainers(a, b) && Related(a, b) && (Has(a, step) || Has(b, step))
    ensures Related(Child(a, step), Child(b, step))
  {
    RelatedToNull(Child(a, step));
    RelatedToNull(Child(b, step));
    match step
    case Member(_) =>
    case Index(_) =>
  }

  lemma StepsMakeObjectsRelated(a: Value, b: Value)
    requires BothObjects(a, b)
    requires forall step :: Has(a, step) || Has(b, step) ==> Related(Child(a, step), Child(b, step))
    ensures Related(a, b)
  {
    forall v { RelatedToNull(v); }
    forall k | k in a.members || k in b.members
      ensures Related(Child(a, Member(k)), Child(b, Member(k)))
    {
      assert Has(a, Member(k)) || Has(b, Member(k));
    }
  }

  lemma StepsMakeArraysRelated(a: Value, b: Value)
    requires BothContainers(a, b) && !BothObjects(a, b)
    requires forall step :: Has(a, step) || Has(b, step) ==> Related(Child(a, step), Child(b, step))
    ensures Related(a, b)
  {
    forall v { RelatedToNull(v); }
    var x, y := a.elems, b.elems;
    forall i | 0 <= i < |x| || 0 <= i < |y|
      ensures i < |x| && i < |y| ==> Related(x[i], y[i])
      ensures |y| <= i ==> IsEmpty(x[i])
      ensures |x| <= i ==> IsEmpty(y[i])
    {
      assert Has(a, Index(i)) || Has(b, Index(i));
      assert Related(Child(a, Index(i)), Child(b, Index(i)));
    }
  }

  /** Containers are related exactly when every tried step leads to related children. */
  lemma RelatedStepwise(a: Value, b: Value)
    requires BothContainers(a, b)
    ensures Related(a, b) <==>
            forall step :: Has(a, step) || Has(b, step) ==> Related(Child(a, step), Child(b, step))
  {
    if Related(a, b) {
      forall step | Has(a, step) || Has(b, step) ensures Related(Child(a, step), Child(b, step)) {
        RelatedSteps(a, b, step);
      }
    }
    if forall step :: Has(a, step) || Has(b, step) ==> Related(Child(a, step), Child(b, step)) {
      if BothObjects(a, b) {
        StepsMakeObjectsRelated(a, b);
      } else {
        StepsMakeArraysRelated(a, b);
      }
    }
  }

  lemma TriedStepsAreChildSteps(a: Value, b: Value)
    requires BothContainers(a, b)
    ensures var steps := ChildSteps(a, b);
            (forall i :: 0 <= i < |steps| ==> Related(Child(a, steps[i]), Child(b, steps[i])))
            <==> forall step :: Has(a, step) || Has(b, step) ==> Related(Child(a, step), Child(b, step))
  {
    forall step {
      ChildStepsAreTheSteps(a, b, step);
    }
    var steps := ChildSteps(a, b);
    assert forall i :: 0 <= i < |steps| ==> steps[i] in steps;
  }

  /** The walk reports nothing exactly when the two values are related. */
  lemma {:induction false} NoFindingsIffRelated(at: seq<Step>, a: Value, b: Value)
    ensures Walk(at, a, b) == [] <==> Related(a, b)
    decreases a, 1
  {
    if IsEmpty(a) && IsEmpty(b) {
    } else if BothContainers(a, b) {
      NoFindingsBelow(at, a, b, ChildSteps(a, b), |ChildSteps(a, b)|);
      TriedStepsAreChildSteps(a, b);
      RelatedStepwise(a, b);
    } else {
      RenderingsDecideScalars(a, b);
    }
  }

  lemma {:induction false} NoFindingsBelow(at: seq<Step>, a: Value, b: Value, steps: seq<Step>, k: nat)
    requires BothContainers(a, b) && k <= |steps|
    ensures WalkChildren(at, a, b, steps, k) == [] <==>
            forall i :: 0 <= i < k ==> Related(Child(a, steps[i]), Child(b, steps[i]))
    decreases a, 0, k
  {
    if k > 0 {
      var step := steps[k - 1];
      NoFindingsBelow(at, a, b, steps, k - 1);
      AbsentReadsAsNull(at, a, b, step);
      if Has(a, step) {
        NoFindingsIffRelated(at + [step], Child(a, step), Child(b, step));
      } else {
        RelatedToNull(Child(b, step));
        RenderingsDecideScalars(CNull, Child(b, step));
      }
    }
  }

  lemma {:induction false} RelatedIsReflexive(a: Value)
    ensures Related(a, a)
  {
    match a
    case CObj(m) => forall k | k in m ensures Related(m[k], m[k]) { RelatedIsReflexive(m[k]); }
    case CArr(x) => forall i | 0 <= i < |x| ensures Related(x[i], x[i]) { RelatedIsReflexive(x[i]); }
    case _ =>
  }

  // ---------- swapping sides ----------

  function Swapped(findings: seq<Finding>): seq<Finding> {
    seq(|findings|, i requires 0 <= i < |findings| => Finding(findings[i].at, findings[i].bits, findings[i].cache))
  }

  lemma SwappedAppend(front: seq<Finding>, back: seq<Finding>)
    ensures Swapped(front + back) == Swapped(front) + Swapped(back)
  {
  }

  lemma ChildStepsIgnoreSides(a: Value, b: Value)
    requires BothContainers(a, b)
    ensures ChildSteps(a, b) == ChildSteps(b, a)
  {
    if BothObjects(a, b) {
      assert a.members.Keys + b.members.Keys == b.members.Keys + a.members.Keys;
    }
  }

  /** Exchanging cache and live exchanges the reported values and nothing else. */
  lemma {:induction false} SwappingSidesSwapsValues(at: seq<Step>, a: Value, b: Value)
    ensures Walk(at, b, a) == Swapped(Walk(at, a, b))
    decreases a, 1
  {
    if !(IsEmpty(a) && IsEmpty(b)) && BothContainers(a, b) {
      var steps := ChildSteps(a, b);
      ChildStepsIgnoreSides(a, b);
      SwappingSidesBelow(at, a, b, steps, |steps|);
    }
  }

  lemma {:induction false} SwappingSidesBelow(at: seq<Step>, a: Value, b: Value, steps: seq<Step>, k: nat)
    requires BothContainers(a, b) && k <= |steps|
    ensures WalkChildren(at, b, a, steps, k) == Swapped(WalkChildren(at, a, b, steps, k))
    decreases a, 0, k
  {
    if k > 0 {
      var step := steps[k - 1];
      SwappingSidesBelow(at, a, b, steps, k - 1);
      if Has(a, step) && Has(b, step) {
        SwappingSidesSwapsValues(at + [step], Child(a, step), Child(b, step));
      }
      var front, back := WalkChildren(at, a, b, steps, k - 1), WalkChild(at, a, b, step);
      assert WalkChild(at, b, a, step) == Swapped(back);
      SwappedAppend(front, back);
    }
  }

  lemma {:induction false} RelatedIsSymmetric(a: Value, b: Value)
    ensures Related(a, b) <==> Related(b, a)
  {
    NoFindingsIffRelated([], a, b);
    NoFindingsIffRelated([], b, a);
    SwappingSidesSwapsValues([], a, b);
  }

  // ---------- the relation is not transitive ----------

  const EMPTY_OBJECT := CObj(map[])
  const HOLDS_EMPTY_ARRAY := CObj(map["b" := CArr([])])

  /** {"b":[]} matches {} and {} matches null, yet {"b":[]} against null is reported. */
  lemma RelatedIsNotTransitive()
    ensures Related(HOLDS_EMPTY_ARRAY, EMPTY_OBJECT) && Related(EMPTY_OBJECT, CNull)
    ensures !Related(HOLDS_EMPTY_ARRAY, CNull)
  {
    assert "b" in HOLDS_EMPTY_ARRAY.members;
  }

  // ---------- the normal form ----------

  function DropNullTail(s: seq<Value>): seq<Value> {
    if s != [] && s[|s| - 1] == CNull then DropNullTail(s[..|s| - 1]) else s
  }

  /** Every empty member and every empty tail removed, bottom up; what is left empty reads null. */
  function Prune(v: Value): Value {
    match v
    case CArr(x) =>
      var kept := DropNullTail(seq(|x|, i requires 0 <= i < |x| => Prune(x[i])));
      if kept == [] then CNull else CArr(kept)
    case CObj(m) =>
      var kept := map k | k in m && Prune(m[k]) != CNull :: Prune(m[k]);
      if kept == map[] then CNull else CObj(kept)
    case _ => v
  }

  /** Hereditarily no empty member and no empty last element. */
  predicate Tidy(v: Value) {
    match v
    case CArr(x) => (x == [] || !IsEmpty(x[|x| - 1])) && forall i | 0 <= i < |x| :: Tidy(x[i])
    case CObj(m) => forall k | k in m :: !IsEmpty(m[k]) && Tidy(m[k])
    case _ => true
  }

  lemma EmptiesPruneToNull(v: Value)
    requires IsEmpty(v)
    ensures Prune(v) == CNull
  {
  }

  function Nth(s: seq<Value>, i: nat): Value {
    if i < |s| then s[i] else CNull
  }

  /** Lists that agree when padded with nulls lose their tails to the same list. */
  lemma {:induction false} DropNullTailIgnoresPadding(s: seq<Value>, t: seq<Value>)
    requires forall i: nat :: Nth(s, i) == Nth(t, i)
    ensures DropNullTail(s) == DropNullTail(t)
    decreases |s| + |t|
  {
    if s != [] && s[|s| - 1] == CNull {
      var s' := s[..|s| - 1];
      forall i: nat ensures Nth(s', i) == Nth(t, i) {
        assert Nth(s', i) == Nth(s, i);
      }
      DropNullTailIgnoresPadding(s', t);
    } else if t != [] && t[|t| - 1] == CNull {
      var t' := t[..|t| - 1];
      forall i: nat ensures Nth(s, i) == Nth(t', i) {
        assert Nth(t', i) == Nth(t, i);
      }
      DropNullTailIgnoresPadding(s, t');
    } else {
      if |s| > 0 { assert Nth(s, |s| - 1) == Nth(t, |s| - 1); }
      if |t| > 0 { assert Nth(s, |t| - 1) == Nth(t, |t| - 1); }
      forall i | 0 <= i < |s| ensures s[i] == t[i] {
        assert Nth(s, i) == Nth(t, i);
      }
    }
  }

  function PruneAll(x: seq<Value>): seq<Value> {
    seq(|x|, i requires 0 <= i < |x| => Prune(x[i]))
  }

  function PruneMembers(m: map<string, Value>): map<string, Value> {
    map k | k in m && Prune(m[k]) != CNull :: Prune(m[k])
  }

  lemma PruneArray(x: seq<Value>)
    ensures Prune(CArr(x)) == if DropNullTail(PruneAll(x)) == [] then CNull else CArr(DropNullTail(PruneAll(x)))
  {
    assert seq(|x|, i requires 0 <= i < |x| => Prune(x[i])) == PruneAll(x);
  }

  lemma PruneObject(m: map<string, Value>)
    ensures Prune(CObj(m)) == if PruneMembers(m) == map[] then CNull else CObj(PruneMembers(m))
  {
    assert (map k | k in m && Prune(m[k]) != CNull :: Prune(m[k])) == PruneMembers(m);
  }

  /** Whatever goes unreported has one normal form. */
  lemma ObjectsPruneAlike(m: map<string, Value>, n: map<string, Value>)
    requires forall k | k in m && k in n :: Prune(m[k]) == Prune(n[k])
    requires forall k | k in m && k !in n :: IsEmpty(m[k])
    requires forall k | k in n && k !in m :: IsEmpty(n[k])
    ensures Prune(CObj(m)) == Prune(CObj(n))
  {
    forall v | IsEmpty(v) ensures Prune(v) == CNull { EmptiesPruneToNull(v); }
    assert PruneMembers(m) == PruneMembers(n);
    PruneObject(m);
    PruneObject(n);
  }

  lemma ArraysPruneAlike(x: seq<Value>, y: seq<Value>)
    requires forall i | 0 <= i < |x| && i < |y| :: Prune(x[i]) == Prune(y[i])
    requires forall i | |y| <= i < |x| :: IsEmpty(x[i])
    requires forall i | |x| <= i < |y| :: IsEmpty(y[i])
    ensures Prune(CArr(x)) == Prune(CArr(y))
  {
    forall v | IsEmpty(v) ensures Prune(v) == CNull { EmptiesPruneToNull(v); }
    forall i: nat ensures Nth(PruneAll(x), i) == Nth(PruneAll(y), i) {
    }
    DropNullTailIgnoresPadding(PruneAll(x), PruneAll(y));
    PruneArray(x);
    PruneArray(y);
  }

  lemma {:induction false} RelatedValuesPruneAlike(a: Value, b: Value)
    requires Related(a, b)
    ensures Prune(a) == Prune(b)
  {
    forall v | IsEmpty(v) ensures Prune(v) == CNull { EmptiesPruneToNull(v); }
    if !(IsEmpty(a) && IsEmpty(b)) {
      match (a, b)
      case (CObj(m), CObj(n)) =>
        forall k | k in m && k in n ensures Prune(m[k]) == Prune(n[k]) {
          RelatedValuesPruneAlike(m[k], n[k]);
        }
        ObjectsPruneAlike(m, n);
      case (CArr(x), CArr(y)) =>
        forall i | 0 <= i < |x| && i < |y| ensures Prune(x[i]) == Prune(y[i]) {
          RelatedValuesPruneAlike(x[i], y[i]);
        }
        ArraysPruneAlike(x, y);
      case _ =>
    }
  }

  lemma {:induction false} DroppedTailShape(s: seq<Value>)
    ensures DropNullTail(s) <= s
    ensures DropNullTail(s) == [] || DropNullTail(s)[|DropNullTail(s)| - 1] != CNull
    ensures s != [] && s[|s| - 1] != CNull ==> DropNullTail(s) == s
  {
    if s != [] && s[|s| - 1] == CNull {
      DroppedTailShape(s[..|s| - 1]);
    }
  }

  lemma {:induction false} OnlyEmptiesPruneToNull(v: Value)
    requires Tidy(v)
    ensures Prune(v) == CNull <==> IsEmpty(v)
  {
    match v
    case CArr(x) =>
      if x != [] {
        OnlyEmptiesPruneToNull(x[|x| - 1]);
        PruneArray(x);
        DroppedTailShape(PruneAll(x));
      }
    case CObj(m) =>
      if m != map[] {
        var k :| k in m;
        OnlyEmptiesPruneToNull(m[k]);
        assert k in PruneMembers(m);
        PruneObject(m);
      }
    case _ =>
  }

  lemma TidyArrayKeepsItsLength(x: seq<Value>)
    requires Tidy(CArr(x)) && x != []
    ensures Prune(CArr(x)) == CArr(PruneAll(x))
  {
    OnlyEmptiesPruneToNull(x[|x| - 1]);
    PruneArray(x);
    DroppedTailShape(PruneAll(x));
  }

  lemma TidyObjectKeepsItsNames(m: map<string, Value>)
    requires Tidy(CObj(m)) && m != map[]
    ensures Prune(CObj(m)) == CObj(PruneMembers(m)) && PruneMembers(m).Keys == m.Keys
  {
    forall k | k in m ensures Prune(m[k]) != CNull {
      OnlyEmptiesPruneToNull(m[k]);
    }
    PruneObject(m);
    assert PruneMembers(m).Keys == m.Keys;
  }

  /** On tidy values the relation is equality of normal forms, hence an equivalence. */
  lemma {:induction false} TidyValuesRelateByNormalForm(a: Value, b: Value)
    requires Tidy(a) && Tidy(b)
    ensures Related(a, b) <==> Prune(a) == Prune(b)
  {
    if Related(a, b) {
      RelatedValuesPruneAlike(a, b);
    }
    OnlyEmptiesPruneToNull(a);
    OnlyEmptiesPruneToNull(b);
    if Prune(a) == Prune(b) && !IsEmpty(a) {
      match a {
        case CArr(x) =>
          TidyArrayKeepsItsLength(x);
          assert b.CArr?;
          TidyArrayKeepsItsLength(b.elems);
          forall i | 0 <= i < |x| ensures Related(x[i], b.elems[i]) {
            assert PruneAll(x)[i] == PruneAll(b.elems)[i];
            TidyValuesRelateByNormalForm(x[i], b.elems[i]);
          }
        case CObj(m) =>
          TidyObjectKeepsItsNames(m);
          assert b.CObj?;
          TidyObjectKeepsItsNames(b.members);
          forall k | k in m ensures k in b.members && Related(m[k], b.members[k]) {
            assert k in PruneMembers(m) && k in PruneMembers(b.members);
            TidyValuesRelateByNormalForm(m[k], b.members[k]);
          }
        case _ =>
      }
    }
  }

  lemma {:induction false} RelatedIsTransitiveOnTidyValues(a: Value, b: Value, c: Value)
    requires Tidy(a) && Tidy(b) && Tidy(c)
    requires Related(a, b) && Related(b, c)
    ensures Related(a, c)
  {
    TidyValuesRelateByNormalForm(a, b);
    TidyValuesRelateByNormalForm(b, c);
    TidyValuesRelateByNormalForm(a, c);
  }

  // ---------- chains of unreported differences ----------

  ghost predicate Chain(links: seq<Value>) {
    links != [] && forall i :: 0 <= i < |links| - 1 ==> Related(links[i], links[i + 1])
  }

  ghost predicate Linked(a: Value, b: Value) {
    exists links :: Chain(links) && links[0] == a && links[|links| - 1] == b
  }

  lemma LinkOne(a: Value, b: Value)
    requires Related(a, b)
    ensures Linked(a, b)
  {
    var links := [a, b];
    assert Chain(links) && links[0] == a && links[|links| - 1] == b;
  }

  lemma LinkedIsTransitive(a: Value, b: Value, c: Value)
    requires Linked(a, b) && Linked(b, c)
    ensures Linked(a, c)
  {
    var p :| Chain(p) && p[0] == a && p[|p| - 1] == b;
    var q :| Chain(q) && q[0] == b && q[|q| - 1] == c;
    var links := p + q[1..];
    forall i | 0 <= i < |links| - 1 ensures Related(links[i], links[i + 1]) {
      if i < |p| - 1 {
        assert Related(p[i], p[i + 1]);
      } else {
        var j := i - (|p| - 1);
        assert links[i] == q[j] && links[i + 1] == q[j + 1];
      }
    }
    assert Chain(links) && links[0] == a && links[|links| - 1] == c;
  }

  lemma ReversedChain(p: seq<Value>, links: seq<Value>)
    requires Chain(p) && |links| == |p| && forall i :: 0 <= i < |links| ==> links[i] == p[|p| - 1 - i]
    ensures Chain(links)
  {
    forall i | 0 <= i < |links| - 1 ensures Related(links[i], links[i + 1]) {
      var j := |p| - 2 - i;
      assert Related(p[j], p[j + 1]);
      RelatedIsSymmetric(p[j], p[j + 1]);
    }
  }

  lemma LinkedIsSymmetric(a: Value, b: Value)
    requires Linked(a, b)
    ensures Linked(b, a)
  {
    var p :| Chain(p) && p[0] == a && p[|p| - 1] == b;
    var links := seq(|p|, i requires 0 <= i < |p| => p[|p| - 1 - i]);
    ReversedChain(p, links);
    assert links[0] == b && links[|links| - 1] == a;
  }

  /** One round of dropping what is empty now, at every level at once. */
  function Sweep(v: Value): Value {
    match v
    case CArr(x) =>
      var kept := DropEmptyTail(x);
      CArr(seq(|kept|, i requires 0 <= i < |kept| => Sweep(kept[i])))
    case CObj(m) => CObj(map k | k in m && !IsEmpty(m[k]) :: Sweep(m[k]))
    case _ => v
  }

  function DropEmptyTail(x: seq<Value>): (kept: seq<Value>)
    ensures kept <= x
    ensures kept == [] || !IsEmpty(kept[|kept| - 1])
    ensures forall i :: |kept| <= i < |x| ==> IsEmpty(x[i])
  {
    if x != [] && IsEmpty(x[|x| - 1]) then DropEmptyTail(x[..|x| - 1]) else x
  }

  function SweepTimes(v: Value, rounds: nat): Value {
    if rounds == 0 then v else Sweep(SweepTimes(v, rounds - 1))
  }

  /** A sweep is never reported. */
  lemma {:induction false} SweepIsUnreported(v: Value)
    ensures Related(v, Sweep(v))
  {
    match v
    case CArr(x) =>
      var kept := DropEmptyTail(x);
      forall i | 0 <= i < |kept| ensures Related(x[i], Sweep(v).elems[i]) {
        assert kept[i] == x[i];
        SweepIsUnreported(x[i]);
      }
    case CObj(m) =>
      forall k | k in m && !IsEmpty(m[k]) ensures Related(m[k], Sweep(v).members[k]) {
        SweepIsUnreported(m[k]);
      }
    case _ =>
  }

  lemma {:induction false} SweepsLink(v: Value, rounds: nat)
    ensures Linked(v, SweepTimes(v, rounds))
  {
    if rounds == 0 {
      RelatedIsReflexive(v);
      LinkOne(v, v);
    } else {
      SweepsLink(v, rounds - 1);
      SweepIsUnreported(SweepTimes(v, rounds - 1));
      LinkOne(SweepTimes(v, rounds - 1), SweepTimes(v, rounds));
      LinkedIsTransitive(v, SweepTimes(v, rounds - 1), SweepTimes(v, rounds));
    }
  }

  lemma {:induction false} TidyIsSwept(v: Value)
    requires Tidy(v)
    ensures Sweep(v) == v
  {
    match v
    case CArr(x) =>
      assert DropEmptyTail(x) == x;
      forall i | 0 <= i < |x| ensures Sweep(x[i]) == x[i] { TidyIsSwept(x[i]); }
    case CObj(m) =>
      forall k | k in m ensures Sweep(m[k]) == m[k] { TidyIsSwept(m[k]); }
      assert Sweep(v).members == m;
    case _ =>
  }

  lemma {:induction false} TidyStaysSwept(v: Value, rounds: nat, more: nat)
    requires rounds <= more && Tidy(SweepTimes(v, rounds))
    ensures Tidy(SweepTimes(v, more))
    decreases more
  {
    if rounds < more {
      TidyStaysSwept(v, rounds, more - 1);
      TidyIsSwept(SweepTimes(v, more - 1));
    }
  }

  /** Rounds act on each surviving child separately. */
  lemma {:induction false} SweepsActBelow(v: Value, rounds: nat)
    ensures v.CObj? ==>
              var w := SweepTimes(v, rounds);
              w.CObj? && forall k | k in w.members :: k in v.members && w.members[k] == SweepTimes(v.members[k], rounds)
    ensures v.CArr? ==>
              var w := SweepTimes(v, rounds);
              w.CArr? && |w.elems| <= |v.elems|
              && forall i | 0 <= i < |w.elems| :: w.elems[i] == SweepTimes(v.elems[i], rounds)
  {
    if rounds > 0 {
      SweepsActBelow(v, rounds - 1);
    }
  }

  lemma SweptArrayIsTidy(v: Value, k: nat)
    requires v.CArr? && forall i | 0 <= i < |v.elems| :: Tidy(SweepTimes(v.elems[i], k))
    ensures Tidy(SweepTimes(v, k + 1))
  {
    SweepsActBelow(v, k);
    OneMoreSweep(SweepTimes(v, k));
  }

  lemma SweptObjectIsTidy(v: Value, k: nat)
    requires v.CObj? && forall name | name in v.members :: Tidy(SweepTimes(v.members[name], k))
    ensures Tidy(SweepTimes(v, k + 1))
  {
    SweepsActBelow(v, k);
    OneMoreSweep(SweepTimes(v, k));
  }

  lemma {:induction false} SweepingEndsTidy(v: Value) returns (rounds: nat)
    ensures Tidy(SweepTimes(v, rounds))
    decreases v, 1, 0
  {
    match v
    case CArr(x) =>
      var k := SweepingElementsEndsTidy(v, |x|);
      SweptArrayIsTidy(v, k);
      rounds := k + 1;
    case CObj(m) =>
      var k := SweepingMembersEndsTidy(v, m.Keys);
      SweptObjectIsTidy(v, k);
      rounds := k + 1;
    case _ =>
      rounds := 0;
  }

  lemma {:induction false} SweepingElementsEndsTidy(v: Value, n: nat) returns (rounds: nat)
    requires v.CArr? && n <= |v.elems|
    ensures forall i | 0 <= i < n :: Tidy(SweepTimes(v.elems[i], rounds))
    decreases v, 0, n
  {
    if n == 0 {
      rounds := 0;
    } else {
      var p := SweepingElementsEndsTidy(v, n - 1);
      var q := SweepingEndsTidy(v.elems[n - 1]);
      rounds := if p < q then q else p;
      forall i | 0 <= i < n - 1 ensures Tidy(SweepTimes(v.elems[i], rounds)) {
        TidyStaysSwept(v.elems[i], p, rounds);
      }
      TidyStaysSwept(v.elems[n - 1], q, rounds);
    }
  }

  lemma {:induction false} SweepingMembersEndsTidy(v: Value, names: set<string>) returns (rounds: nat)
    requires v.CObj? && names <= v.members.Keys
    ensures forall k | k in names :: Tidy(SweepTimes(v.members[k], rounds))
    decreases v, 0, |names|
  {
    if names == {} {
      rounds := 0;
    } else {
      var name :| name in names;
      var p := SweepingMembersEndsTidy(v, names - {name});
      var q := SweepingEndsTidy(v.members[name]);
      rounds := if p < q then q else p;
      forall k | k in names ensures Tidy(SweepTimes(v.members[k], rounds)) {
        if k == name {
          TidyStaysSwept(v.members[k], q, rounds);
        } else {
          TidyStaysSwept(v.members[k], p, rounds);
        }
      }
    }
  }

  /** Once every child is tidy, one more round tidies the parent. */
  lemma OneMoreSweep(v: Value)
    requires v.CArr? ==> forall i | 0 <= i < |v.elems| :: Tidy(v.elems[i])
    requires v.CObj? ==> forall k | k in v.members :: Tidy(v.members[k])
    requires v.CArr? || v.CObj?
    ensures Tidy(Sweep(v))
  {
    match v
    case CArr(x) =>
      var kept := DropEmptyTail(x);
      forall i | 0 <= i < |kept| ensures Sweep(v).elems[i] == kept[i] && Tidy(kept[i]) {
        assert kept[i] == x[i];
        TidyIsSwept(kept[i]);
      }
      assert Sweep(v).elems == kept;
    case CObj(m) =>
      forall k | k in m && !IsEmpty(m[k]) ensures Sweep(v).members[k] == m[k] { TidyIsSwept(m[k]); }
  }

  lemma {:induction false} ChainsPruneAlike(links: seq<Value>)
    requires Chain(links)
    ensures Prune(links[0]) == Prune(links[|links| - 1])
  {
    if |links| > 1 {
      var front := links[..|links| - 1];
      forall i | 0 <= i < |front| - 1 ensures Related(front[i], front[i + 1]) {
        assert Related(links[i], links[i + 1]);
      }
      ChainsPruneAlike(front);
      assert Related(links[|links| - 2], links[|links| - 2 + 1]);
      RelatedValuesPruneAlike(links[|links| - 2], links[|links| - 1]);
    }
  }

  /**
   * Two values are connected by a chain of comparisons that report nothing exactly when they have
   * the same normal form: that is the whole content a sequence of matches can lose.
   */
  lemma ChainsConnectEqualNormalForms(a: Value, b: Value)
    ensures Linked(a, b) <==> Prune(a) == Prune(b)
  {
    if Linked(a, b) {
      LinkedPrunesAlike(a, b);
    }
    if Prune(a) == Prune(b) {
      var p := SweepingEndsTidy(a);
      var q := SweepingEndsTidy(b);
      var s, t := SweepTimes(a, p), SweepTimes(b, q);
      SweepsLink(a, p);
      SweepsLink(b, q);
      LinkedPrunesAlike(a, s);
      LinkedPrunesAlike(b, t);
      TidyValuesRelateByNormalForm(s, t);
      LinkOne(s, t);
      LinkedIsSymmetric(b, t);
      LinkedIsTransitive(a, s, t);
      LinkedIsTransitive(a, t, b);
    }
  }

  lemma LinkedPrunesAlike(a: Value, b: Value)
    requires Linked(a, b)
    ensures Prune(a) == Prune(b)
  {
    var links :| Chain(links) && links[0] == a && links[|links| - 1] == b;
    ChainsPruneAlike(links);
  }
}
