/**
 * Walking a cached and a live value in lockstep.
 *
 * `Walk` is the uncapped list of findings. It is characterised twice: as the ordered list of the
 * positions where the two trees clash, and, when empty, as the content relation `Related`.
 */
module Comparison {
  import opened Text
  import opened Canonical
  import opened Paths

  /** One disagreement: where, and what each side holds there (absent reads as null). */
  datatype Finding = Finding(at: seq<Step>, cache: Value, bits: Value)

  predicate Has(v: Value, step: Step) {
    match (v, step)
    case (CObj(members), Member(name)) => name in members
    case (CArr(elems), Index(i)) => i < |elems|
    case _ => false
  }

  function Child(v: Value, step: Step): (c: Value)
    ensures Has(v, step) ==> c < v
    ensures !Has(v, step) ==> c == CNull
  {
    if !Has(v, step) then CNull
    else match step
      case Member(name) => v.members[name]
      case Index(i) => v.elems[i]
  }

  predicate BothContainers(a: Value, b: Value) {
    BothObjects(a, b) || BothArrays(a, b)
  }

  function Longest(a: Value, b: Value): nat
    requires BothArrays(a, b)
  {
    if |b.elems| > |a.elems| then |b.elems| else |a.elems|
  }

  /** The steps tried below two containers of the same kind, in the order they are tried. */
  ghost function ChildSteps(a: Value, b: Value): seq<Step>
    requires BothContainers(a, b)
  {
    if BothObjects(a, b) then
      var names := SortedNames(a.members.Keys + b.members.Keys);
      seq(|names|, i requires 0 <= i < |names| => Member(names[i]))
    else
      seq(Longest(a, b), i requires 0 <= i < Longest(a, b) => Index(i))
  }

  ghost function Walk(at: seq<Step>, a: Value, b: Value): seq<Finding>
    decreases a, 2, 0
  {
    if IsEmpty(a) && IsEmpty(b) then []
    else if BothContainers(a, b) then WalkChildren(at, a, b, ChildSteps(a, b), |ChildSteps(a, b)|)
    else if Render(a) != Render(b) then [Finding(at, a, b)]
    else []
  }

  /** The findings below the first k steps. */
  ghost function WalkChildren(at: seq<Step>, a: Value, b: Value, steps: seq<Step>, k: nat): seq<Finding>
    requires k <= |steps|
    decreases a, 1, k
  {
    if k == 0 then [] else WalkChildren(at, a, b, steps, k - 1) + WalkChild(at, a, b, steps[k - 1])
  }

  ghost function WalkChild(at: seq<Step>, a: Value, b: Value, step: Step): seq<Finding>
    decreases a, 0, 0
  {
    var here, x, y := at + [step], Child(a, step), Child(b, step);
    if Has(a, step) && Has(b, step) then Walk(here, x, y)
    else if Has(a, step) then (if IsEmpty(x) then [] else [Finding(here, x, CNull)])
    else if IsEmpty(y) then [] else [Finding(here, CNull, y)]
  }

  /** A side that is absent behaves exactly like a side that is null. */
  lemma AbsentReadsAsNull(at: seq<Step>, a: Value, b: Value, step: Step)
    ensures WalkChild(at, a, b, step) == Walk(at + [step], Child(a, step), Child(b, step))
  {
    RenderingsDecideScalars(Child(a, step), CNull);
    RenderingsDecideScalars(CNull, Child(b, step));
  }

  lemma MemberStepsAreTheNames(a: Value, b: Value, name: string)
    requires BothObjects(a, b)
    ensures Member(name) in ChildSteps(a, b) <==> name in a.members || name in b.members
  {
    var keys := a.members.Keys + b.members.Keys;
    var names, steps := SortedNames(keys), ChildSteps(a, b);
    assert name in Elements(names) <==> name in keys;
    if name in names {
      var i :| 0 <= i < |names| && names[i] == name;
      assert steps[i] == Member(name);
    }
    if Member(name) in steps {
      var i :| 0 <= i < |steps| && steps[i] == Member(name);
      assert names[i] == name;
    }
  }

  /** Exactly the names and indices either side has are tried. */
  lemma ChildStepsAreTheSteps(a: Value, b: Value, step: Step)
    requires BothContainers(a, b)
    ensures step in ChildSteps(a, b) <==> Has(a, step) || Has(b, step)
  {
    match step
    case Member(name) =>
      if BothObjects(a, b) { MemberStepsAreTheNames(a, b, name); }
    case Index(i) =>
      if BothArrays(a, b) && i < Longest(a, b) { assert ChildSteps(a, b)[i] == step; }
  }

  // ---------- where two trees clash ----------

  /** Something that is reported on the spot: not two empties, not two containers to descend into. */
  predicate Clash(a: Value, b: Value) {
    !(IsEmpty(a) && IsEmpty(b)) && !BothContainers(a, b) && a != b
  }

  /** Both sides stay containers of one kind on the way down, and clash at the end of it. */
  ghost predicate ClashesAt(a: Value, b: Value, relative: seq<Step>)
    decreases |relative|
  {
    if relative == [] then Clash(a, b)
    else
      && BothContainers(a, b)
      && (Has(a, relative[0]) || Has(b, relative[0]))
      && ClashesAt(Child(a, relative[0]), Child(b, relative[0]), relative[1..])
  }

  function ValueAt(v: Value, relative: seq<Step>): Value
    decreases |relative|
  {
    if relative == [] then v else ValueAt(Child(v, relative[0]), relative[1..])
  }

  /** The finding that a clash calls for. */
  ghost predicate Expected(f: Finding, at: seq<Step>, a: Value, b: Value) {
    && at <= f.at
    && var relative := f.at[|at|..];
       ClashesAt(a, b, relative) && f.cache == ValueAt(a, relative) && f.bits == ValueAt(b, relative)
  }

  lemma ExpectedBelow(f: Finding, at: seq<Step>, a: Value, b: Value, step: Step)
    requires BothContainers(a, b) && (Has(a, step) || Has(b, step))
    ensures Expected(f, at + [step], Child(a, step), Child(b, step))
            <==> Expected(f, at, a, b) && |f.at| > |at| && f.at[|at|] == step
  {
    if at + [step] <= f.at {
      assert f.at[|at|..][0] == step;
      assert f.at[|at|..][1..] == f.at[|at| + 1..];
      assert at <= f.at;
    }
    if at <= f.at && |f.at| > |at| && f.at[|at|] == step {
      assert f.at[..|at| + 1] == at + [step];
      assert f.at[|at|..][0] == step;
      assert f.at[|at|..][1..] == f.at[|at| + 1..];
    }
  }

  /** A finding is reported exactly when the two trees clash at its position. */
  lemma {:induction false} WalkReportsExactlyTheClashes(f: Finding, at: seq<Step>, a: Value, b: Value)
    ensures f in Walk(at, a, b) <==> Expected(f, at, a, b)
    decreases a, 1
  {
    if IsEmpty(a) && IsEmpty(b) {
      NoStepsInEmpties(f, at, a, b);
    } else if BothContainers(a, b) {
      var steps := ChildSteps(a, b);
      forall s ensures s in steps <==> Has(a, s) || Has(b, s) {
        ChildStepsAreTheSteps(a, b, s);
      }
      WalkChildrenReportsExactlyTheClashes(f, at, a, b, steps, |steps|);
      ContainersClashBelow(f, at, a, b);
      assert steps[..|steps|] == steps;
    } else {
      ScalarsClashHere(f, at, a, b);
    }
  }

  lemma ContainersClashBelow(f: Finding, at: seq<Step>, a: Value, b: Value)
    requires BothContainers(a, b)
    ensures Expected(f, at, a, b) ==> |f.at| > |at| && (Has(a, f.at[|at|]) || Has(b, f.at[|at|]))
  {
    if at <= f.at && |f.at| > |at| {
      assert f.at[|at|..][0] == f.at[|at|];
    }
  }

  lemma ScalarsClashHere(f: Finding, at: seq<Step>, a: Value, b: Value)
    requires !(IsEmpty(a) && IsEmpty(b)) && !BothContainers(a, b)
    ensures f in Walk(at, a, b) <==> Expected(f, at, a, b)
  {
    RenderingsDecideScalars(a, b);
    if f.at == at {
      assert f.at[|at|..] == [];
    }
    if Expected(f, at, a, b) {
      assert f.at[|at|..] == [];
      assert f.at == at;
    }
  }

  lemma NoStepsInEmpties(f: Finding, at: seq<Step>, a: Value, b: Value)
    requires IsEmpty(a) && IsEmpty(b)
    ensures !Expected(f, at, a, b)
  {
  }

  lemma {:induction false} WalkChildrenReportsExactlyTheClashes(f: Finding, at: seq<Step>, a: Value, b: Value,
                                                                steps: seq<Step>, k: nat)
    requires BothContainers(a, b) && k <= |steps|
    requires forall s | s in steps :: Has(a, s) || Has(b, s)
    ensures f in WalkChildren(at, a, b, steps, k)
            <==> Expected(f, at, a, b) && |f.at| > |at| && f.at[|at|] in steps[..k]
    decreases a, 0, k
  {
    if k > 0 {
      var step := steps[k - 1];
      WalkChildrenReportsExactlyTheClashes(f, at, a, b, steps, k - 1);
      AbsentReadsAsNull(at, a, b, step);
      ExpectedBelow(f, at, a, b, step);
      if Has(a, step) {
        WalkReportsExactlyTheClashes(f, at + [step], Child(a, step), Child(b, step));
      } else {
        WalkFromNull(f, at + [step], Child(b, step));
      }
      assert steps[..k] == steps[..k - 1] + [step];
    }
  }

  lemma WalkFromNull(f: Finding, at: seq<Step>, b: Value)
    ensures f in Walk(at, CNull, b) <==> Expected(f, at, CNull, b)
  {
    if IsEmpty(b) {
      NoStepsInEmpties(f, at, CNull, b);
    } else {
      ScalarsClashHere(f, at, CNull, b);
    }
  }

  // ---------- the order of the findings ----------

  predicate StepLess(s: Step, t: Step) {
    match (s, t)
    case (Member(m), Member(n)) => Less(m, n)
    case (Index(i), Index(j)) => i < j
    case _ => false
  }

  /** Depth-first order: the first step that differs decides. */
  ghost predicate PositionLess(p: seq<Step>, q: seq<Step>) {
    exists k :: 0 <= k < |p| && k < |q| && p[..k] == q[..k] && StepLess(p[k], q[k])
  }

  ghost predicate InOrder(findings: seq<Finding>) {
    forall i, j :: 0 <= i < j < |findings| ==> PositionLess(findings[i].at, findings[j].at)
  }

  lemma PositionsAtDifferentSteps(p: seq<Step>, q: seq<Step>, at: seq<Step>)
    requires at <= p && at <= q && |p| > |at| && |q| > |at|
    requires StepLess(p[|at|], q[|at|])
    ensures PositionLess(p, q)
  {
    assert p[..|at|] == at == q[..|at|];
  }

  lemma ChildStepsAscend(a: Value, b: Value)
    requires BothContainers(a, b)
    ensures var steps := ChildSteps(a, b);
            forall i, j :: 0 <= i < j < |steps| ==> StepLess(steps[i], steps[j])
  {
  }

  lemma EarlierChildrenComeFirst(at: seq<Step>, a: Value, b: Value, steps: seq<Step>, k: nat, f: Finding, g: Finding)
    requires BothContainers(a, b) && 0 < k <= |steps|
    requires forall s | s in steps :: Has(a, s) || Has(b, s)
    requires forall i, j :: 0 <= i < j < |steps| ==> StepLess(steps[i], steps[j])
    requires f in WalkChildren(at, a, b, steps, k - 1) && g in WalkChild(at, a, b, steps[k - 1])
    ensures PositionLess(f.at, g.at)
  {
    var step := steps[k - 1];
    AbsentReadsAsNull(at, a, b, step);
    WalkChildrenReportsExactlyTheClashes(f, at, a, b, steps, k - 1);
    WalkReportsExactlyTheClashes(g, at + [step], Child(a, step), Child(b, step));
    ExpectedBelow(g, at, a, b, step);
    PositionsAtDifferentSteps(f.at, g.at, at);
  }

  /** Findings come depth first, members by name and elements by index, no position twice. */
  lemma {:induction false} WalkIsInOrder(at: seq<Step>, a: Value, b: Value)
    ensures InOrder(Walk(at, a, b))
    decreases a, 1
  {
    if !(IsEmpty(a) && IsEmpty(b)) && BothContainers(a, b) {
      var steps := ChildSteps(a, b);
      ChildStepsAscend(a, b);
      forall s | s in steps ensures Has(a, s) || Has(b, s) {
        ChildStepsAreTheSteps(a, b, s);
      }
      WalkChildrenAreInOrder(at, a, b, steps, |steps|);
    }
  }

  lemma {:induction false} WalkChildrenAreInOrder(at: seq<Step>, a: Value, b: Value, steps: seq<Step>, k: nat)
    requires BothContainers(a, b) && k <= |steps|
    requires forall s | s in steps :: Has(a, s) || Has(b, s)
    requires forall i, j :: 0 <= i < j < |steps| ==> StepLess(steps[i], steps[j])
    ensures InOrder(WalkChildren(at, a, b, steps, k))
    decreases a, 0, k
  {
    if k > 0 {
      var step := steps[k - 1];
      WalkChildrenAreInOrder(at, a, b, steps, k - 1);
      AbsentReadsAsNull(at, a, b, step);
      if Has(a, step) {
        WalkIsInOrder(at + [step], Child(a, step), Child(b, step));
      }
      var earlier, later := WalkChildren(at, a, b, steps, k - 1), WalkChild(at, a, b, step);
      assert InOrder(later);
      forall f, g | f in earlier && g in later ensures PositionLess(f.at, g.at) {
        EarlierChildrenComeFirst(at, a, b, steps, k, f, g);
      }
      AppendInOrder(earlier, later);
    }
  }

  lemma AppendInOrder(earlier: seq<Finding>, later: seq<Finding>)
    requires InOrder(earlier) && InOrder(later)
    requires forall f, g | f in earlier && g in later :: PositionLess(f.at, g.at)
    ensures InOrder(earlier + later)
  {
    var all := earlier + later;
    forall i, j | 0 <= i < j < |all| ensures PositionLess(all[i].at, all[j].at) {
      if i < |earlier| <= j {
        assert all[i] in earlier && all[j] in later;
      }
    }
  }

  lemma StepLessIsIrreflexive(s: Step)
    ensures !StepLess(s, s)
  {
    match s
    case Member(m) => LessIsIrreflexive(m);
    case Index(_) =>
  }

  lemma PositionLessMeansDifferent(p: seq<Step>, q: seq<Step>)
    requires PositionLess(p, q)
    ensures p != q
  {
    var k :| 0 <= k < |p| && k < |q| && p[..k] == q[..k] && StepLess(p[k], q[k]);
    StepLessIsIrreflexive(p[k]);
  }

  /** No path is reported twice in one comparison. */
  lemma NoPathTwice(a: Value, b: Value)
    ensures var findings := Walk([], a, b);
            forall i, j :: 0 <= i < j < |findings| ==> ReportedPath(findings[i].at) != ReportedPath(findings[j].at)
  {
    var findings := Walk([], a, b);
    WalkIsInOrder([], a, b);
    forall i, j | 0 <= i < j < |findings|
      ensures ReportedPath(findings[i].at) != ReportedPath(findings[j].at)
    {
      PositionLessMeansDifferent(findings[i].at, findings[j].at);
      ReportedPathIsInjective(findings[i].at, findings[j].at);
    }
  }
}
