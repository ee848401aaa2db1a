/** What storing an entry loses of its content: the bus seat layout, and when that shows. */
module SeatLayouts {
  import opened JsonTree
  import opened Canonical
  import opened Paths
  import opened Comparison
  import opened ContentRelation
  import opened Documents

  // ---------- objects member by member ----------

  /** The seat layout of an entry says something. */
  predicate HasLayout(entry: map<string, Json>) {
    && "bus" in entry && entry["bus"].Obj? && "seatLayoutList" in entry["bus"].members
    && !IsEmpty(Canonicalise(entry["bus"].members["seatLayoutList"]))
  }

  lemma ObjectsRelateMemberwise(m: map<string, Json>, n: map<string, Json>)
    ensures Related(Canonicalise(Obj(m)), Canonicalise(Obj(n)))
            <==> forall name :: Related(MemberOf(m, name), MemberOf(n, name))
  {
    ValuesRelateMemberwise(Canonicalise(Obj(m)), Canonicalise(Obj(n)));
    MemberOfCanonical(m);
    MemberOfCanonical(n);
    forall name
      ensures Related(MemberOf(m, name), MemberOf(n, name))
              <==> Related(Child(Canonicalise(Obj(m)), Member(name)), Child(Canonicalise(Obj(n)), Member(name)))
    {
    }
  }

  lemma MemberOfCanonical(m: map<string, Json>)
    ensures forall name :: MemberOf(m, name) == Child(Canonicalise(Obj(m)), Member(name))
  {
  }

  lemma ValuesRelateMemberwise(a: Value, b: Value)
    requires BothObjects(a, b)
    ensures Related(a, b) <==> forall name :: Related(Child(a, Member(name)), Child(b, Member(name)))
  {
    RelatedStepwise(a, b);
    forall name | name !in a.members && name !in b.members
      ensures Related(Child(a, Member(name)), Child(b, Member(name)))
    {
    }
    if forall name :: Related(Child(a, Member(name)), Child(b, Member(name))) {
      forall step | Has(a, step) || Has(b, step) ensures Related(Child(a, step), Child(b, step)) {
        assert Related(Child(a, Member(step.name)), Child(b, Member(step.name)));
      }
    }
    if Related(a, b) {
      forall name ensures Related(Child(a, Member(name)), Child(b, Member(name))) {
        assert Has(a, Member(name)) || Has(b, Member(name)) ==> Related(Child(a, Member(name)), Child(b, Member(name)));
      }
    }
  }

  /** A member's canonical value, null when it is missing. */
  function MemberOf(m: map<string, Json>, name: string): Value {
    if name in m then Canonicalise(m[name]) else CNull
  }

  /** Objects that differ in one member only are related exactly when that member is. */
  lemma OneMemberDecides(m: map<string, Json>, n: map<string, Json>, name: string)
    requires forall other :: other != name ==> MemberOf(m, other) == MemberOf(n, other)
    ensures Related(Canonicalise(Obj(m)), Canonicalise(Obj(n))) <==> Related(MemberOf(m, name), MemberOf(n, name))
  {
    ObjectsRelateMemberwise(m, n);
    forall other | other != name ensures Related(MemberOf(m, other), MemberOf(n, other)) {
      RelatedIsReflexive(MemberOf(n, other));
    }
  }

  lemma BusWithoutLayout(bus: map<string, Json>)
    ensures Related(Canonicalise(Obj(WithoutSeatLayout(bus))), Canonicalise(Obj(bus)))
            <==> IsEmpty(MemberOf(bus, "seatLayoutList"))
  {
    OneMemberDecides(WithoutSeatLayout(bus), bus, "seatLayoutList");
    RelatedToNull(MemberOf(bus, "seatLayoutList"));
  }

  /** An entry without its bus seat layout matches the entry exactly when that layout is missing or empty. */
  lemma LayoutIsTheOnlyLoss(entry: map<string, Json>)
    ensures Related(Canonicalise(Obj(WithoutBusLayout(entry))), Canonicalise(Obj(entry))) <==> !HasLayout(entry)
  {
    OneMemberDecides(WithoutBusLayout(entry), entry, "bus");
    if "bus" in entry && entry["bus"].Obj? {
      BusWithoutLayout(entry["bus"].members);
    } else {
      RelatedIsReflexive(MemberOf(entry, "bus"));
    }
  }

  // ---------- a seat layout shows ----------

  predicate LacksLayout(j: Json) {
    j.Obj? && "bus" in j.members && j.members["bus"].Obj? ==> "seatLayoutList" !in j.members["bus"].members
  }

  lemma LayoutNotEmpty(entry: map<string, Json>)
    requires HasLayout(entry)
    ensures !IsEmpty(Canonicalise(entry["bus"])) && !IsEmpty(Canonicalise(Obj(entry)))
  {
    var bus := Canonicalise(entry["bus"]);
    assert "seatLayoutList" in bus.members;
    assert "bus" in Canonicalise(Obj(entry)).members;
  }

  lemma OneMemberSetsApart(m: map<string, Json>, n: map<string, Json>, name: string)
    requires !Related(MemberOf(m, name), MemberOf(n, name))
    ensures !Related(Canonicalise(Obj(m)), Canonicalise(Obj(n)))
  {
    ObjectsRelateMemberwise(m, n);
  }

  lemma OtherKindsApart(v: Value, w: Value)
    requires !v.CObj? && w.CObj? && !IsEmpty(w)
    ensures !Related(v, w)
  {
  }

  lemma BusesApart(mine: Json, theirs: map<string, Json>)
    requires mine.Obj? ==> "seatLayoutList" !in mine.members
    requires "seatLayoutList" in theirs && !IsEmpty(Canonicalise(theirs["seatLayoutList"]))
    ensures !Related(Canonicalise(mine), Canonicalise(Obj(theirs)))
  {
    if mine.Obj? {
      RelatedToNull(MemberOf(theirs, "seatLayoutList"));
      OneMemberSetsApart(mine.members, theirs, "seatLayoutList");
    } else {
      assert "seatLayoutList" in Canonicalise(Obj(theirs)).members;
      OtherKindsApart(Canonicalise(mine), Canonicalise(Obj(theirs)));
    }
  }

  lemma LayoutSetsApart(served: Json, entry: map<string, Json>)
    requires LacksLayout(served) && HasLayout(entry)
    ensures !Related(Canonicalise(served), Canonicalise(Obj(entry)))
  {
    LayoutNotEmpty(entry);
    if served.Obj? {
      BusesApart(if "bus" in served.members then served.members["bus"] else Null, entry["bus"].members);
      OneMemberSetsApart(served.members, entry, "bus");
    }
  }
}
