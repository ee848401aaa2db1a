/** Decoded JSON. */
module JsonTree {
  import opened Literals

  /** Member order does not exist; numbers keep their text. */
  datatype Json =
    | Null
    | Bool(b: bool)
    | Str(s: string)
    | Num(literal: Literal)
    | Arr(elems: seq<Json>)
    | Obj(members: map<string, Json>)

  /** A member read as text: missing and non-string members are blank. */
  function StringField(members: map<string, Json>, name: string): string {
    if name in members && members[name].Str? then members[name].s else ""
  }

  /** The members of a nested object, none when it is missing or no object. */
  function NestedObject(members: map<string, Json>, name: string): map<string, Json> {
    if name in members && members[name].Obj? then members[name].members else map[]
  }

  function NestedStringField(members: map<string, Json>, parent: string, name: string): string {
    StringField(NestedObject(members, parent), name)
  }

  /** Decodes into a plain value: every number in the tree fits a 64-bit float. */
  predicate PlainlyDecodes(j: Json) {
    match j
    case Num(literal) => FitsFloat(literal)
    case Arr(elems) => forall e :: e in elems ==> PlainlyDecodes(e)
    case Obj(members) => forall name :: name in members ==> PlainlyDecodes(members[name])
    case _ => true
  }

  /** The same tree, but for its numbers: what decoding into a plain value and encoding again may change. */
  predicate SameButNumbers(a: Json, b: Json) {
    match (a, b)
    case (Num(_), Num(_)) => true
    case (Arr(x), Arr(y)) => |x| == |y| && forall i :: 0 <= i < |x| ==> SameButNumbers(x[i], y[i])
    case (Obj(m), Obj(n)) =>
      m.Keys == n.Keys && forall name :: name in m ==> name in n && SameButNumbers(m[name], n[name])
    case _ => a == b
  }

  /** Text members are not numbers, so they survive. */
  lemma TextSurvives(m: map<string, Json>, n: map<string, Json>)
    requires SameButNumbers(Obj(m), Obj(n))
    ensures forall name :: StringField(m, name) == StringField(n, name)
    ensures forall parent, name :: NestedStringField(m, parent, name) == NestedStringField(n, parent, name)
  {
    forall name ensures StringField(m, name) == StringField(n, name) {
      if name in m {
        assert SameButNumbers(m[name], n[name]);
      }
    }
    forall parent, name ensures NestedStringField(m, parent, name) == NestedStringField(n, parent, name) {
      if parent in m {
        assert SameButNumbers(m[parent], n[parent]);
        if m[parent].Obj? && name in m[parent].members {
          assert SameButNumbers(m[parent].members[name], n[parent].members[name]);
        }
      }
    }
  }
}
