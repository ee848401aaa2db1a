/** The canonical values the cache-versus-live comparison works on. */
module Canonical {
  import opened Text
  import opened Rational
  import opened Literals
  import opened JsonTree

  datatype Value =
    | CNull
    | CBool(b: bool)
    | CStr(s: string)
    | CNum(r: Rational)
    | CArr(elems: seq<Value>)
    | CObj(members: map<string, Value>)

  /** isEmptyValue: null, [] and {} all say "nothing here". */
  predicate IsEmpty(v: Value) {
    match v
    case CNull => true
    case CArr(elems) => |elems| == 0
    case CObj(members) => members == map[]
    case _ => false
  }

  /** Numbers become fractions, null members disappear, everything else is rebuilt. */
  function Canonicalise(j: Json): Value {
    match j
    case Null => CNull
    case Bool(b) => CBool(b)
    case Str(s) => CStr(s)
    case Num(l) =>
      (match ParseRational(l)
       case Some(r) => CNum(r)
       case None => CStr(LiteralText(l)))
    case Arr(elems) => CArr(seq(|elems|, i requires 0 <= i < |elems| => Canonicalise(elems[i])))
    case Obj(members) => CObj(map name | name in members && members[name] != Null :: Canonicalise(members[name]))
  }

  // ---------- rendering ----------

  function Render(v: Value): string {
    match v
    case CNull => "null"
    case CBool(b) => if b then "true" else "false"
    case CStr(s) => Quote(s)
    case CNum(r) => RationalText(r)
    case CArr(elems) => "[" + Join(seq(|elems|, i requires 0 <= i < |elems| => Render(elems[i])), ",") + "]"
    case CObj(members) =>
      var names := SortedNames(members.Keys);
      "{" + Join(seq(|names|, i requires 0 <= i < |names| =>
          assert names[i] in Elements(names); Quote(names[i]) + ":" + Render(members[names[i]])), ",") + "}"
  }

  /** The first character of a rendering gives the kind away. */
  predicate HeadFits(c: char, v: Value) {
    match v
    case CNull => c == 'n'
    case CBool(b) => c == if b then 't' else 'f'
    case CStr(_) => c == '"'
    case CNum(_) => IsDigit(c) || c == '-'
    case CArr(_) => c == '['
    case CObj(_) => c == '{'
  }

  lemma RenderedHead(v: Value)
    ensures Render(v) != "" && HeadFits(Render(v)[0], v)
  {
    match v
    case CNum(r) => IntegerTextShape(r.num);
    case _ =>
  }

  predicate BothObjects(a: Value, b: Value) { a.CObj? && b.CObj? }
  predicate BothArrays(a: Value, b: Value) { a.CArr? && b.CArr? }

  /** Outside two objects or two arrays, equal renderings mean equal values. */
  lemma RenderingsDecideScalars(a: Value, b: Value)
    requires !BothObjects(a, b) && !BothArrays(a, b)
    ensures Render(a) == Render(b) <==> a == b
  {
    if Render(a) == Render(b) {
      RenderedHead(a);
      RenderedHead(b);
      match a {
        case CStr(s) => QuoteIsInjective(s, b.s);
        case CNum(r) => RationalTextIsInjective(r, b.r);
        case _ =>
      }
    }
  }

  // ---------- what canonicalisation forgets ----------

  ghost predicate Kept(members: map<string, Json>, name: string) {
    name in members && members[name] != Null
  }

  /**
   * Two decoded trees with the same content: member order does not exist, null members are
   * absent, numbers agree in value (in text where the rational parser refuses them, which may
   * then also coincide with a string).
   */
  ghost predicate SameContent(a: Json, b: Json) {
    match (a, b)
    case (Null, Null) => true
    case (Bool(x), Bool(y)) => x == y
    case (Str(x), Str(y)) => x == y
    case (Num(x), Num(y)) =>
      if Accepted(x) && Accepted(y) then LiteralValue(x) == LiteralValue(y)
      else !Accepted(x) && !Accepted(y) && LiteralText(x) == LiteralText(y)
    case (Num(x), Str(y)) => !Accepted(x) && LiteralText(x) == y
    case (Str(x), Num(y)) => !Accepted(y) && x == LiteralText(y)
    case (Arr(xs), Arr(ys)) => |xs| == |ys| && forall i | 0 <= i < |xs| :: SameContent(xs[i], ys[i])
    case (Obj(m), Obj(n)) =>
      && (forall k :: Kept(m, k) <==> Kept(n, k))
      && (forall k | Kept(m, k) :: k in n && SameContent(m[k], n[k]))
    case _ => false
  }

  lemma SameArrays(xs: seq<Json>, ys: seq<Json>)
    requires forall i | 0 <= i < |xs| && i < |ys| ::
               Canonicalise(xs[i]) == Canonicalise(ys[i]) <==> SameContent(xs[i], ys[i])
    ensures Canonicalise(Arr(xs)) == Canonicalise(Arr(ys)) <==> SameContent(Arr(xs), Arr(ys))
  {
    var cx, cy := Canonicalise(Arr(xs)).elems, Canonicalise(Arr(ys)).elems;
    assert |cx| == |xs| && forall i | 0 <= i < |xs| :: cx[i] == Canonicalise(xs[i]);
    assert |cy| == |ys| && forall i | 0 <= i < |ys| :: cy[i] == Canonicalise(ys[i]);
    assert cx == cy <==> |xs| == |ys| && forall i | 0 <= i < |xs| :: cx[i] == cy[i];
  }

  lemma SameObjects(m: map<string, Json>, n: map<string, Json>)
    requires forall k | Kept(m, k) && Kept(n, k) ::
               Canonicalise(m[k]) == Canonicalise(n[k]) <==> SameContent(m[k], n[k])
    ensures Canonicalise(Obj(m)) == Canonicalise(Obj(n)) <==> SameContent(Obj(m), Obj(n))
  {
    var cm, cn := Canonicalise(Obj(m)).members, Canonicalise(Obj(n)).members;
    assert forall k :: (k in cm <==> Kept(m, k)) && (k in cn <==> Kept(n, k));
    if cm == cn {
      forall k | Kept(m, k) ensures Kept(n, k) && SameContent(m[k], n[k]) {
        assert k in cn && cm[k] == cn[k];
      }
      forall k | Kept(n, k) ensures Kept(m, k) {
        assert k in cm;
      }
    }
    if SameContent(Obj(m), Obj(n)) {
      assert forall k :: k in cm <==> k in cn;
      assert forall k | k in cm :: cm[k] == cn[k];
      assert cm == cn;
    }
  }

  /** Canonical values are equal exactly when the content is the same. */
  lemma {:induction false} CanonicalFormIsContent(a: Json, b: Json)
    ensures Canonicalise(a) == Canonicalise(b) <==> SameContent(a, b)
  {
    match (a, b)
    case (Num(x), Num(y)) =>
      if Accepted(x) && Accepted(y) { LiteralsCompareByValue(x, y); }
    case (Arr(xs), Arr(ys)) =>
      forall i | 0 <= i < |xs| && i < |ys|
        ensures Canonicalise(xs[i]) == Canonicalise(ys[i]) <==> SameContent(xs[i], ys[i])
      {
        CanonicalFormIsContent(xs[i], ys[i]);
      }
      SameArrays(xs, ys);
    case (Obj(m), Obj(n)) =>
      forall k | Kept(m, k) && Kept(n, k)
        ensures Canonicalise(m[k]) == Canonicalise(n[k]) <==> SameContent(m[k], n[k])
      {
        CanonicalFormIsContent(m[k], n[k]);
      }
      SameObjects(m, n);
    case _ =>
  }

  /** Two spellings of one number compare equal exactly when the rational parser takes both; of two numbers, never. */
  lemma SpellingsCompareByValue(a: Literal, b: Literal)
    requires LiteralText(a) != LiteralText(b)
    ensures Canonicalise(Num(a)) == Canonicalise(Num(b))
            <==> Accepted(a) && Accepted(b) && LiteralValue(a) == LiteralValue(b)
  {
    if Accepted(a) && Accepted(b) {
      LiteralsCompareByValue(a, b);
    }
  }

  /** The number 1e1000001, whose exponent is past the parser's limit. */
  function HugeLiteral(): Literal {
    LiteralParts(false, "1", "", "e", DecimalText(1_000_001))
  }

  function HugeLiteralShifted(): Literal {
    LiteralParts(false, "10", "", "e", DecimalText(1_000_000))
  }

  lemma HugeLiteralParts()
    ensures Mantissa(HugeLiteral()) == 1 && Scale(HugeLiteral()) == 1_000_001
  {
    DecimalRoundTrip(1_000_001);
    assert "1" + "" == "1";
    assert DecimalValue("1") == 1 by { assert DecimalValue("") == 0; }
  }

  lemma HugeLiteralShiftedParts()
    ensures Mantissa(HugeLiteralShifted()) == 10 && Scale(HugeLiteralShifted()) == 1_000_000
  {
    DecimalRoundTrip(1_000_000);
    assert "10" + "" == "10" && "10"[..1] == "1";
    assert DecimalValue("1") == 1 by { assert DecimalValue("") == 0; }
    assert DecimalValue("10") == 10;
  }

  /**
   * Beyond that limit "numbers compare by value" fails both ways: equal numbers differ, and a
   * number equals a string.
   */
  lemma HugeNumbersCompareByText()
    ensures LiteralValue(HugeLiteral()) == LiteralValue(HugeLiteralShifted())
    ensures Canonicalise(Num(HugeLiteral())) != Canonicalise(Num(HugeLiteralShifted()))
    ensures Canonicalise(Num(HugeLiteral())) == Canonicalise(Str(LiteralText(HugeLiteral())))
  {
    HugeLiteralParts();
    HugeLiteralShiftedParts();
    var p := Pow10(1_000_000);
    assert Pow10(1_000_001) == 10 * p;
    assert (10 * p) as real == 10.0 * p as real;
  }
}
