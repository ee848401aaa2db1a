/** Reading the reported values back: a rendering says exactly which value it is of. */
module Renderings {
  import opened Wrappers
  import opened Text
  import opened Rational
  import opened Literals
  import opened JsonTree
  import opened Canonical
  import opened Paths
  import opened Comparison
  import opened Collector

  // ---------- a reader of renderings ----------

  /** The digits text starts with, and what follows them. */
  function ReadDigits(text: string): (r: (string, string))
    ensures forall c :: c in r.0 ==> IsDigit(c)
    ensures |r.1| <= |text| && (r.0 != "" ==> |r.1| < |text|)
  {
    if text == "" || !IsDigit(text[0]) then ("", text)
    else
      var (digits, rest) := ReadDigits(text[1..]);
      ([text[0]] + digits, rest)
  }

  function ReadNatural(text: string): (r: Option<(nat, string)>)
    ensures r.Some? ==> |r.value.1| < |text|
  {
    var (digits, rest) := ReadDigits(text);
    if digits == "" then None else Some((DecimalValue(digits), rest))
  }

  function ReadInteger(text: string): (r: Option<(int, string)>)
    ensures r.Some? ==> |r.value.1| < |text|
  {
    if text != "" && text[0] == '-' then
      match ReadNatural(text[1..])
      case None => None
      case Some((n, rest)) => var m: int := n; Some((-m, rest))
    else
      match ReadNatural(text)
      case None => None
      case Some((n, rest)) => Some((n, rest))
  }

  /** An integer, or a fraction in lowest terms. */
  function ReadRational(text: string): (r: Option<(Rational, string)>)
    ensures r.Some? ==> |r.value.1| < |text|
  {
    match ReadInteger(text)
    case None => None
    case Some((num, rest)) =>
      if rest != "" && rest[0] == '/' then
        match ReadInteger(rest[1..])
        case None => None
        case Some((den, after)) => if Reduced(Ratio(num, den)) then Some((Ratio(num, den), after)) else None
      else if Reduced(Ratio(num, 1)) then Some((Ratio(num, 1), rest))
      else None
  }

  /** A word text starts with. */
  function ReadWord(text: string, word: string, v: Value): (r: Option<(Value, string)>)
    requires word != ""
    ensures r.Some? ==> |r.value.1| < |text|
  {
    if word <= text then Some((v, text[|word|..])) else None
  }

  /** One rendered value off the front of text. */
  function ReadValue(text: string): (r: Option<(Value, string)>)
    ensures r.Some? ==> |r.value.1| < |text|
    decreases |text|, 0
  {
    if text == "" then None
    else if text[0] == 'n' then ReadWord(text, "null", CNull)
    else if text[0] == 't' then ReadWord(text, "true", CBool(true))
    else if text[0] == 'f' then ReadWord(text, "false", CBool(false))
    else if text[0] == '"' then
      match UnquoteTail(text[1..])
      case None => None
      case Some((s, rest)) => Some((CStr(s), rest))
    else if text[0] == '[' then
      if |text| > 1 && text[1] == ']' then Some((CArr([]), text[2..]))
      else match ReadElements(text[1..])
        case None => None
        case Some((elems, rest)) => Some((CArr(elems), rest))
    else if text[0] == '{' then
      if |text| > 1 && text[1] == '}' then Some((CObj(map[]), text[2..]))
      else match ReadMembers(text[1..])
        case None => None
        case Some((members, rest)) => Some((CObj(members), rest))
    else
      match ReadRational(text)
      case None => None
      case Some((r, rest)) => Some((CNum(r), rest))
  }

  /** Values with commas between them, up to and over the closing bracket. */
  function ReadElements(text: string): (r: Option<(seq<Value>, string)>)
    ensures r.Some? ==> |r.value.1| < |text|
    decreases |text|, 1
  {
    match ReadValue(text)
    case None => None
    case Some((v, rest)) =>
      if rest == "" then None
      else if rest[0] == ']' then Some(([v], rest[1..]))
      else if rest[0] != ',' then None
      else match ReadElements(rest[1..])
        case None => None
        case Some((elems, after)) => Some(([v] + elems, after))
  }

  /** Quoted names with their values, up to and over the closing brace. */
  function ReadMembers(text: string): (r: Option<(map<string, Value>, string)>)
    ensures r.Some? ==> |r.value.1| < |text|
    decreases |text|, 1
  {
    if text == "" || text[0] != '"' then None
    else match UnquoteTail(text[1..])
      case None => None
      case Some((name, rest)) =>
        if rest == "" || rest[0] != ':' then None
        else match ReadValue(rest[1..])
          case None => None
          case Some((v, after)) =>
            if after == "" then None
            else if after[0] == '}' then Some((map[name := v], after[1..]))
            else if after[0] != ',' then None
            else match ReadMembers(after[1..])
              case None => None
              case Some((members, end)) => Some((members[name := v], end))
  }

  // ---------- what it reads ----------

  /** Text that does not continue a number. */
  predicate EndsNumber(rest: string) {
    rest == "" || (!IsDigit(rest[0]) && rest[0] != '/')
  }

  lemma {:induction false} DigitsAreRead(digits: string, rest: string)
    requires forall c :: c in digits ==> IsDigit(c)
    requires rest == "" || !IsDigit(rest[0])
    ensures ReadDigits(digits + rest) == (digits, rest)
  {
    if digits == "" {
      assert digits + rest == rest;
    } else {
      assert digits[0] in digits;
      assert (digits + rest)[0] == digits[0] && (digits + rest)[1..] == digits[1..] + rest;
      DigitsAreRead(digits[1..], rest);
      assert [digits[0]] + digits[1..] == digits;
    }
  }

  lemma NaturalIsRead(n: nat, rest: string)
    requires rest == "" || !IsDigit(rest[0])
    ensures ReadNatural(DecimalText(n) + rest) == Some((n, rest))
    ensures IsDigit((DecimalText(n) + rest)[0])
  {
    DecimalRoundTrip(n);
    DigitsAreRead(DecimalText(n), rest);
    assert DecimalText(n)[0] in DecimalText(n);
  }

  lemma SignIsRead(text: string)
    ensures ReadInteger("-" + text)
            == match ReadNatural(text) case None => None case Some((n, rest)) => Some((-(n as int), rest))
    ensures text != "" && IsDigit(text[0]) ==>
              ReadInteger(text) == match ReadNatural(text) case None => None case Some((n, rest)) => Some((n, rest))
  {
    assert ("-" + text)[1..] == text;
  }

  lemma IntegerIsRead(n: int, rest: string)
    requires rest == "" || !IsDigit(rest[0])
    ensures ReadInteger(IntegerText(n) + rest) == Some((n, rest))
  {
    var magnitude := DecimalText(if n < 0 then -n else n) + rest;
    NaturalIsRead(if n < 0 then -n else n, rest);
    SignIsRead(magnitude);
    if n < 0 {
      assert IntegerText(n) + rest == "-" + magnitude;
    }
  }

  lemma RationalIsRead(r: Rational, rest: string)
    requires EndsNumber(rest)
    ensures ReadRational(RationalText(r) + rest) == Some((r, rest))
  {
    if r.den == 1 {
      IntegerIsRead(r.num, rest);
    } else {
      var tail := "/" + (IntegerText(r.den) + rest);
      assert RationalText(r) + rest == IntegerText(r.num) + tail;
      IntegerIsRead(r.num, tail);
      IntegerIsRead(r.den, rest);
      assert tail[1..] == IntegerText(r.den) + rest;
    }
  }

  lemma NumberHead(r: Rational, rest: string)
    ensures RationalText(r) + rest != ""
    ensures var c := (RationalText(r) + rest)[0]; IsDigit(c) || c == '-'
  {
    IntegerTextShape(r.num);
  }

  lemma QuotedIsRead(s: string, rest: string)
    ensures Quote(s) + rest != "" && (Quote(s) + rest)[0] == '"'
    ensures UnquoteTail((Quote(s) + rest)[1..]) == Some((s, rest))
  {
    UnquoteUndoesQuote(s, rest);
    assert (Quote(s) + rest)[1..] == EscapeAll(s) + "\"" + rest;
  }

  lemma WordsAreRead(rest: string)
    ensures ReadValue("null" + rest) == Some((CNull, rest))
    ensures ReadValue("true" + rest) == Some((CBool(true), rest))
    ensures ReadValue("false" + rest) == Some((CBool(false), rest))
  {
    assert ("null" + rest)[4..] == rest && ("true" + rest)[4..] == rest && ("false" + rest)[5..] == rest;
  }

  lemma StringIsRead(s: string, rest: string)
    ensures ReadValue(Quote(s) + rest) == Some((CStr(s), rest))
  {
    QuotedIsRead(s, rest);
  }

  lemma NumberIsRead(r: Rational, rest: string)
    requires EndsNumber(rest)
    ensures ReadValue(RationalText(r) + rest) == Some((CNum(r), rest))
  {
    RationalIsRead(r, rest);
    NumberHead(r, rest);
  }

  // ---------- lists and objects ----------

  /** Joined parts and what closes them: the first part, then the rest. */
  lemma JoinSplits(parts: seq<string>, close: string)
    requires parts != []
    ensures Join(parts, ",") + close
            == parts[0] + (if |parts| == 1 then close else "," + (Join(parts[1..], ",") + close))
  {
    if |parts| > 1 {
      AppendIsAssociative(parts[0] + ",", Join(parts[1..], ","), close);
      AppendIsAssociative(parts[0], ",", Join(parts[1..], ",") + close);
    }
  }

  function RenderElements(v: Value, i: nat): seq<string>
    requires v.CArr? && i <= |v.elems|
  {
    seq(|v.elems| - i, j requires 0 <= j < |v.elems| - i => Render(v.elems[i + j]))
  }

  lemma {:induction false} ElementsAreRead(v: Value, i: nat, rest: string)
    requires v.CArr? && i < |v.elems|
    ensures ReadElements(Join(RenderElements(v, i), ",") + ("]" + rest)) == Some((v.elems[i..], rest))
    decreases v, 0, |v.elems| - i
  {
    var parts, close := RenderElements(v, i), "]" + rest;
    JoinSplits(parts, close);
    assert close[1..] == rest;
    if i == |v.elems| - 1 {
      RenderingIsRead(v.elems[i], close);
      assert v.elems[i..] == [v.elems[i]];
    } else {
      assert parts[1..] == RenderElements(v, i + 1);
      var inner := Join(RenderElements(v, i + 1), ",") + close;
      RenderingIsRead(v.elems[i], "," + inner);
      ElementsAreRead(v, i + 1, rest);
      assert ("," + inner)[1..] == inner;
      assert [v.elems[i]] + v.elems[i + 1..] == v.elems[i..];
    }
  }

  /** The names of an object are exactly these. */
  predicate NamesOf(v: Value, names: seq<string>) {
    && v.CObj?
    && (forall name :: name in names ==> name in v.members) && (forall name :: name in v.members ==> name in names)
  }

  function RenderMember(v: Value, name: string): string
    requires v.CObj? && name in v.members
  {
    Quote(name) + ":" + Render(v.members[name])
  }

  function RenderMembers(v: Value, names: seq<string>, i: nat): seq<string>
    requires NamesOf(v, names) && i <= |names|
  {
    seq(|names| - i, j requires 0 <= j < |names| - i => assert names[i + j] in names; RenderMember(v, names[i + j]))
  }

  /** The members named from i on. */
  function MembersFrom(v: Value, names: seq<string>, i: nat): (m: map<string, Value>)
    requires NamesOf(v, names) && i <= |names|
    ensures forall name :: name in m <==> name in names[i..]
    ensures forall name :: name in m ==> name in v.members && m[name] == v.members[name]
    decreases |names| - i
  {
    if i == |names| then map[]
    else
      assert names[i] in names && names[i..] == [names[i]] + names[i + 1..];
      MembersFrom(v, names, i + 1)[names[i] := v.members[names[i]]]
  }

  /** The first of rendered members is read, and then whatever its end leads to. */
  lemma MemberIsRead(v: Value, name: string, tail: string)
    requires v.CObj? && name in v.members && EndsNumber(tail) && tail != ""
    ensures ReadMembers(RenderMember(v, name) + tail)
            == if tail[0] == '}' then Some((map[name := v.members[name]], tail[1..]))
               else if tail[0] != ',' then None
               else match ReadMembers(tail[1..])
                 case None => None
                 case Some((members, end)) => Some((members[name := v.members[name]], end))
    decreases v, 0, 0, 0
  {
    var value := Render(v.members[name]) + tail;
    assert RenderMember(v, name) + tail == Quote(name) + (":" + value);
    QuotedIsRead(name, ":" + value);
    assert (":" + value)[1..] == value;
    RenderingIsRead(v.members[name], tail);
  }

  lemma LastMemberIsRead(v: Value, name: string, rest: string)
    requires v.CObj? && name in v.members
    ensures ReadMembers(RenderMember(v, name) + ("}" + rest)) == Some((map[name := v.members[name]], rest))
    decreases v, 0, 0, 1
  {
    MemberIsRead(v, name, "}" + rest);
    assert ("}" + rest)[1..] == rest;
  }

  lemma NextMemberIsRead(v: Value, name: string, inner: string, members: map<string, Value>, rest: string)
    requires v.CObj? && name in v.members && ReadMembers(inner) == Some((members, rest))
    ensures ReadMembers(RenderMember(v, name) + ("," + inner)) == Some((members[name := v.members[name]], rest))
    decreases v, 0, 0, 1
  {
    MemberIsRead(v, name, "," + inner);
    assert ("," + inner)[1..] == inner;
  }

  lemma MembersSplit(v: Value, names: seq<string>, i: nat, close: string)
    requires NamesOf(v, names) && i < |names|
    ensures names[i] in v.members
    ensures Join(RenderMembers(v, names, i), ",") + close
            == RenderMember(v, names[i])
               + (if i == |names| - 1 then close else "," + (Join(RenderMembers(v, names, i + 1), ",") + close))
  {
    var parts := RenderMembers(v, names, i);
    assert names[i] in names && parts[0] == RenderMember(v, names[i]);
    assert parts[1..] == RenderMembers(v, names, i + 1);
    JoinSplits(parts, close);
  }

  lemma {:induction false} MembersAreRead(v: Value, names: seq<string>, i: nat, rest: string)
    requires NamesOf(v, names) && i < |names|
    ensures ReadMembers(Join(RenderMembers(v, names, i), ",") + ("}" + rest)) == Some((MembersFrom(v, names, i), rest))
    decreases v, 0, |names| - i
  {
    MembersSplit(v, names, i, "}" + rest);
    if i == |names| - 1 {
      LastMemberIsRead(v, names[i], rest);
      assert MembersFrom(v, names, i + 1) == map[];
    } else {
      var inner := Join(RenderMembers(v, names, i + 1), ",") + ("}" + rest);
      MembersAreRead(v, names, i + 1, rest);
      NextMemberIsRead(v, names[i], inner, MembersFrom(v, names, i + 1), rest);
    }
  }

  lemma BracketOpens(text: string, inner: string)
    requires |text| > 1 && text[0] == '[' && text[1] != ']' && text[1..] == inner
    ensures ReadValue(text)
            == match ReadElements(inner) case None => None case Some((elems, rest)) => Some((CArr(elems), rest))
  {
  }

  lemma BraceOpens(text: string, inner: string)
    requires |text| > 1 && text[0] == '{' && text[1] != '}' && text[1..] == inner
    ensures ReadValue(text)
            == match ReadMembers(inner) case None => None case Some((members, rest)) => Some((CObj(members), rest))
  {
  }

  lemma EmptiesAreRead(rest: string)
    ensures ReadValue("[]" + rest) == Some((CArr([]), rest)) && ReadValue("{}" + rest) == Some((CObj(map[]), rest))
  {
    assert ("[]" + rest)[2..] == rest && ("{}" + rest)[2..] == rest;
  }

  lemma EmptiesAreRendered(v: Value)
    ensures v.CArr? && v.elems == [] ==> Render(v) == "[]"
    ensures v.CObj? && v.members == map[] ==> Render(v) == "{}"
  {
  }

  /** A rendered array is its elements behind a bracket. */
  lemma OpenedArray(v: Value, rest: string)
    requires v.CArr? && v.elems != []
    ensures var text, inner := Render(v) + rest, Join(RenderElements(v, 0), ",") + ("]" + rest);
            |text| > 1 && text[0] == '[' && text[1] != ']' && text[1..] == inner
  {
    var inner := Join(RenderElements(v, 0), ",") + ("]" + rest);
    assert RenderElements(v, 0) == seq(|v.elems|, i requires 0 <= i < |v.elems| => Render(v.elems[i]));
    assert Render(v) + rest == "[" + inner;
    assert ("[" + inner)[1..] == inner;
    RenderedHead(v.elems[0]);
    JoinSplits(RenderElements(v, 0), "]" + rest);
  }

  lemma ArrayIsRead(v: Value, rest: string)
    requires v.CArr?
    ensures ReadValue(Render(v) + rest) == Some((v, rest))
    decreases v, 1, 0
  {
    EmptiesAreRendered(v);
    EmptiesAreRead(rest);
    if v.elems != [] {
      ElementsAreRead(v, 0, rest);
      assert v.elems[0..] == v.elems;
      OpenedArray(v, rest);
      BracketOpens(Render(v) + rest, Join(RenderElements(v, 0), ",") + ("]" + rest));
    }
  }

  lemma ObjectIsRead(v: Value, rest: string)
    requires v.CObj?
    ensures ReadValue(Render(v) + rest) == Some((v, rest))
    decreases v, 1, 0
  {
    EmptiesAreRendered(v);
    EmptiesAreRead(rest);
    if v.members != map[] {
      var names := SortedNames(v.members.Keys);
      SortedNamesAreNames(v, names);
      MembersAreRead(v, names, 0, rest);
      AllMembers(v, names);
      OpenedObject(v, names, rest);
      BraceOpens(Render(v) + rest, Join(RenderMembers(v, names, 0), ",") + ("}" + rest));
    }
  }

  lemma SortedNamesAreNames(v: Value, names: seq<string>)
    requires v.CObj? && names == SortedNames(v.members.Keys)
    ensures NamesOf(v, names) && (v.members != map[] ==> names != [])
  {
    forall name ensures name in names <==> name in v.members {
      assert name in names <==> name in Elements(names);
    }
  }

  lemma AllMembers(v: Value, names: seq<string>)
    requires NamesOf(v, names)
    ensures MembersFrom(v, names, 0) == v.members
  {
    assert names[0..] == names;
  }

  /** A rendered object is its members behind a brace. */
  lemma OpenedObject(v: Value, names: seq<string>, rest: string)
    requires v.CObj? && names == SortedNames(v.members.Keys) && NamesOf(v, names) && names != []
    ensures var text, inner := Render(v) + rest, Join(RenderMembers(v, names, 0), ",") + ("}" + rest);
            |text| > 1 && text[0] == '{' && text[1] != '}' && text[1..] == inner
  {
    var inner := Join(RenderMembers(v, names, 0), ",") + ("}" + rest);
    RenderedObject(v, names);
    assert Render(v) + rest == "{" + inner;
    assert ("{" + inner)[1..] == inner;
    assert names[0] in names;
    JoinSplits(RenderMembers(v, names, 0), "}" + rest);
    assert RenderMembers(v, names, 0)[0] == RenderMember(v, names[0]);
  }

  lemma RenderedObject(v: Value, names: seq<string>)
    requires v.CObj? && names == SortedNames(v.members.Keys) && NamesOf(v, names)
    ensures Render(v) == "{" + Join(RenderMembers(v, names, 0), ",") + "}"
  {
    var parts := seq(|names|, i requires 0 <= i < |names| =>
        assert names[i] in Elements(names); Quote(names[i]) + ":" + Render(v.members[names[i]]));
    assert parts == RenderMembers(v, names, 0);
  }

  /** A rendering is read back exactly, whatever follows it that does not continue a number. */
  lemma {:induction false} RenderingIsRead(v: Value, rest: string)
    requires EndsNumber(rest)
    ensures ReadValue(Render(v) + rest) == Some((v, rest))
    decreases v, 2, 0
  {
    match v
    case CNull => WordsAreRead(rest);
    case CBool(_) => WordsAreRead(rest);
    case CStr(s) => StringIsRead(s, rest);
    case CNum(r) => NumberIsRead(r, rest);
    case CArr(_) => ArrayIsRead(v, rest);
    case CObj(_) => ObjectIsRead(v, rest);
  }

  /** So equal renderings are of equal values, arrays and objects included. */
  lemma RenderingIsInjective(a: Value, b: Value)
    requires Render(a) == Render(b)
    ensures a == b
  {
    RenderingIsRead(a, "");
    RenderingIsRead(b, "");
  }

  // ---------- what a canonical value says of its input ----------

  /** Booleans and text as they are, numbers by value where they parse, lists and objects throughout. */
  ghost predicate Says(v: Value, j: Json) {
    match j
    case Null => v == CNull
    case Bool(b) => v == CBool(b)
    case Str(s) => v == CStr(s)
    case Num(l) => if Accepted(l) then v.CNum? && RealValue(v.r) == LiteralValue(l) else v == CStr(LiteralText(l))
    case Arr(elems) => v.CArr? && |v.elems| == |elems| && forall i | 0 <= i < |elems| :: Says(v.elems[i], elems[i])
    case Obj(members) =>
      && v.CObj? && (forall name :: name in v.members <==> Kept(members, name))
      && forall name | name in members && name in v.members :: Says(v.members[name], members[name])
  }

  lemma {:induction false} CanonicalFormSays(j: Json)
    ensures Says(Canonicalise(j), j)
  {
    match j
    case Num(l) =>
      if Accepted(l) {
        ParsedLiteralKeepsItsValue(l);
      }
    case Arr(elems) =>
      forall i | 0 <= i < |elems| ensures Says(Canonicalise(elems[i]), elems[i]) {
        CanonicalFormSays(elems[i]);
      }
    case Obj(members) =>
      forall name | name in members ensures Says(Canonicalise(members[name]), members[name]) {
        CanonicalFormSays(members[name]);
      }
    case _ =>
  }

  /** The text reported for a decoded value is read back as what the value says. */
  lemma ReportedTextSays(j: Json)
    ensures ReadValue(Render(Canonicalise(j))) == Some((Canonicalise(j), "")) && Says(Canonicalise(j), j)
  {
    RenderingIsRead(Canonicalise(j), "");
    assert Render(Canonicalise(j)) + "" == Render(Canonicalise(j));
    CanonicalFormSays(j);
  }

  // ---------- what stored differences keep ----------

  /** Both values of a stored difference are read back from its texts. */
  lemma StoredValuesAreRead(identity: EntryIdentity, f: Finding)
    ensures var d := EntryFor(identity, f);
            && ReadValue(d.cacheValue) == Some((f.cache, "")) && ReadValue(d.bitsValue) == Some((f.bits, ""))
            && ParsePath(if d.path == ROOT_PATH then "" else d.path) == Some(f.at)
  {
    RenderingIsRead(f.cache, "");
    RenderingIsRead(f.bits, "");
    assert Render(f.cache) + "" == Render(f.cache) && Render(f.bits) + "" == Render(f.bits);
    ReportedPathIsInjective(f.at, []);
    ParseUndoesPrint(f.at);
  }

  /** A list of stored differences determines the findings it was made from: no two lists read the same. */
  lemma StoredDifferencesKeepTheFindings(identity: EntryIdentity, x: seq<Finding>, y: seq<Finding>)
    requires EntriesFor(identity, x) == EntriesFor(identity, y)
    ensures x == y
  {
    assert |x| == |EntriesFor(identity, x)| == |y|;
    forall i | 0 <= i < |x| ensures x[i] == y[i] {
      assert EntriesFor(identity, x)[i] == EntryFor(identity, x[i]);
      assert EntriesFor(identity, y)[i] == EntryFor(identity, y[i]);
      ReportedPathIsInjective(x[i].at, y[i].at);
      RenderingIsInjective(x[i].cache, y[i].cache);
      RenderingIsInjective(x[i].bits, y[i].bits);
    }
  }
}
