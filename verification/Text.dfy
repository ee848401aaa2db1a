/** The string facts the services rely on: blank tests, name order, decimal and quoted text. */
module Text {
  import opened Wrappers

  // ---------- blank text ----------

  /** Go's unicode.IsSpace. */
  predicate IsSpace(c: char) {
    var n := c as int;
    || 0x09 <= n <= 0x0D || n == 0x20 || n == 0x85 || n == 0xA0 || n == 0x1680
    || 0x2000 <= n <= 0x200A || n == 0x2028 || n == 0x2029 || n == 0x202F || n == 0x205F || n == 0x3000
  }

  function TrimLeft(s: string): string {
    if s != "" && IsSpace(s[0]) then TrimLeft(s[1..]) else s
  }

  function TrimRight(s: string): string {
    if s != "" && IsSpace(s[|s| - 1]) then TrimRight(s[..|s| - 1]) else s
  }

  function TrimSpace(s: string): string {
    TrimRight(TrimLeft(s))
  }

  predicate Blank(s: string) {
    TrimSpace(s) == ""
  }

  lemma BlankMeansNothing()
    ensures Blank("")
  {
  }

  lemma {:induction false} TrimRightKeepsHead(s: string)
    requires s != "" && !IsSpace(s[0])
    ensures TrimRight(s) != "" && TrimRight(s)[0] == s[0]
  {
    if IsSpace(s[|s| - 1]) {
      TrimRightKeepsHead(s[..|s| - 1]);
    }
  }

  lemma {:induction false} TrimLeftHead(s: string)
    ensures TrimLeft(s) == "" || !IsSpace(TrimLeft(s)[0])
  {
    if s != "" && IsSpace(s[0]) {
      TrimLeftHead(s[1..]);
    }
  }

  lemma {:induction false} TrimRightLast(s: string)
    ensures TrimRight(s) == "" || !IsSpace(TrimRight(s)[|TrimRight(s)| - 1])
  {
    if s != "" && IsSpace(s[|s| - 1]) {
      TrimRightLast(s[..|s| - 1]);
    }
  }

  /** Trimmed text has nothing left to trim. */
  lemma TrimIsIdempotent(s: string)
    ensures TrimSpace(TrimSpace(s)) == TrimSpace(s)
  {
    var left := TrimLeft(s);
    TrimLeftHead(s);
    TrimRightLast(left);
    if left != "" {
      TrimRightKeepsHead(left);
    }
  }

  // ---------- the order of sort.Strings ----------

  predicate Less(a: string, b: string) {
    if b == "" then false
    else if a == "" then true
    else a[0] < b[0] || (a[0] == b[0] && Less(a[1..], b[1..]))
  }

  lemma {:induction false} LessIsTransitive(a: string, b: string, c: string)
    requires Less(a, b) && Less(b, c)
    ensures Less(a, c)
  {
    if a != "" && a[0] == b[0] == c[0] {
      LessIsTransitive(a[1..], b[1..], c[1..]);
    }
  }

  lemma {:induction false} LessIsIrreflexive(a: string)
    ensures !Less(a, a)
  {
    if a != "" {
      LessIsIrreflexive(a[1..]);
    }
  }

  lemma {:induction false} LessIsTotal(a: string, b: string)
    ensures Less(a, b) || Less(b, a) || a == b
  {
    if a != "" && b != "" && a[0] == b[0] {
      LessIsTotal(a[1..], b[1..]);
      assert a == [a[0]] + a[1..] && b == [b[0]] + b[1..];
    }
  }

  ghost predicate StrictlySorted(names: seq<string>) {
    forall i, j :: 0 <= i < j < |names| ==> Less(names[i], names[j])
  }

  ghost function Elements<T>(s: seq<T>): set<T> {
    set x | x in s
  }

  predicate IsLeast(x: string, names: set<string>) {
    x in names && forall y :: y in names ==> y == x || Less(x, y)
  }

  lemma {:induction false} LeastExists(names: set<string>)
    requires names != {}
    ensures exists x :: IsLeast(x, names)
    decreases |names|
  {
    var x :| x in names;
    if names == {x} {
      assert IsLeast(x, names);
    } else {
      LeastExists(names - {x});
      var y :| IsLeast(y, names - {x});
      LessIsTotal(x, y);
      if Less(x, y) {
        forall z | z in names ensures z == x || Less(x, z) {
          if z != x && z != y { LessIsTransitive(x, y, z); }
        }
        assert IsLeast(x, names);
      } else {
        assert IsLeast(y, names);
      }
    }
  }

  lemma LeastIsUnique(names: set<string>)
    ensures forall x, y :: IsLeast(x, names) && IsLeast(y, names) ==> x == y
  {
    forall x, y | IsLeast(x, names) && IsLeast(y, names) ensures x == y {
      if x != y {
        LessIsTransitive(x, y, x);
        LessIsIrreflexive(x);
      }
    }
  }

  /** The one strictly increasing listing of a set of names. */
  function SortedNames(names: set<string>): (r: seq<string>)
    ensures StrictlySorted(r)
    ensures Elements(r) == names
    decreases |names|
  {
    if names == {} then []
    else
      LeastExists(names);
      LeastIsUnique(names);
      var x :| IsLeast(x, names);
      var rest := SortedNames(names - {x});
      LeastGoesFirst(x, rest, names);
      [x] + rest
  }

  lemma LeastGoesFirst(x: string, rest: seq<string>, names: set<string>)
    requires IsLeast(x, names) && StrictlySorted(rest) && Elements(rest) == names - {x}
    ensures StrictlySorted([x] + rest)
    ensures Elements([x] + rest) == names
  {
    forall y | y in rest ensures Less(x, y) {
      assert y in Elements(rest);
    }
    ConsIsSorted(x, rest);
  }

  lemma ConsIsSorted(x: string, rest: seq<string>)
    requires StrictlySorted(rest)
    ensures (forall y :: y in rest ==> Less(x, y)) ==> StrictlySorted([x] + rest)
    ensures Elements([x] + rest) == {x} + Elements(rest)
  {
    var all := [x] + rest;
    assert forall y :: y in all <==> y == x || y in rest;
    if forall y :: y in rest ==> Less(x, y) {
      forall i, j | 0 <= i < j < |all| ensures Less(all[i], all[j]) {
        assert all[j] == rest[j - 1];
        if i > 0 { assert all[i] == rest[i - 1]; }
      }
    }
  }

  lemma {:induction false} SortedListingIsUnique(a: seq<string>, b: seq<string>)
    requires StrictlySorted(a) && StrictlySorted(b)
    requires Elements(a) == Elements(b)
    ensures a == b
  {
    if a == [] {
      NoElements(b);
    } else {
      NoElements(b);
      assert a[0] in Elements(b);
      assert b[0] in Elements(a);
      var i :| 0 <= i < |b| && b[i] == a[0];
      var j :| 0 <= j < |a| && a[j] == b[0];
      if i > 0 && j > 0 {
        LessIsTransitive(a[0], a[j], b[i]);
        LessIsIrreflexive(a[0]);
      }
      assert a[0] == b[0];
      TailElements(a);
      TailElements(b);
      SortedListingIsUnique(a[1..], b[1..]);
    }
  }

  lemma NoElements(a: seq<string>)
    ensures Elements(a) == {} <==> a == []
  {
    if a != [] {
      assert a[0] in Elements(a);
    }
  }

  lemma TailElements(a: seq<string>)
    requires StrictlySorted(a) && a != []
    ensures Elements(a[1..]) == Elements(a) - {a[0]}
  {
    LessIsIrreflexive(a[0]);
    assert a == [a[0]] + a[1..];
    assert forall x :: x in a <==> x == a[0] || x in a[1..];
  }

  /** Sorting as sort.Strings leaves it, on a list without repeats. */
  function SortStrings(names: seq<string>): (r: seq<string>)
    ensures forall x :: x in r <==> x in names
    ensures (forall i, j :: 0 <= i < j < |names| ==> names[i] != names[j]) ==> StrictlySorted(r)
  {
    if names == [] then []
    else
      var rest := SortStrings(names[1..]);
      assert forall x :: x in names <==> x == names[0] || x in names[1..];
      Insert(names[0], rest)
  }

  function Insert(x: string, names: seq<string>): (r: seq<string>)
    ensures forall y :: y in r <==> y == x || y in names
    ensures StrictlySorted(names) && x !in names ==> StrictlySorted(r)
  {
    if names == [] then [x]
    else if Less(x, names[0]) then
      assert StrictlySorted(names) ==> forall y :: y in names ==> Less(x, y) by {
        forall y | StrictlySorted(names) && y in names ensures Less(x, y) {
          if y != names[0] { LessIsTransitive(x, names[0], y); }
        }
      }
      assert StrictlySorted(names) ==> StrictlySorted([x] + names) by {
        if StrictlySorted(names) { ConsIsSorted(x, names); }
      }
      [x] + names
    else
      var r := Insert(x, names[1..]);
      LessIsTotal(x, names[0]);
      assert forall y :: y in names <==> y == names[0] || y in names[1..];
      assert StrictlySorted(names) && x !in names ==> StrictlySorted([names[0]] + r) by {
        if StrictlySorted(names) && x !in names {
          ConsIsSorted(names[0], r);
        }
      }
      [names[0]] + r
  }

  // ---------- decimal text ----------

  predicate IsDigit(c: char) {
    '0' <= c <= '9'
  }

  function DigitChar(d: nat): (c: char)
    requires d < 10
    ensures IsDigit(c)
  {
    "0123456789"[d]
  }

  function DigitValue(c: char): nat
    requires IsDigit(c)
  {
    c as int - '0' as int
  }

  /** strconv.Itoa on a non-negative number. */
  function DecimalText(n: nat): (s: string)
    ensures s != "" && forall c :: c in s ==> IsDigit(c)
  {
    if n < 10 then [DigitChar(n)] else DecimalText(n / 10) + [DigitChar(n % 10)]
  }

  function DecimalValue(s: string): nat
    requires forall c :: c in s ==> IsDigit(c)
  {
    if s == "" then 0 else DecimalValue(s[..|s| - 1]) * 10 + DigitValue(s[|s| - 1])
  }

  lemma {:induction false} DecimalRoundTrip(n: nat)
    ensures DecimalValue(DecimalText(n)) == n
  {
    if n >= 10 {
      DecimalRoundTrip(n / 10);
      assert DecimalText(n)[..|DecimalText(n)| - 1] == DecimalText(n / 10);
    }
  }

  /** strconv.Itoa, and big.Int.String. */
  function IntegerText(n: int): string {
    if n < 0 then "-" + DecimalText(-n) else DecimalText(n)
  }

  lemma IntegerTextShape(n: int)
    ensures var s := IntegerText(n);
            s != "" && (IsDigit(s[0]) || s[0] == '-') && forall i :: 1 <= i < |s| ==> IsDigit(s[i])
    ensures IntegerText(n)[0] == '-' <==> n < 0
  {
    var digits := DecimalText(if n < 0 then -n else n);
    assert forall i :: 0 <= i < |digits| ==> digits[i] in digits;
  }

  lemma IntegerTextIsInjective(a: int, b: int)
    requires IntegerText(a) == IntegerText(b)
    ensures a == b
  {
    IntegerTextShape(a);
    IntegerTextShape(b);
    DecimalRoundTrip(if a < 0 then -a else a);
    DecimalRoundTrip(if b < 0 then -b else b);
    if a < 0 {
      assert DecimalText(-a) == IntegerText(a)[1..] && DecimalText(-b) == IntegerText(b)[1..];
    }
  }

  // ---------- text joined at a mark ----------

  /** strings.Join. */
  function Join(parts: seq<string>, separator: string): string {
    if parts == [] then "" else if |parts| == 1 then parts[0] else parts[0] + separator + Join(parts[1..], separator)
  }

  /** Text that does not contain the mark is recovered from in front of it. */
  lemma SplitAtMark(mark: char, a: string, b: string, c: string, d: string)
    requires mark !in a && mark !in c
    requires a + [mark] + b == c + [mark] + d
    ensures a == c && b == d
  {
    var s, t := a + [mark] + b, c + [mark] + d;
    assert s[|a|] == mark && t[|c|] == mark;
    assert forall i :: 0 <= i < |a| ==> s[i] == a[i] && a[i] in a;
    assert forall i :: 0 <= i < |c| ==> t[i] == c[i] && c[i] in c;
    assert |a| == |c|;
    assert s[..|a|] == a && t[..|c|] == c;
    assert s[|a| + 1..] == b && t[|c| + 1..] == d;
  }

  // ---------- quoted text ----------

  function HexChar(d: nat): char
    requires d < 16
  {
    "0123456789abcdef"[d]
  }

  function HexValue(c: char): Option<nat> {
    if '0' <= c <= '9' then Some(c as int - '0' as int)
    else if 'a' <= c <= 'f' then Some(c as int - 'a' as int + 10)
    else None
  }

  /** One character as strconv.Quote writes it between the quotes. */
  function Escape(c: char): (s: string)
    ensures s != ""
  {
    var n := c as int;
    if c == '"' then "\\\""
    else if c == '\\' then "\\\\"
    else if n == 7 then "\\a"
    else if n == 8 then "\\b"
    else if n == 9 then "\\t"
    else if n == 10 then "\\n"
    else if n == 11 then "\\v"
    else if n == 12 then "\\f"
    else if n == 13 then "\\r"
    else if n < 32 || n == 127 then "\\x" + [HexChar(n / 16), HexChar(n % 16)]
    else [c]
  }

  function EscapeAll(s: string): string {
    if s == "" then "" else Escape(s[0]) + EscapeAll(s[1..])
  }

  /** strconv.Quote. */
  function Quote(s: string): string {
    "\"" + EscapeAll(s) + "\""
  }

  /** The single-letter escapes. */
  function UnescapeLetter(c: char): Option<char> {
    match c
    case '"' => Some('"')
    case '\\' => Some('\\')
    case 'a' => Some(7 as char)
    case 'b' => Some(8 as char)
    case 't' => Some(9 as char)
    case 'n' => Some(10 as char)
    case 'v' => Some(11 as char)
    case 'f' => Some(12 as char)
    case 'r' => Some(13 as char)
    case _ => None
  }

  /** Reads one escaped character off the front of text inside quotes. */
  function Unescape(text: string): (r: Option<(char, string)>)
    ensures r.Some? ==> |r.value.1| < |text|
  {
    if text == "" || text[0] == '"' then None
    else if text[0] != '\\' then Some((text[0], text[1..]))
    else if |text| >= 4 && text[1] == 'x' then
      var high, low := HexValue(text[2]), HexValue(text[3]);
      if high.Some? && low.Some? then Some(((high.value * 16 + low.value) as char, text[4..])) else None
    else if |text| >= 2 && UnescapeLetter(text[1]).Some? then Some((UnescapeLetter(text[1]).value, text[2..]))
    else None
  }

  /** Reads quoted content up to and over the closing quote. */
  function UnquoteTail(text: string): (r: Option<(string, string)>)
    ensures r.Some? ==> |r.value.1| < |text|
    decreases |text|
  {
    if text != "" && text[0] == '"' then Some(("", text[1..]))
    else match Unescape(text)
      case None => None
      case Some((c, rest)) =>
        match UnquoteTail(rest)
        case None => None
        case Some((s, rest')) => Some(([c] + s, rest'))
  }

  lemma UnescapeUndoesEscape(c: char, rest: string)
    ensures Escape(c)[0] != '"'
    ensures Unescape(Escape(c) + rest) == Some((c, rest))
  {
    var n := c as int;
    if n < 32 || n == 127 {
      assert n == 7 || n == 8 || n == 9 || n == 10 || n == 11 || n == 12 || n == 13
             || Escape(c) == "\\x" + [HexChar(n / 16), HexChar(n % 16)];
      HexRoundTrip(n / 16);
      HexRoundTrip(n % 16);
      if |Escape(c)| == 4 {
        assert (Escape(c) + rest)[4..] == rest;
      } else {
        assert (Escape(c) + rest)[2..] == rest;
      }
    } else {
      assert (Escape(c) + rest)[|Escape(c)|..] == rest;
    }
  }

  lemma HexRoundTrip(d: nat)
    requires d < 16
    ensures HexValue(HexChar(d)) == Some(d)
  {
  }

  /** Quoted text is read back exactly, whatever follows it. */
  lemma {:induction false} UnquoteUndoesQuote(s: string, rest: string)
    ensures UnquoteTail(EscapeAll(s) + "\"" + rest) == Some((s, rest))
  {
    if s != "" {
      var tail := EscapeAll(s[1..]) + "\"" + rest;
      assert EscapeAll(s) + "\"" + rest == Escape(s[0]) + tail;
      UnescapeUndoesEscape(s[0], tail);
      assert (Escape(s[0]) + tail)[0] == Escape(s[0])[0];
      UnquoteUndoesQuote(s[1..], rest);
      assert [s[0]] + s[1..] == s;
    } else {
      assert EscapeAll(s) + "\"" + rest == ['"'] + rest;
    }
  }

  lemma QuoteIsReadBack(s: string)
    ensures Quote(s) != "" && UnquoteTail(Quote(s)[1..]) == Some((s, ""))
  {
    UnquoteUndoesQuote(s, "");
    assert Quote(s)[1..] == EscapeAll(s) + "\"" + "";
  }

  lemma QuoteIsInjective(a: string, b: string)
    requires Quote(a) == Quote(b)
    ensures a == b
  {
    QuoteIsReadBack(a);
    QuoteIsReadBack(b);
  }
}
