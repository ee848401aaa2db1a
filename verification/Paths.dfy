/** Difference paths: how a position in a JSON tree is printed, and why the print is unambiguous. */
module Paths {
  import opened Wrappers
  import opened Text

  datatype Step = Member(name: string) | Index(index: nat)

  predicate IsPathSyntax(c: char) {
    c == '.' || c == '[' || c == ']' || c == '"'
  }

  predicate Plain(name: string) {
    name != "" && forall c :: c in name ==> !IsPathSyntax(c)
  }

  /** appendMember without the path in front. */
  function MemberText(name: string): string {
    if Plain(name) then "." + name else "[" + Quote(name) + "]"
  }

  function AppendMember(path: string, name: string): string {
    if Plain(name) then path + "." + name else path + "[" + Quote(name) + "]"
  }

  function AppendIndex(path: string, index: nat): string {
    path + "[" + DecimalText(index) + "]"
  }

  function StepText(step: Step): (s: string)
    ensures s != "" && (s[0] == '.' || s[0] == '[')
  {
    match step
    case Member(name) => MemberText(name)
    case Index(index) => "[" + DecimalText(index) + "]"
  }

  /** The text printed for a position reached from the root. */
  function PathText(position: seq<Step>): string {
    if position == [] then ""
    else PathText(position[..|position| - 1]) + StepText(position[|position| - 1])
  }

  const ROOT_PATH := "$"

  /** The path stored with a difference: the root gets its own token. */
  function ReportedPath(position: seq<Step>): string {
    var path := PathText(position);
    if path == "" then ROOT_PATH else path
  }

  lemma PathGrowsByMember(position: seq<Step>, name: string)
    ensures PathText(position + [Member(name)]) == AppendMember(PathText(position), name)
  {
    assert (position + [Member(name)])[..|position|] == position;
  }

  lemma PathGrowsByIndex(position: seq<Step>, index: nat)
    ensures PathText(position + [Index(index)]) == AppendIndex(PathText(position), index)
  {
    assert (position + [Index(index)])[..|position|] == position;
  }

  // ---------- reading a path back ----------

  /** How many leading characters satisfy neither '.' nor '['. */
  function PlainLength(text: string): (n: nat)
    ensures n <= |text|
  {
    if text == "" || text[0] == '.' || text[0] == '[' then 0 else 1 + PlainLength(text[1..])
  }

  function DigitLength(text: string): (n: nat)
    ensures n <= |text|
    ensures forall c :: c in text[..n] ==> IsDigit(c)
  {
    if text == "" || !IsDigit(text[0]) then 0
    else
      var n := 1 + DigitLength(text[1..]);
      assert text[..n] == [text[0]] + text[1..][..n - 1];
      n
  }

  function ParseStep(text: string): (r: Option<(Step, string)>)
    ensures r.Some? ==> |r.value.1| < |text|
  {
    if text == "" then None
    else if text[0] == '.' then
      var n := PlainLength(text[1..]);
      Some((Member(text[1..][..n]), text[1..][n..]))
    else if text[0] == '[' && |text| > 1 && text[1] == '"' then
      (match UnquoteTail(text[2..])
       case None => None
       case Some((name, rest)) => if rest != "" && rest[0] == ']' then Some((Member(name), rest[1..])) else None)
    else if text[0] == '[' then
      var n := DigitLength(text[1..]);
      var rest := text[1..][n..];
      if n > 0 && rest != "" && rest[0] == ']' then Some((Index(DecimalValue(text[1..][..n])), rest[1..])) else None
    else None
  }

  function ParsePath(text: string): Option<seq<Step>>
    decreases |text|
  {
    if text == "" then Some([])
    else match ParseStep(text)
      case None => None
      case Some((step, rest)) =>
        match ParsePath(rest)
        case None => None
        case Some(steps) => Some([step] + steps)
  }

  /** What may follow a printed step: the next step, or nothing. */
  predicate StartsStep(rest: string) {
    rest == "" || rest[0] == '.' || rest[0] == '['
  }

  lemma {:induction false} PlainRunStops(name: string, rest: string)
    requires forall c :: c in name ==> !IsPathSyntax(c)
    requires StartsStep(rest)
    ensures PlainLength(name + rest) == |name|
  {
    if name == "" {
      assert name + rest == rest;
    } else {
      assert (name + rest)[1..] == name[1..] + rest;
      assert !IsPathSyntax(name[0]);
      PlainRunStops(name[1..], rest);
    }
  }

  lemma {:induction false} DigitRunStops(digits: string, rest: string)
    requires forall c :: c in digits ==> IsDigit(c)
    requires rest != "" && !IsDigit(rest[0])
    ensures DigitLength(digits + rest) == |digits|
  {
    if digits == "" {
      assert digits + rest == rest;
    } else {
      assert (digits + rest)[1..] == digits[1..] + rest;
      DigitRunStops(digits[1..], rest);
    }
  }

  lemma ParseReadsPlainMember(name: string, rest: string)
    requires Plain(name) && StartsStep(rest)
    ensures ParseStep("." + name + rest) == Some((Member(name), rest))
  {
    var text := "." + name + rest;
    assert text[1..] == name + rest;
    PlainRunStops(name, rest);
    assert (name + rest)[..|name|] == name && (name + rest)[|name|..] == rest;
  }

  lemma ParseReadsQuotedMember(name: string, rest: string)
    ensures ParseStep("[" + Quote(name) + "]" + rest) == Some((Member(name), rest))
  {
    var text, tail := "[" + Quote(name) + "]" + rest, "]" + rest;
    assert text[2..] == EscapeAll(name) + "\"" + tail;
    UnquoteUndoesQuote(name, tail);
    assert tail[1..] == rest;
  }

  lemma ParseReadsIndex(index: nat, rest: string)
    ensures ParseStep("[" + DecimalText(index) + "]" + rest) == Some((Index(index), rest))
  {
    var digits, tail := DecimalText(index), "]" + rest;
    var text := "[" + digits + "]" + rest;
    assert text[1..] == digits + tail;
    assert digits[0] in digits;
    assert text[1] == digits[0];
    DigitRunStops(digits, tail);
    assert (digits + tail)[..|digits|] == digits && (digits + tail)[|digits|..] == tail;
    DecimalRoundTrip(index);
    assert tail[1..] == rest;
  }

  lemma ParseStepReadsOneStep(step: Step, rest: string)
    requires StartsStep(rest)
    ensures ParseStep(StepText(step) + rest) == Some((step, rest))
  {
    match step
    case Member(name) =>
      if Plain(name) {
        ParseReadsPlainMember(name, rest);
      } else {
        ParseReadsQuotedMember(name, rest);
      }
    case Index(index) => ParseReadsIndex(index, rest);
  }

  lemma ParseTakesStep(step: Step, rest: string)
    requires StartsStep(rest) && ParsePath(rest).Some?
    ensures StartsStep(StepText(step) + rest)
    ensures ParsePath(StepText(step) + rest) == Some([step] + ParsePath(rest).value)
  {
    ParseStepReadsOneStep(step, rest);
    assert (StepText(step) + rest)[0] == StepText(step)[0];
  }

  /** The same text, read from the root down. */
  function PathFromRoot(position: seq<Step>): string {
    if position == [] then "" else StepText(position[0]) + PathFromRoot(position[1..])
  }

  lemma {:induction false} PathFromRootGrows(position: seq<Step>, last: Step)
    ensures PathFromRoot(position + [last]) == PathFromRoot(position) + StepText(last)
  {
    if position != [] {
      assert (position + [last])[1..] == position[1..] + [last];
      PathFromRootGrows(position[1..], last);
    }
  }

  lemma {:induction false} PathTextIsPathFromRoot(position: seq<Step>)
    ensures PathText(position) == PathFromRoot(position)
  {
    if position != [] {
      var front, last := position[..|position| - 1], position[|position| - 1];
      assert position == front + [last];
      PathFromRootGrows(front, last);
      PathTextIsPathFromRoot(front);
    }
  }

  lemma {:induction false} ParseReadsPath(position: seq<Step>)
    ensures ParsePath(PathFromRoot(position)) == Some(position)
    ensures StartsStep(PathFromRoot(position))
  {
    if position != [] {
      ParseReadsPath(position[1..]);
      ParseTakesStep(position[0], PathFromRoot(position[1..]));
      assert position == [position[0]] + position[1..];
    }
  }

  /** Printing a position is undone by the parser. */
  lemma ParseUndoesPrint(position: seq<Step>)
    ensures ParsePath(PathText(position)) == Some(position)
  {
    PathTextIsPathFromRoot(position);
    ParseReadsPath(position);
  }

  lemma {:induction false} NonRootPathHead(position: seq<Step>)
    requires position != []
    ensures PathText(position) != "" && PathText(position)[0] != '$'
  {
    if |position| > 1 {
      NonRootPathHead(position[..|position| - 1]);
    }
  }

  /** Distinct positions are reported under distinct paths, and only the root is called "$". */
  lemma ReportedPathIsInjective(p: seq<Step>, q: seq<Step>)
    ensures ReportedPath(p) == ReportedPath(q) <==> p == q
    ensures ReportedPath(p) == ROOT_PATH <==> p == []
  {
    if p != [] { NonRootPathHead(p); }
    if q != [] { NonRootPathHead(q); }
    ParseUndoesPrint(p);
    ParseUndoesPrint(q);
  }
}
