/** A list processed entry by entry up to the first that does not pass, each entry taking a number of steps. */
module Progress {
  import opened Wrappers

  ghost function Steps<T>(s: seq<T>, count: T -> nat): nat {
    if s == [] then 0 else Steps(s[..|s| - 1], count) + count(s[|s| - 1])
  }

  /** Every entry passes, told the number of its first step. */
  ghost predicate AllPass<T>(s: seq<T>, first: nat, count: T -> nat, pass: (nat, T) -> bool) {
    s == []
    || (AllPass(s[..|s| - 1], first, count, pass) && pass(first + Steps(s[..|s| - 1], count), s[|s| - 1]))
  }

  lemma {:induction false} PrefixPasses<T>(s: seq<T>, first: nat, count: T -> nat, pass: (nat, T) -> bool, i: nat)
    requires i <= |s| && AllPass(s, first, count, pass)
    ensures AllPass(s[..i], first, count, pass)
  {
    if i == |s| {
      assert s[..i] == s;
    } else {
      assert s[..|s| - 1][..i] == s[..i];
      PrefixPasses(s[..|s| - 1], first, count, pass, i);
    }
  }

  /** Where entry i stands, it decides whether the first i + 1 pass, and may rule out the whole list. */
  lemma {:induction false} NextDecides<T>(s: seq<T>, first: nat, count: T -> nat, pass: (nat, T) -> bool, i: nat)
    requires i < |s| && AllPass(s[..i], first, count, pass)
    ensures Steps(s[..i + 1], count) == Steps(s[..i], count) + count(s[i])
    ensures if pass(first + Steps(s[..i], count), s[i]) then AllPass(s[..i + 1], first, count, pass)
            else !AllPass(s, first, count, pass)
  {
    TakeOneMore(s, i);
    if AllPass(s, first, count, pass) {
      PrefixPasses(s, first, count, pass, i + 1);
    }
  }
}
