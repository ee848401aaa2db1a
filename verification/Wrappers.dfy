/** Optional values, and two facts about sequences that are best proved away from everything else. */
module Wrappers {
  datatype Option<+T> = None | Some(value: T)

  lemma SplitLast<T>(s: seq<T>)
    requires s != []
    ensures s == s[..|s| - 1] + [s[|s| - 1]]
  {
  }

  lemma AppendIsAssociative<T>(x: seq<T>, y: seq<T>, z: seq<T>)
    ensures (x + y) + z == x + (y + z)
  {
  }

  lemma TakeOneMore<T>(s: seq<T>, i: nat)
    requires i < |s|
    ensures s[..i + 1][..|s[..i + 1]| - 1] == s[..i] && s[..i + 1][|s[..i + 1]| - 1] == s[i]
    ensures s[..i + 1] == s[..i] + [s[i]]
  {
  }
}
