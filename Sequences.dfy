/** Facts about slicing and appending sequences, stated once for every element type. */
module Sequences {

  /** A non-empty sequence is its front followed by its last element. */
  lemma InitLast<T>(s: seq<T>)
    requires s != []
    ensures s[..|s| - 1] + [s[|s| - 1]] == s
  {
  }

  /** Two sequences that agree from i on agree at i and from i + 1 on. */
  lemma SuffixStep<T>(s: seq<T>, t: seq<T>, i: nat)
    requires i < |s| == |t| && s[i..] == t[i..]
    ensures s[i] == t[i] && s[i + 1..] == t[i + 1..]
  {
    assert s[i] == s[i..][0] && t[i] == t[i..][0];
    assert s[i + 1..] == s[i..][1..] && t[i + 1..] == t[i..][1..];
  }

  /** A prefix one element longer, after a fixed head, is the shorter one followed by that element. */
  lemma PrefixSnoc<T>(head: seq<T>, s: seq<T>, i: nat)
    requires i < |s|
    ensures head + s[..i + 1] == (head + s[..i]) + [s[i]]
  {
    assert s[..i + 1] == s[..i] + [s[i]];
  }
}
