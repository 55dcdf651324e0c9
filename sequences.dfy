/** Order-related facts about sequences shared by the grouping and filtering operations. */
module Sequences {

  /** `sub` is obtained from `s` by deleting elements, keeping the order of the rest. */
  predicate IsSubsequence<T(==)>(sub: seq<T>, s: seq<T>)
    decreases |s|
  {
    if sub == [] then true
    else if s == [] then false
    else if sub[0] == s[0] then IsSubsequence(sub[1..], s[1..])
    else IsSubsequence(sub, s[1..])
  }

  /** Extending both sides with the same element preserves the relation. */
  lemma {:induction false} SubsequenceSnoc<T>(sub: seq<T>, s: seq<T>, x: T)
    requires IsSubsequence(sub, s)
    ensures IsSubsequence(sub + [x], s + [x])
    decreases |s|
  {
    if sub == [] {
      assert sub + [x] == [x];
      SubsequenceOfAny([x], s + [x]);
    } else {
      assert s != [];
      assert (sub + [x])[0] == sub[0] && (sub + [x])[1..] == sub[1..] + [x];
      assert (s + [x])[0] == s[0] && (s + [x])[1..] == s[1..] + [x];
      if sub[0] == s[0] {
        SubsequenceSnoc(sub[1..], s[1..], x);
      } else {
        SubsequenceSnoc(sub, s[1..], x);
      }
    }
  }

  /** A one-element sequence is a subsequence of any sequence ending in that element. */
  lemma {:induction false} SubsequenceOfAny<T>(one: seq<T>, s: seq<T>)
    requires |one| == 1 && s != [] && s[|s| - 1] == one[0]
    ensures IsSubsequence(one, s)
    decreases |s|
  {
    if one[0] != s[0] {
      SubsequenceOfAny(one, s[1..]);
    } else {
      assert one[1..] == [];
    }
  }

  /** Extending only the longer side keeps the relation. */
  lemma {:induction false} SubsequenceExtend<T>(sub: seq<T>, s: seq<T>, x: T)
    requires IsSubsequence(sub, s)
    ensures IsSubsequence(sub, s + [x])
    decreases |s|
  {
    if sub != [] {
      assert s != [];
      assert (s + [x])[0] == s[0] && (s + [x])[1..] == s[1..] + [x];
      if sub[0] == s[0] {
        SubsequenceExtend(sub[1..], s[1..], x);
      } else {
        SubsequenceExtend(sub, s[1..], x);
      }
    }
  }
}
