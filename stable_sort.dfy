/** A stable sort by descending integer key. Both stream pipelines of the analyzer sort with a
    comparator of the form `key(o2) - key(o1)`. Stream.sorted is stable on an ordered stream,
    which sortByReactions has: it streams a List. sortByMessagesCount streams a HashMap's entry
    set, which is not ordered; there the sort is taken to be stable with respect to whichever
    iteration order the stream delivers, which is what the JDK implementation does but not what
    it documents. */
module StableSort {

  /** The elements of `s` whose key is `v`, in their order in `s`. Two sequences with the same
      such subsequence for every `v` differ only by moving elements across keys. */
  function WithKey<T>(s: seq<T>, key: T -> int, v: int): seq<T>
    decreases |s|
  {
    if s == [] then [] else (if key(s[0]) == v then [s[0]] else []) + WithKey(s[1..], key, v)
  }

  /** Keys never increase from left to right. */
  predicate NonIncreasing<T>(s: seq<T>, key: T -> int) {
    forall i, j :: 0 <= i < j < |s| ==> key(s[i]) >= key(s[j])
  }

  /** Puts `x` in front of the first element whose key is not larger than its own. */
  function Insert<T>(x: T, s: seq<T>, key: T -> int): (r: seq<T>)
    requires NonIncreasing(s, key)
    ensures NonIncreasing(r, key)
    ensures multiset(r) == multiset(s) + multiset{x}
    ensures forall v :: WithKey(r, key, v) == (if key(x) == v then [x] else []) + WithKey(s, key, v)
    decreases |s|
  {
    if s == [] || key(s[0]) <= key(x) then
      assert forall v :: WithKey([x] + s, key, v) == (if key(x) == v then [x] else []) + WithKey(s, key, v) by {
        forall v { WithKeyCons(x, s, key, v); }
      }
      [x] + s
    else
      var rest := Insert(x, s[1..], key);
      InsertStep(x, s, rest, key);
      [s[0]] + rest
  }

  /** WithKey of a sequence with a known head. */
  lemma WithKeyCons<T>(y: T, t: seq<T>, key: T -> int, v: int)
    ensures WithKey([y] + t, key, v) == (if key(y) == v then [y] else []) + WithKey(t, key, v)
  {
    assert ([y] + t)[1..] == t;
  }

  /** The recursive case of Insert: `x` goes behind the larger head `s[0]`. */
  lemma InsertStep<T>(x: T, s: seq<T>, rest: seq<T>, key: T -> int)
    requires s != [] && key(s[0]) > key(x) && NonIncreasing(s, key)
    requires NonIncreasing(rest, key)
    requires multiset(rest) == multiset(s[1..]) + multiset{x}
    requires forall v :: WithKey(rest, key, v) == (if key(x) == v then [x] else []) + WithKey(s[1..], key, v)
    ensures NonIncreasing([s[0]] + rest, key)
    ensures multiset([s[0]] + rest) == multiset(s) + multiset{x}
    ensures forall v :: WithKey([s[0]] + rest, key, v) == (if key(x) == v then [x] else []) + WithKey(s, key, v)
  {
    assert s == [s[0]] + s[1..];
    InsertStepOrdered(x, s, rest, key);
    forall v ensures WithKey([s[0]] + rest, key, v) == (if key(x) == v then [x] else []) + WithKey(s, key, v) {
      InsertStepKey(x, s, rest, key, v);
    }
  }

  /** The subsequence part of InsertStep, for one key value. */
  lemma InsertStepKey<T>(x: T, s: seq<T>, rest: seq<T>, key: T -> int, v: int)
    requires s != [] && key(s[0]) > key(x)
    requires WithKey(rest, key, v) == (if key(x) == v then [x] else []) + WithKey(s[1..], key, v)
    ensures WithKey([s[0]] + rest, key, v) == (if key(x) == v then [x] else []) + WithKey(s, key, v)
  {
    WithKeyCons(s[0], rest, key, v);
    assert s == [s[0]] + s[1..];
    WithKeyCons(s[0], s[1..], key, v);
    if key(s[0]) == v {
      assert key(x) != v;
    }
  }

  /** The order part of InsertStep. */
  lemma InsertStepOrdered<T>(x: T, s: seq<T>, rest: seq<T>, key: T -> int)
    requires s != [] && key(s[0]) > key(x) && NonIncreasing(s, key)
    requires NonIncreasing(rest, key)
    requires multiset(rest) == multiset(s[1..]) + multiset{x}
    ensures NonIncreasing([s[0]] + rest, key)
  {
    forall y | y in rest ensures key(s[0]) >= key(y) {
      assert y in multiset(rest);
      if y != x {
        assert y in multiset(s[1..]);
        var k :| 0 <= k < |s[1..]| && s[1..][k] == y;
        assert s[k + 1] == y;
      }
    }
    var r := [s[0]] + rest;
    forall i, j | 0 <= i < j < |r| ensures key(r[i]) >= key(r[j]) {
      if i == 0 {
        assert r[j] == rest[j - 1];
        assert rest[j - 1] in rest;
      } else {
        assert r[i] == rest[i - 1] && r[j] == rest[j - 1];
      }
    }
  }

  /** Insertion sort from the back: the head of the input goes in front of every element
      with the same key, which is what makes the sort stable. */
  function Sort<T>(s: seq<T>, key: T -> int): (r: seq<T>)
    ensures NonIncreasing(r, key)
    ensures multiset(r) == multiset(s)
    ensures forall v :: WithKey(r, key, v) == WithKey(s, key, v)
    decreases |s|
  {
    if s == [] then []
    else
      assert s == [s[0]] + s[1..];
      Insert(s[0], Sort(s[1..], key), key)
  }

  /** Stability, stated on positions: two elements with equal keys that are in the output at
      positions i < j came in the same order in the input. */
  lemma {:induction false} WithKeyOrder<T>(s: seq<T>, key: T -> int, i: nat, j: nat)
    requires i < j < |s| && key(s[i]) == key(s[j])
    ensures exists a, b :: 0 <= a < b < |WithKey(s, key, key(s[i]))|
                           && WithKey(s, key, key(s[i]))[a] == s[i]
                           && WithKey(s, key, key(s[i]))[b] == s[j]
    decreases |s|
  {
    var v := key(s[i]);
    var w' := WithKey(s[1..], key, v);
    if i == 0 {
      WithKeyContains(s[1..], key, j - 1);
      var b' :| 0 <= b' < |w'| && w'[b'] == s[j];
      WithKeyShift(s, key, v, 0, b' + 1);
    } else {
      WithKeyOrder(s[1..], key, i - 1, j - 1);
      var a', b' :| 0 <= a' < b' < |w'| && w'[a'] == s[i] && w'[b'] == s[j];
      if key(s[0]) == v {
        WithKeyShift(s, key, v, a' + 1, b' + 1);
      } else {
        assert WithKey(s, key, v) == w';
      }
    }
  }

  /** When the head has key `v`, the subsequence of `v` is the head followed by that of the
      tail; positions in the tail's shift up by one. */
  lemma WithKeyShift<T>(s: seq<T>, key: T -> int, v: int, a: nat, b: nat)
    requires s != [] && key(s[0]) == v && a < b <= |WithKey(s[1..], key, v)|
    ensures 0 <= a < b < |WithKey(s, key, v)|
    ensures WithKey(s, key, v)[b] == WithKey(s[1..], key, v)[b - 1]
    ensures a == 0 ==> WithKey(s, key, v)[a] == s[0]
    ensures a > 0 ==> WithKey(s, key, v)[a] == WithKey(s[1..], key, v)[a - 1]
  {
    assert WithKey(s, key, v) == [s[0]] + WithKey(s[1..], key, v);
  }

  /** Every element appears in the subsequence of its own key. */
  lemma {:induction false} WithKeyContains<T>(s: seq<T>, key: T -> int, j: nat)
    requires j < |s|
    ensures exists b :: 0 <= b < |WithKey(s, key, key(s[j]))| && WithKey(s, key, key(s[j]))[b] == s[j]
    decreases |s|
  {
    var v := key(s[j]);
    if j == 0 {
      assert WithKey(s, key, v)[0] == s[0];
    } else {
      WithKeyContains(s[1..], key, j - 1);
      var b' :| 0 <= b' < |WithKey(s[1..], key, v)| && WithKey(s[1..], key, v)[b'] == s[j];
      if key(s[0]) == v {
        assert WithKey(s, key, v)[b' + 1] == s[j];
      } else {
        assert WithKey(s, key, v) == WithKey(s[1..], key, v);
      }
    }
  }

  /** One step of Sort: the head is inserted into the sorted tail. */
  lemma SortCons<T>(x: T, s: seq<T>, key: T -> int)
    ensures Sort([x] + s, key) == Insert(x, Sort(s, key), key)
  {
    assert ([x] + s)[1..] == s;
  }

  /** Insert at the front: `x` is not smaller than the head. */
  lemma InsertFront<T>(x: T, s: seq<T>, key: T -> int)
    requires NonIncreasing(s, key)
    requires s == [] || key(s[0]) <= key(x)
    ensures Insert(x, s, key) == [x] + s
  {
  }

  /** Insert behind a larger head. */
  lemma InsertBehind<T>(x: T, s: seq<T>, key: T -> int)
    requires NonIncreasing(s, key)
    requires s != [] && key(s[0]) > key(x)
    ensures Insert(x, s, key) == [s[0]] + Insert(x, s[1..], key)
  {
  }
}
