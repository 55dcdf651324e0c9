/** calculateReactionsScore and sortByReactions of MessagesAnalyzer. */
module Popularity {
  import opened Wrappers
  import opened SlackModel
  import StableSort

  /** The sum of the counts of a list of reactions. With non-negative counts the sum is at
      least each of them. */
  function ReactionsCount(reactions: seq<Reaction>): (r: int)
    ensures (forall i :: 0 <= i < |reactions| ==> reactions[i].count >= 0) ==>
              forall i :: 0 <= i < |reactions| ==> 0 <= reactions[i].count <= r
    decreases |reactions|
  {
    if reactions == [] then 0
    else
      assert forall i :: 1 <= i < |reactions| ==> reactions[i] == reactions[1..][i - 1];
      reactions[0].count + ReactionsCount(reactions[1..])
  }

  /** calculateReactionsScore: reaction counts, plus replies, plus distinct reply users; an
      absent list or count contributes 0. Java's int addition is taken as unbounded. With
      non-negative counts the score is at least each count it adds up. */
  function ReactionsScore(m: Message): (r: int)
    ensures CountsNonNegative(m) ==>
              r >= m.replyCount.GetOr(0) >= 0 && r >= m.replyUsersCount.GetOr(0) >= 0
              && forall i :: 0 <= i < |m.reactions.GetOr([])| ==> r >= m.reactions.GetOr([])[i].count
  {
    ReactionsCount(m.reactions.GetOr([])) + m.replyCount.GetOr(0) + m.replyUsersCount.GetOr(0)
  }

  /** Every count the message carries is non-negative, as Slack reports them. */
  predicate CountsNonNegative(m: Message) {
    (m.reactions.Some? ==> forall i :: 0 <= i < |m.reactions.value| ==> m.reactions.value[i].count >= 0)
    && (m.replyCount.Some? ==> m.replyCount.value >= 0)
    && (m.replyUsersCount.Some? ==> m.replyUsersCount.value >= 0)
  }

  /** Non-negative reaction counts add up to zero exactly when each of them is zero. */
  lemma {:induction false} ReactionsCountZeroIff(reactions: seq<Reaction>)
    requires forall i :: 0 <= i < |reactions| ==> reactions[i].count >= 0
    ensures ReactionsCount(reactions) >= 0
    ensures ReactionsCount(reactions) == 0 <==> forall i :: 0 <= i < |reactions| ==> reactions[i].count == 0
    decreases |reactions|
  {
    if reactions != [] {
      var rest := reactions[1..];
      assert forall i :: 0 <= i < |rest| ==> rest[i] == reactions[i + 1];
      ReactionsCountZeroIff(rest);
      if ReactionsCount(reactions) == 0 {
        forall i | 0 <= i < |reactions| ensures reactions[i].count == 0 {
          if i > 0 { assert reactions[i] == rest[i - 1]; }
        }
      }
    }
  }

  /** With non-negative counts the score is never negative, and it is 0 exactly when every
      reaction count, the reply count and the reply-user count are absent or zero. */
  lemma ScoreZeroIff(m: Message)
    requires CountsNonNegative(m)
    ensures ReactionsScore(m) >= 0
    ensures ReactionsScore(m) == 0 <==>
              (m.reactions.Some? ==> forall i :: 0 <= i < |m.reactions.value| ==> m.reactions.value[i].count == 0)
              && m.replyCount.GetOr(0) == 0 && m.replyUsersCount.GetOr(0) == 0
  {
    ReactionsCountZeroIff(m.reactions.GetOr([]));
  }

  /** The score is additive over the reaction list: one more reaction adds its count. */
  lemma {:induction false} ReactionsCountAppend(a: seq<Reaction>, b: seq<Reaction>)
    ensures ReactionsCount(a + b) == ReactionsCount(a) + ReactionsCount(b)
    decreases |a|
  {
    if a != [] {
      assert (a + b)[1..] == a[1..] + b;
      ReactionsCountAppend(a[1..], b);
    } else {
      assert a + b == b;
    }
  }

  /** sortByReactions: a permutation of the input by non-increasing score in which messages of
      equal score keep their input order (Stream.sorted is stable). */
  function SortByReactions(messages: seq<Message>): (r: seq<Message>)
    ensures multiset(r) == multiset(messages)
    ensures StableSort.NonIncreasing(r, ReactionsScore)
    ensures forall v :: StableSort.WithKey(r, ReactionsScore, v) == StableSort.WithKey(messages, ReactionsScore, v)
  {
    StableSort.Sort(messages, ReactionsScore)
  }

  /** One reaction added 3 times, 2 replies and 1 reply user score 6. */
  lemma ScoreScenario(m: Message)
    requires m.reactions == Some([Reaction("tada", 3)])
    requires m.replyCount == Some(2) && m.replyUsersCount == Some(1)
    ensures ReactionsScore(m) == 6
  {
    assert ReactionsCount([Reaction("tada", 3)]) == 3 + ReactionsCount([]);
  }

  /** The analyzer test's four messages scored 2, 0, 4 and 3 come out as 4, 3, 2, 0. */
  lemma SortsByReactionsExample(m1: Message, m2: Message, m3: Message, m4: Message)
    requires ReactionsScore(m1) == 0 && ReactionsScore(m2) == 2
    requires ReactionsScore(m3) == 3 && ReactionsScore(m4) == 4
    ensures SortByReactions([m2, m1, m4, m3]) == [m4, m3, m2, m1]
  {
    SortFour(m2, m1, m4, m3, ReactionsScore);
  }

  /** Sorting four elements whose keys rank them 3rd, 4th, 1st and 2nd. */
  lemma SortFour<T>(a: T, b: T, c: T, d: T, key: T -> int)
    requires key(b) < key(a) < key(d) < key(c)
    ensures StableSort.Sort([a, b, c, d], key) == [c, d, a, b]
  {
    SortThree(b, c, d, key);
    SortStep(a, [b, c, d], key);
    InsertThird(a, c, d, b, key);
  }

  /** Three elements: the head goes last. */
  lemma SortThree<T>(b: T, c: T, d: T, key: T -> int)
    requires key(b) < key(d) < key(c)
    ensures StableSort.Sort([b, c, d], key) == [c, d, b]
  {
    SortTwo(c, d, key);
    SortStep(b, [c, d], key);
    InsertSecond(b, c, d, key);
  }

  /** Two elements already in order. */
  lemma SortTwo<T>(c: T, d: T, key: T -> int)
    requires key(d) < key(c)
    ensures StableSort.Sort([c, d], key) == [c, d]
  {
    SortStep(d, [], key);
    StableSort.InsertFront(d, [], key);
    assert [d] + [] == [d];
    SortStep(c, [d], key);
    StableSort.InsertFront(c, [d], key);
    assert [c] + [d] == [c, d];
  }

  /** Sort unfolded once on a sequence written as head and tail. */
  lemma SortStep<T>(x: T, s: seq<T>, key: T -> int)
    ensures StableSort.Sort([x] + s, key) == StableSort.Insert(x, StableSort.Sort(s, key), key)
  {
    StableSort.SortCons(x, s, key);
  }

  /** Insert behind both elements of a pair. */
  lemma InsertSecond<T>(x: T, p: T, q: T, key: T -> int)
    requires key(x) < key(q) < key(p)
    ensures StableSort.Insert(x, [p, q], key) == [p, q, x]
  {
    StableSort.InsertBehind(x, [p, q], key);
    assert [p, q][1..] == [q];
    StableSort.InsertBehind(x, [q], key);
    assert [q][1..] == [];
    StableSort.InsertFront(x, [], key);
    assert [p] + ([q] + [x]) == [p, q, x];
  }

  /** Insert behind the first two of three elements. */
  lemma InsertThird<T>(x: T, p: T, q: T, y: T, key: T -> int)
    requires key(y) < key(x) < key(q) < key(p)
    ensures StableSort.Insert(x, [p, q, y], key) == [p, q, x, y]
  {
    StableSort.InsertBehind(x, [p, q, y], key);
    assert [p, q, y][1..] == [q, y];
    StableSort.InsertBehind(x, [q, y], key);
    assert [q, y][1..] == [y];
    StableSort.InsertFront(x, [y], key);
    assert [p] + ([q] + ([x] + [y])) == [p, q, x, y];
  }
}
