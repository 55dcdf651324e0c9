/** The three grouping operations of MessagesAnalyzer and sortByMessagesCount.

    Each groupBy method walks the messages in order and merges every message into the list of
    each of its keys in a HashMap; sortByMessagesCount then streams the map's entries in the
    map's iteration order, sorts them stably by descending list size and collects them into a
    LinkedHashMap, modelled here as a sequence of (key, messages) entries. */
module Grouping {
  import opened Wrappers
  import opened SlackModel
  import opened TextExtractors
  import opened Sequences
  import StableSort

  /** One entry of a grouping result: a key and the messages grouped under it. */
  type Entry<K> = (K, seq<Message>)

  // ---------------------------------------------------------------- what the groups are

  /** The mention tokens of a message (extractMentionedUsers of its text). The grouping methods
      require every text to be present, so the None case is never consulted by them. */
  function MentionKeys(m: Message): set<string> {
    if m.text.Some? then Extracted(MentionPattern, m.text.value) else {}
  }

  /** The tag tokens of a message (extractTags of its text); as for MentionKeys. */
  function TagKeys(m: Message): set<string> {
    if m.text.Some? then Extracted(TagPattern, m.text.value) else {}
  }

  /** The single key of a message when grouping by poster; a null user is a key of its own. */
  function PosterKey(m: Message): set<Option<string>> {
    {m.user}
  }

  /** The messages of `msgs`, in input order, that carry key `k`. */
  function Select<K>(msgs: seq<Message>, keysOf: Message -> set<K>, k: K): seq<Message>
    decreases |msgs|
  {
    if msgs == [] then []
    else
      var last := msgs[|msgs| - 1];
      Select(msgs[..|msgs| - 1], keysOf, k) + (if k in keysOf(last) then [last] else [])
  }

  /** Every key carried by some message of `msgs`. */
  function AllKeys<K>(msgs: seq<Message>, keysOf: Message -> set<K>): set<K>
    decreases |msgs|
  {
    if msgs == [] then {} else AllKeys(msgs[..|msgs| - 1], keysOf) + keysOf(msgs[|msgs| - 1])
  }

  /** The map a groupBy loop has built after the messages `msgs`. */
  function Groups<K>(msgs: seq<Message>, keysOf: Message -> set<K>): map<K, seq<Message>> {
    map k | k in AllKeys(msgs, keysOf) :: Select(msgs, keysOf, k)
  }

  /** HashMap.merge(k, List.of(m), concat): append `m` to the list of `k`, creating it if absent. */
  function Merge<K>(result: map<K, seq<Message>>, k: K, m: Message): (r: map<K, seq<Message>>)
    ensures r.Keys == result.Keys + {k}
    ensures k in result ==> r[k] == result[k] + [m]
    ensures k !in result ==> r[k] == [m]
    ensures forall j :: j in result && j != k ==> r[j] == result[j]
  {
    result[k := (if k in result then result[k] else []) + [m]]
  }

  // ---------------------------------------------------------------- facts about the groups

  /** A message is in group `k` exactly when it is one of the input messages carrying `k`. */
  lemma {:induction false} SelectMembers<K>(msgs: seq<Message>, keysOf: Message -> set<K>, k: K, m: Message)
    ensures m in Select(msgs, keysOf, k) <==> m in msgs && k in keysOf(m)
    decreases |msgs|
  {
    if msgs != [] {
      var prefix := msgs[..|msgs| - 1];
      assert msgs == prefix + [msgs[|msgs| - 1]];
      SelectMembers(prefix, keysOf, k, m);
    }
  }

  /** Each occurrence of a message carrying `k` is in group `k` once, however often its text
      names `k`; a message not carrying `k` is not there at all. */
  lemma {:induction false} SelectCount<K>(msgs: seq<Message>, keysOf: Message -> set<K>, k: K, m: Message)
    ensures multiset(Select(msgs, keysOf, k))[m] == if k in keysOf(m) then multiset(msgs)[m] else 0
    decreases |msgs|
  {
    if msgs != [] {
      var prefix := msgs[..|msgs| - 1];
      assert msgs == prefix + [msgs[|msgs| - 1]];
      SelectCount(prefix, keysOf, k, m);
    }
  }

  /** A group keeps the input order of its members. */
  lemma {:induction false} SelectOrdered<K>(msgs: seq<Message>, keysOf: Message -> set<K>, k: K)
    ensures IsSubsequence(Select(msgs, keysOf, k), msgs)
    decreases |msgs|
  {
    if msgs != [] {
      var prefix := msgs[..|msgs| - 1];
      var last := msgs[|msgs| - 1];
      assert msgs == prefix + [last];
      SelectOrdered(prefix, keysOf, k);
      if k in keysOf(last) {
        SubsequenceSnoc(Select(prefix, keysOf, k), prefix, last);
      } else {
        assert Select(msgs, keysOf, k) == Select(prefix, keysOf, k);
        SubsequenceExtend(Select(prefix, keysOf, k), prefix, last);
      }
    }
  }

  /** The keys of a grouping are exactly the keys some message carries. */
  lemma {:induction false} AllKeysMembers<K>(msgs: seq<Message>, keysOf: Message -> set<K>, k: K)
    ensures k in AllKeys(msgs, keysOf) <==> exists i :: 0 <= i < |msgs| && k in keysOf(msgs[i])
    decreases |msgs|
  {
    if msgs != [] {
      var prefix := msgs[..|msgs| - 1];
      AllKeysMembers(prefix, keysOf, k);
      if k in keysOf(msgs[|msgs| - 1]) {
      } else if k in AllKeys(prefix, keysOf) {
        var i :| 0 <= i < |prefix| && k in keysOf(prefix[i]);
        assert msgs[i] == prefix[i];
      } else {
        forall i | 0 <= i < |msgs| ensures k !in keysOf(msgs[i]) {
          if i < |prefix| { assert msgs[i] == prefix[i]; }
        }
      }
    }
  }

  /** A key no message carries has an empty group; a key some message carries has a non-empty
      one. */
  lemma {:induction false} SelectEmptyIff<K>(msgs: seq<Message>, keysOf: Message -> set<K>, k: K)
    ensures Select(msgs, keysOf, k) == [] <==> k !in AllKeys(msgs, keysOf)
    decreases |msgs|
  {
    if msgs != [] {
      SelectEmptyIff(msgs[..|msgs| - 1], keysOf, k);
    }
  }

  // ---------------------------------------------------------------- the loop invariant

  /** The map part-way through merging message `m` after the messages `prefix`: the keys in
      `done` have received `m` already. */
  ghost function Pending<K>(prefix: seq<Message>, keysOf: Message -> set<K>, m: Message, done: set<K>): map<K, seq<Message>> {
    map k | k in AllKeys(prefix, keysOf) + done :: Select(prefix, keysOf, k) + (if k in done then [m] else [])
  }

  lemma PendingStart<K>(prefix: seq<Message>, keysOf: Message -> set<K>, m: Message)
    ensures Pending(prefix, keysOf, m, {}) == Groups(prefix, keysOf)
  {
    var p := Pending(prefix, keysOf, m, {});
    assert p.Keys == Groups(prefix, keysOf).Keys;
    forall k | k in p.Keys ensures p[k] == Groups(prefix, keysOf)[k] {
      assert p[k] == Select(prefix, keysOf, k) + [];
    }
  }

  lemma PendingStep<K>(prefix: seq<Message>, keysOf: Message -> set<K>, m: Message, done: set<K>, u: K)
    requires u !in done
    ensures Merge(Pending(prefix, keysOf, m, done), u, m) == Pending(prefix, keysOf, m, done + {u})
  {
    SelectEmptyIff(prefix, keysOf, u);
    var lhs := Merge(Pending(prefix, keysOf, m, done), u, m);
    var rhs := Pending(prefix, keysOf, m, done + {u});
    assert lhs.Keys == rhs.Keys;
    forall k | k in lhs.Keys ensures lhs[k] == rhs[k] {
      if k == u {
        if u in AllKeys(prefix, keysOf) {
          assert lhs[k] == Select(prefix, keysOf, k) + [m];
        } else {
          assert lhs[k] == [m];
        }
      }
    }
  }

  lemma PendingDone<K>(prefix: seq<Message>, keysOf: Message -> set<K>, m: Message)
    ensures Pending(prefix, keysOf, m, keysOf(m)) == Groups(prefix + [m], keysOf)
  {
    assert (prefix + [m])[..|prefix|] == prefix;
  }

  // ---------------------------------------------------------------- sortByMessagesCount

  /** The comparator key of sortByMessagesCount. */
  function GroupSize<K>(e: Entry<K>): int {
    |e.1|
  }

  /** `order` lists every key of `m` exactly once: an iteration order of the HashMap. */
  predicate ListsKeys<K, V>(order: seq<K>, m: map<K, V>) {
    (forall i, j :: 0 <= i < j < |order| ==> order[i] != order[j])
    && (forall k :: k in m ==> k in order)
    && (forall i :: 0 <= i < |order| ==> order[i] in m)
  }

  /** The map's entries in the given iteration order (entrySet().stream()). */
  function Entries<K>(m: map<K, seq<Message>>, order: seq<K>): seq<Entry<K>>
    requires forall k :: k in order ==> k in m
  {
    seq(|order|, i requires 0 <= i < |order| => (order[i], m[order[i]]))
  }

  /** `r` lists every entry of `m` exactly once, each key with its own list. */
  predicate Lists<K>(r: seq<Entry<K>>, m: map<K, seq<Message>>) {
    (forall i :: 0 <= i < |r| ==> r[i].0 in m && r[i].1 == m[r[i].0])
    && (forall k :: k in m ==> exists i :: 0 <= i < |r| && r[i].0 == k)
    && (forall i, j :: 0 <= i < j < |r| ==> r[i].0 != r[j].0)
  }

  /** `r` lists the entries of `m`, largest groups first. */
  predicate Ranked<K>(r: seq<Entry<K>>, m: map<K, seq<Message>>) {
    Lists(r, m) && forall i, j :: 0 <= i < j < |r| ==> |r[i].1| >= |r[j].1|
  }

  /** sortByMessagesCount: the same keys mapped to the same lists, by non-increasing list size;
      entries of equal size keep the map's iteration order `order`. */
  function SortByMessagesCount<K>(input: map<K, seq<Message>>, order: seq<K>): (r: seq<Entry<K>>)
    requires ListsKeys(order, input)
    ensures Ranked(r, input)
    ensures forall n :: StableSort.WithKey(r, GroupSize, n) == StableSort.WithKey(Entries(input, order), GroupSize, n)
  {
    var es := Entries(input, order);
    var sorted := StableSort.Sort(es, GroupSize);
    PermutedEntries(input, order, es, sorted);
    sorted
  }

  /** A permutation of the entries in a key listing still lists the map. */
  lemma PermutedEntries<K>(input: map<K, seq<Message>>, order: seq<K>, es: seq<Entry<K>>, r: seq<Entry<K>>)
    requires ListsKeys(order, input) && es == Entries(input, order)
    requires multiset(r) == multiset(es)
    ensures Lists(r, input)
  {
    forall i | 0 <= i < |r| ensures r[i].0 in input && r[i].1 == input[r[i].0] {
      assert r[i] in multiset(es);
      var a :| 0 <= a < |es| && es[a] == r[i];
    }
    forall k | k in input ensures exists i :: 0 <= i < |r| && r[i].0 == k {
      var a :| 0 <= a < |order| && order[a] == k;
      assert es[a] in multiset(r);
      var i :| 0 <= i < |r| && r[i] == es[a];
    }
    forall i, j | 0 <= i < j < |r| ensures r[i].0 != r[j].0 {
      if r[i].0 == r[j].0 {
        assert r[i] == r[j];
        CountAtLeastTwo(r, i, j);
        DistinctCountAtMostOne(es, r[i]);
      }
    }
  }

  /** An element at two positions occurs at least twice. */
  lemma CountAtLeastTwo<T>(s: seq<T>, i: nat, j: nat)
    requires i < j < |s| && s[i] == s[j]
    ensures multiset(s)[s[i]] >= 2
  {
    assert s == s[..j] + s[j..];
    assert s[i] in s[..j];
    assert s[j] in s[j..];
  }

  /** With distinct keys, every entry occurs at most once. */
  lemma {:induction false} DistinctCountAtMostOne<K>(es: seq<Entry<K>>, e: Entry<K>)
    requires forall i, j :: 0 <= i < j < |es| ==> es[i].0 != es[j].0
    ensures multiset(es)[e] <= 1
    decreases |es|
  {
    if es != [] {
      assert es == [es[0]] + es[1..];
      DistinctCountAtMostOne(es[1..], e);
      if es[0] == e {
        assert e !in es[1..];
      }
    }
  }

  /** HashMap iteration order: unspecified, so any listing of the keys may come out. */
  method IterationOrder<K, V>(m: map<K, V>) returns (order: seq<K>)
    ensures ListsKeys(order, m)
  {
    order := [];
    var rest := m.Keys;
    while rest != {}
      invariant rest <= m.Keys
      invariant forall k :: k in m ==> (k in order <==> k !in rest)
      invariant forall k :: k in order ==> k in m
      invariant forall i, j :: 0 <= i < j < |order| ==> order[i] != order[j]
      decreases |rest|
    {
      var k :| k in rest;
      order := order + [k];
      rest := rest - {k};
    }
  }

  // ---------------------------------------------------------------- what a result means

  /** Entry `i` of a grouping result holds exactly the input messages carrying its key, each
      occurrence once, in input order, and it is never empty. */
  lemma GroupMembers<K>(r: seq<Entry<K>>, msgs: seq<Message>, keysOf: Message -> set<K>, i: nat, m: Message)
    requires Lists(r, Groups(msgs, keysOf)) && i < |r|
    ensures m in r[i].1 <==> m in msgs && r[i].0 in keysOf(m)
    ensures multiset(r[i].1)[m] == if r[i].0 in keysOf(m) then multiset(msgs)[m] else 0
    ensures IsSubsequence(r[i].1, msgs)
    ensures r[i].1 != []
  {
    var k := r[i].0;
    assert r[i].1 == Select(msgs, keysOf, k);
    SelectMembers(msgs, keysOf, k, m);
    SelectCount(msgs, keysOf, k, m);
    SelectOrdered(msgs, keysOf, k);
    SelectEmptyIff(msgs, keysOf, k);
  }

  /** Every key a message carries has an entry, and the message is in it. */
  lemma KeyListed<K>(r: seq<Entry<K>>, msgs: seq<Message>, keysOf: Message -> set<K>, j: nat, k: K)
    requires Lists(r, Groups(msgs, keysOf)) && j < |msgs| && k in keysOf(msgs[j])
    ensures exists i :: 0 <= i < |r| && r[i].0 == k && msgs[j] in r[i].1
  {
    AllKeysMembers(msgs, keysOf, k);
    assert k in Groups(msgs, keysOf);
    var i :| 0 <= i < |r| && r[i].0 == k;
    SelectMembers(msgs, keysOf, k, msgs[j]);
  }

  /** Grouping by poster puts every message in exactly one entry: the one of its user. */
  lemma PostedInExactlyOne(r: seq<Entry<Option<string>>>, msgs: seq<Message>, j: nat)
    requires Lists(r, Groups(msgs, PosterKey)) && j < |msgs|
    ensures exists i :: 0 <= i < |r| && r[i].0 == msgs[j].user && msgs[j] in r[i].1
    ensures forall i :: 0 <= i < |r| && msgs[j] in r[i].1 ==> r[i].0 == msgs[j].user
  {
    KeyListed(r, msgs, PosterKey, j, msgs[j].user);
    forall i | 0 <= i < |r| && msgs[j] in r[i].1 ensures r[i].0 == msgs[j].user {
      GroupMembers(r, msgs, PosterKey, i, msgs[j]);
    }
  }

  /** The total size of the entries of a grouping result. */
  function SizeSum<K>(r: seq<Entry<K>>): nat
    decreases |r|
  {
    if r == [] then 0 else |r[0].1| + SizeSum(r[1..])
  }

  /** The messages not posted by `k`, in order. */
  function PostedByOthers(msgs: seq<Message>, k: Option<string>): seq<Message>
    decreases |msgs|
  {
    if msgs == [] then []
    else
      var last := msgs[|msgs| - 1];
      PostedByOthers(msgs[..|msgs| - 1], k) + (if last.user != k then [last] else [])
  }

  lemma {:induction false} PosterSplit(msgs: seq<Message>, k: Option<string>)
    ensures |msgs| == |Select(msgs, PosterKey, k)| + |PostedByOthers(msgs, k)|
    ensures forall u :: u != k ==> Select(PostedByOthers(msgs, k), PosterKey, u) == Select(msgs, PosterKey, u)
    ensures AllKeys(PostedByOthers(msgs, k), PosterKey) == AllKeys(msgs, PosterKey) - {k}
    decreases |msgs|
  {
    if msgs != [] {
      var prefix := msgs[..|msgs| - 1];
      var last := msgs[|msgs| - 1];
      PosterSplit(prefix, k);
      var others := PostedByOthers(msgs, k);
      if last.user != k {
        assert others[..|others| - 1] == PostedByOthers(prefix, k);
        assert others[|others| - 1] == last;
      } else {
        assert others == PostedByOthers(prefix, k);
      }
    }
  }

  /** Every message has a poster key, so only no messages give no keys. */
  lemma PosterKeysEmpty(msgs: seq<Message>)
    ensures AllKeys(msgs, PosterKey) == {} <==> msgs == []
  {
    if msgs != [] {
      assert msgs[|msgs| - 1].user in AllKeys(msgs, PosterKey);
    }
  }

  /** Grouping by poster loses no message and counts none twice: the group sizes add up to the
      number of messages. */
  lemma {:induction false} PostingSizesSum(r: seq<Entry<Option<string>>>, msgs: seq<Message>)
    requires Lists(r, Groups(msgs, PosterKey))
    ensures SizeSum(r) == |msgs|
    decreases |r|
  {
    if r == [] {
      assert forall k :: k in AllKeys(msgs, PosterKey) ==> k in Groups(msgs, PosterKey);
      assert AllKeys(msgs, PosterKey) == {};
      PosterKeysEmpty(msgs);
    } else {
      var k0 := r[0].0;
      var others := PostedByOthers(msgs, k0);
      PosterSplit(msgs, k0);
      var g := Groups(msgs, PosterKey);
      var g' := Groups(others, PosterKey);
      var r' := r[1..];
      forall i | 0 <= i < |r'| ensures r'[i].0 in g' && r'[i].1 == g'[r'[i].0] {
        assert r'[i] == r[i + 1];
        assert r[i + 1].0 != k0;
      }
      forall k | k in g' ensures exists i :: 0 <= i < |r'| && r'[i].0 == k {
        assert k in g && k != k0;
        var i :| 0 <= i < |r| && r[i].0 == k;
        assert i != 0 && r'[i - 1] == r[i];
      }
      forall i, j | 0 <= i < j < |r'| ensures r'[i].0 != r'[j].0 {
        assert r'[i] == r[i + 1] && r'[j] == r[j + 1];
      }
      PostingSizesSum(r', others);
    }
  }

  // ---------------------------------------------------------------- the three groupings

  /** The inner loop of groupByMentionedUser and groupByTags: merge one message under each of
      its keys, in whatever order the key set yields them. */
  method MergeEach<K>(result: map<K, seq<Message>>, keys: set<K>, message: Message,
                      ghost prefix: seq<Message>, ghost keysOf: Message -> set<K>)
    returns (merged: map<K, seq<Message>>)
    requires result == Groups(prefix, keysOf) && keys == keysOf(message)
    ensures merged == Groups(prefix + [message], keysOf)
  {
    merged := result;
    PendingStart(prefix, keysOf, message);
    var rest := keys;
    while rest != {}
      invariant rest <= keys
      invariant merged == Pending(prefix, keysOf, message, keys - rest)
      decreases |rest|
    {
      var k :| k in rest;
      PendingStep(prefix, keysOf, message, keys - rest, k);
      merged := Merge(merged, k, message);
      assert keys - (rest - {k}) == (keys - rest) + {k};
      rest := rest - {k};
    }
    PendingDone(prefix, keysOf, message);
  }

  /** groupByMentionedUser: every message under each user its text mentions. */
  method GroupByMentionedUser(messages: seq<Message>) returns (r: seq<Entry<string>>)
    requires forall i :: 0 <= i < |messages| ==> messages[i].text.Some?
    ensures Ranked(r, Groups(messages, MentionKeys))
  {
    var result: map<string, seq<Message>> := map[];
    for i := 0 to |messages|
      invariant result == Groups(messages[..i], MentionKeys)
    {
      var message := messages[i];
      var users := ExtractMentionedUsers(message.text.value);
      result := MergeEach(result, users, message, messages[..i], MentionKeys);
      assert messages[..i + 1] == messages[..i] + [message];
    }
    assert messages[..|messages|] == messages;
    var order := IterationOrder(result);
    r := SortByMessagesCount(result, order);
  }

  /** The body of groupByPostingUser's loop: one merge under the poster. */
  lemma MergePoster(prefix: seq<Message>, message: Message)
    ensures Merge(Groups(prefix, PosterKey), message.user, message) == Groups(prefix + [message], PosterKey)
  {
    PendingStart(prefix, PosterKey, message);
    PendingStep(prefix, PosterKey, message, {}, message.user);
    assert {} + {message.user} == PosterKey(message);
    PendingDone(prefix, PosterKey, message);
  }

  /** groupByPostingUser: every message under its poster, a null poster included. */
  method GroupByPostingUser(messages: seq<Message>) returns (r: seq<Entry<Option<string>>>)
    ensures Ranked(r, Groups(messages, PosterKey))
  {
    var result: map<Option<string>, seq<Message>> := map[];
    for i := 0 to |messages|
      invariant result == Groups(messages[..i], PosterKey)
    {
      var message := messages[i];
      MergePoster(messages[..i], message);
      result := Merge(result, message.user, message);
      assert messages[..i + 1] == messages[..i] + [message];
    }
    assert messages[..|messages|] == messages;
    var order := IterationOrder(result);
    r := SortByMessagesCount(result, order);
  }

  /** groupByTags: every message under each tag its text carries. */
  method GroupByTags(messages: seq<Message>) returns (r: seq<Entry<string>>)
    requires forall i :: 0 <= i < |messages| ==> messages[i].text.Some?
    ensures Ranked(r, Groups(messages, TagKeys))
  {
    var result: map<string, seq<Message>> := map[];
    for i := 0 to |messages|
      invariant result == Groups(messages[..i], TagKeys)
    {
      var message := messages[i];
      var tags := ExtractTags(message.text.value);
      result := MergeEach(result, tags, message, messages[..i], TagKeys);
      assert messages[..i + 1] == messages[..i] + [message];
    }
    assert messages[..|messages|] == messages;
    var order := IterationOrder(result);
    r := SortByMessagesCount(result, order);
  }
}
