/** fetchHistory of ConversationsHistory: the cursor loop over conversations.history and the
    filter that drops subtype-tagged, hidden and intro messages. */
module History {
  import opened Wrappers
  import opened SlackModel
  import opened Sequences

  const DEFAULT_LIMIT: int := 200

  /** The parameters of one conversations.history request. The time window bounds are the
      epoch-second strings TimeRange renders. */
  datatype HistoryRequest = HistoryRequest(
    token: string, channel: string, oldest: string, latest: string, limit: int, cursor: string)

  /** A response after which the loop fetches again: an ok page that has more results. */
  predicate Continues(p: Response<Message>) {
    p.Page? && p.ok && p.hasMore
  }

  /** A response that aborts the call with -1: a transport fault or a page that is not ok. */
  predicate Aborts(p: Response<Message>) {
    p.Fault? || !p.ok
  }

  /** The script answers the loop's requests in order; some answer ends the loop. */
  predicate Ends(script: seq<Response<Message>>) {
    exists n :: 0 <= n < |script| && !Continues(script[n])
  }

  /** A message survives the filter: no subtype (null or empty), not hidden, not an intro. */
  predicate Kept(m: Message) {
    (m.subtype.None? || m.subtype.value == "") && !m.hidden && !m.isIntro
  }

  /** The message filter: the kept messages in their original relative order. */
  function FilterMessages(messages: seq<Message>): (r: seq<Message>)
    ensures forall m :: m in r <==> m in messages && Kept(m)
    ensures IsSubsequence(r, messages)
    ensures |r| <= |messages|
    decreases |messages|
  {
    if messages == [] then []
    else
      var init := messages[..|messages| - 1];
      var last := messages[|messages| - 1];
      assert messages == init + [last];
      var r := FilterMessages(init);
      if Kept(last) then
        SubsequenceSnoc(r, init, last);
        r + [last]
      else
        SubsequenceExtend(r, init, last);
        r
  }

  /** Filtering distributes over concatenation, so filtering the whole history is filtering
      page by page. */
  lemma {:induction false} FilterAppend(a: seq<Message>, b: seq<Message>)
    ensures FilterMessages(a + b) == FilterMessages(a) + FilterMessages(b)
    decreases |b|
  {
    if b == [] {
      assert a + b == a;
    } else {
      var b' := b[..|b| - 1];
      assert (a + b)[..|a + b| - 1] == a + b';
      assert (a + b)[|a + b| - 1] == b[|b| - 1];
      FilterAppend(a, b');
    }
  }

  /** The filter keeps exactly the kept messages: every message it returns is kept and every
      kept message of the input is returned, with its multiplicity. */
  lemma {:induction false} FilterCount(messages: seq<Message>, m: Message)
    ensures multiset(FilterMessages(messages))[m] == if Kept(m) then multiset(messages)[m] else 0
    decreases |messages|
  {
    if messages != [] {
      var init := messages[..|messages| - 1];
      assert messages == init + [messages[|messages| - 1]];
      FilterCount(init, m);
    }
  }

  /** Filtering an already filtered list changes nothing. */
  lemma {:induction false} FilterIdempotent(messages: seq<Message>)
    ensures FilterMessages(FilterMessages(messages)) == FilterMessages(messages)
    decreases |messages|
  {
    if messages != [] {
      var init := messages[..|messages| - 1];
      var last := messages[|messages| - 1];
      assert messages == init + [last];
      FilterIdempotent(init);
      FilterAppend(FilterMessages(init), [last]);
      assert [last][..0] == [];
      if Kept(last) {
        assert FilterMessages([last]) == [last];
      } else {
        assert FilterMessages([last]) == [];
      }
    }
  }

  /** The first `n` requests the loop sends for `script`: request k carries the token, the
      channel, the window's start, the window's end as read for that request, the page size
      and the k-th cursor. */
  function Requests(token: string, channel: string, oldest: string, latest: nat -> string,
                    script: seq<Response<Message>>, n: nat): seq<HistoryRequest>
    requires n <= |script|
  {
    seq(n, k requires 0 <= k < n => HistoryRequest(token, channel, oldest, latest(k), DEFAULT_LIMIT, CursorAt(script, k)))
  }

  /** One more request extends the requests sent so far. */
  lemma RequestsSnoc(token: string, channel: string, oldest: string, latest: nat -> string,
                     script: seq<Response<Message>>, n: nat)
    requires n < |script|
    ensures Requests(token, channel, oldest, latest, script, n + 1)
         == Requests(token, channel, oldest, latest, script, n)
            + [HistoryRequest(token, channel, oldest, latest(n), DEFAULT_LIMIT, CursorAt(script, n))]
  {
  }

  /** The first `n` responses all continue the loop. */
  predicate ContinuesThrough(script: seq<Response<Message>>, n: nat)
    requires n <= |script|
  {
    forall k :: 0 <= k < n ==> Continues(script[k])
  }

  /** fetchHistory: request pages starting from cursor "" and continue with each page's next
      cursor while it has more; a fault or a non-ok page aborts with -1 and no output. The
      messages of all pages, null lists as empty, are concatenated and then filtered.
      `oldest` is the window's start; `latest(k)` is what the window's end renders when the
      k-th request is built: the fixed end, or the clock's reading at that moment when the
      window is open-ended. `requests` are the requests sent, in order; `filtered` is the list
      handed to the output step, None when the call aborted. */
  method FetchHistory(token: string, channel: string, oldest: string, latest: nat -> string,
                      script: seq<Response<Message>>)
    returns (code: int, requests: seq<HistoryRequest>, filtered: Option<seq<Message>>)
    requires Ends(script)
    ensures 1 <= |requests| <= |script|
    ensures ContinuesThrough(script, |requests| - 1) && !Continues(script[|requests| - 1])
    ensures requests == Requests(token, channel, oldest, latest, script, |requests|)
    ensures code == -1 <==> Aborts(script[|requests| - 1])
    ensures code == -1 || code == 0
    ensures filtered == if code == -1 then None
                        else Some(FilterMessages(Collected(script, |requests|)))
  {
    ghost var stop :| 0 <= stop < |script| && !Continues(script[stop]);
    var messages: seq<Message> := [];
    var hasMore := true;
    var cursor := "";
    var i := 0;
    requests := [];
    while hasMore
      invariant 0 <= i <= stop + 1
      invariant hasMore ==> i <= stop && ContinuesThrough(script, i) && cursor == CursorAt(script, i)
      invariant !hasMore ==> 1 <= i && ContinuesThrough(script, i - 1)
                             && script[i - 1].Page? && script[i - 1].ok && !script[i - 1].hasMore
      invariant requests == Requests(token, channel, oldest, latest, script, i)
      invariant messages == Collected(script, i)
      decreases stop + 1 - i
    {
      requests := requests + [HistoryRequest(token, channel, oldest, latest(i), DEFAULT_LIMIT, cursor)];
      RequestsSnoc(token, channel, oldest, latest, script, i);
      var response := script[i];
      if response.Fault? || !response.ok {
        return -1, requests, None;
      }
      messages := messages + response.items.GetOr([]);
      if response.hasMore {
        hasMore := true;
        cursor := response.nextCursor;
      } else {
        hasMore := false;
        cursor := "";
      }
      i := i + 1;
    }
    return 0, requests, Some(FilterMessages(messages));
  }

  /** The filtered history of a script split in two is the filtered history of each part,
      one after the other. */
  lemma FilterCollectedSplit(first: seq<Response<Message>>, rest: seq<Response<Message>>)
    ensures FilterMessages(Collected(first + rest, |first + rest|))
         == FilterMessages(Collected(first, |first|)) + FilterMessages(Collected(rest, |rest|))
  {
    var whole := Collected(first + rest, |first + rest|);
    var a := Collected(first, |first|);
    var b := Collected(rest, |rest|);
    CollectedAppend(first, rest, |rest|);
    assert whole == a + b;
    FilterAppend(a, b);
  }
}
