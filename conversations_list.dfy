/** fetchConversations of ConversationsList: the cursor loop over conversations.list. Unlike
    the history loop it continues on a non-blank next cursor and never reads `hasMore`. */
module Channels {
  import opened Wrappers
  import opened SlackModel

  const DEFAULT_LIMIT: int := 2
  /** The conversation types listed: public channels only. */
  const CHANNEL_TYPES: seq<string> := ["public_channel"]

  /** The parameters of one conversations.list request. */
  datatype ListRequest = ListRequest(
    token: string, limit: int, excludeArchived: bool, types: seq<string>, cursor: string)

  /** The characters Character.isWhitespace accepts: the Unicode space, line and paragraph
      separators other than the no-break spaces U+00A0, U+2007 and U+202F, plus tab, line
      feed, vertical tab, form feed, carriage return and the separators U+001C..U+001F. */
  const WHITESPACE: set<char> := {
    '\t', '\n', '\U{000B}', '\U{000C}', '\r', '\U{001C}', '\U{001D}', '\U{001E}', '\U{001F}',
    ' ', '\U{1680}', '\U{2000}', '\U{2001}', '\U{2002}', '\U{2003}', '\U{2004}', '\U{2005}',
    '\U{2006}', '\U{2008}', '\U{2009}', '\U{200A}', '\U{2028}', '\U{2029}', '\U{205F}', '\U{3000}'
  }

  /** The index of the first character at or after `from` that is not white space, or |s|. */
  function FirstNonWhitespace(s: string, from: nat): (k: nat)
    requires from <= |s|
    ensures from <= k <= |s|
    ensures forall i :: from <= i < k ==> s[i] in WHITESPACE
    ensures k < |s| ==> s[k] !in WHITESPACE
    decreases |s| - from
  {
    if from == |s| || s[from] !in WHITESPACE then from else FirstNonWhitespace(s, from + 1)
  }

  /** String.isBlank: the first non-white-space character is past the end, so the string is
      empty or white space only. */
  function IsBlank(s: string): (b: bool)
    ensures b <==> forall i :: 0 <= i < |s| ==> s[i] in WHITESPACE
  {
    FirstNonWhitespace(s, 0) == |s|
  }

  /** A response after which the loop fetches again: an ok page with a non-blank cursor. */
  predicate Continues(p: Response<Conversation>) {
    p.Page? && p.ok && !IsBlank(p.nextCursor)
  }

  /** A response that aborts the call with -1: a transport fault or a page that is not ok. */
  predicate Aborts(p: Response<Conversation>) {
    p.Fault? || !p.ok
  }

  /** The script answers the loop's requests in order; some answer ends the loop. */
  predicate Ends(script: seq<Response<Conversation>>) {
    exists n :: 0 <= n < |script| && !Continues(script[n])
  }

  /** The first `n` requests the loop sends for `script`: request k carries the token, the
      page size, archived channels excluded, public channels only and the k-th cursor. */
  function Requests(token: string, script: seq<Response<Conversation>>, n: nat): seq<ListRequest>
    requires n <= |script|
  {
    seq(n, k requires 0 <= k < n => ListRequest(token, DEFAULT_LIMIT, true, CHANNEL_TYPES, CursorAt(script, k)))
  }

  /** One more request extends the requests sent so far. */
  lemma RequestsSnoc(token: string, script: seq<Response<Conversation>>, n: nat)
    requires n < |script|
    ensures Requests(token, script, n + 1)
         == Requests(token, script, n) + [ListRequest(token, DEFAULT_LIMIT, true, CHANNEL_TYPES, CursorAt(script, n))]
  {
  }

  /** The first `n` responses all continue the loop. */
  predicate ContinuesThrough(script: seq<Response<Conversation>>, n: nat)
    requires n <= |script|
  {
    forall k :: 0 <= k < n ==> Continues(script[k])
  }

  /** fetchConversations: request pages starting from cursor "" and continue with each page's
      next cursor while that cursor is not blank; a fault or a non-ok page aborts with -1.
      `channels` are the channels of all pages, null lists as empty, in order, which the
      call then prints; `requests` are the requests sent. */
  method FetchConversations(token: string, script: seq<Response<Conversation>>)
    returns (code: int, requests: seq<ListRequest>, channels: Option<seq<Conversation>>)
    requires Ends(script)
    ensures 1 <= |requests| <= |script|
    ensures ContinuesThrough(script, |requests| - 1) && !Continues(script[|requests| - 1])
    ensures requests == Requests(token, script, |requests|)
    ensures code == -1 <==> Aborts(script[|requests| - 1])
    ensures code == -1 || code == 0
    ensures channels == if code == -1 then None else Some(Collected(script, |requests|))
  {
    ghost var stop :| 0 <= stop < |script| && !Continues(script[stop]);
    var collected: seq<Conversation> := [];
    var hasMore := true;
    var cursor := "";
    var i := 0;
    requests := [];
    while hasMore
      invariant 0 <= i <= stop + 1
      invariant hasMore ==> i <= stop && ContinuesThrough(script, i) && cursor == CursorAt(script, i)
      invariant !hasMore ==> 1 <= i && ContinuesThrough(script, i - 1)
                             && script[i - 1].Page? && script[i - 1].ok && IsBlank(script[i - 1].nextCursor)
      invariant requests == Requests(token, script, i)
      invariant collected == Collected(script, i)
      decreases stop + 1 - i
    {
      requests := requests + [ListRequest(token, DEFAULT_LIMIT, true, CHANNEL_TYPES, cursor)];
      RequestsSnoc(token, script, i);
      var response := script[i];
      if response.Fault? || !response.ok {
        return -1, requests, None;
      }
      collected := collected + response.items.GetOr([]);
      if !IsBlank(response.nextCursor) {
        hasMore := true;
        cursor := response.nextCursor;
      } else {
        hasMore := false;
        cursor := "";
      }
      i := i + 1;
    }
    return 0, requests, Some(collected);
  }

  /** The flag `hasMore` plays no part: two scripts that differ only in it make the same
      requests and collect the same channels. */
  lemma HasMoreIgnored(p: Response<Conversation>, flag: bool)
    requires p.Page?
    ensures Continues(p.(hasMore := flag)) == Continues(p)
    ensures Aborts(p.(hasMore := flag)) == Aborts(p)
    ensures PageItems(p.(hasMore := flag)) == PageItems(p)
    ensures NextCursorOf(p.(hasMore := flag)) == NextCursorOf(p)
  {
  }

  /** The cursors that end the loop: the empty one and those made only of white space, such
      as a single space, a tab, a line break or an ideographic space. */
  lemma BlankCursors()
    ensures IsBlank("") && IsBlank(" ") && IsBlank("\t\n") && IsBlank("\U{3000}")
    ensures !IsBlank("dXNlcjpVMEc5V0ZYTlo=") && !IsBlank("\U{00A0}")
  {
    assert "dXNlcjpVMEc5V0ZYTlo="[0] == 'd';
    assert "\U{00A0}"[0] == '\U{00A0}';
  }
}
