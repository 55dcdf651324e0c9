/** The records the core consumes, standing in for the Slack SDK's model classes, and the
    abstract response of one paged Web API call. */
module SlackModel {
  import opened Wrappers

  /** One emoji reaction on a message and how many users added it. */
  datatype Reaction = Reaction(name: string, count: int)

  /** A channel message; every field the Slack SDK leaves nullable is an Option here. */
  datatype Message = Message(
    id: Option<string>,
    user: Option<string>,
    text: Option<string>,
    subtype: Option<string>,
    hidden: bool,
    isIntro: bool,
    reactions: Option<seq<Reaction>>,
    replyCount: Option<int>,
    replyUsersCount: Option<int>)

  /** A workspace user as returned by users.info; the name and the real name may be null. */
  datatype User = User(id: string, name: Option<string>, realName: Option<string>)

  /** A channel as returned by conversations.list. */
  datatype Conversation = Conversation(id: string, name: string)

  /** One answer of a paged listing call: either the client threw (IOException or
      SlackApiException), or the server answered with a page. */
  datatype Response<T> =
    | Fault(cause: string)
    | Page(ok: bool, error: Option<string>, items: Option<seq<T>>, hasMore: bool, nextCursor: string)

  /** The items a response contributes to the accumulator; a null list counts as empty. */
  function PageItems<T>(p: Response<T>): seq<T> {
    if p.Page? then p.items.GetOr([]) else []
  }

  /** The cursor a response hands to the next request ("" for a fault). */
  function NextCursorOf<T>(p: Response<T>): string {
    if p.Page? then p.nextCursor else ""
  }

  /** The cursor of the k-th request: "" first, then the next cursor of the previous page. */
  function CursorAt<T>(script: seq<Response<T>>, k: nat): string
    requires k <= |script|
  {
    if k == 0 then "" else NextCursorOf(script[k - 1])
  }

  /** The in-order concatenation of the items of the first `n` responses. */
  function Collected<T>(script: seq<Response<T>>, n: nat): seq<T>
    requires n <= |script|
    decreases n
  {
    if n == 0 then [] else Collected(script, n - 1) + PageItems(script[n - 1])
  }

  /** Only the first `n` responses matter to what the first `n` contribute. */
  lemma {:induction false} CollectedPrefix<T>(script: seq<Response<T>>, more: seq<Response<T>>, n: nat)
    requires n <= |script|
    ensures Collected(script + more, n) == Collected(script, n)
    decreases n
  {
    if n > 0 {
      CollectedPrefix(script, more, n - 1);
      assert (script + more)[n - 1] == script[n - 1];
    }
  }

  /** Collecting is compatible with splitting the response sequence anywhere: the items of
      `a + b` are those of `a` followed by those of `b`. */
  lemma {:induction false} CollectedAppend<T>(a: seq<Response<T>>, b: seq<Response<T>>, n: nat)
    requires n <= |b|
    ensures Collected(a + b, |a| + n) == Collected(a, |a|) + Collected(b, n)
    decreases n
  {
    if n == 0 {
      CollectedPrefix(a, b, |a|);
    } else {
      CollectedAppend(a, b, n - 1);
      assert (a + b)[|a| + n - 1] == b[n - 1];
    }
  }
}
