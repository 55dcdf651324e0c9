/** The analyzer's own state: the statistics limit, the verbose switch and the cache of user
    records that `userInfo` fills from the users.info lookup, plus `normalize`. */
module Analyzer {
  import opened Wrappers
  import opened SlackModel

  /** What one users.info lookup answers: the user, no user (a null record in an ok
      response), or a failure that the lookup raises as an exception carrying this text. */
  datatype Lookup = Found(user: User) | Missing | Failed(reason: string)

  const LIMIT_ERROR: string := "Value for `limit` must be in range of 1 to 100"
  const DEFAULT_LIMIT: int := 3

  /** String concatenation of a possibly null string: null is rendered "null". */
  function Show(s: Option<string>): string {
    match s
    case None => "null"
    case Some(t) => t
  }

  /** How a known user is shown: "name (real name)". */
  function Describe(u: User): string {
    Show(u.name) + " (" + Show(u.realName) + ")"
  }

  /** What userInfo answers once the lookup has answered `answer` for `user`. */
  function Answer(user: string, answer: Lookup): Result<string, string> {
    match answer
    case Found(u) => Success(Describe(u))
    case Missing => Success(user + " (!Not Found!)")
    case Failed(reason) => Failure(reason)
  }

  class MessagesAnalyzer {
    var limit: int
    const verbose: bool
    /** The users.info lookup, with the token fixed: `directory(user, n)` is what the service
        answers for `user` when it is the n-th lookup of this analyzer (counting from 0), so
        the answer may change over time. */
    const directory: (string, nat) -> Lookup
    var usersCache: map<string, User>
    /** The users for which the lookup was called, oldest first: the service's side of the
        conversation, which `directory` is indexed by. */
    var lookups: seq<string>

    /** The limit is in range, and every cached record is what the last lookup of that user
        answered. */
    ghost predicate Valid()
      reads this
    {
      1 <= limit <= 100
      && forall u :: u in usersCache ==> CachedFrom(u)
    }

    /** The cached record of `u` came from its `k`-th lookup, and `u` was not looked up again. */
    ghost predicate CachedFrom(u: string)
      reads this
      requires u in usersCache
    {
      exists k :: 0 <= k < |lookups| && lookups[k] == u && directory(u, k) == Found(usersCache[u])
                  && forall j :: k < j < |lookups| ==> lookups[j] != u
    }

    /** The state after option parsing: the limit option's default applied, nothing cached. */
    constructor (verbose: bool, directory: (string, nat) -> Lookup)
      ensures Valid()
      ensures this.verbose == verbose && this.directory == directory
      ensures limit == DEFAULT_LIMIT && usersCache == map[] && lookups == []
    {
      this.verbose := verbose;
      this.directory := directory;
      limit := DEFAULT_LIMIT;
      usersCache := map[];
      lookups := [];
    }

    /** setLimit: accepts 1..100, otherwise rejects with the parameter error and keeps the
        old limit. */
    method SetLimit(value: int) returns (outcome: Outcome<string>)
      requires Valid()
      modifies this`limit
      ensures Valid()
      ensures outcome.Pass? <==> 1 <= value <= 100
      ensures outcome.Pass? ==> limit == value
      ensures outcome.Fail? ==> outcome.error == LIMIT_ERROR && limit == old(limit)
    {
      if value < 1 || value > 100 {
        return Fail(LIMIT_ERROR);
      }
      limit := value;
      return Pass;
    }

    /** userInfo: the user id when not verbose; otherwise the cached record, or on a cache
        miss the answer of a fresh lookup. Only a found user is cached, so a missing user and
        a failure are asked again next time, while a cached user is never asked again, even
        if the service would now answer differently. */
    method UserInfo(user: string) returns (r: Result<string, string>)
      requires Valid()
      modifies this`usersCache, this`lookups
      ensures Valid()
      ensures !verbose ==> r == Success(user)
      ensures verbose && user in old(usersCache) ==> r == Success(Describe(old(usersCache)[user]))
      ensures verbose && user !in old(usersCache) ==> r == Answer(user, directory(user, |old(lookups)|))
      ensures lookups == if verbose && user !in old(usersCache) then old(lookups) + [user] else old(lookups)
      ensures usersCache == if verbose && user !in old(usersCache) && directory(user, |old(lookups)|).Found?
                            then old(usersCache)[user := directory(user, |old(lookups)|).user]
                            else old(usersCache)
    {
      if !verbose {
        return Success(user);
      }
      if user in usersCache {
        return Success(Describe(usersCache[user]));
      }
      var answer := directory(user, |lookups|);
      ghost var before := lookups;
      lookups := lookups + [user];
      match answer {
        case Found(u) =>
          usersCache := usersCache[user := u];
          r := Success(Describe(u));
        case Missing =>
          r := Success(user + " (!Not Found!)");
        case Failed(reason) =>
          r := Failure(reason);
      }
      forall v | v in usersCache ensures CachedFrom(v) {
        if v == user {
          assert lookups[|before|] == v;
        } else {
          assert old(CachedFrom(v));
          var k :| 0 <= k < |before| && before[k] == v && directory(v, k) == Found(usersCache[v])
                   && forall j :: k < j < |before| ==> before[j] != v;
          assert lookups[k] == v;
        }
      }
    }
  }

  /** String.replace of a one-character target by a one-character replacement: every
      occurrence is replaced, everything else stays. */
  function Replace(s: string, target: char, replacement: char): (r: string)
    ensures |r| == |s|
    ensures forall i :: 0 <= i < |s| ==> r[i] == (if s[i] == target then replacement else s[i])
    decreases |s|
  {
    if s == [] then []
    else [if s[0] == target then replacement else s[0]] + Replace(s[1..], target, replacement)
  }

  /** normalize: no text becomes "", and carriage returns, line feeds and tabs become spaces. */
  function Normalize(text: Option<string>): (r: string)
    ensures text.None? ==> r == ""
    ensures text.Some? ==> |r| == |text.value|
    ensures text.Some? ==> forall i :: 0 <= i < |r| ==>
              r[i] == (if text.value[i] in {'\r', '\n', '\t'} then ' ' else text.value[i])
  {
    match text
    case None => ""
    case Some(t) => Replace(Replace(Replace(t, '\r', ' '), '\n', ' '), '\t', ' ')
  }

  /** A normalized text is a single line without tabs. */
  lemma NormalizeSingleLine(text: Option<string>)
    ensures forall i :: 0 <= i < |Normalize(text)| ==> Normalize(text)[i] !in {'\r', '\n', '\t'}
  {
  }

  /** Normalizing twice changes nothing more. */
  lemma NormalizeIdempotent(text: Option<string>)
    ensures Normalize(Some(Normalize(text))) == Normalize(text)
  {
  }

  /** Normalizing keeps every character that is not a line break or tab, in its place. */
  lemma NormalizeKeeps(text: string, i: nat)
    requires i < |text| && text[i] !in {'\r', '\n', '\t'}
    ensures Normalize(Some(text))[i] == text[i]
  {
  }
}
