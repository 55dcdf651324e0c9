# slack-sleuth in Dafny

slack-sleuth is a command-line tool over the Slack Web API. This project models and proves
its three pieces of sequential logic:

- **The message analyzer** (`MessagesAnalyzer`). It has two regex extractors:
  mentioned users `<@(U.+?)>` and tags `(#[^C]\w+)`. It has three groupings: by mentioned
  user, by poster and by tag. Each groupBy appends every message to the list of each of its
  keys in a HashMap. `sortByMessagesCount` then orders the entries by descending list size.
  The analyzer also has the popularity score `calculateReactionsScore` and the popularity
  sort `sortByReactions`. Its own state is the statistics limit (`setLimit`), the verbose
  switch and the user cache consulted by `userInfo`. It also has `normalize`.
- **The channel-history paginator** (`ConversationsHistory.fetchHistory`). It is a do/while
  loop over conversations.history, starting at cursor `""`. It follows `nextCursor` while a
  page has more results and aborts with `-1` on a fault or a non-ok page. It then drops
  messages that have a subtype, are hidden or are intros.
- **The channel-list paginator** (`ConversationsList.fetchConversations`). It has the same
  loop shape. It continues while the next cursor is not blank, and never reads `hasMore`.

How the pieces are modelled:

- **The Slack client** is a finite script of responses: `Fault` (the client threw) or a
  `Page` carrying `ok`, `error`, the items, `hasMore` and `nextCursor`.
- **The regexes** are hand-written scanners with `Matcher.find` semantics. Matching is
  leftmost, a search resumes at a match's end, `.` stops at line terminators, `\w+` is
  greedy and `.+?` is lazy.
- **HashMap iteration order is unspecified.** A method picks any listing of the keys, and
  `sortByMessagesCount` sorts stably in that order.
- **The user cache and `limit`** are fields of a class `MessagesAnalyzer` that its methods
  update. The users.info service is a function `directory(user, n)`: the answer to the
  analyzer's n-th lookup. The answer may change over time, and the class records the users
  it has looked up so far.
- **The wall clock.** When the history window has no end, every request reads the clock for
  its `latest` bound. The model takes the end bound as a function of the request's index.

Modules:

- `Wrappers`: Option, Result and Outcome.
- `SlackModel`: messages, users, channels, responses and the items of a prefix of a script.
- `Sequences`: subsequences.
- `StableSort`: a stable sort by a descending integer key.
- `TextExtractors`: the scanners and extractors.
- `ExtractorExamples`: worked examples of the scanners.
- `Grouping`: the groupings and `sortByMessagesCount`.
- `GroupingExamples`: a worked example of the poster grouping.
- `Popularity`: the score and `sortByReactions`.
- `Analyzer`: the analyzer class, `userInfo`, `setLimit` and `normalize`.
- `History`: `fetchHistory` and its filter.
- `Channels`: `fetchConversations`.

Two behaviours differ from what one might expect, and the model follows the code:

- **Ties in `sortByMessagesCount`.** One might expect equal-size groups to keep the order in
  which their keys were first seen. The code streams a `HashMap`, whose order is
  unspecified. The model therefore proves only that ties keep the map's iteration order,
  whatever that order is.
- **A failed user lookup.** One might expect it to fall back to the bare id. In the code,
  `fetchUserInfo` throws on a non-ok answer or a transport error, and `computeIfAbsent`
  passes the exception on without caching. The model returns `Failure` and caches nothing.

## Model

| member | source | states |
|---|---|---|
| TextExtractors.ClosingAngle | src/main/java/pl/codeleak/slack/sleuth/MessagesAnalyzer.java:167 | the lazy `.+?>` ends at the first '>' from the given index, and fails if a line terminator comes first |
| TextExtractors.WordEnd | src/main/java/pl/codeleak/slack/sleuth/MessagesAnalyzer.java:171 | greedy `\w*`: every character before the end is a word character, and the character at the end is not |
| TextExtractors.MentionAtMatches | src/main/java/pl/codeleak/slack/sleuth/MessagesAnalyzer.java:167 | an attempt of `<@(U.+?)>` (`MentionAt`) at an index matches a well-formed mention token standing between that "<@" and a '>', and ends just past the '>'; every such token is exactly what the attempt matches |
| TextExtractors.TagAtMatches | src/main/java/pl/codeleak/slack/sleuth/MessagesAnalyzer.java:171 | an attempt of `(#[^C]\w+)` (`TagAt`) at an index matches a maximal tag token standing there, no match means no tag token starts there, and every maximal tag token there is exactly what the attempt matches |
| TextExtractors.MatchAt | src/main/java/pl/codeleak/slack/sleuth/MessagesAnalyzer.java:166-172 | a match attempt at an index is never empty and ends inside the text |
| TextExtractors.Find | src/main/java/pl/codeleak/slack/sleuth/MessagesAnalyzer.java:178 | Matcher.find returns the leftmost match at or after the search start; with no match, no index from there on starts one |
| TextExtractors.Scan | src/main/java/pl/codeleak/slack/sleuth/MessagesAnalyzer.java:178-180 | the groups reported by successive finds from an index: at most one per remaining character, since no match is empty |
| TextExtractors.ScanGroups | src/main/java/pl/codeleak/slack/sleuth/MessagesAnalyzer.java:178-180 | every group the scan reports is the group of a match attempt at some index from the start on |
| TextExtractors.Extracted | src/main/java/pl/codeleak/slack/sleuth/MessagesAnalyzer.java:174-182 | the HashSet of the groups: each element is the group of a match at some index of the text |
| TextExtractors.ScanFound | src/main/java/pl/codeleak/slack/sleuth/MessagesAnalyzer.java:178-180 | when find reports nothing the scan is empty; otherwise the scan is the found group, then the scan from the match's end |
| TextExtractors.ExtractByRegex | src/main/java/pl/codeleak/slack/sleuth/MessagesAnalyzer.java:174-182 | the loop collects exactly the set of groups of the successive non-overlapping leftmost matches |
| TextExtractors.ExtractMentionedUsers | src/main/java/pl/codeleak/slack/sleuth/MessagesAnalyzer.java:166-168 | the mention set; every token starts with 'U', has no line terminator, has no '>' from its third character, and stands between "<@" and '>' in the text |
| TextExtractors.ExtractTags | src/main/java/pl/codeleak/slack/sleuth/MessagesAnalyzer.java:170-172 | the tag set; every token is '#', a character other than 'C', then one or more word characters, and it is maximal in the text |
| TextExtractors.ScanSkips | src/main/java/pl/codeleak/slack/sleuth/MessagesAnalyzer.java:178 | indices where no match starts contribute nothing to the scan |
| TextExtractors.ScanEmptyIff | src/main/java/pl/codeleak/slack/sleuth/MessagesAnalyzer.java:178-180 | the scan finds nothing exactly when no index starts a match |
| TextExtractors.ExtractedEmptyIff | src/main/java/pl/codeleak/slack/sleuth/MessagesAnalyzer.java:174-182 | an extractor returns the empty set exactly when the pattern matches nowhere |
| TextExtractors.MentionsWellFormed | src/main/java/pl/codeleak/slack/sleuth/MessagesAnalyzer.java:166-168 | every extracted mention is a well-formed token standing between "<@" and '>' |
| TextExtractors.TagsWellFormed | src/main/java/pl/codeleak/slack/sleuth/MessagesAnalyzer.java:170-172 | every extracted tag is well formed and maximal, so no `#C...` channel reference is a tag |
| ExtractorExamples.TagScenario | src/main/java/pl/codeleak/slack/sleuth/MessagesAnalyzer.java:170-172 | "See #general #C123 #promo" yields exactly {"#general", "#promo"} |
| ExtractorExamples.MentionScenario | src/main/java/pl/codeleak/slack/sleuth/MessagesAnalyzer.java:166-168 | "Hi <@U1> and <@U2>" yields exactly {"U1", "U2"} |
| ExtractorExamples.RepeatedMention | src/test/java/pl/codeleak/slack/sleuth/MessagesAnalyzerTest.java:15-31 | a user mentioned twice in one message is extracted once |
| ExtractorExamples.TagAcceptsSpace | src/main/java/pl/codeleak/slack/sleuth/MessagesAnalyzer.java:171 | `[^C]` matches a space, so "# ab" is one tag |
| ExtractorExamples.TagTooShort | src/main/java/pl/codeleak/slack/sleuth/MessagesAnalyzer.java:171 | a one-letter tag "#a" is not a tag |
| ExtractorExamples.ChannelNotTag | src/test/java/pl/codeleak/slack/sleuth/MessagesAnalyzerTest.java:49-65 | the channel reference "#Ctwo" is not a tag |
| ExtractorExamples.TagNeedsWordChar | src/test/java/pl/codeleak/slack/sleuth/MessagesAnalyzerTest.java:49-65 | "#1:" is not a tag, because ':' is not a word character |
| ExtractorExamples.MentionSingleLine | src/main/java/pl/codeleak/slack/sleuth/MessagesAnalyzer.java:167 | a mention cannot span a line break |
| ExtractorExamples.MentionLazyAngle | src/main/java/pl/codeleak/slack/sleuth/MessagesAnalyzer.java:167 | on "<@U>>" the lazy `.+?` takes the first '>' and the token is "U>" |
| Grouping.Merge | src/main/java/pl/codeleak/slack/sleuth/MessagesAnalyzer.java:115-116 | HashMap.merge with concat appends the message to the key's list, or creates [m]; other keys are unchanged |
| Grouping.SelectMembers | src/main/java/pl/codeleak/slack/sleuth/MessagesAnalyzer.java:111-139 | a message is in the group of k exactly when it is in the input and carries k |
| Grouping.SelectCount | src/main/java/pl/codeleak/slack/sleuth/MessagesAnalyzer.java:111-139 | a group holds each of its messages as often as the input does, and no other message |
| Grouping.SelectOrdered | src/main/java/pl/codeleak/slack/sleuth/MessagesAnalyzer.java:111-139 | a group is a subsequence of the input: input order is kept |
| Grouping.AllKeysMembers | src/main/java/pl/codeleak/slack/sleuth/MessagesAnalyzer.java:111-139 | the map's keys are exactly the keys some message carries |
| Grouping.SelectEmptyIff | src/main/java/pl/codeleak/slack/sleuth/MessagesAnalyzer.java:111-139 | a group is empty exactly when its key is not in the map |
| Grouping.SortByMessagesCount | src/main/java/pl/codeleak/slack/sleuth/MessagesAnalyzer.java:141-147 | the same keys mapped to the same lists, once each, by non-increasing list size; equal sizes keep the order in which the entry stream (`Entries`: each key of the iteration order with its own list) lists them |
| Grouping.IterationOrder | src/main/java/pl/codeleak/slack/sleuth/MessagesAnalyzer.java:142 | the entry set is streamed in some order listing every key exactly once |
| Grouping.GroupMembers | src/main/java/pl/codeleak/slack/sleuth/MessagesAnalyzer.java:111-139 | an entry of a grouping holds exactly the input messages carrying its key, each occurrence once, in input order, and is never empty |
| Grouping.KeyListed | src/main/java/pl/codeleak/slack/sleuth/MessagesAnalyzer.java:111-139 | every key a message carries has an entry, and the message is in it |
| Grouping.PostedInExactlyOne | src/main/java/pl/codeleak/slack/sleuth/MessagesAnalyzer.java:122-130 | grouping by poster puts every message in the entry of its user and in no other; a null user is a key |
| Grouping.PostingSizesSum | src/main/java/pl/codeleak/slack/sleuth/MessagesAnalyzer.java:122-130 | the poster groups' sizes add up to the number of input messages |
| Grouping.MergeEach | src/main/java/pl/codeleak/slack/sleuth/MessagesAnalyzer.java:114-117 | merging a message under each of its keys, in any order, yields the groups of the longer prefix |
| Grouping.MergePoster | src/main/java/pl/codeleak/slack/sleuth/MessagesAnalyzer.java:125-126 | one merge under the poster yields the groups of the longer prefix |
| Grouping.GroupByMentionedUser | src/main/java/pl/codeleak/slack/sleuth/MessagesAnalyzer.java:111-120 | the result ranks the groups of the messages under their mention tokens, by non-increasing size |
| Grouping.GroupByPostingUser | src/main/java/pl/codeleak/slack/sleuth/MessagesAnalyzer.java:122-130 | the result ranks the groups of the messages under their posters, by non-increasing size |
| Grouping.GroupByTags | src/main/java/pl/codeleak/slack/sleuth/MessagesAnalyzer.java:132-139 | the result ranks the groups of the messages under their tags, by non-increasing size |
| GroupingExamples.PostingExample | src/test/java/pl/codeleak/slack/sleuth/MessagesAnalyzerTest.java:35-46 | one message by one user and three by another give the groups [m1] and [m2, m3, m4] |
| StableSort.Insert | src/main/java/pl/codeleak/slack/sleuth/MessagesAnalyzer.java:152 | inserting into a sorted sequence keeps it sorted and adds the element behind none of its key |
| StableSort.Sort | src/main/java/pl/codeleak/slack/sleuth/MessagesAnalyzer.java:149-154 | a permutation with non-increasing keys in which equal keys keep their input order |
| StableSort.WithKeyOrder | src/main/java/pl/codeleak/slack/sleuth/MessagesAnalyzer.java:152 | stability stated on positions: two equal-key elements appear in the key's subsequence in input order |
| Popularity.ReactionsCount | src/main/java/pl/codeleak/slack/sleuth/MessagesAnalyzer.java:157-160 | the sum of the reaction counts; with non-negative counts it is at least each of them |
| Popularity.ReactionsScore | src/main/java/pl/codeleak/slack/sleuth/MessagesAnalyzer.java:156-164 | reactions plus replies plus reply users, absent parts as 0; with non-negative counts the score is at least each count it adds up |
| Popularity.ReactionsCountZeroIff | src/main/java/pl/codeleak/slack/sleuth/MessagesAnalyzer.java:157-160 | non-negative reaction counts sum to at least 0, and to 0 exactly when each is 0 |
| Popularity.ReactionsCountAppend | src/main/java/pl/codeleak/slack/sleuth/MessagesAnalyzer.java:157-160 | the reaction sum is additive over the reaction list |
| Popularity.ScoreZeroIff | src/main/java/pl/codeleak/slack/sleuth/MessagesAnalyzer.java:156-164 | with non-negative counts the score is at least 0, and 0 exactly when every reaction, the reply count and the reply-user count are absent or 0 |
| Popularity.ScoreScenario | src/main/java/pl/codeleak/slack/sleuth/MessagesAnalyzer.java:156-164 | one reaction added 3 times, 2 replies and 1 reply user score 6 |
| Popularity.SortByReactions | src/main/java/pl/codeleak/slack/sleuth/MessagesAnalyzer.java:149-154 | a permutation of the messages by non-increasing score; equal scores keep input order |
| Popularity.SortsByReactionsExample | src/test/java/pl/codeleak/slack/sleuth/MessagesAnalyzerTest.java:69-81 | messages with scores 2, 0, 4, 3 come out in the order 4, 3, 2, 0 |
| Analyzer.MessagesAnalyzer.constructor | src/main/java/pl/codeleak/slack/sleuth/MessagesAnalyzer.java:34-49 | after option parsing the limit holds its default 3 and the cache is empty |
| Analyzer.MessagesAnalyzer.SetLimit | src/main/java/pl/codeleak/slack/sleuth/MessagesAnalyzer.java:39-46 | accepts exactly 1..100 and then stores the value; otherwise fails with the parameter message and keeps the old limit |
| Analyzer.MessagesAnalyzer.UserInfo | src/main/java/pl/codeleak/slack/sleuth/MessagesAnalyzer.java:184-193 | the id when not verbose. On a cache hit, "name (real name)" of the cached record, with a null part shown as "null", and no lookup. On a miss, the answer of a new lookup: "name (real name)", "id (!Not Found!)" or the lookup's failure. Only a found user is cached, and every cached record is what that user's last lookup answered |
| Analyzer.Replace | src/main/java/pl/codeleak/slack/sleuth/MessagesAnalyzer.java:199-202 | every occurrence of the target character is replaced and every other character kept, in place |
| Analyzer.Normalize | src/main/java/pl/codeleak/slack/sleuth/MessagesAnalyzer.java:195-203 | null gives ""; otherwise each '\r', '\n' and '\t' becomes one space and every other character stays |
| Analyzer.NormalizeSingleLine | src/main/java/pl/codeleak/slack/sleuth/MessagesAnalyzer.java:195-203 | a normalized text has no carriage return, line feed or tab |
| Analyzer.NormalizeIdempotent | src/main/java/pl/codeleak/slack/sleuth/MessagesAnalyzer.java:195-203 | normalizing twice is normalizing once |
| Analyzer.NormalizeKeeps | src/main/java/pl/codeleak/slack/sleuth/MessagesAnalyzer.java:195-203 | a character other than '\r', '\n' and '\t' is kept at its index |
| SlackModel.CollectedAppend | src/main/java/pl/codeleak/slack/sleuth/ConversationsHistory.java:78 | the concatenated items of a split script are those of each part, one after the other |
| History.FilterMessages | src/main/java/pl/codeleak/slack/sleuth/ConversationsHistory.java:98-105 | keeps exactly the messages with a null or empty subtype that are neither hidden nor intro, as a subsequence of the input |
| History.FilterAppend | src/main/java/pl/codeleak/slack/sleuth/ConversationsHistory.java:98-105 | filtering distributes over concatenation |
| History.FilterCount | src/main/java/pl/codeleak/slack/sleuth/ConversationsHistory.java:98-105 | a kept message occurs as often as in the input, a dropped one not at all |
| History.FilterIdempotent | src/main/java/pl/codeleak/slack/sleuth/ConversationsHistory.java:98-105 | filtering filtered messages changes nothing |
| History.FetchHistory | src/main/java/pl/codeleak/slack/sleuth/ConversationsHistory.java:55-105 | fetches until the first response that is not an ok page with more results. Request k carries the token, the channel, the window's start, the window's end as read for request k, limit 200, and cursor "" at first, then the previous page's next cursor (`Requests`). The call returns -1 exactly when that last response is a fault or not ok, with no output. Otherwise it returns 0 with the filtered concatenation of all fetched pages' messages |
| History.FilterCollectedSplit | src/main/java/pl/codeleak/slack/sleuth/ConversationsHistory.java:78-105 | the filtered history of a split script is the filtered history of each part, one after the other |
| Channels.FetchConversations | src/main/java/pl/codeleak/slack/sleuth/ConversationsList.java:32-71 | fetches until the first response that is not an ok page with a non-blank next cursor. Request k carries the token, limit 2, archived channels excluded, public channels only, and cursor "" at first, then the previous page's next cursor (`Requests`). The call returns -1 exactly when that last response is a fault or not ok. Otherwise it returns 0 with the concatenation of all fetched pages' channels, a null list counting as empty |
| Channels.IsBlank | src/main/java/pl/codeleak/slack/sleuth/ConversationsList.java:54 | String.isBlank: the first non-white-space index is past the end exactly when every character is a Character.isWhitespace character |
| Channels.FirstNonWhitespace | src/main/java/pl/codeleak/slack/sleuth/ConversationsList.java:54 | the first index from the start that does not hold white space, or the length: everything before it is white space |
| Channels.HasMoreIgnored | src/main/java/pl/codeleak/slack/sleuth/ConversationsList.java:54-60 | changing a page's `hasMore` changes neither whether the loop goes on nor what it collects |
| Channels.BlankCursors | src/main/java/pl/codeleak/slack/sleuth/ConversationsList.java:54 | "", a space, tab and line feed, and an ideographic space are blank cursors; a real cursor and U+00A0 are not |

## Left out

- `call()` of the three commands: turning results into log lines, the `limit(...)` truncation of each statistic, and the emoji headers. These are I/O only.
- JSON reading and writing with Gson, and `printOrSave` with its `-1` on a failed file write: I/O and library code. The model's `0` from FetchHistory means the filtered list reached the output step.
- `ConversationsList.print` and its search-term filter. `fetchConversations` calls `print` before it returns `0`, and `print` can throw: the search term is compiled as a Java regex, so an invalid pattern such as "(" throws PatternSyntaxException, and a channel without a name throws NullPointerException. The model's `0` from FetchConversations means the channel list reached `print`.
- The fetch loops' log lines: the server's error string on a non-ok page, the exception message on a transport failure, and the "Fetched … messages" count. Neither fetch method returns the error string; the model's `-1` carries nothing, and the page's `error` field is not read.
- TimeRange's rendering and the wall clock: the window's start is passed in as an epoch-second string. The end is a function of the request's index: the fixed end, or the clock's reading when that request is built.
- The Slack Web API client and `UsersInfo`: replaced by a finite response script and by the `directory` lookup function, indexed by the lookup's position. The model records the users looked up so far, which the Java object does not keep.
- A server that never ends the paging: FetchHistory and FetchConversations require that some response in the script ends the loop, since the Java loop would not return otherwise.
- A page without response metadata: `getResponseMetadata()` returning null throws a NullPointerException in Java. The model always has a next cursor.
- A null message text: `Pattern.matcher(null)` throws, so GroupByMentionedUser and GroupByTags require every text to be present.
- Analyzer.MessagesAnalyzer.UserInfo: takes a present user id. A null key, possible from a message without a user in verbose mode, makes `ConcurrentHashMap.computeIfAbsent` throw, and that case is not modelled.
- Popularity.SortByReactions: scores are unbounded integers. The Java sum in `calculateReactionsScore` and the comparator's difference wrap around at 32 bits for extreme counts, and the model does not reproduce that.
- Popularity.ScoreZeroIff: the "0 exactly when all zero" statement assumes non-negative counts, as Slack reports them. With negative counts the sum can be 0 otherwise.
- The concurrency of `ConcurrentHashMap`: the analyzer is used from one thread.
- The state before picocli applies the limit option's default (a limit of 0). The constructor models the state after parsing.
