/** The two regex extractors of MessagesAnalyzer, written out as scanners with the semantics
    of java.util.regex.Matcher.find: matches are tried left to right at every start index,
    a successful match resumes the search at its end, and group 1 is collected into a set.

      mention pattern  <@(U.+?)>     tag pattern  (#[^C]\w+)
 */
module TextExtractors {
  import opened Wrappers

  /** The line terminators of java.util.regex (no UNIX_LINES flag): `.` matches none of them. */
  predicate IsLineTerminator(c: char) {
    c == '\n' || c == '\r' || c == '\U{0085}' || c == '\U{2028}' || c == '\U{2029}'
  }

  /** `\w` without UNICODE_CHARACTER_CLASS: [a-zA-Z_0-9]. */
  predicate IsWordChar(c: char) {
    ('a' <= c <= 'z') || ('A' <= c <= 'Z') || ('0' <= c <= '9') || c == '_'
  }

  /** The two patterns the analyzer compiles. */
  datatype Pattern =
    | MentionPattern   // "<@(U.+?)>"
    | TagPattern       // "(#[^C]\\w+)"

  /** A successful match attempt: the text of group 1 and the index just past the whole match. */
  datatype Match = Match(group: string, end: nat)

  /** Where the lazy `.+?>` of a mention finishes when `.` is next asked to match text[j]:
      the first '>' at or after `j`, unless a line terminator comes first. */
  function ClosingAngle(text: string, j: nat): (r: Option<nat>)
    requires j <= |text|
    ensures r.Some? ==> j <= r.value < |text| && text[r.value] == '>'
    ensures r.Some? ==> forall x :: j <= x < r.value ==> text[x] != '>' && !IsLineTerminator(text[x])
    ensures r.None? ==> forall x :: j <= x < |text| && text[x] == '>' ==>
                          exists y :: j <= y < x && IsLineTerminator(text[y])
    decreases |text| - j
  {
    if j == |text| then None
    else if text[j] == '>' then Some(j)
    else if IsLineTerminator(text[j]) then None
    else ClosingAngle(text, j + 1)
  }

  /** The first '>' from `j` on, with no line terminator before it, is where ClosingAngle ends. */
  lemma {:induction false} ClosingAngleAt(text: string, j: nat, close: nat)
    requires j <= close < |text| && text[close] == '>'
    requires forall x :: j <= x < close ==> text[x] != '>' && !IsLineTerminator(text[x])
    ensures ClosingAngle(text, j) == Some(close)
    decreases close - j
  {
    if j < close {
      ClosingAngleAt(text, j + 1, close);
    }
  }

  /** The end of the run of word characters starting at `j` (greedy `\w*`). */
  function WordEnd(text: string, j: nat): (e: nat)
    requires j <= |text|
    ensures j <= e <= |text|
    ensures forall x :: j <= x < e ==> IsWordChar(text[x])
    ensures e == |text| || !IsWordChar(text[e])
    decreases |text| - j
  {
    if j < |text| && IsWordChar(text[j]) then WordEnd(text, j + 1) else j
  }

  /** A run of word characters from `j` that stops at `e` is where WordEnd ends. */
  lemma {:induction false} WordEndAt(text: string, j: nat, e: nat)
    requires j <= e <= |text|
    requires forall x :: j <= x < e ==> IsWordChar(text[x])
    requires e == |text| || !IsWordChar(text[e])
    ensures WordEnd(text, j) == e
    decreases e - j
  {
    if j < e {
      WordEndAt(text, j + 1, e);
    }
  }

  /** A mention token standing between "<@" at `i` and '>' passes MentionAt's guard, and its
      '>' is the one the lazy `.+?>` stops at. */
  lemma MentionTokenAt(text: string, i: nat, t: string)
    requires IsMentionToken(t) && MentionedAt(text, i + 2, t)
    ensures i + 3 < |text| && text[i] == '<' && text[i + 1] == '@' && text[i + 2] == 'U'
    ensures !IsLineTerminator(text[i + 3]) && text[i + 2..i + 2 + |t|] == t
    ensures ClosingAngle(text, i + 4) == Some(i + 2 + |t|)
  {
    assert forall x :: 0 <= x < |t| ==> text[i + 2 + x] == t[x];
    ClosingAngleAt(text, i + 4, i + 2 + |t|);
  }

  /** A maximal tag token standing at `i` passes TagAt's guard and fills the greedy `\w+`. */
  lemma TagTokenAt(text: string, i: nat, t: string)
    requires IsTagToken(t) && TaggedAt(text, i, t)
    ensures i + 2 < |text| && text[i] == '#' && text[i + 1] != 'C' && IsWordChar(text[i + 2])
    ensures WordEnd(text, i + 2) == i + |t|
  {
    assert forall x :: 0 <= x < |t| ==> text[i + x] == t[x];
    WordEndAt(text, i + 2, i + |t|);
  }

  /** An attempt to match `<@(U.+?)>` starting exactly at index `i`. `.+?` must take at least
      one character, which may itself be '>', before the closing '>' is looked for. */
  function MentionAt(text: string, i: nat): Option<Match>
    requires i <= |text|
  {
    if i + 3 < |text| && text[i] == '<' && text[i + 1] == '@' && text[i + 2] == 'U'
       && !IsLineTerminator(text[i + 3]) then
      match ClosingAngle(text, i + 4)
      case Some(close) => Some(Match(text[i + 2..close], close + 1))
      case None => None
    else None
  }

  /** An attempt to match `(#[^C]\w+)` starting exactly at index `i`. `[^C]` is any character
      but 'C' (space, '#' and line terminators included); `\w+` is greedy and needs one word
      character at least. */
  function TagAt(text: string, i: nat): Option<Match>
    requires i <= |text|
  {
    if i + 2 < |text| && text[i] == '#' && text[i + 1] != 'C' && IsWordChar(text[i + 2]) then
      var e := WordEnd(text, i + 2);
      Some(Match(text[i..e], e))
    else None
  }

  /** An attempt to match `pattern` starting exactly at index `i`; a match is never empty. */
  function MatchAt(pattern: Pattern, text: string, i: nat): (r: Option<Match>)
    requires i <= |text|
    ensures r.Some? ==> i < r.value.end <= |text|
  {
    match pattern
    case MentionPattern => MentionAt(text, i)
    case TagPattern => TagAt(text, i)
  }

  /** What a mention attempt at `i` means: a match is a mention token standing between the
      "<@" at `i` and a '>', and the whole match ends just past that '>'; conversely every
      such token is exactly what the attempt at `i` matches. */
  lemma MentionAtMatches(text: string, i: nat)
    requires i <= |text|
    ensures MentionAt(text, i).Some? ==>
              IsMentionToken(MentionAt(text, i).value.group)
              && MentionedAt(text, i + 2, MentionAt(text, i).value.group)
              && MentionAt(text, i).value.end == i + |MentionAt(text, i).value.group| + 3
    ensures forall t {:trigger MentionedAt(text, i + 2, t)} :: IsMentionToken(t) && MentionedAt(text, i + 2, t) ==>
              MentionAt(text, i) == Some(Match(t, i + |t| + 3))
  {
    forall t | IsMentionToken(t) && MentionedAt(text, i + 2, t)
      ensures MentionAt(text, i) == Some(Match(t, i + |t| + 3))
    {
      MentionTokenAt(text, i, t);
    }
  }

  /** What a tag attempt at `i` means: a match is a maximal tag token standing at `i`, and no
      match means that no tag token at all starts at `i`; conversely every maximal tag token
      at `i` is exactly what the attempt matches. */
  lemma TagAtMatches(text: string, i: nat)
    requires i <= |text|
    ensures TagAt(text, i).Some? ==>
              IsTagToken(TagAt(text, i).value.group) && TaggedAt(text, i, TagAt(text, i).value.group)
              && TagAt(text, i).value.end == i + |TagAt(text, i).value.group|
    ensures TagAt(text, i).None? ==> forall e :: i + 3 <= e <= |text| ==> !IsTagToken(text[i..e])
    ensures forall t {:trigger TaggedAt(text, i, t)} :: IsTagToken(t) && TaggedAt(text, i, t) ==>
              TagAt(text, i) == Some(Match(t, i + |t|))
  {
    forall t | IsTagToken(t) && TaggedAt(text, i, t)
      ensures TagAt(text, i) == Some(Match(t, i + |t|))
    {
      TagTokenAt(text, i, t);
    }
  }

  /** The groups that successive calls of Matcher.find report, searching from index `from`. */
  function Scan(pattern: Pattern, text: string, from: nat): (r: seq<string>)
    requires from <= |text|
    ensures |r| <= |text| - from
    decreases |text| - from
  {
    if from == |text| then []
    else match MatchAt(pattern, text, from)
      case Some(m) => [m.group] + Scan(pattern, text, m.end)
      case None => Scan(pattern, text, from + 1)
  }

  /** The set extractByRegex builds for `pattern` over `text`. */
  function Extracted(pattern: Pattern, text: string): (r: set<string>)
    ensures forall t :: t in r ==> exists i :: 0 <= i < |text| && MatchAt(pattern, text, i).Some?
                                              && MatchAt(pattern, text, i).value.group == t
  {
    ScanGroups(pattern, text, 0);
    set t | t in Scan(pattern, text, 0)
  }

  /** `found` is what Matcher.find reports searching from `from`: no match when no index from
      there on starts one, otherwise the leftmost match with its start index. */
  predicate Leftmost(pattern: Pattern, text: string, from: nat, found: Option<(nat, Match)>)
    requires from <= |text|
  {
    match found
    case None => forall i :: from <= i < |text| ==> MatchAt(pattern, text, i).None?
    case Some((start, m)) =>
      from <= start < |text| && MatchAt(pattern, text, start) == Some(m)
      && forall i :: from <= i < start ==> MatchAt(pattern, text, i).None?
  }

  /** Matcher.find: the leftmost match at or after `from`, with its start index. */
  method Find(pattern: Pattern, text: string, from: nat) returns (found: Option<(nat, Match)>)
    requires from <= |text|
    ensures Leftmost(pattern, text, from, found)
  {
    var i := from;
    while i < |text|
      invariant from <= i <= |text|
      invariant forall x :: from <= x < i ==> MatchAt(pattern, text, x).None?
    {
      var attempt := MatchAt(pattern, text, i);
      if attempt.Some? {
        return Some((i, attempt.value));
      }
      i := i + 1;
    }
    return None;
  }

  /** extractByRegex: collect group 1 of every match into a set. */
  method ExtractByRegex(text: string, pattern: Pattern) returns (results: set<string>)
    ensures results == Extracted(pattern, text)
  {
    results := {};
    var from := 0;
    var found := Find(pattern, text, from);
    while found.Some?
      invariant from <= |text|
      invariant results + (set t | t in Scan(pattern, text, from)) == Extracted(pattern, text)
      invariant Leftmost(pattern, text, from, found)
      decreases |text| - from
    {
      var m := found.value.1;
      ScanFound(pattern, text, from, found);
      results := results + {m.group};
      from := m.end;
      found := Find(pattern, text, from);
    }
    ScanFound(pattern, text, from, found);
  }

  /** extractMentionedUsers. */
  method ExtractMentionedUsers(text: string) returns (users: set<string>)
    ensures users == Extracted(MentionPattern, text)
    ensures forall u :: u in users ==> IsMentionToken(u) && exists i :: MentionedAt(text, i, u)
  {
    users := ExtractByRegex(text, MentionPattern);
    MentionsWellFormed(text);
  }

  /** extractTags. */
  method ExtractTags(text: string) returns (tags: set<string>)
    ensures tags == Extracted(TagPattern, text)
    ensures forall t :: t in tags ==> IsTagToken(t) && exists i :: TaggedAt(text, i, t)
  {
    tags := ExtractByRegex(text, TagPattern);
    TagsWellFormed(text);
  }

  /** Without a match at any index in [from, to), the scan from `from` is the scan from `to`. */
  lemma {:induction false} ScanSkips(pattern: Pattern, text: string, from: nat, to: nat)
    requires from <= to <= |text|
    requires forall i :: from <= i < to ==> MatchAt(pattern, text, i).None?
    ensures Scan(pattern, text, from) == Scan(pattern, text, to)
    decreases |text| - from
  {
    if from < to {
      ScanSkips(pattern, text, from + 1, to);
    }
  }

  /** The scan from `from` is empty when find reports nothing; otherwise it reports the
      leftmost match, then resumes at its end. */
  lemma ScanFound(pattern: Pattern, text: string, from: nat, found: Option<(nat, Match)>)
    requires from <= |text| && Leftmost(pattern, text, from, found)
    ensures found.None? ==> Scan(pattern, text, from) == []
    ensures found.Some? ==> from < found.value.1.end <= |text|
    ensures found.Some? ==> Scan(pattern, text, from) == [found.value.1.group] + Scan(pattern, text, found.value.1.end)
  {
    match found
    case None =>
      ScanSkips(pattern, text, from, |text|);
    case Some((start, m)) =>
      ScanSkips(pattern, text, from, start);
  }

  /** The scan finds nothing exactly when no index starts a match. */
  lemma {:induction false} ScanEmptyIff(pattern: Pattern, text: string, from: nat)
    requires from <= |text|
    ensures Scan(pattern, text, from) == [] <==> forall i :: from <= i < |text| ==> MatchAt(pattern, text, i).None?
    decreases |text| - from
  {
    if from < |text| {
      ScanEmptyIff(pattern, text, from + 1);
    }
  }

  /** The extractors return the empty set exactly when the pattern matches nowhere. */
  lemma ExtractedEmptyIff(pattern: Pattern, text: string)
    ensures Extracted(pattern, text) == {} <==> forall i :: 0 <= i < |text| ==> MatchAt(pattern, text, i).None?
  {
    ScanEmptyIff(pattern, text, 0);
    var s := Scan(pattern, text, 0);
    if s != [] {
      assert s[0] in Extracted(pattern, text);
    }
  }

  /** The shape of a mention token: a 'U', then characters without a line terminator; from its
      third character on it holds no '>' (the second may be '>', as in `<@U>>`). */
  predicate IsMentionToken(t: string) {
    |t| >= 2 && t[0] == 'U'
    && (forall x :: 0 <= x < |t| ==> !IsLineTerminator(t[x]))
    && (forall x :: 2 <= x < |t| ==> t[x] != '>')
  }

  /** `t` stands at index `i` of `text` between a "<@" and a '>'. */
  predicate MentionedAt(text: string, i: int, t: string) {
    2 <= i && i + |t| < |text| && text[i - 2] == '<' && text[i - 1] == '@'
    && text[i..i + |t|] == t && text[i + |t|] == '>'
  }

  /** The shape of a tag token: '#', a character other than 'C', then word characters. */
  predicate IsTagToken(t: string) {
    |t| >= 3 && t[0] == '#' && t[1] != 'C' && forall x :: 2 <= x < |t| ==> IsWordChar(t[x])
  }

  /** `t` stands at index `i` of `text`, and no word character follows it (greedy `\w+`). */
  predicate TaggedAt(text: string, i: int, t: string) {
    0 <= i && i + |t| <= |text| && text[i..i + |t|] == t
    && (i + |t| == |text| || !IsWordChar(text[i + |t|]))
  }

  /** Every group the scan reports is the group of a match attempt at some index from `from` on. */
  lemma {:induction false} ScanGroups(pattern: Pattern, text: string, from: nat)
    requires from <= |text|
    ensures forall t :: t in Scan(pattern, text, from) ==>
              exists i :: from <= i < |text| && MatchAt(pattern, text, i).Some?
                          && MatchAt(pattern, text, i).value.group == t
    decreases |text| - from
  {
    if from < |text| {
      match MatchAt(pattern, text, from)
      case None =>
        ScanGroups(pattern, text, from + 1);
      case Some(m) =>
        ScanGroups(pattern, text, m.end);
    }
  }

  /** Every extracted mention is a well-formed token taken from between "<@" and '>'. */
  lemma MentionsWellFormed(text: string)
    ensures forall u :: u in Extracted(MentionPattern, text) ==> IsMentionToken(u) && exists i :: MentionedAt(text, i, u)
  {
    forall u | u in Extracted(MentionPattern, text)
      ensures IsMentionToken(u) && exists i :: MentionedAt(text, i, u)
    {
      var i :| 0 <= i < |text| && MatchAt(MentionPattern, text, i).Some?
               && MatchAt(MentionPattern, text, i).value.group == u;
      MentionAtMatches(text, i);
      assert MentionedAt(text, i + 2, u);
    }
  }

  /** Every extracted tag is a well-formed, maximal tag token of the text; in particular no
      channel reference `#C...` is ever a tag. */
  lemma TagsWellFormed(text: string)
    ensures forall t :: t in Extracted(TagPattern, text) ==> IsTagToken(t) && exists i :: TaggedAt(text, i, t)
  {
    forall t | t in Extracted(TagPattern, text)
      ensures IsTagToken(t) && exists i :: TaggedAt(text, i, t)
    {
      var i :| 0 <= i < |text| && MatchAt(TagPattern, text, i).Some?
               && MatchAt(TagPattern, text, i).value.group == t;
      TagAtMatches(text, i);
      assert TaggedAt(text, i, t);
    }
  }
}
