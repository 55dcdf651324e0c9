/** The extractors on sample messages and on the regex quirks the model
    keeps: each lemma computes a scan step by step. */
module ExtractorExamples {
  import opened TextExtractors
  import opened Wrappers

  const TagText := "See #general #C123 #promo"

  lemma TagScenarioGap()
    ensures Scan(TagPattern, TagText, 12) == Scan(TagPattern, TagText, 19)
  {
    TagScenarioGapStart();
    TagScenarioGapEnd();
  }

  lemma TagScenarioGapStart()
    ensures Scan(TagPattern, TagText, 12) == Scan(TagPattern, TagText, 16)
  {
    var t := TagText;
    assert t[12] == ' ' && t[13] == '#' && t[14] == 'C' && t[15] == '1';
    assert MatchAt(TagPattern, t, 12).None?;
    assert MatchAt(TagPattern, t, 13).None?;
    assert MatchAt(TagPattern, t, 14).None?;
    assert MatchAt(TagPattern, t, 15).None?;
    ScanSkips(TagPattern, t, 12, 16);
  }

  lemma TagScenarioGapEnd()
    ensures Scan(TagPattern, TagText, 16) == Scan(TagPattern, TagText, 19)
  {
    var t := TagText;
    assert t[16] == '2' && t[17] == '3' && t[18] == ' ';
    assert MatchAt(TagPattern, t, 16).None?;
    assert MatchAt(TagPattern, t, 17).None?;
    assert MatchAt(TagPattern, t, 18).None?;
    ScanSkips(TagPattern, t, 16, 19);
  }

  lemma TagScenarioLead()
    ensures Scan(TagPattern, TagText, 0) == Scan(TagPattern, TagText, 4)
  {
    var t := TagText;
    assert t[0] == 'S' && t[1] == 'e' && t[2] == 'e' && t[3] == ' ';
    assert MatchAt(TagPattern, t, 0).None?;
    assert MatchAt(TagPattern, t, 1).None?;
    assert MatchAt(TagPattern, t, 2).None?;
    assert MatchAt(TagPattern, t, 3).None?;
    ScanSkips(TagPattern, t, 0, 4);
  }

  lemma TagScenarioFirst()
    ensures Scan(TagPattern, TagText, 4) == ["#general"] + Scan(TagPattern, TagText, 12)
  {
    var t := TagText;
    assert WordEnd(t, 6) == 12 && t[4..12] == "#general";
    assert MatchAt(TagPattern, t, 4) == Some(Match("#general", 12));
  }

  lemma TagScenarioLast()
    ensures Scan(TagPattern, TagText, 19) == ["#promo"]
  {
    var t := TagText;
    assert WordEnd(t, 21) == 25 && t[19..25] == "#promo";
    assert MatchAt(TagPattern, t, 19) == Some(Match("#promo", 25));
  }

  lemma TagScenarioScan()
    ensures Scan(TagPattern, TagText, 0) == ["#general", "#promo"]
  {
    TagScenarioLead();
    TagScenarioFirst();
    TagScenarioGap();
    TagScenarioLast();
  }

  /** Two tags and a channel reference: the channel reference `#C123` is not a tag. */
  lemma TagScenario()
    ensures Extracted(TagPattern, TagText) == {"#general", "#promo"}
  {
    TagScenarioScan();
    var s := Scan(TagPattern, TagText, 0);
    assert s[0] == "#general" && s[1] == "#promo" && |s| == 2;
  }
  const MentionText := "Hi <@U1> and <@U2>"

  lemma MentionScenarioLead()
    ensures Scan(MentionPattern, MentionText, 0) == Scan(MentionPattern, MentionText, 3)
  {
    var t := MentionText;
    assert MatchAt(MentionPattern, t, 0).None? && MatchAt(MentionPattern, t, 1).None?;
    assert MatchAt(MentionPattern, t, 2).None?;
    ScanSkips(MentionPattern, t, 0, 3);
  }

  lemma MentionScenarioFirst()
    ensures Scan(MentionPattern, MentionText, 3) == ["U1"] + Scan(MentionPattern, MentionText, 8)
  {
    var t := MentionText;
    assert ClosingAngle(t, 7) == Some(7) && t[5..7] == "U1";
    assert MatchAt(MentionPattern, t, 3) == Some(Match("U1", 8));
  }

  lemma MentionScenarioGap()
    ensures Scan(MentionPattern, MentionText, 8) == Scan(MentionPattern, MentionText, 13)
  {
    var t := MentionText;
    assert MatchAt(MentionPattern, t, 8).None? && MatchAt(MentionPattern, t, 9).None?;
    assert MatchAt(MentionPattern, t, 10).None? && MatchAt(MentionPattern, t, 11).None?;
    assert MatchAt(MentionPattern, t, 12).None?;
    ScanSkips(MentionPattern, t, 8, 13);
  }

  lemma MentionScenarioLast()
    ensures Scan(MentionPattern, MentionText, 13) == ["U2"]
  {
    var t := MentionText;
    assert ClosingAngle(t, 17) == Some(17) && t[15..17] == "U2";
    assert MatchAt(MentionPattern, t, 13) == Some(Match("U2", 18));
  }

  /** Two users mentioned in one message. */
  lemma MentionScenario()
    ensures Extracted(MentionPattern, MentionText) == {"U1", "U2"}
  {
    MentionScenarioLead();
    MentionScenarioFirst();
    MentionScenarioGap();
    MentionScenarioLast();
    assert Scan(MentionPattern, MentionText, 0) == ["U1", "U2"];
  }

  /** A user mentioned twice in one message is extracted once. */
  lemma RepeatedMention()
    ensures Extracted(MentionPattern, "<@U1> <@U1>") == {"U1"}
  {
    var t := "<@U1> <@U1>";
    assert ClosingAngle(t, 4) == Some(4) && t[2..4] == "U1";
    assert MatchAt(MentionPattern, t, 0) == Some(Match("U1", 5));
    assert MatchAt(MentionPattern, t, 5).None?;
    assert ClosingAngle(t, 10) == Some(10) && t[8..10] == "U1";
    assert MatchAt(MentionPattern, t, 6) == Some(Match("U1", 11));
    assert Scan(MentionPattern, t, 6) == ["U1"];
    assert Scan(MentionPattern, t, 0) == ["U1", "U1"];
  }

  /** `[^C]` accepts a space: "# ab" is one tag. */
  lemma TagAcceptsSpace()
    ensures Extracted(TagPattern, "# ab") == {"# ab"}
  {
    assert WordEnd("# ab", 2) == 4 && "# ab"[0..4] == "# ab";
    assert Scan(TagPattern, "# ab", 0) == ["# ab"];
  }

  /** A one-letter tag is not a tag: `\w+` needs a character after the one `[^C]` takes. */
  lemma TagTooShort()
    ensures Extracted(TagPattern, "#a b") == {}
  {
    ExtractedEmptyIff(TagPattern, "#a b");
  }

  /** A channel reference is not a tag. */
  lemma ChannelNotTag()
    ensures Extracted(TagPattern, "#Ctwo") == {}
  {
    ExtractedEmptyIff(TagPattern, "#Ctwo");
  }

  /** A digit followed by ':' is not a tag: ':' is not a word character. */
  lemma TagNeedsWordChar()
    ensures Extracted(TagPattern, "#1:") == {}
  {
    ExtractedEmptyIff(TagPattern, "#1:");
  }

  /** A mention cannot span lines. */
  lemma MentionSingleLine()
    ensures Extracted(MentionPattern, "<@U1\n>") == {}
  {
    ExtractedEmptyIff(MentionPattern, "<@U1\n>");
  }

  /** The lazy `.+?` of a mention may take a '>' as its first character. */
  lemma MentionLazyAngle()
    ensures Extracted(MentionPattern, "<@U>>") == {"U>"}
  {
    assert ClosingAngle("<@U>>", 4) == Some(4) && "<@U>>"[2..4] == "U>";
    assert Scan(MentionPattern, "<@U>>", 0) == ["U>"];
  }
}
