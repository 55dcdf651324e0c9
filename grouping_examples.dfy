/** A worked instance of the poster grouping. */
module GroupingExamples {
  import opened Wrappers
  import opened SlackModel
  import opened Grouping

  /** The analyzer test's posting example: one message by one user and three by another give
      the groups [m1] and [m2, m3, m4]. */
  lemma PostingExample(m1: Message, m2: Message, m3: Message, m4: Message, a: Option<string>, b: Option<string>)
    requires m1.user == a && m2.user == b && m3.user == b && m4.user == b && a != b
    ensures Groups([m1, m2, m3, m4], PosterKey) == map[a := [m1], b := [m2, m3, m4]]
  {
    var s := [m1, m2, m3, m4];
    assert s[..3] == [m1, m2, m3];
    assert [m1, m2, m3][..2] == [m1, m2];
    assert [m1, m2][..1] == [m1];
    assert [m1][..0] == [];
    assert AllKeys([m1], PosterKey) == {a};
    assert AllKeys([m1, m2], PosterKey) == {a, b};
    assert AllKeys([m1, m2, m3], PosterKey) == {a, b};
    assert AllKeys(s, PosterKey) == {a, b};
    assert Select([m1], PosterKey, a) == [m1];
    assert Select([m1, m2], PosterKey, a) == [m1];
    assert Select([m1, m2, m3], PosterKey, a) == [m1];
    assert Select(s, PosterKey, a) == [m1];
    assert Select([m1], PosterKey, b) == [];
    assert Select([m1, m2], PosterKey, b) == [m2];
    assert Select([m1, m2, m3], PosterKey, b) == [m2, m3];
    assert Select(s, PosterKey, b) == [m2, m3, m4];
  }
}
