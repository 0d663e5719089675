/** An illustrative input for the cleaning pass, run through the pass as
    written and through the corrected pass. */
module CleanerExamples {
  import opened Strings
  import opened Cleaner
  import opened IntendedCleaner

  /** An illustrative extracted list. */
  const ExampleUrls: seq<string> :=
    ["http://a.com/x", "https://discord.com/invite/abc", "https://discord.com/invite/abc123"]

  /** The host names the URL parser gives the example's URLs. */
  function ExampleHost(url: string): Option<string>
  {
    if url == "http://a.com/x" then Some("a.com") else Some("discord.com")
  }

  /** Neither "discord" URL of the example contains the first URL: it has an
      'x', they do not. */
  lemma ExampleNotContained(url: string)
    requires url == ExampleUrls[1] || url == ExampleUrls[2]
    ensures !Contains(url, ExampleUrls[0])
  {
    if Contains(url, ExampleUrls[0]) {
      ContainsChars(url, ExampleUrls[0], 13);
      assert false;
    }
  }

  /** The classification the example's parser induces. */
  lemma ExampleClassified()
    ensures !Classifier(ExampleHost)(ExampleUrls[0])
    ensures Classifier(ExampleHost)(ExampleUrls[1])
    ensures Classifier(ExampleHost)(ExampleUrls[2])
  {
    assert ExampleHost(ExampleUrls[0]) == Some("a.com") && !IsDiscordHost("a.com");
    assert "discord.com"[..7] == "discord" && IsDiscordHost("discord.com");
    assert |ExampleUrls[1]| != |ExampleUrls[0]| && |ExampleUrls[2]| != |ExampleUrls[0]|;
    assert ExampleHost(ExampleUrls[1]) == ExampleHost(ExampleUrls[2]) == Some("discord.com");
  }

  /** The pass as written drops both "discord" URLs of the example: neither
      contains the only entry, so neither replaces anything. */
  lemma {:induction false} ExampleAsWritten()
    ensures CleanUrls(ExampleUrls, ExampleHost) == Some(["http://a.com/x"])
  {
    var isDiscord := Classifier(ExampleHost);
    ExampleClassified();
    assert AllParse(ExampleUrls, ExampleHost);
    assert ExampleUrls[..0] == [];
    assert ExampleUrls[..1][..0] == [];
    assert ExampleUrls[..2][..1] == ExampleUrls[..1];
    assert ExampleUrls[..3] == ExampleUrls;
    var c1 := Fold(ExampleUrls[..1], isDiscord);
    assert c1 == [ExampleUrls[0]];
    ExampleNotContained(ExampleUrls[1]);
    var c2 := Fold(ExampleUrls[..2], isDiscord);
    assert c2 == Step(c1, ExampleUrls[1], true) == c1;
    ExampleNotContained(ExampleUrls[2]);
    assert Fold(ExampleUrls, isDiscord) == Step(c2, ExampleUrls[2], true) == c1;
  }

  /** One "discord" URL replaces every entry it contains, which leaves the
      same URL in several places. */
  lemma OneUrlReplacesSeveral()
    ensures Step(["ab", "cd"], "abcd", true) == ["abcd", "abcd"]
  {
    assert OccursAt("abcd", "ab", 0);
    assert OccursAt("abcd", "cd", 2);
  }

  /** The pass as written loses the example's "discord" URLs. */
  lemma ExampleLosesDiscordUrls()
    ensures CleanUrls(ExampleUrls, ExampleHost).Some?
    ensures !Covers(CleanUrls(ExampleUrls, ExampleHost).value, ExampleUrls)
  {
    ExampleAsWritten();
    var cleaned := CleanUrls(ExampleUrls, ExampleHost).value;
    assert !Contains(cleaned[0], ExampleUrls[2]);
    assert !exists m :: 0 <= m < |cleaned| && Contains(cleaned[m], ExampleUrls[2]);
  }

  /** On the illustrative input the intended pass keeps the longer invite URL in
      place of the shorter one. */
  lemma {:induction false} ExampleIntended()
    ensures IntendedCleanUrls(ExampleUrls, ExampleHost)
      == Some(["http://a.com/x", "https://discord.com/invite/abc123"])
  {
    var isDiscord := Classifier(ExampleHost);
    ExampleClassified();
    assert AllParse(ExampleUrls, ExampleHost);
    assert ExampleUrls[..1][..0] == [];
    assert ExampleUrls[..2][..1] == ExampleUrls[..1];
    assert ExampleUrls[..3] == ExampleUrls;
    var c1 := IntendedFold(ExampleUrls[..1], isDiscord);
    assert c1 == [ExampleUrls[0]];
    ExampleNotContained(ExampleUrls[1]);
    var c2 := IntendedFold(ExampleUrls[..2], isDiscord);
    assert c2 == [ExampleUrls[0], ExampleUrls[1]];
    ExampleNotContained(ExampleUrls[2]);
    assert OccursAt(ExampleUrls[2], ExampleUrls[1], 0);
    var r := IntendedStep(c2, ExampleUrls[2], true);
    assert r == Step(c2, ExampleUrls[2], true);
    assert r == [ExampleUrls[0], ExampleUrls[2]];
  }
}
