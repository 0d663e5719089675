/** The corrected cleaning pass. As written, `cleanUrls` drops a "discord"
    URL that contains no earlier entry (index.ts:121-127); the corrected
    step appends it instead, and then no extracted URL is ever lost: each
    one ends up inside some entry of the result. */
module IntendedCleaner {
  import opened Strings
  import opened Cleaner

  /** Every URL of `urls` is a substring of some entry of `cleaned`: nothing
      extracted is lost, only absorbed into a longer URL. */
  predicate Covers(cleaned: seq<string>, urls: seq<string>)
  {
    forall k :: 0 <= k < |urls| ==> exists m :: 0 <= m < |cleaned| && Contains(cleaned[m], urls[k])
  }

  /** The evidently intended step: a "discord" URL that contains no entry is
      appended instead of dropped; everything else is as written. */
  function IntendedStep(cleaned: seq<string>, url: string, discord: bool): (r: seq<string>)
    ensures |r| <= |cleaned| + 1
    ensures forall x :: x in r ==> x in cleaned || x == url
    ensures url in r
  {
    if discord && forall k :: 0 <= k < |cleaned| ==> !Contains(url, cleaned[k]) then
      cleaned + [url]
    else
      if discord then
        var k :| 0 <= k < |cleaned| && Contains(url, cleaned[k]);
        assert Step(cleaned, url, discord)[k] == url;
        Step(cleaned, url, discord)
      else
        Step(cleaned, url, discord)
  }

  /** The intended pass as a left fold. */
  function IntendedFold(urls: seq<string>, isDiscord: string -> bool): (cleaned: seq<string>)
    ensures |cleaned| <= |urls|
    ensures forall x :: x in cleaned ==> x in urls
  {
    if |urls| == 0 then []
    else
      var last := urls[|urls| - 1];
      assert forall x :: x in urls[..|urls| - 1] ==> x in urls;
      IntendedStep(IntendedFold(urls[..|urls| - 1], isDiscord), last, isDiscord(last))
  }

  /** The intended pass, with the same parse failure as `CleanUrls`. */
  function IntendedCleanUrls(urls: seq<string>, hostOf: string -> Option<string>): (r: Option<seq<string>>)
    ensures r.Some? <==> AllParse(urls, hostOf)
    ensures r.Some? ==> |r.value| <= |urls| && forall x :: x in r.value ==> x in urls
  {
    if AllParse(urls, hostOf) then Some(IntendedFold(urls, Classifier(hostOf))) else None
  }

  /** One intended step keeps every earlier URL covered and covers the new one. */
  lemma IntendedStepCovers(cleaned: seq<string>, done: seq<string>, url: string, discord: bool)
    requires Covers(cleaned, done)
    ensures Covers(IntendedStep(cleaned, url, discord), done + [url])
  {
    var r := IntendedStep(cleaned, url, discord);
    var urls := done + [url];
    forall k | 0 <= k < |urls|
      ensures exists m :: 0 <= m < |r| && Contains(r[m], urls[k])
    {
      if k == |done| {
        var m :| 0 <= m < |r| && r[m] == url;
        assert Contains(r[m], urls[k]);
      } else {
        var m :| 0 <= m < |cleaned| && Contains(cleaned[m], done[k]);
        if r[m] != cleaned[m] {
          ContainsTransitive(url, cleaned[m], done[k]);
        }
        assert Contains(r[m], urls[k]);
      }
    }
  }

  /** The intended pass loses no URL: each one ends up inside some entry. */
  lemma {:induction false} IntendedFoldCovers(urls: seq<string>, isDiscord: string -> bool)
    ensures Covers(IntendedFold(urls, isDiscord), urls)
  {
    if |urls| > 0 {
      var before := urls[..|urls| - 1];
      IntendedFoldCovers(before, isDiscord);
      IntendedStepCovers(IntendedFold(before, isDiscord), before, urls[|urls| - 1], isDiscord(urls[|urls| - 1]));
      assert before + [urls[|urls| - 1]] == urls;
    }
  }
}
