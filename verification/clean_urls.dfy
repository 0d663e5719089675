/** The URL-cleaning pass `cleanUrls` (index.ts:107-133): one left-to-right
    pass over the extracted URLs that builds the list `cleaned`.
    - A URL whose host name does not contain "discord" is appended unless the
      very same string is already in `cleaned`.
    - A URL whose host name contains "discord" replaces, in place, every
      entry of `cleaned` that is a substring of it, and is otherwise dropped.

    Host-name extraction is the WHATWG URL parser, which this model does not
    reimplement: it is the parameter `hostOf`, with `None` for a URL the
    parser rejects (the constructor throws). */
module Cleaner {
  import opened Strings

  /** The host test of index.ts:113: the host name contains "discord". */
  function IsDiscordHost(hostname: string): (discord: bool)
    ensures discord ==> |hostname| >= 7
    ensures |hostname| >= 7 && hostname[..7] == "discord" ==> discord
  {
    assert |hostname| >= 7 ==> OccursAt(hostname, hostname[..7], 0);
    Contains(hostname, "discord")
  }

  /** The host test of index.ts:111-113 as a classification of URL strings:
      a URL counts as "discord" when it parses and its host name passes
      `IsDiscordHost`. */
  function Classifier(hostOf: string -> Option<string>): string -> bool
  {
    url => hostOf(url).Some? && IsDiscordHost(hostOf(url).value)
  }

  /** Every URL of the list parses. */
  predicate AllParse(urls: seq<string>, hostOf: string -> Option<string>)
  {
    forall k :: 0 <= k < |urls| ==> hostOf(urls[k]).Some?
  }

  /** Reference reading of the inner loop (index.ts:121-127): each entry that
      `url` contains becomes `url`, every other entry stays where it is. */
  function ReplaceContained(cleaned: seq<string>, url: string): (r: seq<string>)
    ensures |r| == |cleaned|
    ensures forall k :: 0 <= k < |r| ==> r[k] == cleaned[k] || r[k] == url
    ensures forall k :: 0 <= k < |r| ==> Contains(r[k], cleaned[k])
  {
    seq(|cleaned|, k requires 0 <= k < |cleaned| =>
      if Contains(url, cleaned[k]) then url else cleaned[k])
  }

  /** One iteration of the outer loop, for a URL already classified. */
  function Step(cleaned: seq<string>, url: string, discord: bool): (r: seq<string>)
    ensures forall x :: x in r ==> x in cleaned || x == url
    ensures !discord && url in cleaned ==> r == cleaned
    ensures !discord && url !in cleaned ==> r == cleaned + [url]
    ensures discord ==> |r| == |cleaned|
    ensures discord ==> forall k :: 0 <= k < |r| ==>
      (Contains(url, cleaned[k]) ==> r[k] == url) &&
      (!Contains(url, cleaned[k]) ==> r[k] == cleaned[k])
    ensures discord && (forall k :: 0 <= k < |cleaned| ==> !Contains(url, cleaned[k])) ==> r == cleaned
  {
    if !discord then
      if url in cleaned then cleaned else cleaned + [url]
    else
      ReplaceContained(cleaned, url)
  }

  /** How many URLs of the list the classification calls non-"discord". */
  function NonDiscordCount(urls: seq<string>, isDiscord: string -> bool): (n: nat)
    ensures n <= |urls|
  {
    if |urls| == 0 then 0
    else
      NonDiscordCount(urls[..|urls| - 1], isDiscord)
        + (if isDiscord(urls[|urls| - 1]) then 0 else 1)
  }

  /** The outer loop as a left fold: `cleaned` after the whole list is one
      `Step` past `cleaned` after all but its last URL. */
  function Fold(urls: seq<string>, isDiscord: string -> bool): (cleaned: seq<string>)
    ensures |cleaned| <= NonDiscordCount(urls, isDiscord)
    ensures forall x :: x in cleaned ==> x in urls
  {
    if |urls| == 0 then []
    else
      var last := urls[|urls| - 1];
      var before := Fold(urls[..|urls| - 1], isDiscord);
      assert forall x :: x in urls[..|urls| - 1] ==> x in urls;
      Step(before, last, isDiscord(last))
  }

  /** No string the classification calls non-"discord" occurs twice. */
  predicate NonDiscordDistinct(cleaned: seq<string>, isDiscord: string -> bool)
  {
    forall i, j :: 0 <= i < j < |cleaned| && cleaned[i] == cleaned[j] ==> isDiscord(cleaned[i])
  }

  /** One step keeps non-"discord" entries distinct: a push happens only when
      the URL is absent, and a replacement only writes a "discord" URL. */
  lemma StepKeepsNonDiscordDistinct(cleaned: seq<string>, url: string, isDiscord: string -> bool)
    requires NonDiscordDistinct(cleaned, isDiscord)
    ensures NonDiscordDistinct(Step(cleaned, url, isDiscord(url)), isDiscord)
  {
  }

  /** The whole pass never produces a repeated non-"discord" URL. */
  lemma {:induction false} FoldNonDiscordDistinct(urls: seq<string>, isDiscord: string -> bool)
    ensures NonDiscordDistinct(Fold(urls, isDiscord), isDiscord)
  {
    if |urls| > 0 {
      FoldNonDiscordDistinct(urls[..|urls| - 1], isDiscord);
      StepKeepsNonDiscordDistinct(Fold(urls[..|urls| - 1], isDiscord), urls[|urls| - 1], isDiscord);
    }
  }

  /** `cleanUrls` (index.ts:107-133) up to the write of `cleaned.txt`, whose
      content is `UrlCache.Join(cleaned, '\n')`. The pass throws at the first
      URL that does not parse and then writes nothing: `None`. */
  function CleanUrls(urls: seq<string>, hostOf: string -> Option<string>): (r: Option<seq<string>>)
    ensures r.Some? <==> AllParse(urls, hostOf)
    ensures r.Some? ==> |r.value| <= NonDiscordCount(urls, Classifier(hostOf)) <= |urls|
    ensures r.Some? ==> forall x :: x in r.value ==> x in urls
    ensures r.Some? ==> NonDiscordDistinct(r.value, Classifier(hostOf))
  {
    if AllParse(urls, hostOf) then
      FoldNonDiscordDistinct(urls, Classifier(hostOf));
      Some(Fold(urls, Classifier(hostOf)))
    else
      None
  }

  /** `arr.indexOf(x)`: the first index holding `x`, or -1. */
  function IndexOf<T(==)>(s: seq<T>, x: T): (k: int)
    ensures -1 <= k < |s|
    ensures k == -1 <==> x !in s
    ensures 0 <= k ==> s[k] == x && forall m :: 0 <= m < k ==> s[m] != x
  {
    if |s| == 0 then -1
    else if s[0] == x then 0
    else
      var k := IndexOf(s[1..], x);
      if k == -1 then -1 else k + 1
  }

  /** `arr.splice(j, 1, x)` for an index inside the array: the entry at `j`
      becomes `x`, and the length and every other entry stay as they were. */
  function Splice<T>(s: seq<T>, j: nat, x: T): (r: seq<T>)
    requires j < |s|
    ensures |r| == |s| && r[j] == x
    ensures forall k :: 0 <= k < |s| && k != j ==> r[k] == s[k]
  {
    s[..j] + [x] + s[j + 1..]
  }

  /** The inner loop as written (index.ts:121-127): it walks `cleaned` by
      index while splicing into it, and each splice writes at the FIRST
      index holding the entry just read. That index is an earlier one only
      when the entry already equals `url`, where the splice changes nothing,
      so the loop computes `ReplaceContained`. */
  method ReplaceBySplice(cleaned: seq<string>, url: string) returns (r: seq<string>)
    ensures r == ReplaceContained(cleaned, url)
  {
    r := cleaned;
    var i := 0;
    while i < |r|
      invariant 0 <= i <= |r| == |cleaned|
      invariant forall k :: 0 <= k < i ==>
        r[k] == (if Contains(url, cleaned[k]) then url else cleaned[k])
      invariant forall k :: i <= k < |r| ==> r[k] == cleaned[k]
    {
      var existing := r[i];
      if Contains(url, existing) {
        var j := IndexOf(r, existing);
        if j < i {
          assert r[j] == url;
        }
        r := Splice(r, j, url);
      }
      i := i + 1;
    }
  }
}
