/** The newline-delimited `urls.txt` cache of `getUrls` (index.ts:89-105):
    the extracted list is written as `urls.join('\n')` and read back as
    `content.split('\n')`. */
module UrlCache {
  import opened Strings

  /** The separator the cache file uses between URLs. */
  const Newline: char := '\n'

  /** `lines.join(sep)`: the lines with one `sep` between neighbours;
      the empty list joins to the empty string. */
  function Join(lines: seq<string>, sep: char): (s: string)
    ensures (forall k :: 0 <= k < |lines| ==> sep !in lines[k]) ==>
      Count(s, sep) == if |lines| == 0 then 0 else |lines| - 1
  {
    if |lines| == 0 then ""
    else if |lines| == 1 then lines[0]
    else
      var rest := Join(lines[1..], sep);
      CountConcat(lines[0] + [sep], rest, sep);
      CountConcat(lines[0], [sep], sep);
      lines[0] + [sep] + rest
  }

  /** `s.split(sep)` for a one-character separator: the maximal runs between
      separators, so `n` separators give `n + 1` parts and the empty string
      gives one empty part. */
  function Split(s: string, sep: char): (parts: seq<string>)
    ensures |parts| == Count(s, sep) + 1
    ensures forall k :: 0 <= k < |parts| ==> sep !in parts[k]
  {
    if |s| == 0 then [""]
    else
      var rest := Split(s[1..], sep);
      assert s == [s[0]] + s[1..];
      if s[0] == sep then [""] + rest
      else [[s[0]] + rest[0]] + rest[1..]
  }

  /** A string with no separator splits into itself alone. */
  lemma {:induction false} SplitNoSeparator(s: string, sep: char)
    requires sep !in s
    ensures Split(s, sep) == [s]
  {
    if |s| > 0 {
      SplitNoSeparator(s[1..], sep);
      assert [s[0]] + s[1..] == s;
    }
  }

  /** One character in front of a text: a separator starts a new, empty
      first part; any other character extends the first part. */
  lemma SplitCons(c: char, t: string, sep: char)
    ensures c == sep ==> Split([c] + t, sep) == [""] + Split(t, sep)
    ensures c != sep ==> Split([c] + t, sep) == [[c] + Split(t, sep)[0]] + Split(t, sep)[1..]
  {
    assert ([c] + t)[0] == c && ([c] + t)[1..] == t;
  }

  /** Splitting at the first separator peels off the run before it. */
  lemma {:induction false} SplitAtFirst(a: string, sep: char, b: string)
    requires sep !in a
    ensures Split(a + [sep] + b, sep) == [a] + Split(b, sep)
  {
    if |a| == 0 {
      assert a + [sep] + b == [sep] + b;
      SplitCons(sep, b, sep);
    } else {
      var tail := a[1..] + [sep] + b;
      assert a + [sep] + b == [a[0]] + tail;
      SplitAtFirst(a[1..], sep, b);
      var parts := Split(tail, sep);
      assert parts[0] == a[1..] && parts[1..] == Split(b, sep);
      SplitCons(a[0], tail, sep);
      assert [a[0]] + a[1..] == a;
    }
  }

  /** Round trip of the cache file: a non-empty list of separator-free lines
      is read back exactly as it was written. */
  lemma {:induction false} SplitJoin(lines: seq<string>, sep: char)
    requires |lines| > 0
    requires forall k :: 0 <= k < |lines| ==> sep !in lines[k]
    ensures Split(Join(lines, sep), sep) == lines
  {
    if |lines| == 1 {
      SplitNoSeparator(lines[0], sep);
    } else {
      SplitJoin(lines[1..], sep);
      SplitAtFirst(lines[0], sep, Join(lines[1..], sep));
      assert [lines[0]] + lines[1..] == lines;
    }
  }

  /** Prepending a character to the first line prepends it to the joined text. */
  lemma JoinExtendFirst(c: char, lines: seq<string>, sep: char)
    requires |lines| > 0
    ensures Join([[c] + lines[0]] + lines[1..], sep) == [c] + Join(lines, sep)
  {
  }

  /** Prepending an empty line prepends one separator to the joined text. */
  lemma JoinEmptyFirst(lines: seq<string>, sep: char)
    requires |lines| > 0
    ensures Join([""] + lines, sep) == [sep] + Join(lines, sep)
  {
  }

  /** Putting one character in front of a text that survives the
      split-then-join round trip gives a text that survives it too. */
  lemma JoinSplitCons(c: char, t: string, sep: char)
    requires Join(Split(t, sep), sep) == t
    ensures Join(Split([c] + t, sep), sep) == [c] + t
  {
    SplitCons(c, t, sep);
    if c == sep {
      JoinEmptyFirst(Split(t, sep), sep);
    } else {
      JoinExtendFirst(c, Split(t, sep), sep);
    }
  }

  /** The other direction: any file content is rebuilt by joining its parts,
      so reading a file and writing the list back changes nothing. */
  lemma {:induction false} JoinSplit(s: string, sep: char)
    ensures Join(Split(s, sep), sep) == s
  {
    if |s| > 0 {
      JoinSplit(s[1..], sep);
      JoinSplitCons(s[0], s[1..], sep);
      assert [s[0]] + s[1..] == s;
    }
  }

  /** The empty list does not survive the round trip: it is written as the
      empty string, which reads back as one empty line. */
  lemma EmptyListRoundTrip()
    ensures Join([], Newline) == ""
    ensures Split("", Newline) == [""]
  {
  }

  /** The cache lookup of index.ts:91-97. `file` is the content of
      `urls.txt`, `None` when the file does not exist. The cached list is
      used when it has at least one element; otherwise (`None`) the caller
      extracts the URLs afresh. Because a split never yields the empty list,
      the length check cannot fail: an existing file is always used, an
      empty one included. */
  function CachedUrls(file: Option<string>): (r: Option<seq<string>>)
    ensures r.Some? <==> file.Some?
    ensures r.Some? ==> |r.value| >= 1 && Join(r.value, Newline) == file.value
    ensures r.Some? ==> forall k :: 0 <= k < |r.value| ==> Newline !in r.value[k]
  {
    match file
    case None => None
    case Some(content) =>
      var urls := Split(content, Newline);
      JoinSplit(content, Newline);
      if |urls| > 0 then Some(urls) else None
  }

  /** What one call of `getUrls` returns, and what it writes to `urls.txt`
      (`None` when it writes nothing). */
  datatype Fetched = Fetched(urls: seq<string>, written: Option<string>)

  /** `getUrls` (index.ts:89-105). `extracted` stands for the list the
      settings download and URL scan would produce; it is only used when the
      cache lookup falls through, in which case it is also written to the
      cache. */
  function GetUrls(file: Option<string>, extracted: seq<string>): (r: Fetched)
    ensures file.Some? ==> r.written.None? && |r.urls| >= 1 && Join(r.urls, Newline) == file.value
    ensures file.Some? ==> forall k :: 0 <= k < |r.urls| ==> Newline !in r.urls[k]
    ensures file.None? ==> r.urls == extracted && r.written == Some(Join(extracted, Newline))
  {
    match CachedUrls(file)
    case Some(urls) => Fetched(urls, None)
    case None => Fetched(extracted, Some(Join(extracted, Newline)))
  }

  /** A run that finds no cache writes one from which the next run reads the
      same list back, without extracting anything, provided the list is
      non-empty and no URL contains a newline (the URL pattern of
      index.ts:80 matches no whitespace). */
  lemma {:induction false} CacheReused(extracted: seq<string>, later: seq<string>)
    requires |extracted| > 0
    requires forall k :: 0 <= k < |extracted| ==> Newline !in extracted[k]
    ensures GetUrls(GetUrls(None, extracted).written, later) == Fetched(extracted, None)
  {
    SplitJoin(extracted, Newline);
  }

  /** An empty `urls.txt` passes the length check and yields one empty URL. */
  lemma EmptyCacheFileUsed(later: seq<string>)
    ensures GetUrls(Some(""), later).urls == [""]
  {
  }
}
