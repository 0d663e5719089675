# discord-gif-exporter: the URL-cleaning pass and the URL cache

This project is a Dafny model of the only pieces of logic in the
`discord-gif-exporter` script (`index.ts`):

- **`cleanUrls`** (index.ts:107-133). This is a single left-to-right pass over the extracted URLs that builds the
  list `cleaned`. A URL whose host name does not contain "discord" is pushed
  unless the identical string is already present. A URL whose host name
  contains "discord" replaces, in place, every entry that is a substring of
  it. If it contains no entry, it is dropped.
- **The `urls.txt` cache** (index.ts:89-105). The extracted URLs are written as `join('\n')` and read
  back with `split('\n')`. The read result is used when it has at least one element.

Modules:

- `Strings` (strings.dfy) defines `Option` and `Contains`, which is JavaScript's `String.prototype.includes`.
  It also defines `Count`, the number of occurrences of a character, and the lemmas the proofs use:
  `CountConcat`, `ContainsTransitive` and `ContainsChars`.
- `UrlCache` (url_cache.dfy) defines `Join` and `Split` as JavaScript defines them for a one-character
  separator. It also holds the cache lookup and `getUrls`.
- `Cleaner` (clean_urls.dfy) holds the pass as written. `Step` is one iteration and `Fold` is the loop.
  `CleanUrls` adds the parse failure. `ReplaceBySplice` is the inner loop written imperatively, with its
  `splice`/`indexOf`, and is proved equal to the in-place map `ReplaceContained`.
- `IntendedCleaner` (intended_clean_urls.dfy) holds the corrected pass (see Findings).
- `CleanerExamples` (clean_examples.dfy) runs an illustrative input through both passes.

Host-name extraction is the WHATWG `URL` parser. The model does not
reimplement it. It is a parameter `hostOf: string -> Option<string>`, where
`None` means the constructor throws. The test applied to the host name
(`includes('discord')`) is modelled exactly. A throw inside the pass aborts
it before anything is written, so `CleanUrls` is `None` unless every URL
parses.

An illustrative input is
`["http://a.com/x", "https://discord.com/invite/abc", "https://discord.com/invite/abc123"]`.
One might expect it to reduce to
`["http://a.com/x", "https://discord.com/invite/abc123"]`. The code does not
do that. Neither invite URL contains `http://a.com/x`, so both are dropped
and the result is `["http://a.com/x"]`. The model follows the code
(`CleanerExamples.ExampleAsWritten`). The expected reduction is what the
corrected pass under Findings produces.

## Model

| member | source | states |
|---|---|---|
| UrlCache.Join | index.ts:102 | `join('\n')` of newline-free lines puts exactly one newline between neighbours: one fewer than there are lines, none for the empty list |
| UrlCache.Split | index.ts:92 | `split('\n')` yields one more part than there are newlines, so never an empty list, and no part contains a newline |
| UrlCache.SplitJoin | index.ts:92-102 | a non-empty list of newline-free URLs written with `join` is read back by `split` exactly |
| UrlCache.JoinSplit | index.ts:92-102 | joining the parts of any file content rebuilds that content |
| UrlCache.EmptyListRoundTrip | index.ts:102 | the empty list is written as `""`, which reads back as `[""]`, so the round trip needs a non-empty list |
| UrlCache.CachedUrls | index.ts:91-97 | the `urls.length > 0` check passes whenever `urls.txt` exists; the cached list is non-empty, holds no newline, and joins back to the file content, so by `SplitJoin` it is exactly the file's lines |
| UrlCache.GetUrls | index.ts:89-105 | with a cache file nothing is written and the returned URLs are at least one, newline-free and join back to the content, so by `SplitJoin` they are exactly the file's lines (`[""]` for an empty file); without one the extracted list is returned and written joined by newlines |
| UrlCache.CacheReused | index.ts:89-105 | after a run that wrote the cache, the next run returns the same list from the cache and writes nothing |
| UrlCache.EmptyCacheFileUsed | index.ts:91-97 | an empty `urls.txt` is used, as the one-URL list `[""]` |
| Strings.Contains | index.ts:113 | `includes`: a string contains itself and the empty string, and never a longer string |
| Cleaner.IsDiscordHost | index.ts:113 | the host test `hostname.includes('discord')`: passing needs at least seven characters, and a host name starting with `discord` passes |
| Cleaner.ReplaceContained | index.ts:121-127 | the in-place map the inner loop computes: same length, each entry is either unchanged or the URL, and each new entry contains the old one |
| Cleaner.Step | index.ts:113-127 | a non-discord URL already present leaves `cleaned` unchanged, otherwise it is appended at the end; a discord URL keeps the length, replaces exactly the entries it contains, leaves all others in place, and changes nothing when it contains none; every entry afterwards was an entry before or is the URL |
| Cleaner.Fold | index.ts:108-128 | the final list is no longer than the number of non-discord URLs in the input, and every entry is an input URL |
| Cleaner.StepKeepsNonDiscordDistinct | index.ts:113-126 | one iteration never makes a non-discord string occur twice |
| Cleaner.FoldNonDiscordDistinct | index.ts:108-128 | after the whole pass no non-discord URL occurs twice in `cleaned` |
| Cleaner.CleanUrls | index.ts:107-133 | the pass yields a result exactly when every URL parses; the result is at most as long as the non-discord part of the input (hence the input), contains only input URLs, and repeats no non-discord URL |
| Cleaner.IndexOf | index.ts:124 | `indexOf` gives the first index holding the value, or -1 exactly when it is absent |
| Cleaner.Splice | index.ts:124 | `splice(j, 1, x)` with `j` inside the array overwrites index `j` with `x` and leaves the length and every other entry unchanged |
| Cleaner.ReplaceBySplice | index.ts:121-127 | the inner loop, splicing at `indexOf(existing)` while iterating, computes the in-place map that replaces each contained entry by the URL |
| CleanerExamples.ExampleClassified | index.ts:111-113 | with host names `a.com` and `discord.com`, only the latter passes the `includes('discord')` test |
| CleanerExamples.ExampleAsWritten | index.ts:107-133 | the illustrative input's three URLs clean to `["http://a.com/x"]` |
| CleanerExamples.OneUrlReplacesSeveral | index.ts:121-127 | one discord URL containing two entries replaces both, leaving it twice in `cleaned` |
| CleanerExamples.ExampleLosesDiscordUrls | index.ts:121-127 | as written, a discord URL of the example is a substring of no entry of the result: it is lost |
| IntendedCleaner.IntendedStep | index.ts:121-127 | the corrected iteration always keeps the URL and grows the list by at most one, adding nothing but the URL |
| IntendedCleaner.IntendedFold | index.ts:108-128 | the corrected pass is at most as long as the input and holds only input URLs |
| IntendedCleaner.IntendedCleanUrls | index.ts:107-133 | the corrected pass fails exactly when some URL does not parse |
| IntendedCleaner.IntendedStepCovers | index.ts:121-127 | each corrected iteration keeps every earlier URL inside some entry and covers the new URL |
| IntendedCleaner.IntendedFoldCovers | index.ts:108-128 | after the corrected pass every input URL is a substring of some entry |
| CleanerExamples.ExampleIntended | index.ts:107-133 | the corrected pass reduces the illustrative input to `["http://a.com/x", "https://discord.com/invite/abc123"]` |

## Left out

- The settings download is left out because it is network I/O: `fetchSettings`, the `authorization`/`referer` headers, and the status and JSON checks (index.ts:17-51).
- File access is left out: `exists`/`stat`, `readFile`, `writeFile` and the settings cache (index.ts:8-15, 53-72). A file appears only as its content, an `Option<string>` that is `None` when the file is absent.
- Base64 and UTF-8 decoding through Node's `Buffer` are left out (index.ts:77), because that decoder's leniency is foreign code.
- The URL regular expression is left out (index.ts:79-82) because it is a regex-engine call. The list it yields is the `extracted` parameter of `UrlCache.GetUrls`. When nothing matches, `match` returns `null` and `.map` throws. That crash is not modelled.
- WHATWG URL parsing is left out (index.ts:111). It is the `hostOf` parameter, and a rejected URL is `None`.
- Process plumbing is left out: `process.exit`, console output, and the token from argv, including the `urls.length === 0` exit in `run` (index.ts:135-151).
- `cleaned.txt` is written as `Join(cleaned, '\n')`. The write itself is file I/O and is not modelled.
- UrlCache.CacheReused: requires the extracted list to be non-empty and its URLs to contain no newline. The source guarantees both: a scan with no match makes `match` return `null`, and `.map` then throws at index.ts:82 before the write at index.ts:102; and the URL pattern at index.ts:80 matches no whitespace. The model does not derive either fact, because the scan is not modelled.

## Findings

| source | as written | input that shows it | evidently intended | confidence | as-written member | corrected member |
|---|---|---|---|---|---|---|
| index.ts:121-127 | a URL on a "discord" host enters `cleaned` only by replacing an entry it contains, otherwise it is dropped | `["http://a.com/x", "https://discord.com/invite/abc", "https://discord.com/invite/abc123"]` with the last two on host `discord.com` cleans to `["http://a.com/x"]` | a "discord" URL that contains no entry is appended, so a shorter invite is later replaced by the longer one and no URL is lost | medium, not executed | CleanerExamples.ExampleLosesDiscordUrls | IntendedCleaner.IntendedFoldCovers |

The "evidently intended" cell is an inference. The only statement of intent in
the source is the comment at index.ts:122, which speaks of replacing an
existing URL and says nothing about appending. The inference rests on the pass
otherwise discarding every "discord" URL that extends no earlier entry.
`Cleaner` keeps the behaviour as written, because it is what the script does.
The corrected pass (module `IntendedCleaner`)
sits beside it. It differs only in the append of an unmatched "discord" URL.
