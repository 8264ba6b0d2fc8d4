# Qiita trend document: a Dafny model of `QiitaService`

`QiitaService` turns Qiita's daily popular-items feed into a text document and a
file name. This project models the service's logic as Dafny functions over
strings and sequences and proves what the service promises about them:

- **Entry shaping** (`fetchTrendingData`). The decoded feed becomes at most
  twenty `QiitaItem`s, in feed order, each with a canonical link, plus the feed's
  own update time. Every error is re-raised as `Failed to fetch RSS feed: <message>`.
- **URL canonicaliser** (`cleanUrl`). A URL is rebuilt from its protocol,
  `//`, host and pathname, so the query and the fragment are dropped. A string
  that does not parse is returned unchanged.
- **Text synthesiser** (`generateTxtContent`). The document is a fixed
  Japanese header ending in `出典`, the `title\nlink` blocks of all items, six
  line feeds, and then every link again.
- **File name deriver** (`generateFileName`). An empty update time gives
  `Qiitaトレンド.txt`. A leading `YYYY-MM-DD` gives `YYYYMMDD_Qiitaトレンド.txt`.
  Any other update time goes through the JavaScript `Date` fallback.

Files:

- `wrappers.dfy`: `Option` and `Result`.
- `strings.dfy`: `Join` (JavaScript `join`), `Split` and `Lines`, with the
  round trips between joining and splitting.
- `url_normalizer.dfy`: the URL splitter and `CleanUrl`.
- `trend_feed.dfy`: the item and feed records and `FetchTrendingData`.
- `txt_content.dfy`: `GenerateTxtContent` and its line-by-line layout.
- `file_name.dfy`: `GenerateFileName`.

Assumptions that stand in for code outside the model:

- The WHATWG `URL` parser is modelled by an explicit splitter, `ParseUrl`. It
  splits a URL into `scheme "://" authority path ["?" query] ["#" fragment]`,
  following section 3 of RFC 3986. It fails (None) when the scheme is missing
  or does not start with a letter, when `://` does not follow the scheme, or
  when the authority is empty. Like `URL.pathname` for `http`/`https`, an empty
  path is reported as `/`.
- The feed download (`axios.get`) and the XML decoding (`xml2js`) are not
  modelled. `FetchTrendingData` receives their outcome as a parameter: either
  the decoded `feed` element or the message of the error they raised. A
  decoded document without a `feed` element makes the code throw a TypeError
  at src/qiita/qiita.service.ts:26 (reading `entry` of undefined). That case
  also enters as a `Failure` response carrying the TypeError message, and
  `FetchTrendingData` prefixes it with `Failed to fetch RSS feed: `.
- The `Date` fallback of `generateFileName` depends on the JavaScript date
  parser and on the host's time zone. `GenerateFileName` therefore receives
  what that `Date` object reads (`getFullYear()`, `getMonth() + 1`,
  `getDate()`) as a parameter. None stands for an invalid date.
- Strings are sequences of Unicode code points; JavaScript strings are UTF-16.
  Every character whose position matters here (digits, `-`, `:`, `/`, `?`,
  `#`, the header) is in the Basic Multilingual Plane, so positions agree.

What the service's code does, which the model follows:

- `generateTxtContent` writes a header, a title/link list, six line feeds and
  a link list. It adds no tags and no date to the text.
- `generateFileName` has two ways of finding the date: the regular expression
  `^(\d{4})-(\d{2})-(\d{2})`, then `new Date(...)` read in the host's local
  time. It applies no fixed time-zone shift.
- `generateFileName` returns `Qiitaトレンド.txt`, without a date, for an empty
  update time.
- On the fallback path, the code evaluates `updated.toISOString()` as a
  `console.log` argument (src/qiita/qiita.service.ts:86). That call throws
  `RangeError: Invalid time value` for an invalid date. So a non-empty update
  time that neither matches the regular expression nor parses as a date makes
  `generateFileName` throw. The model returns `Failure("Invalid time value")`
  for it.

## Model

| member | source | states |
|---|---|---|
| `UrlNormalizer.ParseUrl` | src/qiita/qiita.service.ts:42 | every string the URL splitter accepts is written exactly as its scheme, "://", authority, path, optional "?query" and optional "#fragment", and those components are well-formed (scheme starts with a letter, authority non-empty and free of `/?#`, path empty or starting with `/` and free of `?#`, query free of `#`) |
| `UrlNormalizer.ParseUnparse` | src/qiita/qiita.service.ts:42 | conversely, every well-formed set of components is what the splitter finds in its own text, so parsing is one-to-one |
| `UrlNormalizer.CleanUrl` | src/qiita/qiita.service.ts:44-46 | a string that does not parse as a URL is returned unchanged; no input raises an error |
| `UrlNormalizer.CleanUrlParsed` | src/qiita/qiita.service.ts:42-43 | the URL written from any well-formed scheme, host, path, query and fragment (which is every URL that parses) cleans to scheme + "://" + host + pathname, whatever the query and fragment are (e.g. `https://qiita.com/items/abc?utm_source=x` gives `https://qiita.com/items/abc`); the result holds no `?` and no `#`; it parses back to the same scheme, host and pathname with no query and no fragment; when the URL has a path, the result is the URL with exactly its query part and fragment part cut off the end |
| `UrlNormalizer.Pathname` | src/qiita/qiita.service.ts:43 | `urlObj.pathname`: the path, or `/` when it is empty; specified by `CleanUrlParsed` |
| `UrlNormalizer.Rebuild` | src/qiita/qiita.service.ts:43 | `${protocol}//${host}${pathname}`; specified by `CleanUrlParsed` (a parsed URL cleans to exactly this text, which has no `?` and no `#` and parses back to the cleaned components) |
| `UrlNormalizer.CleanUrlExample` | src/qiita/qiita.service.ts:42-43 | `https://qiita.com/items/abc?utm_source=x` is the text of well-formed components whose rebuilt form is `https://qiita.com/items/abc`; with `CleanUrlParsed` this gives `cleanUrl` of that link as the bare item URL |
| `UrlNormalizer.CleanUrlTrackedLink` | src/qiita/qiita.service.ts:42-43 | `cleanUrl("https://qiita.com/items/abc?utm_source=x")` is `https://qiita.com/items/abc` |
| `UrlNormalizer.CleanUrlIdempotent` | src/qiita/qiita.service.ts:40-47 | cleaning a cleaned URL changes nothing |
| `TrendFeed.ToItem` | src/qiita/qiita.service.ts:27-29 | the item built from a complete entry; specified by `ShapeEntries` and `FetchItems` (its link is the `cleanUrl` of the entry's href, its title and update time the entry's) |
| `TrendFeed.ShapeEntries` | src/qiita/qiita.service.ts:26-30 | the entry-to-item map succeeds exactly when every entry has a title, a link and an update time; then it yields one item per entry, in order, whose link is the `cleanUrl` of the entry's href; otherwise it fails with the TypeError message |
| `TrendFeed.FirstEntries` | src/qiita/qiita.service.ts:26 | the feed's entry list, or the empty list when it is absent, cut to its first 20 entries; specified by `FirstEntriesPrefix` |
| `TrendFeed.FetchTrendingData` | src/qiita/qiita.service.ts:20-37 | `fetchTrendingData` given the outcome of the download and decoding; specified by `FetchSucceedsIff`, `FetchItems`, `FetchWithoutEntries`, `FetchIgnoresLaterEntries` and `FetchLinksCanonical` |
| `TrendFeed.FirstEntriesPrefix` | src/qiita/qiita.service.ts:26 | the entries used are a prefix of the feed's entry list (an absent list counts as empty) of length min(20, number of entries) |
| `TrendFeed.FetchSucceedsIff` | src/qiita/qiita.service.ts:20-37 | fetching succeeds if and only if the transport and decoding succeeded, each of the first twenty entries is complete, and the feed has an update time; a transport error comes back as "Failed to fetch RSS feed: " + its message, and every failure message starts with that prefix |
| `TrendFeed.FetchItems` | src/qiita/qiita.service.ts:26-32 | a successful fetch yields at most 20 items, exactly min(20, number of entries), item i carrying entry i's title and update time and the cleaned href as its link, and the feed's own update time as `feedUpdated` |
| `TrendFeed.FetchWithoutEntries` | src/qiita/qiita.service.ts:26 | a feed without an entry list, when it has an update time, gives an empty item list and no error |
| `TrendFeed.FetchIgnoresLaterEntries` | src/qiita/qiita.service.ts:26 | two feeds that agree on the first twenty entries and the update time give the same result |
| `TrendFeed.FetchLinksCanonical` | src/qiita/qiita.service.ts:28 | every link a fetch yields is already canonical: cleaning it again leaves it unchanged |
| `Strings.Join` | src/qiita/qiita.service.ts:56-57 | JavaScript `join`; specified by `SplitJoin`, `JoinSplit` and `JoinConcat` |
| `Strings.SplitJoin` | src/qiita/qiita.service.ts:56-57 | a non-empty list of single-line pieces, joined with a line feed and split at line feeds, comes back unchanged |
| `Strings.JoinSplit` | src/qiita/qiita.service.ts:56-57 | splitting a text at a character and joining with it again gives back the text |
| `Strings.SplitConcat` | src/qiita/qiita.service.ts:59 | splitting distributes over a separator: the pieces of `a + sep + b` are the pieces of `a` followed by the pieces of `b` |
| `Strings.JoinConcat` | src/qiita/qiita.service.ts:56-59 | joining two non-empty piece lists puts exactly one separator between their joins |
| `TxtContent.HeaderIsLines` | src/qiita/qiita.service.ts:50-54 | the header is its five lines (the three sentences, an empty line, `出典`) joined by line feeds, and none of those lines holds a line feed |
| `TxtContent.TitleAndLink` | src/qiita/qiita.service.ts:56 | `${item.title}\n${item.link}`; specified by `Blocks` and `BlocksJoin` (its lines are the title and then the link) |
| `TxtContent.GenerateTxtContent` | src/qiita/qiita.service.ts:49-60 | `generateTxtContent`; specified by `TxtDecomposition`, `TxtLines`, `DocumentLineAt` and `TxtEmpty` |
| `TxtContent.Blocks` | src/qiita/qiita.service.ts:56 | one `title\nlink` block per item, block i belonging to item i |
| `TxtContent.Links` | src/qiita/qiita.service.ts:57 | one link per item, link i being item i's |
| `TxtContent.TitleLinkLines` | src/qiita/qiita.service.ts:56 | the independent line view of the first list: 2n lines, line 2i the title and line 2i+1 the link of item i |
| `TxtContent.BlocksJoin` | src/qiita/qiita.service.ts:56 | joining the title/link blocks with line feeds is the same text as joining the title and link lines |
| `TxtContent.TxtDecomposition` | src/qiita/qiita.service.ts:49-60 | for a non-empty item list the document is the header lines, each item's title and link, five empty lines and each item's link, all joined by line feeds |
| `TxtContent.TxtLines` | src/qiita/qiita.service.ts:56-59 | when no title or link holds a line feed, the document's lines are exactly: the header lines, title and link of item 1, 2, …, five empty lines, link of item 1, 2, … |
| `TxtContent.DocumentLineAt` | src/qiita/qiita.service.ts:56-59 | when no title or link holds a line feed, both lists contain every item exactly once, in input order: the document has 5 + 3n + 5 lines, lines 5+2i and 5+2i+1 are item i's title and link, and line 5+2n+5+i is item i's link |
| `TxtContent.TxtEmpty` | src/qiita/qiita.service.ts:56-59 | an empty item list yields the header followed by seven line feeds |
| `FileName.HasDatePrefix` | src/qiita/qiita.service.ts:71 | the test `/^(\d{4})-(\d{2})-(\d{2})/`: ten leading characters, four ASCII digits, `-`, two ASCII digits, `-`, two ASCII digits; used by `FileNameFromDatePrefix` and `FileNameFailsIff` |
| `FileName.GenerateFileName` | src/qiita/qiita.service.ts:62-97 | `generateFileName` given what the host's `Date` reads; specified by `FileNameEmpty`, `FileNameFromDatePrefix`, `FileNameOfDateOfName`, `FileNameFirstTen`, `FileNameFailsIff`, `FileNameFallback` and `FileNameExample` |
| `FileName.FileNameEmpty` | src/qiita/qiita.service.ts:63-65 | an empty update time gives exactly `Qiitaトレンド.txt`, whatever the host's `Date` would read |
| `FileName.FileNameFromDatePrefix` | src/qiita/qiita.service.ts:71-79 | an update time starting with `DDDD-DD-DD` (ASCII digits) gives its eight digits in order, then `_Qiitaトレンド.txt`; the name has the dated form and stands for exactly the input's first ten characters |
| `FileName.FileNameOfDateOfName` | src/qiita/qiita.service.ts:71-79 | conversely, every dated name is what its own date (digits re-joined with dashes) gives, so the dated names are exactly the images of the regular-expression path |
| `FileName.FileNameFirstTen` | src/qiita/qiita.service.ts:71-79 | on the regular-expression path the name depends only on the first ten characters |
| `FileName.FileNameFailsIff` | src/qiita/qiita.service.ts:62-97 | the file name fails if and only if the update time is non-empty, does not start with a date, and is an invalid `Date`; the failure is the RangeError "Invalid time value" |
| `FileName.FileNameFallback` | src/qiita/qiita.service.ts:84-96 | when the fallback reads a four-digit year and a valid month and day, the name has the same `YYYYMMDD_Qiitaトレンド.txt` form and its digits read back as that year, month and day |
| `FileName.NatToString` | src/qiita/qiita.service.ts:89-93 | `String(n)` gives decimal digits with no leading zero that read back as n |
| `FileName.IntToString` | src/qiita/qiita.service.ts:89-93 | `String(i)` for an integer: a non-negative i gives a non-empty string of digits with no leading zero reading back as i; a negative i gives `-` followed by such digits reading back as -i |
| `FileName.NatToStringLength` | src/qiita/qiita.service.ts:89-93 | numbers below 10, 100, 1000 and 10000 have 1, 2, 3 and 4 digits |
| `FileName.PadStart2` | src/qiita/qiita.service.ts:90-91 | `padStart(2, '0')` keeps the string as its suffix, adds only zeros before it, and gives length at least 2 |
| `FileName.TwoDigits` | src/qiita/qiita.service.ts:90-91 | a month or a day padded to two characters is two digits with the same value |
| `FileName.FileNameExample` | src/qiita/qiita.service.ts:70 | `2025-08-01T05:00:00+09:00` gives `20250801_Qiitaトレンド.txt` |

## Left out

- The HTTP download of the feed and its XML decoding (src/qiita/qiita.service.ts:22-24). These are network I/O and a foreign library, so their outcome is the `response` parameter.
- `console.log` tracing (src/qiita/qiita.service.ts:67-94). It has no effect on the result, except for the `toISOString()` RangeError described above, which is modelled.
- The host's `Date` parsing and local time zone (src/qiita/qiita.service.ts:84-91). These are not deterministic across hosts, so they enter as the `hostDate` parameter.
- `UrlNormalizer.ParseUrl` stands in for the WHATWG URL parser but does not do its normalisations:
  - lower-casing of scheme and host;
  - removal of default ports;
  - resolution of `.` and `..` path segments;
  - percent-encoding;
  - IDNA host conversion;
  - trimming of surrounding spaces and removal of tabs and newlines;
  - backslashes treated as slashes;
  - the slashes after a special scheme: `new URL` skips any number of `/` or `\` there, so `https:h`, `https:/h/p?q` and `https:///h/p?q` parse in the code (the last two clean to `https://h/p`), while the model accepts only exactly `://` followed by a non-empty authority and returns those inputs unchanged, query included.
- `UrlNormalizer.ParseUrl` accepts authorities that `new URL` rejects. Examples: an out-of-range port (`https://h:99999/p?q`), a forbidden host character such as a space (`https://exa mple.com/p?q`), an empty host after userinfo (`https://u@/p?q`), and malformed IPv4 or IPv6 hosts. On these the code's `URL` constructor throws, so `cleanUrl` returns the input with its query (src/qiita/qiita.service.ts:44-46). The model strips the query instead. The splitter checks only the component separators, not host syntax.
- `UrlNormalizer.CleanUrlIdempotent` and `TrendFeed.FetchLinksCanonical`: idempotence is a property of the splitter model, not of the code. `URL` accepts opaque-path URLs such as `mailto:a@b?x`. It reports an empty host and the pathname `a@b`, so the code writes `mailto://a@b`. Cleaning that again gives `mailto://b`. The model rejects any URL without `://` and returns it unchanged, so it cannot show this.
- `UrlNormalizer.CleanUrl`: keeps a `user:password@` userinfo as part of the authority, which `URL.host` drops. For schemes without a host it returns the input unchanged, where `URL` may accept them (`file:///a?b` gives `file:///a` in the code). For schemes other than `http`, `https`, `ws`, `wss`, `ftp` and `file` an empty path becomes `/` in the model, where `URL.pathname` stays empty.
- `TrendFeed.ShapeEntries`: every missing title, link or update time fails with the one TypeError message `Cannot read properties of undefined (reading '0')`. The code fails with a different message (`reading 'href'`) when the link element has no attributes at all. When the link element has attributes but no `href`, the code yields an undefined link instead of failing. The exact wording of TypeError messages depends on the JavaScript engine.
- `TxtContent.TxtEmpty`: for the empty item list the layout is stated as the exact text, not as a list of lines.
- src/qiita/qiita.controller.ts, api/index.ts and src/app.module.ts. These are HTTP, NestJS and Vercel plumbing: response headers, `encodeURIComponent`, a cached app instance and dependency-injection wiring. The controller also calls a `fetchTrendingItems` method and passes the items to `generateFileName`, which match no method of the service.
- Tag enrichment, tag ranking and a next-day date are not part of the service's code, so the model has none of them.
