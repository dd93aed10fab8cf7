# get_transcript, modelled in Dafny

`get_transcript.js` is a command-line tool. Given a YouTube link, it prints the
video's title, its duration and its transcript. It keeps a `.cache` directory
keyed by video id. A request repeated after one that printed the transcript,
and that either read the page or found its metadata cached, needs neither the
network nor the transcript subprocess (`SecondRunFromCache`). A fetch that
threw leaves no metadata behind, so the next request fetches the page again
even when the transcript succeeded (`DegradedRefetches`). The model covers:

- **Video id extraction** (module `VideoId`). The id-extraction regular
  expression is written out as explicit searches with JavaScript's semantics:
  - the leftmost match position;
  - the alternatives tried in order;
  - the greedy `SEG/PATH/` alternative, which backtracks to the last slash;
  - the lazy `\S*?[?&]v=` alternative;
  - the optional `https?://` and `www.` prefixes.

  The searches are proved sound and complete against a declarative
  description of what the pattern accepts. The extracted id is proved to be
  read at the leftmost host where the pattern reads an id; which alternative
  wins at that host follows the pattern's order, so `SEG/PATH/` is tried
  before `v/` (`PathBeforeLetterExample`). Extraction fails exactly when no
  reading exists. `youtu.be/<id>` is proved to yield its id after any of the
  six combinations of `http://`, `https://` and `www.` and before any tail.
  The four `youtube.com` forms (`watch?v=`, `embed/`, `v/`, `e/`) are proved
  to yield their id after the same prefixes and before a tail with no `/`; a
  tail holding a slash can let `SEG/PATH/` read a different id
  (`PathBeforeLetterExample`).
- **Page scraping** (module `PageScrape`). `<title>(.*?) - YouTube</title>` is
  modelled as a lazy, line-bounded, leftmost match. `"lengthSeconds":"(\d+)"`
  is formatted as minutes, a colon, and two-digit seconds. The formatted
  duration is proved to parse back to the number of seconds.
- **Transcript subprocess handling** (module `Transcript`):
  - the stream buffers the `data` handlers grow;
  - the `close` handler's classification of a failure by its exit code and
    stderr;
  - the 60000-character truncation.
- **The cache and the whole run** (module `Pipeline`). `CacheDir` holds the
  cache directory as a map from file name to content, plus the ordered log of
  fetches, spawns and console lines. Its methods `ResolveMetadata`,
  `ResolveTranscript` and `Run` follow `fetchMetadata` and `main` step by
  step. Each is proved equal to a function of the old cache: `MetadataStep`,
  `TranscriptStepOf` and `Session`. Lemmas about those functions state:
  - which file each step writes and that no other file changes;
  - that a failed fetch or a failed transcript run writes nothing;
  - the order of console lines;
  - that a second run after a cached success is served entirely from the
    cache.

The network and the subprocess are inputs to the model. A fetch is a
`FetchOutcome`: either it throws, or it yields a page body. A transcript run
is a finished `ProcessRun`: its exit code (`None` for `null`) and the chunks
each stream delivered. Console output, `process.exit` codes, fetches and
spawns are recorded as `Event`s or returned as the exit code.

### Behaviour the model keeps

- The metadata write at line 40 is inside the `try`, after the scrape. When
  the fetch throws, the fallback returned at line 43 is never written, so
  the next run fetches again (`DegradedRefetches`).
- The title pattern at line 27 needs the whole closing text
  ` - YouTube</title>` on the same line as `<title>`; otherwise the title is
  `Unknown Title`.
- No HTTP status is checked: whatever body the fetch yields is scraped.

## Model

| member | source | states |
|---|---|---|
| Text.IncludesFromIff | get_transcript.js:87-89 | the scan from a position finds the phrase exactly when it occurs at or after that position |
| Text.IncludesIff | get_transcript.js:87-89 | the scan behind `includes` succeeds exactly when the phrase occurs somewhere in the text |
| Text.DigitChar | get_transcript.js:36 | the character rendered for a digit is a decimal digit whose code is the digit's offset from `0` |
| Text.DigitValue | get_transcript.js:34-35 | reading a decimal digit gives a value below ten that renders back as the same character |
| Text.NatToString | get_transcript.js:36 | the rendering is a non-empty digit string with no leading zero, one digit exactly for values below ten |
| Text.NatToStringRoundTrip | get_transcript.js:34-36 | reading the decimal rendering of a number back gives the number |
| Text.PadStart | get_transcript.js:36 | the padded string has the requested width (or the original length if longer), ends with the original and starts with fill characters only |
| VideoId.ExtractSound | get_transcript.js:11-15 | an extracted id is 11 characters from `[a-zA-Z0-9_-]`, sits where some reading of the pattern captures it, and no reading starts further left |
| VideoId.ExtractNoneIff | get_transcript.js:12-14 | extraction yields null exactly when no reading of the pattern captures an id anywhere in the link |
| VideoId.CaptureAtSound | get_transcript.js:12 | a capture found at a host position is a genuine reading of one of the alternatives |
| VideoId.CaptureAtComplete | get_transcript.js:12 | whenever some alternative can read an id after a host position, the search at that position finds a capture |
| VideoId.QueryCaptureSound | get_transcript.js:12 | the lazy `\S*?[?&]v=` search returns a position preceded by `?v=` or `&v=` with no whitespace before it |
| VideoId.QueryCaptureComplete | get_transcript.js:12 | if some `?v=` or `&v=` followed by an id is reachable without whitespace, the lazy search finds one |
| VideoId.PathCaptureSound | get_transcript.js:12 | the `SEG/PATH/` search returns an id after a slash, the segment being slash- and space-free and the path space-free |
| VideoId.PathCaptureComplete | get_transcript.js:12 | if any segment, path and id fit the `SEG/PATH/` alternative, the greedy search finds a capture |
| VideoId.LastSlashComplete | get_transcript.js:12 | the backtracking search for the last slash followed by an id succeeds whenever such a slash lies in range |
| VideoId.LastSlashNone | get_transcript.js:12 | with no slash in range the backtracking search fails |
| VideoId.SegmentEndAll | get_transcript.js:12 | a segment with no slash or space runs to the end of the link |
| VideoId.SegmentEndStops | get_transcript.js:12 | a segment stops at the first slash |
| VideoId.CaptureNeedsY | get_transcript.js:12 | every reading starts at the `y` of `youtube.com/` or `youtu.be/` |
| VideoId.FirstCaptureSkip | get_transcript.js:13 | start positions with no `y` between them and the next one can be skipped without changing the first match |
| VideoId.AfterWwwIsFirstCapture | get_transcript.js:12 | the optional `www.` prefix never changes which id is captured |
| VideoId.MatchAtIsFirstCapture | get_transcript.js:12 | the optional scheme and `www.` prefixes never change which id is captured |
| VideoId.FirstMatchIsFirstCapture | get_transcript.js:12-13 | the match position the search returns is the capture of the leftmost host at which the pattern matches |
| VideoId.FirstCaptureSound | get_transcript.js:13 | the first capture is a genuine reading and no host position before it yields one |
| VideoId.FirstCaptureComplete | get_transcript.js:13 | any reading at or after a position guarantees a first capture from there |
| VideoId.NoHostNoId | get_transcript.js:12-14 | a link with no `y` character never yields an id |
| VideoId.FirstHostDecides | get_transcript.js:12-14 | when the first `y` is a host that captures an id, that id is the result |
| VideoId.NoFirstSlash | get_transcript.js:12 | with no slash from the segment's start onward, the `SEG/PATH/` alternative fails |
| VideoId.NoSecondSlash | get_transcript.js:12 | when the segment ends at a slash and no further slash follows, the `SEG/PATH/` alternative fails |
| VideoId.ShortCapture | get_transcript.js:12 | at a `youtu.be/` host followed by an id, the capture is right after the host |
| VideoId.WatchQuery | get_transcript.js:12 | starting at `watch?v=` followed by an id, the lazy query search stops at `?v=` and captures the id after it |
| VideoId.WatchCapture | get_transcript.js:12 | at `youtube.com/watch?v=` followed by an id and no further slash, the capture is right after `v=` |
| VideoId.EmbedCapture | get_transcript.js:12 | at `youtube.com/embed/` followed by an id and no further slash, the capture is right after `embed/` |
| VideoId.LetterCapture | get_transcript.js:12 | at `youtube.com/v/` or `youtube.com/e/` followed by an id and no further slash, the capture is right after the `v/` or `e/` |
| VideoId.PrefixHasNoY | get_transcript.js:12 | none of the six scheme and `www.` prefix combinations contains a `y` |
| VideoId.IdAfter | get_transcript.js:12 | an 11-character id placed after any prefix is an id token at that position |
| VideoId.Pieces | get_transcript.js:12 | a link built from a prefix, a host, an id and a tail has the host and the id where they were placed, and no slash after the host when the tail has none |
| VideoId.ShortLink | get_transcript.js:12-14 | `youtu.be/<id>` after any scheme and `www.` prefix, followed by any tail, yields the id |
| VideoId.WatchLink | get_transcript.js:12-14 | `youtube.com/watch?v=<id>` after any scheme and `www.` prefix, followed by a tail with no slash, yields the id |
| VideoId.EmbedLink | get_transcript.js:12-14 | `youtube.com/embed/<id>` after any prefix, followed by a tail with no slash, yields the id |
| VideoId.VLink | get_transcript.js:12-14 | `youtube.com/v/<id>` after any prefix, followed by a tail with no slash, yields the id |
| VideoId.ELink | get_transcript.js:12-14 | `youtube.com/e/<id>` after any prefix, followed by a tail with no slash, yields the id |
| VideoId.SameIdFromEveryForm | get_transcript.js:12-14 | with any of the six prefixes and a tail without a slash, the short, watch, embed, `v/` and `e/` forms of one id all yield that id |
| VideoId.WatchTimestampExample | get_transcript.js:12-14 | `https://www.youtube.com/watch?v=<id>&t=42s` yields the id |
| VideoId.RunEndAll | get_transcript.js:12 | with no space from a position on, the `\S*` run reaches the end of the link |
| VideoId.LastSlashFinds | get_transcript.js:12 | the backtracking of `\S+/` stops at the last slash in range when an id follows it |
| VideoId.LetterPathPieces | get_transcript.js:12 | `youtube.com/v/<first>/<second>` has its host, both slashes and the second id where they were placed, and no space after the host |
| VideoId.PathBeforeLetterExample | get_transcript.js:12-14 | `youtube.com/v/<first>/<second>` yields `second`: `SEG/PATH/` is tried before `v/` at the same host |
| VideoId.ShortLinkExample | get_transcript.js:12-14 | `https://youtu.be/dQw4w9WgXcQ` yields `dQw4w9WgXcQ` |
| VideoId.LongerTokenExample | get_transcript.js:12-14 | a longer token after `youtu.be/` yields its first 11 characters, with no boundary check |
| VideoId.QueryCapture | get_transcript.js:12 | the lazy `\S*?[?&]v=` search returns a position at least three past where it started, followed by an id token |
| VideoId.SegmentEnd | get_transcript.js:12 | the `[^/\n\s]*` run holds no slash or space and stops at a slash, a space or the end |
| VideoId.RunEnd | get_transcript.js:12 | the `\S*` run holds no space and stops at a space or the end |
| VideoId.LastSlashCapture | get_transcript.js:12 | the backtracking step returns a position right after a slash in range, followed by an id token |
| VideoId.PathCapture | get_transcript.js:12 | a capture of the `SEG/PATH/` alternative is followed by an id token |
| VideoId.CaptureAt | get_transcript.js:12 | a capture of the host-and-path part, tried alternative by alternative, is followed by an id token |
| VideoId.AfterWww | get_transcript.js:12 | a capture after the optional `www.` is followed by an id token |
| VideoId.MatchAt | get_transcript.js:12 | a capture of the whole pattern at a start position is followed by an id token |
| VideoId.FirstMatch | get_transcript.js:13 | the capture of the leftmost matching start position is followed by an id token |
| VideoId.MatchAtNone | get_transcript.js:12 | when the whole pattern fails at a position, the host-and-path part fails there too |
| VideoId.SchemeIsFirstCapture | get_transcript.js:12 | skipping an `https://` or `http://` prefix without a `y` captures the same id as the first capture from the prefix's start |
| VideoId.FirstCaptureLeftmost | get_transcript.js:13 | the first capture comes from a host position at or after the start, with no capture at any position in between |
| VideoId.HostDecidesId | get_transcript.js:12-14 | when no `y` precedes a host position that captures an id, that id is the result of extraction |
| PageScrape.LazyClose | get_transcript.js:27 | the lazy title body ends where a closing text starts, at or after the body's start |
| PageScrape.TitleMatch | get_transcript.js:27 | a title match's captured bounds lie after an opening `<title>`, in order, within the page |
| PageScrape.TitleMatchLeftmost | get_transcript.js:27 | the title match starts at a `<title>` that can close, with no such `<title>` earlier |
| PageScrape.SliceOneLine | get_transcript.js:27-28 | a slice of a stretch free of line terminators is itself free of them |
| PageScrape.SentinelOneLine | get_transcript.js:28 | `Unknown Title` holds no line terminator |
| PageScrape.TitleTextOpen | get_transcript.js:27 | inside a title text without line terminators or `<`, the lazy search neither stops nor finds the closing text |
| PageScrape.CandidateIsLengthAt | get_transcript.js:30 | a `"lengthSeconds":"<digits>"` field in the page is a place where the search stops, and the greedy digit run is exactly its digits |
| PageScrape.LengthMatchLeftmost | get_transcript.js:30-31 | the captured digits are the digit run of the leftmost place where a field starts |
| PageScrape.DurationFound | get_transcript.js:30-37 | with a captured length, the duration is not `Unknown` and the page has a `"lengthSeconds":"<digits>"` field |
| PageScrape.DurationMissing | get_transcript.js:30-37 | with no captured length, the duration is `Unknown` and the page has no such field |
| PageScrape.ClockParts | get_transcript.js:36 | `m:ss` with a two-character seconds part splits back into `m` and `ss` at the third character from the end |
| PageScrape.SecondsWidth | get_transcript.js:35-36 | a remainder below 60 is padded to exactly two characters |
| PageScrape.FormatNotUnknown | get_transcript.js:32-36 | a formatted duration is never the text `Unknown` |
| PageScrape.LazyCloseSound | get_transcript.js:27 | the lazy title body stops at the first closing text, crossing no line terminator |
| PageScrape.LazyCloseComplete | get_transcript.js:27 | a closing text reachable without a line terminator is always found |
| PageScrape.LazyCloseFinds | get_transcript.js:27 | the lazy search returns exactly the first closing text |
| PageScrape.TitleMatchSound | get_transcript.js:27 | the title match is a `<title>` whose body is line-bounded and closed, minimal, with no earlier `<title>` that could close |
| PageScrape.TitleMatchComplete | get_transcript.js:27 | any closable `<title>` guarantees a title match |
| PageScrape.TitleSound | get_transcript.js:27-28 | the extracted title is the body of the leftmost closable `<title>`, up to the first ` - YouTube</title>` |
| PageScrape.TitleFallbackIff | get_transcript.js:27-28 | `Unknown Title` is used exactly when no `<title>` can close on its line |
| PageScrape.TitleHasNoLineBreak | get_transcript.js:27-28 | an extracted title never contains a line terminator |
| PageScrape.CloseHasAngle | get_transcript.js:27 | the closing text contains a `<` at a fixed offset |
| PageScrape.TitleOfPage | get_transcript.js:27-28 | a page beginning `<title>t - YouTube</title>`, with `t` free of line breaks and `<`, has title `t` |
| PageScrape.DigitsEnd | get_transcript.js:30 | the greedy `\d+` run is all digits and stops before a non-digit |
| PageScrape.LengthMatch | get_transcript.js:30-31 | a captured length is a non-empty digit string |
| PageScrape.LengthMatchSound | get_transcript.js:30-31 | the captured digits are those of a `"lengthSeconds":"<digits>"` field in the page, and no such field starts further left |
| PageScrape.DigitsEndReaches | get_transcript.js:30 | the greedy digit run covers every digit run starting at the same place |
| PageScrape.LengthMatchComplete | get_transcript.js:30-31 | any `"lengthSeconds":"<digits>"` in the page guarantees a captured length |
| PageScrape.DurationFallbackIff | get_transcript.js:30-37 | the duration is `Unknown` exactly when the page has no `"lengthSeconds":"<digits>"` |
| PageScrape.Scrape | get_transcript.js:27-39 | the scraped title is `Unknown Title` when no `<title>` closes on its line and never spans lines; the duration is `Unknown` exactly when the page has no `"lengthSeconds":"<digits>"` field |
| PageScrape.SecondsField | get_transcript.js:35-36 | the seconds field is exactly two digits whose value is the remainder modulo 60 |
| PageScrape.NatToStringLength | get_transcript.js:35-36 | a remainder below 100 renders in at most two digits |
| PageScrape.FormatShape | get_transcript.js:36 | a formatted duration has a colon followed by exactly two characters |
| PageScrape.ParseClockParts | get_transcript.js:36 | reading `m:ss` back gives sixty times the minutes plus the seconds |
| PageScrape.ParseClockOf | get_transcript.js:34-36 | minutes and seconds fields holding the quotient and remainder read back as the original number of seconds |
| PageScrape.FormatDurationRoundTrip | get_transcript.js:34-36 | the formatted duration always reads back as the original number of seconds |
| PageScrape.FormatSeventyFive | get_transcript.js:34-36 | 75 seconds is shown as `1:15` |
| PageScrape.FormatNine | get_transcript.js:34-36 | 9 seconds is shown as `0:09` |
| PageScrape.FormatSixHundred | get_transcript.js:34-36 | 600 seconds is shown as `10:00` |
| PageScrape.FormatZero | get_transcript.js:30-36 | 0 seconds is shown as `0:00`, and a page whose length field is `"0"` gets the duration `0:00`, not `Unknown` |
| PageScrape.ZeroFieldMatch | get_transcript.js:30-31 | a length field holding the single digit `0` is captured as `"0"` |
| PageScrape.LeadingZeroExample | get_transcript.js:31-34 | a captured `075` counts as 75 seconds |
| Transcript.Accumulate | get_transcript.js:74-83 | appending every decoded chunk in order leaves the buffer equal to the concatenation of the decoded chunks, at least as long as any one of them |
| Transcript.ConcatSplit | get_transcript.js:77-83 | for decoded chunks, where the sequence of chunks is cut does not affect the concatenated buffer |
| Transcript.TruncateShape | get_transcript.js:98-101 | a transcript within 60000 characters is kept; a longer one becomes its first 60000 characters followed by the marker |
| Transcript.TruncateIdempotent | get_transcript.js:98-101 | truncating a truncated transcript changes nothing |
| Transcript.TruncateBound | get_transcript.js:98-101 | a truncated transcript is at most the bound plus the marker, and is only longer than the input when it has exactly that length |
| Transcript.TruncateExample | get_transcript.js:98-101 | a 70000-character transcript becomes its first 60000 characters plus the marker |
| Transcript.ClassifyCases | get_transcript.js:85-101 | exit code 0 is success whatever stderr says; otherwise the run is disabled, unavailable or an error carrying stderr, by the phrases it contains, checked in order |
| Transcript.DisabledWinsOverUnavailable | get_transcript.js:87-90 | stderr containing both phrases is reported as a disabled transcript |
| Transcript.NullCodeFails | get_transcript.js:86 | a run that reports a `null` code is a failure |
| Pipeline.MetaName | get_transcript.js:18 | the metadata file name starts with the id and ends in `_meta.json` |
| Pipeline.TranscriptName | get_transcript.js:61 | the transcript file name starts with the id, ends in `_transcript.txt` and never ends in `_meta.json` |
| Pipeline.NamesInjective | get_transcript.js:18 | different ids never share a metadata file or a transcript file |
| Pipeline.NamesDisjoint | get_transcript.js:61 | no metadata file is ever a transcript file |
| Pipeline.WatchUrlRoundTrip | get_transcript.js:24 | the page fetched for an id is a link from which the same id is extracted |
| Pipeline.Outputs | get_transcript.js:63-104 | the console-line view of a run keeps only output and error lines |
| Pipeline.MetadataCaching | get_transcript.js:17-45 | a fetch happens exactly on a miss; the entry is cached exactly when it was there or a page was fetched; the cached record is the returned one; a hit returns the stored record and changes nothing; a throw yields the fallback; no other file changes |
| Pipeline.MetadataIdempotent | get_transcript.js:18-21 | cached metadata is returned again, unchanged and with no fetch, whatever the network does |
| Pipeline.DegradedRefetches | get_transcript.js:42-44 | a failed fetch returns the fallback and leaves nothing cached, so the next call fetches again |
| Pipeline.TranscriptCaching | get_transcript.js:66-103 | the subprocess is spawned exactly on a miss; a cached transcript is served verbatim; the file is written exactly on exit code 0, holding the truncated stdout; no other file changes |
| Pipeline.WrittenTranscriptBounded | get_transcript.js:98-103 | a freshly written transcript never exceeds the bound plus the marker |
| Pipeline.TranscriptIdempotent | get_transcript.js:66-69 | a written transcript is returned again, unchanged and without spawning, whatever a new run would do |
| Pipeline.OutputsConcat | get_transcript.js:63-104 | the console lines of consecutive parts of a run are the parts' console lines in order |
| Pipeline.QuietOutputs | get_transcript.js:63-104 | a run with no fetch and no spawn consists of its console lines |
| Pipeline.EmptyUrlHasNoId | get_transcript.js:49-55 | the empty argument never yields an id |
| Pipeline.RejectedArgument | get_transcript.js:48-58 | a missing or empty argument, or a link without an id, ends the run with one error line and status 1, before any fetch or spawn and with the cache untouched |
| Pipeline.SessionDispatch | get_transcript.js:54-60 | a link from which an id is extracted runs exactly the session for that id |
| Pipeline.MetadataStepSilent | get_transcript.js:17-45 | resolving metadata prints nothing and keeps the cache well formed |
| Pipeline.TranscriptStepSilent | get_transcript.js:66-103 | resolving the transcript prints nothing itself and keeps the cache well formed |
| Pipeline.OutputsAround | get_transcript.js:60-104 | console lines framed by fetches and spawns are what remains when those are dropped |
| Pipeline.FramedOutputs | get_transcript.js:60-104 | the title and duration lines between silent steps, then a last console line, are exactly the three console lines of the run |
| Pipeline.CachedSession | get_transcript.js:17-69 | with both files cached, a run prints the cached title, duration and transcript, exits 0 and changes nothing |
| Pipeline.SessionOutputs | get_transcript.js:60-104 | for an id the console shows the title line, the duration line, then the transcript (exit 0) or one error line (exit 1), and the cache stays well formed |
| Pipeline.SessionEffects | get_transcript.js:60-72 | for an id the only fetch is of its watch page and comes first; the only spawn runs the transcript tool on the id, right after the two metadata lines |
| Pipeline.SecondRunFromCache | get_transcript.js:17-69 | after a successful run for an id with cached metadata, the next run for it succeeds with the same console lines, no fetch, no spawn and no file written |
| Pipeline.FailureRespawns | get_transcript.js:85-95 | a failed transcript run writes no transcript file, so the next run for the id spawns the tool again |
| Pipeline.CacheDir.constructor | get_transcript.js:5-9 | the cache starts as the given well-formed directory with an empty log |
| Pipeline.CacheDir.ResolveMetadata | get_transcript.js:17-45 | returns, writes and logs exactly what `MetadataStep` says of the old cache, keeping it well formed |
| Pipeline.CacheDir.ResolveTranscript | get_transcript.js:61-103 | returns, writes and logs exactly what `TranscriptStepOf` says of the old cache, keeping it well formed |
| Pipeline.CacheDir.Run | get_transcript.js:47-106 | exits, writes and logs exactly what `Session` says of the old cache, keeping it well formed |
| Pipeline.CacheDir.RunVideo | get_transcript.js:60-105 | exits, writes and logs exactly what `SessionFor` says of the old cache for the id, keeping it well formed |

## Left out

- The network: the fetch at lines 24-25 is an input outcome, a throw or a page body. Nothing models timing, redirects or which page YouTube serves.
- The transcript subprocess: `python3 -m youtube_transcript_api` is an input, its exit code plus the chunks of each stream. Nothing models how `data` events interleave in time with each other.
- A spawn failure, such as `python3` missing: the source installs no `error` handler, and the model has no such outcome.
- Creating `.cache` (lines 5-9): the constructor takes the directory's initial contents. Filesystem errors are not modelled. This includes a failed metadata write at line 40, which the `catch` would turn into the fallback, and a failed transcript write at line 103, which would be an uncaught exception.
- JSON: a metadata file is modelled as the record it was written from. A corrupt or hand-edited file, which makes `JSON.parse` at line 20 throw, is excluded by the `WellFormed` invariant.
- Transcript.ConcatSplit: holds for already-decoded chunks only. The source decodes each `data` Buffer as UTF-8 on its own (`data.toString()`), so a multi-byte character split across two events becomes replacement characters; the model takes the decoded text of each event as input and does not model that decoding.
- PageScrape.FormatDuration: computes on exact integers. JavaScript converts the digit string to a double, which loses precision above 2^53 and prints exponents from 10^21.
- String length: `length`, `substring` and the regular expressions (no `u` flag) count UTF-16 code units. The model counts Unicode scalar values, so a transcript made up of characters outside the Basic Multilingual Plane is cut at a different place.
- Console output: each `console.log` or `console.error` is one `Out` or `Err` event. The newline each call appends is not represented.
- Two invocations running at once on the same directory: runs are modelled one after another.
