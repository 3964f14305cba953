# IPTV playlist tools: a Dafny model

This project models the logic of an IPTV playlist toolkit. The toolkit has
Python scripts that keep playlists in the IPTV dialect of Extended M3U up
to date. It has two JavaScript playlist readers, a small Node development
server, and two scrapers that write the day's football fixtures as JSON.

The `#EXTM3U` playlist header and the `#EXTINF` channel line are the tags
of sections 4.3.1.1 and 4.3.2.1 of RFC 8216. The scripts use them loosely:
they check no grammar, and they read attributes such as `tvg-logo`.

Each source file is one module. Three modules are shared:

- **`Text`**: the Python and JavaScript string primitives the code relies on.
- **`M3u`**: the shared line vocabulary. This covers `#EXTINF` and URL lines, source pairs, the `#EXTM3U` header, final text assembly, and the rewrite that replaces only the URL line.
- **`Picking`**: the shared candidate and score choice.

The modules that model one source file each:

- **`Daddylive`**, **`PullChannels`**, **`DaznPt`** and **`BeinUrls`**: the four updaters in `m3u-update/scripts/`. Each one parses a source playlist into `(#EXTINF, URL or None)` pairs, picks one URL per wanted channel, and rewrites a destination playlist.
- **`ExtractBein`**: the beIN line filter in `scripts/extract_beinsports.py`.
- **`WwwApp`**: `parseM3U` in `www/app.js`.
- **`PlayerApp`**: `parseM3U8` in `app.js`.
- **`Server`**: the request handler of `server.js`. A pure decision function is paired with a `ServerResponse` class whose methods update the response in place.
- **`Fixtures`**, **`Soccerway`** and **`Yallashoot`**: the shared match record and the two scrapers.

Loops in the source become Dafny methods with loop invariants. Each method
is proved equal to a recursive specification function, and the properties
are proved about those functions as lemmas.

Some things the model takes as inputs:

- **Channel regexes**: abstract predicates `string -> bool`. Regexes with a small fixed shape are modelled concretely, such as the first-comma capture, the DAZN destination regex and the English-word test.
- **Network and files**: the network, the file system and the GitHub API are parameters or left out.
- **Dates**: the date is a parameter.
- **Browser**: the browser gives its rendered tables or cards as inputs.

`BeinUrls.UpdateDest` models `update_bein_urls.py` as written, with the
defect listed under Findings. `BeinUrls.UpdateDestFixed` is the corrected
update.

## Model

| member | source | states |
|---|---|---|
| `Text.LStrip` | m3u-update/scripts/pull_channels_and_update.py:94 | the leading-whitespace removal of `strip()` never lengthens the text and leaves it empty or starting with a non-space |
| `Text.LStripSuffix` | m3u-update/scripts/pull_channels_and_update.py:94 | what is left is a suffix of the text |
| `Text.LStripRemovesSpace` | m3u-update/scripts/pull_channels_and_update.py:94 | every character removed is whitespace |
| `Text.RStrip` | m3u-update/scripts/pull_channels_and_update.py:198 | `rstrip()` never lengthens the text and leaves it empty or ending with a non-space |
| `Text.RStripPrefix` | m3u-update/scripts/pull_channels_and_update.py:198 | what is left is a prefix of the text |
| `Text.RStripRemovesSpace` | m3u-update/scripts/pull_channels_and_update.py:198 | every character removed is whitespace |
| `Text.Strip` | www/app.js:11 | `strip()` and `trim()` never lengthen the text and leave it empty or with a non-space at both ends |
| `Text.StripEmptyIffAllSpace` | m3u-update/scripts/pull_channels_and_update.py:99 | a line strips to nothing exactly when it is all whitespace, which is what the truthiness tests on stripped lines ask |
| `Text.StripChars` | www/app.js:17 | stripping adds no character |
| `Text.StripUnchanged` | app.js:31 | a text without whitespace at either end strips to itself |
| `Text.StripIdempotent` | app.js:31-35 | stripping an already stripped line changes nothing |
| `Text.ContainsAt` | m3u-update/scripts/pull_channels_and_update.py:119 | `w in s` holds when `w` is the slice of `s` at some position |
| `Text.ContainsPrefix` | m3u-update/scripts/pull_channels_and_update.py:119 | a text containing a word contains every prefix of it |
| `Text.ContainsInSuffix` | m3u-update/scripts/pull_channels_and_update.py:119 | a word found in a suffix of a text is found in the text |
| `Text.ContainsSuffix` | m3u-update/scripts/pull_channels_and_update.py:119 | a text containing a word contains every suffix of it |
| `Text.Lower` | m3u-update/scripts/pull_channels_and_update.py:118 | `lower()` keeps the length and lowercases character by character |
| `Text.Upper` | m3u-update/scripts/pull_channels_and_update.py:156 | `upper()` keeps the length and uppercases character by character |
| `Text.IndexOf` | app.js:35 | the first occurrence of a character: none before it and the character at it, or the length when absent |
| `Text.IndexOfAfter` | app.js:35 | with no occurrence among the first `m` characters the search continues after them |
| `Text.LastIndexOf` | www/app.js:15 | `lastIndexOf` gives -1 or a position holding the character, with none after it |
| `Text.LastIndexOfAt` | www/app.js:15 | a position holding the character with none after it is the last index |
| `Text.JoinSnoc` | m3u-update/scripts/pull_channels_and_update.py:198 | joining one more part appends the separator and the part |
| `Text.JoinEndsWithLast` | m3u-update/scripts/pull_channels_and_update.py:198 | a non-empty join ends with its last part |
| `Text.FirstBreak` | m3u-update/scripts/pull_channels_and_update.py:90 | the first line boundary: no boundary before it and one at it, or the length when there is none |
| `Text.SplitLines` | m3u-update/scripts/pull_channels_and_update.py:90 | `splitlines()` gives lines holding no line boundary, and no line exactly for the empty text |
| `Text.SplitOn` | app.js:26 | `split('\n')` gives at least one piece and no piece holds the separator |
| `Text.SplitOnJoin` | app.js:26 | joining the pieces back with the separator gives the text |
| `Text.SplitCrLf` | www/app.js:9 | splitting at CRLF or LF gives at least one piece and no piece holds a line feed |
| `Text.SplitCrLfWithoutCr` | www/app.js:9 | on a text without carriage returns it splits as `split('\n')` does |
| `Text.DigitChar` | scripts/scrape_yallashoot_to_json.py:21 | the digit character of a value below ten denotes it |
| `Text.Decimal` | scripts/scrape_yallashoot_to_json.py:21 | `str(n)` is a non-empty run of digits |
| `Text.DecimalRoundTrip` | scripts/scrape_yallashoot_to_json.py:21 | the digits of `str(n)` read back as `n` |
| `Text.Zeros` | scripts/scrape_yallashoot_to_json.py:21 | the padding is `k` digits |
| `Text.LeadingZerosValue` | scripts/scrape_yallashoot_to_json.py:21 | leading zeros do not change the value of a digit string |
| `Text.ZerosValue` | scripts/scrape_yallashoot_to_json.py:21 | a run of zeros denotes zero |
| `Text.ZerosSnoc` | scripts/scrape_yallashoot_to_json.py:21 | one more zero appends a zero |
| `Text.ZeroPad` | scripts/scrape_yallashoot_to_json.py:21 | `f"{n:0wd}"` is digits, `w` of them when `str(n)` is shorter and `str(n)`'s length otherwise |
| `Text.ZeroPadRoundTrip` | scripts/scrape_yallashoot_to_json.py:21 | the padded digits read back as `n` |
| `Text.ZeroPadTwoDigits` | scripts/scrape_yallashoot_to_json.py:21 | a month or day below 100 padded to width two takes exactly two digits |
| `M3u.HeaderIsNotUrl` | m3u-update/scripts/pull_channels_and_update.py:95-99 | a line whose stripped text starts with `#EXTINF` is never taken as a URL line (non-blank, not starting with `#`) |
| `M3u.UrlAfter` | m3u-update/scripts/pull_channels_and_update.py:96-100 | the URL paired with a header is present exactly when a next line exists and is a URL line, and is then that line stripped |
| `M3u.Pairs` | m3u-update/scripts/pull_channels_and_update.py:88-105 | the pair scan yields at most one pair per input line |
| `M3u.ParsePairs` | m3u-update/scripts/pull_channels_and_update.py:88-105 | the index loop over `splitlines()` returns exactly the pairs of the scan that jumps two lines after every `#EXTINF` and one otherwise (header kept verbatim here, stripped in the daddylive copy) |
| `M3u.PairAt` | m3u-update/scripts/pull_channels_and_update.py:94-104 | one pass of the loop body skips one or two lines, and the pairs it emits followed by the scan from the new cursor are exactly the scan from the current line |
| `M3u.PairsBound` | m3u-update/scripts/pull_channels_and_update.py:93-104 | because every header consumes two lines, twice the number of pairs is at most the number of lines plus one |
| `M3u.HeaderAfterHeaderSkipped` | m3u-update/scripts/pull_channels_and_update.py:95-103 | an `#EXTINF` directly after another is swallowed as the first one's (absent) URL line and never read as a header itself |
| `M3u.PairOfHeaderShift` | m3u-update/scripts/pull_channels_and_update.py:93-104 | the pair a header gives does not depend on lines before it |
| `M3u.PairsComeFromHeaders` | m3u-update/scripts/pull_channels_and_update.py:93-104 | every pair returned comes from some `#EXTINF` line of the input and the line after it |
| `M3u.PairOfHeaderOk` | m3u-update/scripts/pull_channels_and_update.py:95-101 | the pair a header gives records an `#EXTINF` text and, when it has a URL, a URL-line URL |
| `M3u.PairsOk` | m3u-update/scripts/pull_channels_and_update.py:88-105 | every pair returned is well formed in that sense |
| `M3u.NoHeadersNoPairs` | m3u-update/scripts/pull_channels_and_update.py:93-104 | a playlist without `#EXTINF` lines yields no pairs |
| `M3u.LiteralHeader` | m3u-update/scripts/pull_channels_and_update.py:156-157 | the inserted literal `#EXTM3U` is itself recognised as a header line |
| `M3u.WithHeader` | m3u-update/scripts/pull_channels_and_update.py:156-157 | the result starts with an `#EXTM3U` header; the lines are kept as they are exactly when they already start with one, otherwise `#EXTM3U` is prepended |
| `M3u.HeaderedLines` | m3u-update/scripts/pull_channels_and_update.py:155-157 | the destination lines after the header fix are non-empty and start with an `#EXTM3U` line |
| `M3u.M3uHeaderKind` | m3u-update/scripts/pull_channels_and_update.py:156-165 | an `#EXTM3U` line is neither an `#EXTINF` line nor a URL line, nor blank |
| `M3u.FinishText` | m3u-update/scripts/pull_channels_and_update.py:198 | `"\n".join(out).rstrip() + "\n"` ends in a newline with no whitespace before it |
| `M3u.JoinLines` | m3u-update/scripts/pull_match_football_from_daddylive.py:231 | `"\n".join(out) + "\n"` ends in a newline |
| `M3u.CommaRest` | m3u-update/scripts/pull_match_football_from_daddylive.py:105-107 | the text after the first comma: absent exactly when there is no comma, otherwise what follows the leftmost comma |
| `M3u.FirstWhere` | m3u-update/scripts/pull_channels_and_update.py:166-170 | the first index satisfying the test, with no earlier index satisfying it; absent exactly when no index does |
| `M3u.FirstWhereSnoc` | m3u-update/scripts/pull_channels_and_update.py:166-170 | growing the list by one element keeps an earlier first match, and otherwise the first match is the new element when it passes the test |
| `M3u.FirstMaxIndex` | m3u-update/scripts/pull_channels_and_update.py:141 | the element `sorted(..., reverse=True)[0]` takes (the sort is stable): a highest score, with every earlier score strictly lower |
| `M3u.StepSkip` | m3u-update/scripts/pull_channels_and_update.py:172-196 | one iteration consumes one line, or two when a picked header is followed by a URL line |
| `M3u.StepLines` | m3u-update/scripts/pull_channels_and_update.py:172-196 | one iteration writes the line it is on first, unchanged |
| `M3u.ReplaceAt` | m3u-update/scripts/pull_channels_and_update.py:163-196 | the rewrite from line `i` never drops lines: it writes at least as many as remain |
| `M3u.NoUpdatesIffUnchanged` | m3u-update/scripts/pull_channels_and_update.py:178-193 | the update counter is zero exactly when the rewritten lines equal the input lines (a same-URL replacement counts nothing and changes nothing; an insertion always counts) |
| `M3u.UnchangedStep` | m3u-update/scripts/pull_channels_and_update.py:178-193 | a step followed by the rest leaves the lines unchanged exactly when the step counts no update and the rest leaves its lines unchanged |
| `M3u.NonUrlLinesAppend` | m3u-update/scripts/pull_channels_and_update.py:163-196 | the non-URL lines of a concatenation are those of its parts |
| `M3u.ReplaceKeepsNonUrlLines` | m3u-update/scripts/pull_channels_and_update.py:163-196 | when every new URL is a URL line, the rewrite only replaces or inserts URL lines: the sequence of all other lines is unchanged |
| `M3u.WrittenLikeConsumed` | m3u-update/scripts/pull_channels_and_update.py:172-196 | one iteration writes the same non-URL lines as it consumes |
| `M3u.NonUrlLinesAfterUrl` | m3u-update/scripts/pull_channels_and_update.py:178-186 | a replaced URL line contributes no non-URL line |
| `M3u.ReplaceNothingPicked` | m3u-update/scripts/pull_channels_and_update.py:163-196 | with no new URL for any line the rewrite is the identity with zero updates |
| `Picking.EnglishExamples` | m3u-update/scripts/pull_channels_and_update.py:138 | example: the English-tag regex finds `en` as a separate word but not at the start of `entertainment` |
| `Picking.QualityScore` | m3u-update/scripts/pull_channels_and_update.py:137-138 | the quality-and-language part of a score is at most 3, is at least 2 exactly when the lowercased header has a quality marker, and is odd exactly when it has an English tag |
| `Picking.CandidatesAreEligible` | m3u-update/scripts/pull_channels_and_update.py:121-126 | a channel's candidates are exactly the source pairs with a URL whose header one of the channel's source patterns hits |
| `Picking.HasCandidateIffEligible` | m3u-update/scripts/pull_channels_and_update.py:129-131 | a channel has candidates exactly when some source pair is eligible |
| `Picking.Scores` | m3u-update/scripts/pull_channels_and_update.py:133-141 | one score per candidate |
| `Picking.ScoresAt` | m3u-update/scripts/pull_channels_and_update.py:133-141 | the score at position `u` is the score of candidate `u`'s header |
| `Picking.Best` | m3u-update/scripts/pull_channels_and_update.py:141 | the index of the first candidate with the highest score |
| `Picking.BestUnique` | m3u-update/scripts/pull_channels_and_update.py:141 | only one index is the first highest score |
| `Picking.PickForSomeIffEligible` | m3u-update/scripts/pull_channels_and_update.py:128-142 | a channel gets a URL exactly when some source pair is eligible for it |
| `Picking.PickForBest` | m3u-update/scripts/pull_channels_and_update.py:141-142 | a picked URL is the URL of the first highest-scoring candidate |
| `Picking.PickForFromSource` | m3u-update/scripts/pull_channels_and_update.py:121-142 | a picked URL is the URL of an eligible source pair |
| `Picking.SearchAny` | m3u-update/scripts/pull_channels_and_update.py:107-109 | the loop over patterns answers `any(p.search(extinf) for p in pats)` |
| `PullChannels.WantedDistinct` | m3u-update/scripts/pull_channels_and_update.py:46-51 | the four wanted channel names are pairwise different, so the dictionaries keyed by them have four entries |
| `PullChannels.FlagIsMarker` | m3u-update/scripts/pull_channels_and_update.py:117-119 | a text has the UK tag exactly when its lowercased form contains one of the five markers: the flag test after the lowercase test adds nothing |
| `PullChannels.LowerKeepsFlag` | m3u-update/scripts/pull_channels_and_update.py:118-119 | lowercasing keeps the flag emoji wherever the text has it |
| `PullChannels.Score` | m3u-update/scripts/pull_channels_and_update.py:133-139 | the score is at most 8, and at least 5 exactly when the lowercased `#EXTINF` text has a UK tag |
| `PullChannels.UkOutscores` | m3u-update/scripts/pull_channels_and_update.py:136-138 | a candidate with a UK tag scores above one without, whatever their quality and language |
| `PullChannels.ScoreWithoutUk` | m3u-update/scripts/pull_channels_and_update.py:137-138 | without a UK tag the score is 2 for a quality marker plus 1 for an English word |
| `PullChannels.PickedBestKeys` | m3u-update/scripts/pull_channels_and_update.py:121-142 | `pick_wanted` returns only wanted channels, and a wanted channel exactly when some source pair with a URL matches one of its patterns |
| `PullChannels.PickedBestValues` | m3u-update/scripts/pull_channels_and_update.py:141-142 | the URL picked for a channel is that of its first best-scoring candidate |
| `PullChannels.AddCandidate` | m3u-update/scripts/pull_channels_and_update.py:124-126 | after the pair `i` every wanted channel holds its candidates among the first `i + 1` pairs |
| `PullChannels.CollectCandidates` | m3u-update/scripts/pull_channels_and_update.py:115-126 | after the first loop every wanted channel holds, in pair order, all the pairs with a URL that match it |
| `PullChannels.PickEach` | m3u-update/scripts/pull_channels_and_update.py:128-142 | the second loop picks only listed channels, and for each the best-scoring candidate when it has any and nothing otherwise |
| `PullChannels.PickStep` | m3u-update/scripts/pull_channels_and_update.py:130-142 | one pass over a channel stores the best-scoring candidate when the list is non-empty and nothing otherwise, and leaves the picks of the earlier channels as they were |
| `PullChannels.PickWanted` | m3u-update/scripts/pull_channels_and_update.py:111-148 | `pick_wanted` returns the best candidate URL of every wanted channel that has candidates |
| `PullChannels.HoldsEverywhere` | m3u-update/scripts/pull_channels_and_update.py:128-142 | a dictionary holding, for every wanted channel and only for them, its pick is the picked dictionary |
| `PullChannels.PickedAreSourceUrls` | m3u-update/scripts/pull_channels_and_update.py:99-100 | every picked URL is the URL of a source pair, so a stripped URL line when the pairs are parsed from a playlist |
| `PullChannels.NewUrl` | m3u-update/scripts/pull_channels_and_update.py:165-175 | a URL is written after a line only when it is an `#EXTINF` line, and it is the picked URL of some channel |
| `PullChannels.NewUrls` | m3u-update/scripts/pull_channels_and_update.py:163-172 | one decision per destination line |
| `PullChannels.NewUrlsAt` | m3u-update/scripts/pull_channels_and_update.py:163-172 | the decision for line `k` depends on line `k` alone |
| `PullChannels.MatchDest` | m3u-update/scripts/pull_channels_and_update.py:166-170 | the loop over the destination patterns finds the first wanted channel whose pattern matches, and none exactly when no pattern does |
| `PullChannels.RewriteLine` | m3u-update/scripts/pull_channels_and_update.py:164-196 | one iteration emits the lines, skips the line count and adds the update count of the specified step |
| `PullChannels.RewriteLines` | m3u-update/scripts/pull_channels_and_update.py:159-196 | the loop gives the lines and count of replacing the URL line after each matched `#EXTINF` by its picked URL, or inserting it there |
| `PullChannels.RewriteStep` | m3u-update/scripts/pull_channels_and_update.py:164-196 | one pass of the loop body moves the output and the update count from the rewrite of the lines before the cursor to the rewrite of the lines before the new cursor |
| `PullChannels.UpdateDestUrlsOnly` | m3u-update/scripts/pull_channels_and_update.py:150-198 | the returned text is the rewritten header-fixed lines joined by newlines, right-stripped and ended by one newline, with the count of the rewrite |
| `PullChannels.DestKeepsHeader` | m3u-update/scripts/pull_channels_and_update.py:155-157 | the first output line is the `#EXTM3U` header, inserted when the destination lacks it |
| `PullChannels.DestKeepsNonUrlLines` | m3u-update/scripts/pull_channels_and_update.py:172-196 | when every picked URL is a URL line, the lines that are not URL lines, every `#EXTINF` among them, are those of the destination in order: no channel is added and no name changed |
| `PullChannels.DestNoUpdatesIffUnchanged` | m3u-update/scripts/pull_channels_and_update.py:178-193 | the count is zero exactly when the header-fixed destination comes out unchanged |
| `PullChannels.DestNothingPicked` | m3u-update/scripts/pull_channels_and_update.py:172 | with nothing picked the destination is only given its header, with no update |
| `Daddylive.WantedDistinct` | m3u-update/scripts/pull_match_football_from_daddylive.py:51-55 | the three wanted channel names are distinct |
| `Daddylive.GroupSkipsSpaces` | m3u-update/scripts/pull_match_football_from_daddylive.py:105 | the leftmost-match search for `#EXTINF[^,]*,(.*)$` passes over positions where no `#EXTINF` starts |
| `Daddylive.GroupWithoutComma` | m3u-update/scripts/pull_match_football_from_daddylive.py:105 | without a comma after the search position the regex finds nothing |
| `Daddylive.HeaderOffset` | m3u-update/scripts/pull_match_football_from_daddylive.py:172 | an `#EXTINF` line is leading whitespace followed by `#EXTINF` |
| `Daddylive.LowerExtinf` | m3u-update/scripts/pull_match_football_from_daddylive.py:105 | the case-insensitive match of `#EXTINF` compares against `#extinf` |
| `Daddylive.NoCommaBeforeName` | m3u-update/scripts/pull_match_football_from_daddylive.py:105 | no comma occurs before the end of the `#EXTINF` of a header line |
| `Daddylive.ExtinfGroupOnHeader` | m3u-update/scripts/pull_match_football_from_daddylive.py:105-107 | on an `#EXTINF` line the regex group is exactly the text after the first comma, and there is no match without a comma |
| `Daddylive.MatchTextOnHeader` | m3u-update/scripts/pull_match_football_from_daddylive.py:102-107 | the alias patterns are tried on the text after the first comma of the header, or on the whole header when it has no comma |
| `Daddylive.FindFirstMatch` | m3u-update/scripts/pull_match_football_from_daddylive.py:102-111 | the loop returns true exactly when some pattern hits the matched text |
| `Daddylive.PickedCleanMeaning` | m3u-update/scripts/pull_match_football_from_daddylive.py:113-130 | only wanted channels are picked; each is picked exactly when some source pair with a URL matches its aliases, and then carries the clean header `#EXTINF:-1,<name>` and the URL of the first such pair |
| `Daddylive.SkipPairWithoutUrl` | m3u-update/scripts/pull_match_football_from_daddylive.py:121-122 | a pair without a URL changes no channel's pick |
| `Daddylive.PickFromPair` | m3u-update/scripts/pull_match_football_from_daddylive.py:123-129 | the inner loop keeps picks made earlier and adds the channels this pair supplies first |
| `Daddylive.AgreeStep` | m3u-update/scripts/pull_match_football_from_daddylive.py:124-129 | trying one channel against one pair extends the agreement with the specified picks by that pair |
| `Daddylive.AgreesOnFrame` | m3u-update/scripts/pull_match_football_from_daddylive.py:124-129 | agreement on a channel depends only on that channel's entry |
| `Daddylive.PickWantedClean` | m3u-update/scripts/pull_match_football_from_daddylive.py:113-130 | the nested loops return exactly the specified picks |
| `Daddylive.AgreesEverywhere` | m3u-update/scripts/pull_match_football_from_daddylive.py:119-130 | a map that agrees on every wanted channel and holds no other key is the specified pick map |
| `Daddylive.FirstHit` | m3u-update/scripts/pull_match_football_from_daddylive.py:179-184 | the first wanted channel whose aliases hit the display name or the line; absent exactly when none does |
| `Daddylive.Recognised` | m3u-update/scripts/pull_match_football_from_daddylive.py:171-184 | only `#EXTINF` lines are assigned a channel, and only a wanted one |
| `Daddylive.RecogniseHeader` | m3u-update/scripts/pull_match_football_from_daddylive.py:172-184 | the loop with `break` assigns the line the first channel whose aliases hit it |
| `Daddylive.Classify` | m3u-update/scripts/pull_match_football_from_daddylive.py:170-184 | one entry per destination line |
| `Daddylive.ClassifyAt` | m3u-update/scripts/pull_match_football_from_daddylive.py:170-184 | the entry for line `k` is the channel recognised on line `k` |
| `Daddylive.ClassifyOnHeaders` | m3u-update/scripts/pull_match_football_from_daddylive.py:172-173 | only `#EXTINF` lines are classified |
| `Daddylive.BuildIndex` | m3u-update/scripts/pull_match_football_from_daddylive.py:170-184 | `idx_to_official` holds exactly the recognised lines, each mapped to its channel |
| `Daddylive.Emit` | m3u-update/scripts/pull_match_football_from_daddylive.py:194-197 | a picked entry is written as its header, followed by its URL when it has one |
| `Daddylive.RenderAt` | m3u-update/scripts/pull_match_football_from_daddylive.py:186-210 | every channel marked as used was picked |
| `Daddylive.AppendFromExtends` | m3u-update/scripts/pull_match_football_from_daddylive.py:213-225 | the append loop only adds lines after what was written |
| `Daddylive.DropTrailingBlank` | m3u-update/scripts/pull_match_football_from_daddylive.py:228-229 | the result is no longer than the input and does not end in a blank line |
| `Daddylive.DropTrailingBlankPrefix` | m3u-update/scripts/pull_match_football_from_daddylive.py:228-229 | the result is a prefix of the input and everything removed is blank |
| `Daddylive.RewriteInPlace` | m3u-update/scripts/pull_match_football_from_daddylive.py:186-210 | the second loop produces exactly the specified lines and `used` set |
| `Daddylive.AppendMissing` | m3u-update/scripts/pull_match_football_from_daddylive.py:213-225 | the third loop produces exactly the specified appended lines |
| `Daddylive.RenderUpdated` | m3u-update/scripts/pull_match_football_from_daddylive.py:156-231 | the returned text is the lines `RenderLines` specifies joined with newlines plus a final newline; their layout is stated by `Daddylive.RenderLinesLayout` |
| `Daddylive.DropKeepsNonBlank` | m3u-update/scripts/pull_match_football_from_daddylive.py:228-229 | a non-blank line keeps its place through the trailing-blank removal |
| `Daddylive.RenderStartsWithHeader` | m3u-update/scripts/pull_match_football_from_daddylive.py:165-231 | the rendered lines start with an `#EXTM3U` header and never end in a blank line |
| `Daddylive.RenderKeepsFirstLine` | m3u-update/scripts/pull_match_football_from_daddylive.py:189-210 | an `#EXTM3U` first line stays first through the rewrite, the appends and the clean-up |
| `Daddylive.PlainLinesAppend` | m3u-update/scripts/pull_match_football_from_daddylive.py:186-210 | the plain lines of a concatenation are those of its parts |
| `Daddylive.EmitHasNoPlainLine` | m3u-update/scripts/pull_match_football_from_daddylive.py:194-197 | the lines written for a well-formed pick hold no comment, directive or blank line |
| `Daddylive.RenderKeepsPlainLines` | m3u-update/scripts/pull_match_football_from_daddylive.py:186-210 | the in-place rewrite keeps every comment, directive and blank line, in order |
| `Daddylive.ReplacedEntryKeepsPlainLines` | m3u-update/scripts/pull_match_football_from_daddylive.py:193-204 | replacing one entry keeps the plain lines of the rest |
| `Daddylive.OldEntryHasNoPlainLine` | m3u-update/scripts/pull_match_football_from_daddylive.py:199-203 | the old header and the URL line skipped after it are not plain lines |
| `Daddylive.RenderUntouched` | m3u-update/scripts/pull_match_football_from_daddylive.py:189-210 | when no recognised line has a pick, every line is copied and nothing is used |
| `Daddylive.AppendNothing` | m3u-update/scripts/pull_match_football_from_daddylive.py:213-218 | when every name is used or unpicked nothing is appended |
| `Daddylive.RenderNothingPicked` | m3u-update/scripts/pull_match_football_from_daddylive.py:163-229 | with nothing picked the destination only gets its header and loses its trailing blank lines |
| `Daddylive.UsedAreWritten` | m3u-update/scripts/pull_match_football_from_daddylive.py:190-198 | every channel written in place has its clean header in the output |
| `Daddylive.AppendWritesMissing` | m3u-update/scripts/pull_match_football_from_daddylive.py:213-225 | every picked channel not yet written is appended with its header |
| `Daddylive.RenderContainsPicked` | m3u-update/scripts/pull_match_football_from_daddylive.py:156-231 | every channel picked from the source appears in the rendered output with its clean header `#EXTINF:-1,<name>` |
| `Daddylive.GroupWithComma` | m3u-update/scripts/pull_match_football_from_daddylive.py:105 | where an `#EXTINF` starts with no comma before its end and a comma after it, the regex group is the text after the line's first comma |
| `Daddylive.GroupNoComma` | m3u-update/scripts/pull_match_football_from_daddylive.py:105 | with no comma anywhere the regex finds nothing, and the line has no text after a first comma |
| `Daddylive.IndexStep` | m3u-update/scripts/pull_match_football_from_daddylive.py:171-184 | one pass of the first loop enters line `i` into `idx_to_official` exactly when it is recognised, mapped to its channel, and keeps earlier entries |
| `Daddylive.CleanIsHeader` | m3u-update/scripts/pull_match_football_from_daddylive.py:128 | the clean header `#EXTINF:-1,<name>` of a wanted channel is an `#EXTINF` line |
| `Daddylive.PickedCleanWellFormed` | m3u-update/scripts/pull_match_football_from_daddylive.py:113-130 | when every source URL is a URL line, every pick is a clean `#EXTINF` header with a URL line |
| `Daddylive.EmitEndsNonBlank` | m3u-update/scripts/pull_match_football_from_daddylive.py:194-197 | the lines written for a well-formed pick end in a non-blank line |
| `Daddylive.RenderStep` | m3u-update/scripts/pull_match_football_from_daddylive.py:189-210 | one pass of the rewrite loop writes the pieces of the lines it consumes (one, or two when it skips the old URL line) and stops at a line that is not skipped |
| `Daddylive.NextScan` | m3u-update/scripts/pull_match_football_from_daddylive.py:199-203 | the rewrite never resumes at the old URL line it skipped |
| `Daddylive.UsedStep` | m3u-update/scripts/pull_match_football_from_daddylive.py:190-203 | one pass adds the channel of a recognised `#EXTINF` with a pick to `used`, and nothing otherwise |
| `Daddylive.RenderPieces` | m3u-update/scripts/pull_match_football_from_daddylive.py:189-210 | from a scan position on, the rewrite writes the pieces of the remaining lines in line order |
| `Daddylive.RenderIsPieces` | m3u-update/scripts/pull_match_football_from_daddylive.py:186-210 | the rewrite loop writes the `Pieces` of all lines: for each line in order the picked entry, nothing for a skipped URL line, or the line itself |
| `Daddylive.PieceAt` | m3u-update/scripts/pull_match_football_from_daddylive.py:189-210 | the piece of line `k` sits in the rewritten lines at the offset of the pieces before it |
| `Daddylive.PiecesOrder` | m3u-update/scripts/pull_match_football_from_daddylive.py:189-210 | the pieces of later lines start after the piece of line `k` ends |
| `Daddylive.RenderKeepsLine` | m3u-update/scripts/pull_match_football_from_daddylive.py:205-210 | a line that is neither a recognised `#EXTINF` with a pick nor the old URL line after one is copied, at the offset of the pieces before it |
| `Daddylive.RenderKeepsOrder` | m3u-update/scripts/pull_match_football_from_daddylive.py:189-210 | kept lines keep their order: for `k < m` the copy of line `k` comes before the copy of line `m` |
| `Daddylive.RenderPlacesPick` | m3u-update/scripts/pull_match_football_from_daddylive.py:190-204 | a recognised `#EXTINF` whose channel was picked is replaced in place by the picked header and URL |
| `Daddylive.UsedComplete` | m3u-update/scripts/pull_match_football_from_daddylive.py:190-198 | every picked channel of a recognised `#EXTINF` at or after a scan position is marked as used |
| `Daddylive.UsedWitness` | m3u-update/scripts/pull_match_football_from_daddylive.py:190-198 | every channel marked as used was picked and is the channel of some recognised `#EXTINF` |
| `Daddylive.UsedMeaning` | m3u-update/scripts/pull_match_football_from_daddylive.py:186-210 | `used` holds exactly the picked channels that some recognised `#EXTINF` names |
| `Daddylive.Missing` | m3u-update/scripts/pull_match_football_from_daddylive.py:213-218 | the names the append loop writes are wanted, picked and not used |
| `Daddylive.AdjoinOne` | m3u-update/scripts/pull_match_football_from_daddylive.py:219-225 | appending one missing channel before a block adjoins that channel's separator, marker and entry followed by the block |
| `Daddylive.AppendBlocks` | m3u-update/scripts/pull_match_football_from_daddylive.py:212-225 | the append loop adds, in `WANTED_CHANNELS` order, for each picked name not used a blank separator, the `# --- <name> ---` marker and the picked entry, leaving out the first separator when the output is empty or ends in a blank line |
| `Daddylive.BlocksEnd` | m3u-update/scripts/pull_match_football_from_daddylive.py:219-225 | a non-empty appended block has at least two lines and ends in a non-blank line |
| `Daddylive.BlocksLast` | m3u-update/scripts/pull_match_football_from_daddylive.py:219-225 | a non-empty appended block ends with the last line of its last channel's entry |
| `Daddylive.WrittenSomewhere` | m3u-update/scripts/pull_match_football_from_daddylive.py:186-229 | a picked wanted channel with a non-blank header is written in place or appended, and survives the clean-up |
| `Daddylive.LayoutOf` | m3u-update/scripts/pull_match_football_from_daddylive.py:186-229 | the final lines are the pieces of the lines, followed by the block of the missing channels, or with no block the pieces without their trailing blank lines |
| `Daddylive.RenderLinesLayout` | m3u-update/scripts/pull_match_football_from_daddylive.py:163-229 | `render_updated` writes the header-fixed lines' pieces in line order, then the block of the picked channels not written in place in `WANTED_CHANNELS` order; only with nothing appended are trailing blank lines removed |
| `Daddylive.RenderLinesKeepsLine` | m3u-update/scripts/pull_match_football_from_daddylive.py:163-229 | every non-blank line kept by the rewrite appears in the result at the offset of the pieces before it |
| `DaznPt.WantedByNum` | m3u-update/scripts/update_dazn_pt.py:40-44 | `wanted_by_num` (line 120) inverts `WANTED`: destination `DAZN n` is fed from the `n`-th wanted source channel, and the three source names are distinct |
| `DaznPt.PickedFromSourceKeys` | m3u-update/scripts/update_dazn_pt.py:85-105 | only wanted channels are picked, each exactly when some source pair with a URL matches one of its patterns |
| `DaznPt.PickedFromSourceValues` | m3u-update/scripts/update_dazn_pt.py:96-105 | a picked URL is that of the first candidate with the highest quality-and-language score |
| `DaznPt.CollectFor` | m3u-update/scripts/update_dazn_pt.py:89-94 | the inner loop collects exactly the eligible source pairs, in source order |
| `DaznPt.PickFromSource` | m3u-update/scripts/update_dazn_pt.py:85-110 | the loop over `WANTED` returns exactly the specified picks |
| `DaznPt.PickNames` | m3u-update/scripts/update_dazn_pt.py:87-105 | over distinct wanted names, the result holds a name exactly when its pick exists, with that pick's URL, and no other key |
| `DaznPt.PickOne` | m3u-update/scripts/update_dazn_pt.py:88-105 | one pass stores the best candidate of the channel, if it has any, and keeps the picks of the channels before |
| `DaznPt.PickedKept` | m3u-update/scripts/update_dazn_pt.py:105 | storing one channel's pick keeps the picks of the channels handled before |
| `DaznPt.DestNum` | m3u-update/scripts/update_dazn_pt.py:129-133 | the matched number is the first of 1, 2, 3 whose destination regex matches, and is absent exactly when none does |
| `DaznPt.DestPatternExclusive` | m3u-update/scripts/update_dazn_pt.py:59 | a line matches the destination regex of at most one number, so the order of `dest_pats` does not matter |
| `DaznPt.OtherNumbersUntouched` | m3u-update/scripts/update_dazn_pt.py:38-39 | lines of `DAZN 0` and `DAZN 4` to `DAZN 9` match no destination pattern |
| `DaznPt.DestDigitPlain` | m3u-update/scripts/update_dazn_pt.py:58-59 | the documented shape `#EXTINF:-1,DAZN n` is read as number `n` |
| `DaznPt.DestExampleOne` | m3u-update/scripts/update_dazn_pt.py:58-59 | example: `#EXTINF:-1,DAZN 1` is matched as `DAZN 1` |
| `DaznPt.DestExampleFour` | m3u-update/scripts/update_dazn_pt.py:38-39 | example: `#EXTINF:-1,DAZN 4` is left alone |
| `DaznPt.NewUrl` | m3u-update/scripts/update_dazn_pt.py:128-139 | a URL is written after a line only when it is an `#EXTINF` of `DAZN 1` to `DAZN 3` whose source channel was picked, and it is that pick |
| `DaznPt.NewUrls` | m3u-update/scripts/update_dazn_pt.py:126-139 | one entry per destination line |
| `DaznPt.NewUrlsAt` | m3u-update/scripts/update_dazn_pt.py:126-139 | the entry for line `k` is the URL written after line `k` |
| `DaznPt.MatchDestNum` | m3u-update/scripts/update_dazn_pt.py:129-133 | the loop with `break` over `dest_pats` finds the specified number |
| `DaznPt.RewriteLine` | m3u-update/scripts/update_dazn_pt.py:127-159 | one iteration writes, consumes and counts exactly what the shared rewrite step specifies |
| `DaznPt.RewriteLines` | m3u-update/scripts/update_dazn_pt.py:122-159 | the loop over the header-fixed lines returns the specified rewrite and update count |
| `DaznPt.RewriteStep` | m3u-update/scripts/update_dazn_pt.py:127-159 | one pass of the loop body moves the output and the update count from the rewrite of the lines before the cursor to the rewrite of the lines before the new cursor |
| `DaznPt.UpdateDestUrlsOnly` | m3u-update/scripts/update_dazn_pt.py:112-161 | the text is the rewritten lines joined, right-stripped and ended by a newline, and the count is the rewrite's update count |
| `DaznPt.OnlyDaznOneToThree` | m3u-update/scripts/update_dazn_pt.py:128-137 | only the URL after an `#EXTINF` of `DAZN 1` to `DAZN 3` with a picked source channel is ever written |
| `DaznPt.DestKeepsNonUrlLines` | m3u-update/scripts/update_dazn_pt.py:126-159 | when every pick is a URL line no channel is added and every non-URL line, each `#EXTINF` among them, stays in place and in order |
| `DaznPt.DestNoUpdatesIffUnchanged` | m3u-update/scripts/update_dazn_pt.py:141-156 | the returned count is zero exactly when the header-fixed destination comes out unchanged |
| `DaznPt.DestNothingPicked` | m3u-update/scripts/update_dazn_pt.py:135-159 | with none of the three source channels picked, the header-fixed destination is copied with zero updates |
| `DaznPt.NothingToWrite` | m3u-update/scripts/update_dazn_pt.py:135-137 | with none of the three source channels picked, no line gets a new URL |
| `DaznPt.DestKeepsHeader` | m3u-update/scripts/update_dazn_pt.py:113-115 | the first output line is the destination's own or the inserted `#EXTM3U` header |
| `BeinUrls.NamesDistinct` | m3u-update/scripts/update_bein_urls.py:24-29 | the four channel names are distinct |
| `BeinUrls.Compact` | m3u-update/scripts/update_bein_urls.py:37 | compacting never adds lines |
| `BeinUrls.CompactMeaning` | m3u-update/scripts/update_bein_urls.py:37 | the compacted lines are exactly the stripped non-blank input lines, each non-empty and already stripped |
| `BeinUrls.CompactStripped` | m3u-update/scripts/update_bein_urls.py:37 | every compacted line is non-empty and stripped |
| `BeinUrls.CompactTests` | m3u-update/scripts/update_bein_urls.py:41-42 | on a compacted line the shared header and URL tests are the plain `startswith("#EXTINF")` and not-`startswith("#")` tests of this script |
| `BeinUrls.ParsePairs` | m3u-update/scripts/update_bein_urls.py:36-47 | the loop returns the shared pair scan over the compacted lines |
| `BeinUrls.ParsedPairsOk` | m3u-update/scripts/update_bein_urls.py:36-47 | every pair holds a stripped `#EXTINF` line and, when present, a stripped URL line |
| `BeinUrls.Extinfs` | m3u-update/scripts/update_bein_urls.py:52 | the `#EXTINF` texts of the pairs, position by position |
| `BeinUrls.PickedUrlsMeaning` | m3u-update/scripts/update_bein_urls.py:49-57 | a channel is picked exactly when some source header matches its regex, and gets the URL (possibly `None`) of the first such pair |
| `BeinUrls.PickStep` | m3u-update/scripts/update_bein_urls.py:53-56 | the inner loop extends the picks by one pair and keeps earlier picks |
| `BeinUrls.PickUrls` | m3u-update/scripts/update_bein_urls.py:49-57 | the nested loops return exactly the specified picks |
| `BeinUrls.PickedAll` | m3u-update/scripts/update_bein_urls.py:51-57 | a map that agrees with the picks on every channel and holds no other key is the pick map |
| `BeinUrls.Skip` | m3u-update/scripts/update_bein_urls.py:63-80 | one iteration consumes one line, or two for a named `#EXTINF` followed by a line not starting with `#` |
| `BeinUrls.UnwrapMeaning` | m3u-update/scripts/update_bein_urls.py:81 | the join succeeds exactly when no entry is `None`, and then joins the entries in order |
| `BeinUrls.MatchChannel` | m3u-update/scripts/update_bein_urls.py:68-72 | the loop with `break` finds the first name, in `MAP` order, that occurs in the line |
| `BeinUrls.DestLine` | m3u-update/scripts/update_bein_urls.py:64-80 | one iteration appends and consumes exactly what the as-written code does |
| `BeinUrls.UpdateDest` | m3u-update/scripts/update_bein_urls.py:59-81 | the result is the join of the as-written entries `OutAt`, and equally of `WrittenFrom`: line by line each line's `NewEntry`, a dangling named `#EXTINF` a second time; the join fails when an entry is `None` |
| `BeinUrls.DestLines` | m3u-update/scripts/update_bein_urls.py:61-80 | the loop produces exactly the specified output entries |
| `BeinUrls.DestStep` | m3u-update/scripts/update_bein_urls.py:64-80 | one pass of the loop body advances the cursor and extends the output from the specified entries of the lines before the old cursor to those before the new one |
| `BeinUrls.OutAtStep` | m3u-update/scripts/update_bein_urls.py:63-80 | the entries from line `i` on are what one pass appends followed by the entries from the next cursor |
| `BeinUrls.SkipTwoWhenNamed` | m3u-update/scripts/update_bein_urls.py:65-67 | a named `#EXTINF` followed by a line not starting with `#` makes the pass take two lines |
| `BeinUrls.Somes` | m3u-update/scripts/update_bein_urls.py:79 | every line copied, in order |
| `BeinUrls.SomesSplit` | m3u-update/scripts/update_bein_urls.py:79 | copying a concatenation copies its parts |
| `BeinUrls.NoNamedLinesCopied` | m3u-update/scripts/update_bein_urls.py:63-80 | a destination without named `#EXTINF` lines is copied unchanged |
| `BeinUrls.NoMissingUrlNoFailure` | m3u-update/scripts/update_bein_urls.py:73-81 | when every pick has a URL no output entry is missing, so the join succeeds |
| `BeinUrls.MissingUrlFails` | m3u-update/scripts/update_bein_urls.py:56-81 | a pick stored without URL that replaces a destination URL makes the join fail |
| `BeinUrls.NamedSix` | m3u-update/scripts/update_bein_urls.py:5 | example: `#EXTINF:-1,beIN SPORTS 6` is a named line of `beIN SPORTS 6` |
| `BeinUrls.DuplicatedHeader` | m3u-update/scripts/update_bein_urls.py:65-80 | as written, a named `#EXTINF` that is the last line is appended twice, even with nothing picked |
| `BeinUrls.FixedNothingPicked` | m3u-update/scripts/update_bein_urls.py:63-80 | with the named line written once, an update with nothing picked copies every line unchanged |
| `BeinUrls.FixedAgreesOtherwise` | m3u-update/scripts/update_bein_urls.py:65-80 | the corrected loop differs from the code as written only on a named `#EXTINF` not followed by a URL line |
| `BeinUrls.UpdateDestFixed` | m3u-update/scripts/update_bein_urls.py:59-81 | the evidently intended `update_dest` for any picks: the join of one entry per line, each line's `NewEntry`; it succeeds exactly when no entry is `None`; with nothing picked it writes the playlist back line for line |
| `BeinUrls.PairAt` | m3u-update/scripts/update_bein_urls.py:41-46 | one pass of the `parse_pairs` loop appends the pair (or nothing) the pair scan gives at the cursor and advances one or two lines |
| `BeinUrls.Unwrap` | m3u-update/scripts/update_bein_urls.py:81 | a successful unwrap has one line per entry |
| `BeinUrls.UnwrapSomes` | m3u-update/scripts/update_bein_urls.py:79-81 | entries that are all copied lines unwrap to those lines |
| `BeinUrls.SkipConsumes` | m3u-update/scripts/update_bein_urls.py:65-78 | a pass takes two lines exactly when the next line is consumed by a named `#EXTINF`, and the line after that is then not consumed |
| `BeinUrls.FixedEntrywise` | m3u-update/scripts/update_bein_urls.py:63-80 | the evidently intended loop writes one entry per line: the `k`-th entry is line `k`'s `NewEntry`, so `#` lines and lines not consumed are copied in order and each consumed URL line is replaced by its channel's pick when one exists |
| `BeinUrls.FixedCopies` | m3u-update/scripts/update_bein_urls.py:63-80 | for any pick map, the evidently intended loop keeps every `#` line, every line it does not consume, and every consumed URL line whose channel has no pick, unchanged at its own index |
| `BeinUrls.FixedEntries` | m3u-update/scripts/update_bein_urls.py:63-80 | one entry per line, the `k`-th being line `k`'s `NewEntry` |
| `BeinUrls.AsWrittenLineByLine` | m3u-update/scripts/update_bein_urls.py:63-80 | the as-written loop, for any picks, writes line by line each line's `NewEntry` and a dangling named `#EXTINF` a second time |
| `BeinUrls.AsWrittenStep` | m3u-update/scripts/update_bein_urls.py:64-80 | one pass appends what the line-by-line description gives for the lines it consumes |
| `BeinUrls.EmitTwo` | m3u-update/scripts/update_bein_urls.py:65-78 | a pass over a named `#EXTINF` and its URL line appends the `#EXTINF` and the URL line's `NewEntry` |
| `BeinUrls.EmitOne` | m3u-update/scripts/update_bein_urls.py:65-80 | a pass over one line appends it, and appends a dangling named `#EXTINF` a second time |
| `BeinUrls.AsWrittenWithoutDangling` | m3u-update/scripts/update_bein_urls.py:63-80 | without a dangling named `#EXTINF` the as-written loop writes exactly one entry per line, as the evidently intended loop does |
| `ExtractBein.BeinsportsImpliesBein` | scripts/extract_beinsports.py:16 | a text containing `beinsports` contains `bein`, so the second disjunct of the test adds nothing |
| `ExtractBein.MatchedIffBein` | scripts/extract_beinsports.py:13-16 | a line is extracted exactly when its stripped form starts with `#EXTINF` and, lowercased, contains `bein` |
| `ExtractBein.Written` | scripts/extract_beinsports.py:18-22 | each output line is written followed by one line feed |
| `ExtractBein.WrittenSnoc` | scripts/extract_beinsports.py:18-22 | writing one more line appends its text and a line feed |
| `ExtractBein.ExtractLines` | scripts/extract_beinsports.py:10-24 | the `while` loop writes exactly the specified lines, each with its line feed |
| `ExtractBein.WrittenStripped` | scripts/extract_beinsports.py:13-22 | every written string is a stripped line followed by its one line feed |
| `ExtractBein.ExtractIsSubsequence` | scripts/extract_beinsports.py:12-24 | the output is a subsequence of the stripped input lines, taken in strictly increasing input order |
| `ExtractBein.ExtractCount` | scripts/extract_beinsports.py:14-24 | two output lines per matched header visited, one fewer when the last input line is a matched header |
| `ExtractBein.EndsOnHeaderHasHeader` | scripts/extract_beinsports.py:20-23 | a scan that ends on a matched header visits at least one matched header |
| `ExtractBein.NextLineNotExamined` | scripts/extract_beinsports.py:19-24 | the line after a matched header is copied without being examined: a second beIN header right after the first is written as its URL and its own URL is dropped |
| `WwwApp.Capture` | www/app.js:19-21 | the capture of `tvg-logo="([^"]*)"` at a position is the text up to the next double quote, which exists and is not part of it |
| `WwwApp.LogoAtShift` | www/app.js:19 | matching the logo attribute one position further on is matching it on the rest of the line |
| `WwwApp.LogoFoundShift` | www/app.js:19 | when no attribute starts at the first position, the line holds the attribute exactly when its rest does |
| `WwwApp.LogoFirstShift` | www/app.js:19 | past a first position holding no attribute, the leftmost attribute of the rest is the leftmost attribute of the line, with the same capture |
| `WwwApp.LogoCaptureLeftmost` | www/app.js:19-21 | the regex finds a match exactly when the attribute occurs with a closing quote, and then captures the value of its leftmost occurrence |
| `WwwApp.LogoChoice` | www/app.js:18-21 | the logo is the placeholder unless the line carries the attribute, and a logo other than the placeholder is the non-empty value of the leftmost attribute |
| `WwwApp.LogoExamples` | www/app.js:18-21 | example: an attribute alone gives its value; an empty value keeps the placeholder |
| `WwwApp.NameAfterLastComma` | www/app.js:15-17 | the name is trimmed and holds no comma |
| `WwwApp.ChannelAtMeaning` | www/app.js:10-22 | line `i` yields a channel exactly when, trimmed, it starts with `#EXTINF:`, has a comma with a non-empty trimmed name after the last one, and the next line exists, is not blank and does not start with `#`; the channel is that name, the next line trimmed and the line's logo |
| `WwwApp.ColonRequired` | www/app.js:12 | example: `#EXTINF` without its colon yields no channel, with the colon it does |
| `WwwApp.LastCommaExample` | www/app.js:15-17 | example: the name is taken after the last comma, not the first |
| `WwwApp.SlotsUpTo` | www/app.js:10-23 | one slot for each of the first `n` lines |
| `WwwApp.Slots` | www/app.js:10-23 | one slot per line |
| `WwwApp.SlotsUpToAt` | www/app.js:10-23 | the slot for line `i` is what line `i` yields |
| `WwwApp.SlotsAt` | www/app.js:10-23 | every slot is what its line yields |
| `WwwApp.PushedFromOrigins` | www/app.js:10-25 | pushed channel `k` comes from slot `Origins[k]`, the origins increase strictly, and every slot holding a channel is an origin |
| `WwwApp.ChannelsFromOrigins` | www/app.js:7-26 | the list holds one channel per `#EXTINF:` line that yields one, in line order, and nothing else |
| `WwwApp.PushedWellFormed` | www/app.js:12-22 | a pushed channel has a non-empty comma-free name, a URL that is not blank or a `#` line, and a logo |
| `WwwApp.ChannelsWellFormed` | www/app.js:7-26 | every channel of the list is well formed in that sense |
| `WwwApp.NothingPushed` | www/app.js:10-25 | slots holding no channel push nothing |
| `WwwApp.NoHeaderNoChannel` | www/app.js:12 | a playlist without an `#EXTINF:` line yields no channel |
| `WwwApp.LineChannel` | www/app.js:11-22 | the loop body for line `i` yields that line's slot |
| `WwwApp.PushAll` | www/app.js:10-25 | the `for` loop returns exactly the specified channel list |
| `WwwApp.PushLine` | www/app.js:11-22 | one pass of the loop body takes the list from the specified channels of the lines before `i` to those of the lines up to and including `i` |
| `WwwApp.ParseM3U` | www/app.js:7-26 | `parseM3U` returns the channel list of the text split at `\r\n` or `\n` |
| `PlayerApp.CommaTailFirstComma` | app.js:34 | in a line without line terminators `/,(.*)$/` captures the text after the first comma, and finds nothing without a comma |
| `PlayerApp.NameAfterFirstComma` | app.js:34-35 | the name is the trimmed text after the first comma, and a line without a comma gets `Unknown Channel` |
| `PlayerApp.FirstCommaExample` | app.js:34-35 | example: `a,b,c` is named `b,c` |
| `PlayerApp.ExtinfIsNotUrl` | app.js:33-36 | an `#EXTINF` line is never taken as a URL line |
| `PlayerApp.ChannelCount` | app.js:30-41 | the first `n` lines push as many channels as they hold URL lines |
| `PlayerApp.PushedStay` | app.js:38 | channels once pushed stay in place as later lines are read |
| `PlayerApp.UrlLineChannel` | app.js:36-39 | the URL line at `j` pushes channel number `UrlCount(lines, j)`, with the trimmed line as URL and the name being built |
| `PlayerApp.NameKept` | app.js:30-41 | lines that are neither `#EXTINF` nor URL lines leave the name being built alone |
| `PlayerApp.NameStaysUnset` | app.js:36-39 | without an `#EXTINF` an unset name stays unset |
| `PlayerApp.LatestExtinfNames` | app.js:33-39 | a URL line is named by the latest `#EXTINF` since the previous URL line; later `#EXTINF` lines overwrite earlier ones |
| `PlayerApp.ExtinfSetsName` | app.js:33-35 | an `#EXTINF` line sets the name being built |
| `PlayerApp.UnnamedChannel` | app.js:36-39 | a URL line with no `#EXTINF` since the start or the previous URL line pushes a channel without a name |
| `PlayerApp.PushedUrls` | app.js:36-38 | every pushed URL is a trimmed non-empty line not starting with `#` |
| `PlayerApp.ParseM3U8` | app.js:25-43 | `parseM3U8` returns the channel list of the text split at `\n` |
| `PlayerApp.ScanLines` | app.js:28-41 | the `for` loop returns exactly the specified channel list |
| `Server.LookupMeaning` | server.js:68 | the `MIME_TYPES` lookup finds a value only from an entry with that key, and finds nothing exactly when no entry has it |
| `Server.TrimSlashes` | server.js:67 | `path.extname` ignores trailing slashes: the result is a prefix of the path not ending in `/` |
| `Server.LastSegment` | server.js:67 | the last path segment holds no `/` |
| `Server.ExtNameShape` | server.js:67 | an extension is empty or a dot followed by a name without dot or slash, and it ends the last segment |
| `Server.ContentTypeChoice` | server.js:67-68 | the content type is the table's entry for the lower-cased extension, and `application/octet-stream` exactly when the table has none |
| `Server.HtmlType` | server.js:67-68 | a path whose extension is `.html` in any case is served as `text/html` |
| `Server.LastSegmentOfRooted` | server.js:65-67 | the last segment of `/<seg>` is `seg` |
| `Server.SegmentExtOf` | server.js:67 | the extension of `<stem>.<ext>` is `.<ext>` |
| `Server.ExtOf` | server.js:62-67 | the extension of `/<stem>.<ext>`, so `/player.html` has `.html` |
| `Server.CorsAlways` | server.js:19-23 | every response the handler builds itself carries the four CORS headers; a relayed upstream response carries them unless the upstream sends a header of the same name |
| `Server.PreflightFirst` | server.js:24-28 | `OPTIONS` on any path is answered with 204 and an empty body, whatever the file system and the upstream |
| `Server.ProxyWithoutUrl` | server.js:34-40 | `/proxy` without a non-empty `url` is answered with 400, `text/plain` and the fixed message, and makes no upstream request |
| `Server.ProxyRelays` | server.js:42-51 | `/proxy?url=u`, for a `u` that `http.get` accepts, relays the upstream status, headers and body, or answers 500 naming the asynchronous request error, and reads no file |
| `Server.RootIsPlayer` | server.js:61-63 | `/` is answered exactly as `/player.html` |
| `Server.StaticOutcomes` | server.js:65-85 | a served file gives 200 with its content type; a missing one gives 404 with the player page as HTML; any other read error gives 500 naming the code; no upstream request is made |
| `Server.OwnStatuses` | server.js:24-85 | apart from relayed upstream responses, the status is one of 200, 204, 400, 404 and 500 |
| `Server.ServerResponse.constructor` | server.js:18 | a fresh response has status 200, no headers, no body, and is neither sent nor ended |
| `Server.ServerResponse.SetHeader` | server.js:20-23 | sets one header and changes nothing else |
| `Server.ServerResponse.WriteHead` | server.js:25 | sets the status, merges the extra headers over those already set and sends the head |
| `Server.ServerResponse.End` | server.js:26 | appends the data to the body and ends the response |
| `Server.SetCors` | server.js:20-23 | the response then holds exactly the four CORS headers and is otherwise unchanged |
| `Server.HandleProxy` | server.js:34-58 | the proxy branch ends the response with the 400 answer or the relay outcome, for a `url` that `http.get` accepts |
| `Server.HandleRead` | server.js:70-85 | the `fs.readFile` callback ends the response with the answer the read outcome calls for |
| `Server.Handle` | server.js:18-86 | the request callback, for a request URL that `new URL` accepts, ends the response with exactly the answer `Respond` specifies |
| `Fixtures.Pow10` | scripts/scrape_yallashoot_to_json.py:21 | a power of ten is positive |
| `Fixtures.DecimalWidth` | scripts/scrape_yallashoot_to_json.py:21 | a number below `10^w` takes at most `w` decimal digits |
| `Fixtures.ZeroPadWidth` | scripts/scrape_yallashoot_to_json.py:21 | a number below `10^w` padded to width `w` takes exactly `w` digits |
| `Fixtures.IsoDate` | scripts/scrape_yallashoot_to_json.py:30 | `date.isoformat()` is ten characters: four digits, a dash, two digits, a dash, two digits |
| `Fixtures.IsoDateRoundTrip` | scripts/scrape_yallashoot_to_json.py:30 | reading the ISO form back gives the date |
| `Fixtures.IsoDateInjective` | scripts/scrape_yallashoot_to_json.py:30 | different dates have different ISO forms |
| `Fixtures.Take` | scripts/scrape_yallashoot_to_json.py:110 | `s[:n]` is the first `n` characters, or all of a shorter text |
| `Fixtures.RemoveSpaces` | scripts/scrape_yallashoot_to_json.py:110 | `replace(" ", "")` leaves no space, never lengthens the text and adds no character |
| `Fixtures.RemoveSpacesFree` | scripts/scrape_yallashoot_to_json.py:110 | a space-free text is left alone |
| `Fixtures.RemoveSpacesConcat` | scripts/scrape_yallashoot_to_json.py:110 | removing spaces works piece by piece on a concatenation |
| `Fixtures.MatchIdParts` | scripts/scrape_yallashoot_to_json.py:110 | the identifier holds no space and is the spaceless truncated home name, a dash, the spaceless truncated away name, a dash and the date |
| `Fixtures.MatchIdTruncates` | scripts/scrape_yallashoot_to_json.py:110 | only the first twelve characters of each team name enter the identifier |
| `Fixtures.MatchIdShortNames` | scripts/scrape_yallashoot_to_json.py:110 | short space-free names enter the identifier whole |
| `Fixtures.MatchIdEndsWithDate` | match/scripts/scrape_yallashoot_to_json.py:108 | the identifier of a fixture on an ISO date ends with a dash and that date |
| `Soccerway.SourceUrlRoundTrip` | scripts/scrape_yallashoot_to_json.py:17-21 | the day page address names its day: reading it back gives the date |
| `Soccerway.PrefixParts` | scripts/scrape_yallashoot_to_json.py:21 | the address starts with the base URL, followed by the date part |
| `Soccerway.DayPathRoundTrip` | scripts/scrape_yallashoot_to_json.py:21 | the date part, year unpadded and month and day on two digits, reads back as the date |
| `Soccerway.Classify` | scripts/scrape_yallashoot_to_json.py:93-106 | the status is one of `NS`, `FT` and `PST` |
| `Soccerway.ClassifyCases` | scripts/scrape_yallashoot_to_json.py:93-106 | a colon gives a kick-off time, else a dash a full-time score, else a status text; exactly one case is taken and the cell text is kept in the field the case names |
| `Soccerway.ColonBeforeDash` | scripts/scrape_yallashoot_to_json.py:98-100 | a cell with both a colon and a dash is a kick-off time |
| `Soccerway.ScrapeTables` | scripts/scrape_yallashoot_to_json.py:69-124 | the loop over the tables returns the records of every table, table after table |
| `Soccerway.ScrapeRows` | scripts/scrape_yallashoot_to_json.py:79-128 | the loop over one table's rows returns, in row order, one record per complete row and skips the others |
| `Soccerway.MainOutput` | scripts/scrape_yallashoot_to_json.py:134-147 | the object written carries today's ISO date and the day page address, with the scraped list whether empty or not |
| `Soccerway.TableRecordCount` | scripts/scrape_yallashoot_to_json.py:79-124 | a table gives one record per complete row |
| `Soccerway.RecordCount` | scripts/scrape_yallashoot_to_json.py:69-124 | the scrape gives one record per complete row of all tables |
| `Soccerway.RowRecordShaped` | scripts/scrape_yallashoot_to_json.py:109-123 | a row's record has source `soccerway`, placeholder logos, no channel or commentator, a competition, one of the three statuses and a space-free identifier built from its names and the date |
| `Soccerway.TableRecordsShaped` | scripts/scrape_yallashoot_to_json.py:72-124 | every record of a table is so shaped and names its table's competition |
| `Soccerway.RecordsShaped` | scripts/scrape_yallashoot_to_json.py:69-124 | every scraped record is so shaped and names the competition of some table |
| `Soccerway.CompleteTableRecords` | scripts/scrape_yallashoot_to_json.py:79-124 | in a table whose rows are all complete, row `j` gives record `j` |
| `Soccerway.AllCompleteCount` | scripts/scrape_yallashoot_to_json.py:86-87 | a table whose rows are all complete skips none |
| `Soccerway.NothingScraped` | scripts/scrape_yallashoot_to_json.py:44-64 | when the tables never become visible, or the page has none, the written list is empty |
| `Yallashoot.SourceUrl` | match/scripts/scrape_yallashoot_to_json.py:27 | `FORCE_URL` when set and non-empty, the default page otherwise |
| `Yallashoot.NormalizeStatus` | match/scripts/scrape_yallashoot_to_json.py:94-100 | the status is one of `NS`, `FT` and `LIVE` |
| `Yallashoot.EndedHasStem` | match/scripts/scrape_yallashoot_to_json.py:97 | a text containing the word "ended" contains its stem, so the first test of the finished case adds nothing |
| `Yallashoot.StatusCases` | match/scripts/scrape_yallashoot_to_json.py:94-100 | finished exactly when the stripped text contains the stem of "ended"; live exactly when it does not but says "live" or "half"; not started exactly when it says none of these, whether or not it says "not ... starts" |
| `Yallashoot.BlankIsNotStarted` | match/scripts/scrape_yallashoot_to_json.py:95-96 | no text, an empty text and a blank text mean not started |
| `Yallashoot.EndedBeforeLive` | match/scripts/scrape_yallashoot_to_json.py:97-98 | the finished test comes first: a text saying both "ended" and "live" is finished |
| `Yallashoot.OrNone` | match/scripts/scrape_yallashoot_to_json.py:120-122 | `s or None` is unset exactly for the empty text, and otherwise the text |
| `Yallashoot.BuildMatches` | match/scripts/scrape_yallashoot_to_json.py:107-124 | one record per card, in card order, record `k` built from card `k` |
| `Yallashoot.Scrape` | match/scripts/scrape_yallashoot_to_json.py:26-127 | the object written holds today's date, the page address chosen and one record per card in card order |
| `Yallashoot.CardRecordFields` | match/scripts/scrape_yallashoot_to_json.py:108-123 | a record keeps the card's teams, logos and texts, has one of the three statuses, a space-free identifier ending with the date, the optional fields unset exactly when the card's text is empty, and source `yalla1shoot` |

## Specification functions

The recursive functions the methods are proved equal to, and the
definitions the lemmas of the Model table speak in. They carry no contract
of their own, so each is listed here with the source lines it follows.

| function | source | defines |
|---|---|---|
| `M3u.ReplaceUrls` | m3u-update/scripts/pull_channels_and_update.py:163-196 | the URL-only rewrite: a matched `#EXTINF` with a picked URL is kept and followed by that URL, which replaces a following URL line and is inserted otherwise; every other line is copied; the update count |
| `PullChannels.DestRewrite` | m3u-update/scripts/pull_channels_and_update.py:155-196 | the rewrite of the header-fixed destination lines with the URLs picked for the `DEST_EXTINF_PATTERNS` channels |
| `DaznPt.DestRewrite` | m3u-update/scripts/update_dazn_pt.py:113-159 | the same rewrite with the `DAZN <n>` destination patterns mapped to the `DAZN ELEVEN <n> PORTUGAL` picks |
| `Daddylive.AppendOne` | m3u-update/scripts/pull_match_football_from_daddylive.py:214-225 | one pass of the append loop: separator when the output ends non-blank, the `# --- <name> ---` marker, the clean `#EXTINF` and its URL when present |
| `Daddylive.AppendFrom` | m3u-update/scripts/pull_match_football_from_daddylive.py:213-225 | the append loop over the wanted names |
| `Daddylive.RenderLines` | m3u-update/scripts/pull_match_football_from_daddylive.py:163-229 | the final lines of `render_updated`: header fix, rewrite, append, clean-up |
| `Daddylive.Swallowed` | m3u-update/scripts/pull_match_football_from_daddylive.py:199-201 | the old URL line right after a rewritten `#EXTINF`, which the rewrite skips |
| `Daddylive.Piece` | m3u-update/scripts/pull_match_football_from_daddylive.py:190-210 | what the rewrite writes for one line: the picked entry, nothing for a skipped URL line, or the line itself |
| `Daddylive.Pieces` | m3u-update/scripts/pull_match_football_from_daddylive.py:189-210 | the pieces of the first `n` lines, in line order |
| `Daddylive.Blocks` | m3u-update/scripts/pull_match_football_from_daddylive.py:220-225 | the appended block: for each missing name a blank line, the marker and the picked entry |
| `Daddylive.Adjoin` | m3u-update/scripts/pull_match_football_from_daddylive.py:220-221 | a block after the output, without its first blank line when the output is empty or ends blank |
| `BeinUrls.Emit` | m3u-update/scripts/update_bein_urls.py:64-80 | the entries one pass of the `update_dest` loop appends, as written |
| `BeinUrls.OutAt` | m3u-update/scripts/update_bein_urls.py:63-80 | the entries of `out` from line `i` on, as written |
| `BeinUrls.EmitFixed` | m3u-update/scripts/update_bein_urls.py:64-80 | one pass of the evidently intended loop, which writes a named `#EXTINF` without a URL line once |
| `BeinUrls.OutFixedAt` | m3u-update/scripts/update_bein_urls.py:63-80 | the entries of the evidently intended loop from line `i` on |
| `BeinUrls.Finish` | m3u-update/scripts/update_bein_urls.py:81 | `"\n".join(out) + "\n"`, or the `TypeError` a `None` entry raises |
| `BeinUrls.Consumed` | m3u-update/scripts/update_bein_urls.py:65-67 | line `k` is the URL line taken with the named `#EXTINF` before it |
| `BeinUrls.NewEntry` | m3u-update/scripts/update_bein_urls.py:66-79 | the entry written for line `k`: the picked URL for a consumed line whose channel was picked, otherwise the line |
| `BeinUrls.Dangling` | m3u-update/scripts/update_bein_urls.py:65-67 | a named `#EXTINF` with no URL line after it, which the code as written appends twice |
| `BeinUrls.WrittenFrom` | m3u-update/scripts/update_bein_urls.py:63-80 | the as-written entries line by line: each line's entry, and a dangling `#EXTINF` a second time |
| `WwwApp.Channels` | www/app.js:10-24 | the channel list `parseM3U` builds from the split lines |
| `PlayerApp.Channels` | app.js:30-41 | the channel list `parseM3U8` builds from the split lines |
| `Server.Serve` | server.js:70-85 | the answer to a file read: 200 with its content type, 404 with the player page, or 500 naming the error code |
| `Server.Decide` | server.js:19-85 | the handler's routing, every answer with the CORS headers: preflight, proxy, then the served file |
| `Server.Respond` | server.js:18-86 | the whole answer to a parsed request, with the content type of the served path |
| `Soccerway.Records` | scripts/scrape_yallashoot_to_json.py:69-124 | the records of the tables, table after table, one per complete row |
| `Soccerway.Scrape` | scripts/scrape_yallashoot_to_json.py:44-124 | the records of a page whose tables became visible, and none otherwise |


## Left out

- Text: whitespace is the six characters of `bytes.isspace` (space, `\t`, `\n`, `\v`, `\f`, `\r`). Python's `str.strip` also removes `\x1c`–`\x1f`, `\x85` and the Unicode spaces, and JavaScript's `trim` removes the Unicode spaces. Case mapping and `\w` word characters follow ASCII. Python and JavaScript use Unicode for these, and the only non-ASCII text the scripts test for is the flag emoji and the Arabic status words, which are modelled exactly.
- Channel-matching regexes (`SOURCE_PATTERNS`, `DEST_EXTINF_PATTERNS`, `ALIASES`, `source_patterns_for`, the beIN `MAP`) are abstract predicates: there is no regex engine in the model.
- `fetch_text`, `upsert_github_file`, `upsert_github`, every `main` of the updaters and all `print` logging: HTTP requests, the GitHub Contents API, base64 and file writes are I/O.
- ExtractBein: opening the files and the `FileNotFoundError` message are left out; the input is the list `readlines()` returns and the output is the list of strings written.
- Soccerway: the Playwright browser, page loading, the cookie-banner click and the retries are left out. A page whose tables never become visible is `None`, which gives the empty list the script returns.
- Soccerway: a row whose team link lacks its `title` attribute and a row missing a cell are both modelled as incomplete and skipped. In the script the first raises inside the row's `try` and the second hits `continue`, with the same outcome.
- Yallashoot: the Playwright browser, `gradual_scroll` and the page script that collects the cards (`match/scripts/scrape_yallashoot_to_json.py:51-89`) are left out; the cards are an input.
- Fixtures: `date.today()` and the Baghdad `ZoneInfo` clock are inputs. The several `dt.date.today()` calls of the Soccerway script are taken to give the same date, and a date's day is bounded by 31 whatever the month.
- Server.ProxyRelays: does not model the two synchronous throws of the handler. `http.get(targetUrl, …)` at server.js:42 throws for an `https:` URL or a malformed one. It throws before the `error` listener of server.js:47 is attached, so no 500 answer is sent and the exception leaves the callback. `new URL(req.url, …)` at server.js:30 throws for a request URL such as `//`, before any routing. The model takes the request already parsed and every upstream outcome as a reply or an asynchronous error, so both throws are outside it.
- Server.Handle: assumes the request URL parses, since `new URL` at server.js:30 throwing ends the callback with no answer (see the line above).
- Server: `http.get` piping and streaming of the upstream body, and cancellation when the request closes, are event-driven I/O. Only the decisions and the `res` calls are modelled.
- Server: header names are the values of a `Header` datatype, so Node's case-insensitive header names are not modelled.
- Server: `path.join` normalisation, `__dirname` and `server.listen` are left out. The file read is a parameter from path to outcome.
- `api/proxy.js`, `www/utils.js`, `www/matches.js`, `scripts/generate_livetv_playlist.py` and the Android `MainActivity.java` are not part of this model. They hold I/O wrappers, an invalid copy of `parseM3U`, DOM code, concurrent HTML scraping and WebView setup.
- The user-interface code of `www/app.js` and `app.js` (`displayChannels`, `loadPlaylist`, `fetchAndParseM3U8`, `playChannel`) is DOM, fetch and Hls.js work.

## Findings

| source | as written | input that shows it | evidently intended | confidence | as-written member | corrected member |
|---|---|---|---|---|---|---|
| m3u-update/scripts/update_bein_urls.py:65-79 | a named `#EXTINF` is appended at line 66 and appended again at line 79 when it is the last line or is followed by a `#` line | the destination `#EXTINF:-1,beIN SPORTS 6` with nothing picked gives that line twice | the `#EXTINF` is kept once, so an update with nothing picked leaves the playlist as it is | not executed | `BeinUrls.DuplicatedHeader` | `BeinUrls.UpdateDestFixed` |
