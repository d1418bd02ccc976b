# Twitch chat message processor — verified model

This project models the core of `twitch-chat-message-processor`. The library
turns one Twitch chat message and its IRC tags into a record that a chat
overlay can render. It has five parts:

- **Native emotes.** The emote ranges that Twitch reports become `<img>` tags.
  The library splices them into the message by code point, working from the
  right.
- **Code emotes.** Every whole-word occurrence of a BetterTTV (BTTV) global, BTTV
  channel or FrankerFaceZ (FFZ) channel emote code becomes an `<img>` tag.
- **Regex escaping.** The codes are escaped with the inlined
  `escape-string-regexp` before they go into a regular expression.
- **Caches.** The emote lookup tables, the channel's user id and the pronoun
  tables are memoised.
- **The record.** `processMessage` puts all of the above together.

The message is a `seq<char>`, so a Dafny `char` is one Unicode code point, just
as `[...string]` splits a well-formed string.

| file | module | what it holds |
|---|---|---|
| `wrappers.dfy` | `Wrappers` | `Option` |
| `splice.dfy` | `Splicing` | `unicodeSlice`; one splice step; the splice loop as a function; `Render`, the left-to-right reading of a layout of spans; the proof that splicing in descending order is that reading |
| `native_emotes.dfy` | `NativeEmotes` | the range text `"s-e"`; one span per emote id; the stable sort by descending start; `replaceTwitchStandardEmotes` as a method with its two loops; the theorem that the pass renders the message left to right |
| `native_examples.dfy` | `NativeExamples` | the test-file cases and general one-, two- and three-emote cases |
| `lookup.dfy` | `LookupTables` | the table fold, and the four getters of `dist/module.js` as a class with pure step functions beside it |
| `code_emotes.dfy` | `CodeEmotes` | the whole-word matcher (`\b code \b`), `replaceAll` over it, and one code stage for both providers as a method with its loop and fast path |
| `code_examples.dfy` | `CodeExamples` | concrete matcher cases |
| `escape.dfy` | `RegexEscape` | the escaper, its per-character reading and its inverse |
| `pipeline.dfy` | `EmotePipeline` | `replaceEmotesWithImageTags`: the native pass and then three code stages |
| `pronouns.dfy` | `Pronouns` | the pronoun name table and the per-user cache, as a class with step functions |
| `decorator.dfy` | `Decorator` | `processMessage` and the record it returns |

Modelling choices:

- **Side effects become data.** A network answer is a parameter: a
  `CatalogResponse`, a `ChannelResponse`, the user-id text, or pronoun records.
  Every fetch a getter issues is appended to a `requests` log, so "no fetch" and
  "fetch again" can be stated.
- **Classes with step functions.** Each cache is a class whose fields are the
  module-level variables. Each method ensures that the pair (new state, return
  value) equals a pure step function applied to the old state. The cache
  properties are lemmas about those step functions.
- **Key order is an input.** The order of `Object.entries` / `Object.keys` is
  taken as given. For a lookup table it is the `keys` sequence, which records
  first-insertion order.
- **Behaviour worth noting.** These are plain facts about the source, and the
  model keeps them:
  - The native tag ends in `alt="emote" />` (src/emotes.js:46).
  - A failed catalog fetch answers `{}` and leaves the cache unset, so the next
    call fetches again (dist/module.js:19-31, 37-50, 56-68).
  - The pronoun-name table is stored with no `ok` check (dist/browser.js:200-209).
  - A later code stage can find its code inside the `<img>` text that an earlier
    stage inserted, and it rewrites it there (src/emotes.js:171-174).
    `CodeExamples.CodeMatchesInsideNativeTag` shows that `img` is a whole word
    inside a native tag.

## Model

| member | source | states |
|---|---|---|
| Splicing.UnicodeSlice | src/emotes.js:14-15 | slicing by code point with JavaScript's clamping: the plain slice when in bounds, the rest of the text when the end is past it, nothing when the range is empty or starts past the end |
| Splicing.UnicodeSliceFrom | src/emotes.js:14-15 | `unicodeSlice(s, start)` is everything from `start` on, or nothing past the end |
| Splicing.Laid | src/emotes.js:55-65 | a left-to-right layout of spans never starts past the text's end |
| Splicing.LaidIsInOrder | src/emotes.js:55-65 | the recursive layout condition is the same as the pairwise one: every span is ordered, spans do not overlap, and all lie inside the bounds |
| Splicing.Reverse | src/emotes.js:51-65 | reversal keeps the length and the multiset, and puts element k at position n-1-k |
| Splicing.RenderShift | src/emotes.js:55-65 | the untouched text before the first span can be read off as a prefix |
| Splicing.RenderShiftHead | src/emotes.js:55-65 | the same split when the layout is non-empty and the split point lies before its first span |
| Splicing.RenderHead | src/emotes.js:55-65 | a non-empty rendering is the gap before the first span, that span's tag, then the rendering of the rest |
| Splicing.LaidLater | src/emotes.js:55-65 | a layout stays laid out when its starting point moves forward, but not past its first span |
| Splicing.SpliceInPrefix | src/emotes.js:60-64 | a splice inside a prefix leaves the rest of the text alone |
| Splicing.LaidReversePrefix | src/emotes.js:51-65 | the first j spans in descending order, read back to front, form a layout |
| Splicing.RenderCons | src/emotes.js:55-65 | reading a layout: the segment before its first span, that span's tag, then the rest |
| Splicing.SpliceSeam | src/emotes.js:60-64 | one splice at the seam between the untouched prefix and the part already rendered |
| Splicing.SpliceStep | src/emotes.js:55-65 | one iteration of the splice loop extends the rendered suffix by one span to the left |
| Splicing.ReversePrefixStep | src/emotes.js:55-65 | reversing a prefix one element longer puts that element in front |
| Splicing.SpliceAllPrefixStep | src/emotes.js:55-65 | the loop over j spans is the loop over j-1 spans followed by one splice |
| Splicing.SplicePrefix | src/emotes.js:55-65 | after j splices in descending order: the untouched prefix up to the j-th start, then the left-to-right rendering of those j spans |
| Splicing.SplicePrefixStep | src/emotes.js:55-65 | from the state after j-1 splices, the j-th splice gives the untouched prefix up to the j-th start, then the rendering of the j spans |
| Splicing.SpliceAllDescending | src/emotes.js:55-65 | splicing non-overlapping spans right to left equals the left-to-right interleaving of untouched segments and tags |
| NativeEmotes.FirstDash | src/emotes.js:41 | the position of the first `-`: no dash before it, and a dash at it when it is inside the text |
| NativeEmotes.DecimalRoundTrip | src/emotes.js:41-45 | decimal text is non-empty digits, and the exact digit reading gives back the number (the same as `Number` only below 2^53) |
| NativeEmotes.RangeRoundTrip | src/emotes.js:41-45 | the range text `"s-e"` is well formed and splits and parses back to `(s, e)` |
| NativeEmotes.SpansOnePerEntry | src/emotes.js:40-48 | one span per emote id, in entry order: the first range `"s-e"` becomes `[s, e+1)` with that id's tag |
| NativeEmotes.SpansPrefixStep | src/emotes.js:40-48 | one iteration of the first loop pushes the span of the next entry |
| NativeEmotes.OnlyFirstRangeCounts | src/emotes.js:41 | two emote maps that agree on the ids and the first ranges give the same spans, whatever the later ranges are |
| NativeEmotes.HeadBoundsTail | src/emotes.js:51-53 | a head that starts no earlier than the inserted span and the rest stays in front, and the list stays sorted |
| NativeEmotes.LargerStartFirst | src/emotes.js:51-53 | a span starting after the head of a sorted list can go in front, and the list stays sorted |
| NativeEmotes.InsertByStart | src/emotes.js:51-53 | inserting into a list sorted by descending start keeps it sorted and adds exactly that span |
| NativeEmotes.SortByStartDescending | src/emotes.js:51-53 | the comparator `b.start - a.start` sorts by non-increasing start, and the result is a permutation of the spans |
| NativeEmotes.MultisetTail | src/emotes.js:51-53 | removing the head of a list removes one copy of it from the multiset |
| NativeEmotes.HeadsAgree | src/emotes.js:51-65 | a list with strictly ascending starts and a non-decreasing permutation of it have the same first span |
| NativeEmotes.TailsOrdered | src/emotes.js:51-65 | dropping the first span keeps a list strictly ascending or non-decreasing in start |
| NativeEmotes.StartOrderUnique | src/emotes.js:51-65 | when the starts are distinct, sorting by start has exactly one outcome, so the sort's tie order does not matter |
| NativeEmotes.ReplaceTwitchStandardEmotes | src/emotes.js:32-68 | the method (a loop building the replacement list, the sort, the splice loop) returns the native pass of the message; an absent map returns the message |
| NativeEmotes.NoEmotesNoChange | src/emotes.js:35-67 | an absent emote map gives back the message unchanged, and so does an empty map |
| NativeEmotes.LayoutStartsAscend | src/emotes.js:51-65 | a layout of non-empty spans has strictly ascending starts |
| NativeEmotes.ReverseAscends | src/emotes.js:51-53 | read back to front, a list of non-increasing starts has non-decreasing starts |
| NativeEmotes.ReverseOfLayout | src/emotes.js:51-65 | a list whose reverse is a layout is in descending, non-overlapping order |
| NativeEmotes.SpansNonEmpty | src/emotes.js:41-45 | a range with s <= e gives a span that covers at least one code point |
| NativeEmotes.NativePassIsLeftToRight | src/emotes.js:32-68 | for non-overlapping in-bounds ranges, the pass equals the left-to-right interleaving of the untouched code points and the tags, for any layout of the spans |
| NativeExamples.EntrySpanOf | src/emotes.js:40-48 | the entry `"s-e"` gives the span `[s, e+1)` with the Twitch tag for its id |
| NativeExamples.Regroup2 | src/emotes.js:55-65 | the rendering of two spans, regrouped as one concatenation |
| NativeExamples.Regroup3 | src/emotes.js:55-65 | the rendering of three spans, regrouped as one concatenation |
| NativeExamples.RenderTwo | src/emotes.js:55-65 | the left-to-right rendering of two ordered spans |
| NativeExamples.RenderThree | src/emotes.js:55-65 | the left-to-right rendering of three ordered spans |
| NativeExamples.OneEmote | src/emotes.js:32-68 | one emote over `[s, e]` replaces exactly those code points with its tag |
| NativeExamples.TwoEmotes | src/emotes.js:32-68 | two emotes listed in reading order are both replaced, and the text around them is kept |
| NativeExamples.TwoEmotesTexts | src/emotes.js:32-68 | the same for any range texts that parse to the two ranges: both are replaced and the text around them is kept |
| NativeExamples.NativeTwo | src/emotes.js:40-65 | two ordered, non-overlapping entries: the pass keeps the three gaps and puts each tag in place of its range |
| NativeExamples.SpansOfTwo | src/emotes.js:40-48 | two entries give their two spans, in entry order |
| NativeExamples.SpansOfThree | src/emotes.js:40-48 | three entries give their three spans, in entry order |
| NativeExamples.ThreeEntriesSpans | src/emotes.js:40-53 | three entries, whatever order they are listed in, give the same multiset of spans |
| NativeExamples.RotatedSpans | src/emotes.js:51-53 | rotating three spans keeps their multiset |
| NativeExamples.OrderedOfThree | src/emotes.js:40-48 | three entries whose first ranges are well formed and start no later than they end satisfy both conditions as a list |
| NativeExamples.ThreeEmotesOutOfOrder | test/replaceTwitchStandardEmotes.test.js:13-25 | entries listed out of reading order still render every tag in its place, left to right |
| NativeExamples.LiteralEntrySpan | src/emotes.js:40-48 | a one-range entry with literal range text gives its span |
| NativeExamples.ReadingOrderRanges | test/replaceTwitchStandardEmotes.test.js:13-25 | the test's range strings are the range texts of their numbers |
| NativeExamples.ReadingOrderPieces | test/replaceTwitchStandardEmotes.test.js:13-25 | the untouched pieces of the test message |
| NativeExamples.ReadingOrderHead | test/replaceTwitchStandardEmotes.test.js:13-25 | the test message is 30 characters long, and its first two untouched pieces |
| NativeExamples.ReadingOrderTail | test/replaceTwitchStandardEmotes.test.js:13-25 | the last two untouched pieces of the test message |
| NativeExamples.ThreeEmotesInReadingOrder | test/replaceTwitchStandardEmotes.test.js:13-25 | the test case: three emotes given out of order become LUL, BabyRage and BOP tags in reading order |
| NativeExamples.EmojiBeforeEmoteKept | test/replaceTwitchStandardEmotes.test.js:31-41 | a five-code-point emoji sequence before an emote is kept whole, because indices count code points |
| NativeExamples.EmojiAroundRanges | test/replaceTwitchStandardEmotes.test.js:47-58 | the test's range strings are the range texts of their numbers |
| NativeExamples.EmojiAroundPieces | test/replaceTwitchStandardEmotes.test.js:47-58 | the emoji message has 27 code points, and these are its untouched pieces |
| NativeExamples.EmojiAroundTwoEmotesKept | test/replaceTwitchStandardEmotes.test.js:47-58 | emoji sequences before and between two emotes are kept, and both emotes are replaced |
| NativeExamples.AbsentOrEmptyMapPassesThrough | test/replaceTwitchStandardEmotes.test.js:62-84 | an undefined and an empty emote map both return the test message unchanged |
| LookupTables.Insert | dist/module.js:21-27 | `result[emote.code] = {id, type}`: the entry is overwritten or added, and a new code is appended to the key order |
| LookupTables.CodesSnoc | dist/module.js:21-28 | the codes of a catalog are the codes of its prefix plus the last code |
| LookupTables.BuildTable | dist/module.js:21-28 | a built table has exactly the catalog's codes as keys, and its key order lists each once |
| LookupTables.BuildTableSnoc | dist/module.js:21-28 | the fold of one more emote is the previous table updated at its code |
| LookupTables.BuildTableEntries | dist/module.js:21-28 | the table's entries are the fold of one map update per emote |
| LookupTables.EntriesLastWins | dist/module.js:21-28 | in that fold each code maps to the data of its last entry |
| LookupTables.BuildTableLastWins | dist/module.js:21-28 | each code maps to `{id, imageType}` of its last catalog entry |
| LookupTables.UnionUpdate | dist/module.js:39-47 | updating a union of tables updates its right-hand side |
| LookupTables.BuildTableConcat | dist/module.js:39-47 | folding `a` then `b` gives the table of `a` overridden by the table of `b` |
| LookupTables.EntriesConcat | dist/module.js:39-47 | the update fold over `a` then `b` is the fold over `a` overridden by the fold over `b` |
| LookupTables.SharedOverridesChannel | dist/module.js:39-47 | a shared emote overrides a channel emote with the same code |
| LookupTables.CachedTableServedWithoutFetch | dist/module.js:16-69 | a cached table is returned, and the state, including the request log, is unchanged |
| LookupTables.UncachedTableFetches | dist/module.js:16-69 | an uncached table fetches its catalog, after first resolving the user id when it is not known |
| LookupTables.NotOkLeavesUnset | dist/module.js:16-69 | for each getter whose table is unset, whatever else is cached: a failed response gives `{}`, leaves that table unset, leaves the other two tables as they were, and logs exactly the requests it made |
| LookupTables.OkResponseCachedForever | dist/module.js:17-29 | after one ok response the table is cached, even when empty, and the next global call returns it whatever the response and changes nothing; `LookupTables.CachedTablesKept` extends this to every later call of any getter |
| LookupTables.ChannelOkCachesBothLists | dist/module.js:34-48 | an ok channel response caches the fold of the channel emote list followed by the shared list, and the next channel call returns it and changes nothing; `LookupTables.CachedTablesKept` extends this to every later call of any getter |
| LookupTables.FfzOkCachedForever | dist/module.js:52-69 | after one ok FFZ response the table is cached, even when empty, and the next FFZ call returns it whatever the response and changes nothing; `LookupTables.CachedTablesKept` extends this to every later call of any getter |
| LookupTables.CachedTablesKept | dist/module.js:16-69 | none of the three getters, whatever its response, changes a table that is already cached |
| LookupTables.UserIdResolvedOnce | dist/module.js:8-15 | a stored non-empty user id is returned without a lookup and no request; otherwise one lookup request is logged, its text is stored unchecked, and a non-empty stored id is reused |
| LookupTables.ChannelFetchesShareUserId | dist/module.js:33-69 | the BTTV channel and FFZ fetches use the one user id resolved for the first of them |
| LookupTables.ChannelStepResolvesId | dist/module.js:33-38 | an uncached channel fetch with no stored id stores the looked-up text, leaves the FFZ table alone and logs the lookup and then the catalog request |
| LookupTables.LookupCache.constructor | dist/module.js:4-7 | a fresh page: nothing is cached and no request has been issued |
| LookupTables.LookupCache.GetUserId | dist/module.js:8-15 | the getter changes the four module variables and the request log exactly as the user-id step says |
| LookupTables.LookupCache.GetBttvGlobalTable | dist/module.js:16-32 | the new state and the returned table are those of the global step |
| LookupTables.LookupCache.GetBttvChannelTable | dist/module.js:33-51 | the new state and the returned table are those of the channel step |
| LookupTables.LookupCache.GetFfzChannelTable | dist/module.js:52-69 | the new state and the returned table are those of the FFZ step |
| CodeEmotes.Matches | src/emotes.js:91-97 | every position found is a whole-word occurrence at or after the start, and the matches are left to right and do not overlap |
| CodeEmotes.MatchesHit | src/emotes.js:94 | a whole-word occurrence at the scan position is taken, and the scan resumes after it |
| CodeEmotes.MatchesMiss | src/emotes.js:94 | with no occurrence at the scan position, the scan moves on by one |
| CodeEmotes.CoveredCons | src/emotes.js:94 | adding a match keeps every position that was already covered covered |
| CodeEmotes.MatchesComplete | src/emotes.js:91-97 | every whole-word occurrence is replaced or lies inside one that was replaced, so none is skipped |
| CodeEmotes.Hits | src/emotes.js:91-97 | one flag per start position that leaves room for the code, true exactly where the code is a whole word |
| CodeEmotes.MatchesIsScan | src/emotes.js:94 | the whole-word scan is the skip-past-matches scan over those flags |
| CodeEmotes.ScanComplete | src/emotes.js:94 | every true flag at or after the start is a found match or lies inside one |
| CodeEmotes.MatchSpans | src/emotes.js:94-97 | each match becomes the span of the code's length carrying the tag |
| CodeEmotes.MatchesLaid | src/emotes.js:94-97 | the spans of the matches form a left-to-right layout |
| CodeEmotes.MatchesOccur | src/emotes.js:81-83 | a whole-word match implies that the code appears in the text |
| CodeEmotes.ReplaceAllWithoutOccurrence | src/emotes.js:81-86 | a code that does not appear changes nothing |
| CodeEmotes.FastPathAgrees | src/emotes.js:81-98 | when no code appears, running the loop over every code returns the message unchanged, so the shortcut agrees with it |
| CodeEmotes.CodeStageIsLoop | src/emotes.js:76-101 | one code stage is the loop over the codes in key order, each a `replaceAll` on the previous result |
| CodeEmotes.EmptyTableNoChange | src/emotes.js:76-101 | the `{}` a failed fetch hands out leaves the message unchanged |
| CodeEmotes.ApplyCodesStep | src/emotes.js:90-98 | one `forEach` iteration replaces the next code on the current result with the tag for that code's id |
| CodeEmotes.ReplaceCodeEmotes | src/emotes.js:76-167 | the method (the `every` shortcut, then a loop of `replaceAll`s) returns the code stage for its provider |
| CodeEmotes.CodeTagInjective | src/emotes.js:94-162 | a tag determines the id of the emote it was made for |
| CodeEmotes.ProvidersTagsDiffer | src/emotes.js:8-162 | a BTTV tag (`/2x`) is never an FFZ tag (`/2`) |
| CodeExamples.LulPositions | src/emotes.js:92 | in "LUL LULW LUL", "LUL" is a whole word at 0 and 9 and not inside "LULW" |
| CodeExamples.LulMatches | src/emotes.js:94 | the scan finds exactly the positions 0 and 9 |
| CodeExamples.LulMisses | src/emotes.js:92 | in "LUL LULW LUL", "LUL" is no whole word at positions 3 to 8 |
| CodeExamples.LulMatchesFrom3 | src/emotes.js:94 | the scan resumed after the first match finds only 9 |
| CodeExamples.LulNotInsideLulw | src/emotes.js:94-97 | "LUL" inside "LULW" is left alone, and both whole words are replaced |
| CodeExamples.NonWordCodeNeedsWordNeighbours | src/emotes.js:92 | a code with non-word edges, such as ":)", matches between letters and not between spaces |
| CodeExamples.CodeMatchesInsideNativeTag | src/emotes.js:171-174 | "img" is a whole word inside a native tag, so a later stage replaces it there |
| CodeExamples.ImgInsideNativeTag | src/emotes.js:171-174 | every native tag starts with `<img `, so `img` is a whole word at position 1 |
| RegexEscape.EscapeMeta | dist/browser.js:5 | the first replace at most doubles the text and never shortens it, and text with no metacharacter comes back unchanged |
| RegexEscape.EscapeChar | dist/browser.js:5 | each of the fourteen metacharacters becomes a backslash and itself, `-` becomes `\x2d`, and every other character stays as it is |
| RegexEscape.EscapeHyphensConcat | dist/browser.js:5 | the second replace works piece by piece |
| RegexEscape.EscapeIsPerCharacter | dist/browser.js:5 | the two chained replaces are the per-character escape: the second never touches the backslashes the first wrote |
| RegexEscape.EscapeEachConcat | dist/browser.js:5 | the per-character escape works piece by piece |
| RegexEscape.EscapeConcat | dist/browser.js:5 | escape(a + b) == escape(a) + escape(b) |
| RegexEscape.EscapePlainIdentity | dist/browser.js:5 | a string without any of the fifteen special characters is returned unchanged |
| RegexEscape.PlainEachIdentity | dist/browser.js:5 | the per-character escape of such a string is that string |
| RegexEscape.UnescapeRoundTrip | dist/browser.js:1-6 | the escaped pattern denotes exactly the original text: reading the escapes back recovers it |
| RegexEscape.UnescapeEach | dist/browser.js:5 | reading back the per-character escape recovers the text |
| RegexEscape.UnescapeHead | dist/browser.js:5 | reading back one escaped character followed by any text gives that character, then the reading of the text |
| RegexEscape.UnescapeBackslashed | dist/browser.js:5 | a backslash before a metacharacter reads back as that metacharacter |
| EmotePipeline.BuildTableUsable | dist/module.js:21-28 | a catalog with non-empty codes builds a table a code stage can use |
| EmotePipeline.GlobalStepUsable | dist/module.js:16-32 | the global getter keeps every cached table usable and hands out a usable table |
| EmotePipeline.ChannelStepUsable | dist/module.js:33-51 | the same for the channel getter |
| EmotePipeline.FfzStepUsable | dist/module.js:52-69 | the same for the FFZ getter |
| EmotePipeline.PipelinePassThrough | src/emotes.js:169-176 | with no native emotes and no code present, the message goes through all four stages unchanged |
| EmotePipeline.FailedFetchesLeaveNativeResult | src/emotes.js:169-176 | on a fresh page where every catalog fetch fails, the result is the native pass; no emote table is cached, the looked-up user id text is stored, and the request log is the global, user id and channel requests, then the FFZ request (after a second user id lookup when the text was empty) |
| EmotePipeline.PipelineStepKeepsUsable | src/emotes.js:169-176 | a pipeline call leaves every cached table usable, so the next message can be processed |
| EmotePipeline.PipelineKeepsCachedTables | src/emotes.js:169-176 | a table cached before a pipeline call is cached, unchanged, after it |
| EmotePipeline.CodeStagesSeeNativeOutput | src/emotes.js:169-176 | the code stages read the native pass's output, not the original message |
| EmotePipeline.ReplaceEmotesWithImageTags | src/emotes.js:169-176 | the method runs native, BTTV global, BTTV channel and FFZ, in that order, over the tables the cache hands out, and the cache ends in the pipeline step's state |
| Pronouns.NamesSnoc | dist/browser.js:204-207 | the names of a catalog are the names of its prefix plus the last name |
| Pronouns.BuildPronounNames | dist/browser.js:204-207 | the name table's keys are exactly the catalog's names |
| Pronouns.PronounNamesSnoc | dist/browser.js:204-207 | one fold step writes the last entry's display over its prefix's table |
| Pronouns.PronounNamesLastWins | dist/browser.js:204-207 | each name maps to the display of its last entry |
| Pronouns.NamesFetchedOnce | dist/browser.js:200-211 | once the name table is set it is reused and never rebuilt; otherwise one fetch builds it, and the per-user lookup always fetches the user |
| Pronouns.UserEntryWrittenOnlyForTruthyId | dist/browser.js:214-216 | the user's entry is written only when the first record has a truthy id; otherwise the table is unchanged and the stored value, or undefined, is returned |
| Pronouns.OtherUsersUnchanged | dist/browser.js:215 | entries for other usernames stay as they were |
| Pronouns.PronounCache.constructor | dist/browser.js:198-199 | a fresh page: no names and an empty per-user table |
| Pronouns.PronounCache.FetchAllPronounNames | dist/browser.js:200-209 | the method changes the state and returns the table as the name step says |
| Pronouns.PronounCache.FetchPronounsForUser | dist/browser.js:210-217 | the method changes the state and returns the pronoun text as the per-user step says |
| Decorator.BadgeKeys | src/index.js:18 | `Object.keys(badges)`: the badge keys in order, one per badge |
| Decorator.BuildRecord | src/index.js:12-19 | `messageHTML` and `pronounsText` are the given results; the display name and colour are copied; `isSlashMeMessage` holds exactly when the message type is "action"; `badgeKeys` are the badge keys in order, or empty without badges |
| Decorator.SlashMeOnlyForAction | src/index.js:17 | "action" marks a /me message, and any other type or a missing one does not |
| Decorator.ProcessMessage | src/index.js:4-20 | the HTML is the emote pipeline on the message and `tags.emotes`, the pronoun text is the lookup for `tags.username`, and both caches end in those steps' states |

## Left out

- Network and host I/O is not modelled. Each `fetch`, `Response.ok`, `.json()`,
  `.text()` and `window.location` / `URLSearchParams` becomes a response
  parameter and an entry in the request log. A response parameter stands for a
  response that arrived, with `ok` true or false.
- `LookupTables.LookupCache.GetUserId`, `LookupTables.LookupCache.GetBttvGlobalTable`,
  `LookupTables.LookupCache.GetBttvChannelTable`, `LookupTables.LookupCache.GetFfzChannelTable`,
  `Pronouns.PronounCache.FetchAllPronounNames`, `Pronouns.PronounCache.FetchPronounsForUser`
  and `Decorator.ProcessMessage` do not model a `fetch` that rejects, or a
  `.json()` / `.text()` that throws. The source has no `try`/`catch`
  (dist/module.js:12-13, 18-20, 36-38, 55-57; dist/browser.js:202-203, 212-213;
  src/emotes.js:171-174; src/index.js:8-20). Such a failure propagates out of the
  getter, the pipeline and `processMessage` as a rejected promise, and the cache
  it was filling stays as it was. The model always returns a result.
- `LookupTables.LookupCache.GetUserId`: the channel name read from the page's
  `channel` query parameter is a parameter. The lookup's text is also a
  parameter, and every lookup of one pipeline call receives the same text.
- `async` / `await` are left out. There is no interleaving, and the model
  assumes none, just as the source has no single-flight guard.
- The regular-expression engine is left out. `new RegExp("\\b" + escaped +
  "\\b", "g")` with `replaceAll` is modelled by a direct whole-word matcher:
  - word characters are `[A-Za-z0-9_]`;
  - the boundaries are judged on the input of each `replaceAll`;
  - the left-to-right scan skips past each match.

  The claim that the escaped pattern matches the code literally is stated only as
  `RegexEscape.UnescapeRoundTrip`.
- `Decorator.BuildRecord` and `Decorator.ProcessMessage` take the badge object
  as a sequence of key/value pairs. A JavaScript object cannot hold a key twice,
  and the model does not rule out a repeated key; `Object.keys` of a real badge
  object never lists one.
- The `TypeError` for a non-string argument (dist/browser.js:2) is left out.
  Dafny's typing rules out that input.
- Malformed range text, or an empty ranges list, is left out.
  `NativeEmotes.ReplaceTwitchStandardEmotes` requires every entry to have a first
  range in well-formed `digits-digits` shape. An empty list makes
  `occurenceIndices[0].split` throw a `TypeError` (src/emotes.js:41), and
  `Number()` giving `NaN` is not modelled.
- `NativeEmotes.DecimalRoundTrip` and `NativeEmotes.ReplaceTwitchStandardEmotes`
  read digit strings exactly. `Number()` (src/emotes.js:44-45) gives a double,
  which is exact only below 2^53. At or above 2^53, two different starts can
  round to the same double, and then the comparator at src/emotes.js:51-53 sees a
  tie. For example, `"9007199254740992-9007199254740992"` and
  `"9007199254740993-9007199254740993"` tie in the source, but the model orders
  them. Likewise `Number(endIndex) + 1` is exact in the model at every size.
- `NativeEmotes.NativePassIsLeftToRight` requires in-bounds, non-overlapping
  ranges. The pass itself is modelled for any well-formed ranges whose numbers
  are below 2^53, with JavaScript's slice clamping.
- The unused constants `EMOTE_REGEX_PART_1` and `EMOTE_REGEX_PART_2`
  (src/emotes.js:5-6) are left out.
- Grapheme clusters are not modelled: the source slices by code point only.
  UTF-16 code units appear only through `\b`, which looks at ASCII word
  characters. Lone surrogates are not modelled.
- Key order is not derived. The order of `Object.entries(emotes)` and
  `Object.keys(table)` is taken as given: the sequence of entries, and the table's
  insertion order. JavaScript puts integer-like keys first, and that rule is not
  modelled.
- `CodeEmotes.ReplaceCodeEmotes` requires every code in the table to be
  non-empty. An empty code would make the source's regex `\b\b`, and that case is
  not modelled. `EmotePipeline.UsableFetches` states the same requirement for
  catalogs.
- JSON shapes that do not fit are left out: a missing `channelEmotes`, a response
  that is not an array, or a missing `id` or `pronoun_id`. So are lookups of
  inherited object properties such as `"constructor"`. Tables are maps with
  string keys.
- The copies of the emote code in dist/browser.js and dist/module.js are modelled
  once, from src/emotes.js. dist/module.js:77-189 and the bundled copies in
  dist/browser.js are not part of this model.
