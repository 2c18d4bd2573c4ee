# subsync-dual in Dafny

A model of the two subtitle pipelines of subsync-dual. Both pipelines turn
an English subtitle track into a dual-language track: each caption shows
the English line in yellow above its Spanish translation.

- **The single-file pipeline (subsync.py)** has four parts:
  - It parses the season answer.
  - It pairs every English caption with the Spanish captions whose time
    intervals overlap it, de-duplicates them and joins them. When nothing
    overlaps, it falls back to a cached one-line translator.
  - It suppresses a translation that repeats the previous one ("anti-echo").
  - It names the output files and walks the seasons.
- **The modular pipeline** has four parts:
  - `main.py` reads the season answer and runs the season loop.
  - `src/subtitle.py` cleans the captions, cuts them into batches of 50,
    concatenates the batch results and writes the dual captions, with no
    repeat suppression.
  - `src/api.py` holds the batch translator. It answers blank and cached
    lines locally and sends the rest to an AI oracle in one request of at
    most three attempts. It rejects responses of the wrong length and
    "lazy" ones that echo the English. It falls back to an error sentinel or
    per-line emergency calls. It writes new translations back into the
    shared cache.
  - `src/ui.py` holds `LogManager`, the bounded log panel.

The outside world enters as parameters:
- The AI oracle is a script of outcomes (`Ok(list)`, `RateLimit`, `Fault`),
  one per attempt; an attempt beyond the script gets `Fault`.
- The similarity ratio of the laziness test is an abstract match count
  `matches`, so "ratio > 0.8" is the integer test `5*M > 2*T`.
- The per-line emergency call and Google Translate are functions returning
  `None` where the call raises.
- Whether a season's download (or whole processing) succeeds is a predicate
  on the season number.

The two tag regular expressions are replaced by a hand-written scanner that
is proved to return the leftmost, longest match.

Modules, one per file:

| module | file | models |
|---|---|---|
| `Base` | base.dfy | shared values: options, timed captions, filtered index lists |
| `Strings` | strings.dfy | `strip`, `\N` replacement, case, split/join, `int()` |
| `Captions` | captions.dfy | the yellow and two-line caption formats |
| `Tags` | tags.dfy | both episode-tag searches |
| `Seasons` | seasons.dfy | automatic season mode and thread-count answers |
| `Api` | api.dfy | `translate_batch_native` |
| `SubSync` | subsync.dfy | the single-file pipeline of subsync.py |
| `Subtitle` | subtitle.dfy | `process_episode` |
| `Cli` | cli.dfy | main.py's season answer and season loop |
| `Ui` | ui.dfy | `LogManager` |

## Model

| member | source | states |
|---|---|---|
| Base.Indices | subsync.py:171 | The positions kept by a filtered comprehension are increasing, each satisfies the filter, and every position satisfying it is kept. |
| Base.IndicesEmpty | subsync.py:171 | Nothing is kept exactly when no element satisfies the filter. |
| Strings.TrimStart | src/api.py:40 | `lstrip` never lengthens the text. |
| Strings.TrimEnd | src/api.py:40 | `rstrip` never lengthens the text. |
| Strings.TrimStartSuffix | src/api.py:40 | `lstrip` removes exactly the longest all-whitespace prefix. |
| Strings.TrimEndPrefix | src/api.py:40 | `rstrip` removes exactly the longest all-whitespace suffix. |
| Strings.TrimIdempotent | src/subtitle.py:26 | Stripping an already stripped text changes nothing. |
| Strings.TrimEmptyIff | src/api.py:40-41 | A line strips to "" exactly when it is all whitespace, so only such lines are skipped as blank. |
| Strings.TrimSpec | src/api.py:40 | `strip()` keeps the slice from the first to the last non-whitespace character. Everything removed is whitespace, and the result neither starts nor ends with whitespace. |
| Strings.ReplaceBreaksSpec | src/subtitle.py:26 | After `replace("\\N", " ")` no marker is left and the text has not grown; a text without markers is unchanged. |
| Strings.Split | main.py:55 | `split` yields at least one part, and no part holds the separator. |
| Strings.JoinSplit | src/ui.py:31 | Joining the parts of a split with the separator restores the text. |
| Strings.SplitNoSeparator | main.py:55 | A text without the separator splits into itself alone. |
| Strings.SplitAfterPrefix | main.py:55 | A separator after a separator-free prefix ends the first part. |
| Strings.SplitJoin | main.py:55 | Splitting joined separator-free parts gives the parts back. |
| Strings.JoinLength | subsync.py:173 | A joined text is at least as long as each of its parts. |
| Strings.ToDigits | subsync.py:67-70 | `str(n)` is a non-empty run of decimal digits. |
| Strings.DigitsRoundTrip | subsync.py:67-70 | The digits of `n` read back as `n`. |
| Strings.ParseIntRoundTrip | subsync.py:67-70 | `int(str(n)) == n`. |
| Strings.ParseIntSpec | main.py:59 | The model of `int()` accepts exactly a stripped text that is digits with at most one leading sign and at least one digit, and refuses anything else. |
| Captions.NoBreakSlice | subsync.py:165 | A slice of a marker-free text is marker-free. |
| Captions.CleanNoBreak | subsync.py:165 | A cleaned caption text holds no `\N` marker. |
| Captions.DualSplit | subsync.py:184 | In a two-line caption the first marker is the one between the lines; cutting there gives back the yellow English line and the Spanish line. |
| Tags.DigitRunEnd | subsync.py:131 | The scan stops at the end of the maximal digit run. |
| Tags.ScanNumbered | subsync.py:131 | A `digits-separator-digits` scan that succeeds ends past its start and within the name. |
| Tags.ScanAt | subsync.py:131 | A scan at one position that succeeds ends past it and within the name. |
| Tags.Search | subsync.py:131 | A reported match lies within the name, from the start position on. |
| Tags.ScanNumberedSound | subsync.py:131 | What the numbered scan reports is a numbered match. |
| Tags.ScanNumberedComplete | subsync.py:131 | Every numbered match at a position is found, and the scan reports at least its length (greedy `\d+`). |
| Tags.ScanAtSound | subsync.py:131 | What the scan at a position reports matches the pattern there. |
| Tags.ScanAtComplete | subsync.py:131 | Every match at a position is found, and the scan reports at least its end. |
| Tags.ScanAtExact | subsync.py:131 | The scan at a position fails exactly when no match starts there, and otherwise reports the longest match there. |
| Tags.NoMatchAtEnd | subsync.py:131 | No match starts at or past the end of the name. |
| Tags.SearchSpec | subsync.py:131 | The search fails exactly when no match starts from the given position on, and otherwise reports the first starting position and the longest match there. |
| Tags.TagSpec | subsync.py:131-132 | The tag is the upper-cased leftmost, longest match, or the first ten characters of the name when nothing matches. |
| Seasons.AutoRunSpec | subsync.py:286-292 | Automatic mode tries consecutive seasons from its start; every one but the last succeeded, and the last failed or is season 50. |
| Seasons.ThreadCountSpec | main.py:58-60 | A numeric thread answer gives its number. Any answer the model of `int()` refuses gives the fallback: one without digits, and one with a non-digit after its first character such as "8a" or "1.5". The fallback is 8 in main.py and 4 in subsync.py. |
| Api.Pending | src/api.py:39-51 | The listed positions are increasing, each names a line that is not blank and not cached, and every such line is listed. |
| Api.PendingEmpty | src/api.py:54 | Nothing is fetched exactly when every line is blank or cached. |
| Api.Translations | src/api.py:128-134 | There is one translation per fetched text. |
| Api.AttemptsSpec | src/api.py:81-126 | One to three attempts are made. An accepted response comes from the last attempt, has the request's length and is not lazy, and every earlier response was rejected. Without acceptance, all three attempts were made and all were rejected. |
| Api.ChainAt | src/api.py:111 | Each prompt of a chain is the one before plus what the previous attempt added. |
| Api.AttemptsChain | src/api.py:99-112 | The prompts sent start with the first prompt and form such a chain. |
| Api.AttemptsPrompts | src/api.py:99-112 | Each prompt after the first is the previous one with the correction appended exactly when the previous response was lazy. |
| Api.TranslationsSpec | src/api.py:128-134 | The first acceptable response among the three attempts is used. With none, every slot gets `[ERROR API]`, or for fewer than five lines its emergency reply: the stripped answer, or the line itself when the call raised. |
| Api.FallbackSpec | src/api.py:128-134 | Without an accepted response, fewer than five lines are answered one by one: the stripped emergency reply, or the line itself when the call raised. Five or more lines all get `[ERROR API]`, which is never cached. |
| Api.IsLazySpec | src/api.py:99-112 | An empty response is never lazy. A response whose snippet is the request's own is lazy when a text fully matches itself. A response sharing nothing with a non-empty request snippet is not lazy. |
| Api.WriteBackSpec | src/api.py:137-142 | Write-back leaves keys outside the fetched texts alone. It stores every fetched text whose translation has no `[ERROR` mark, and stores nothing else. |
| Api.WriteBackLast | src/api.py:137-142 | A text fetched more than once keeps the translation of its last fetch without an error mark: the last write wins. |
| Api.RepeatNeedsNoFetch | src/api.py:44-47 | After a batch whose translations all lack the error mark, the same lines need no fetch at all. |
| Api.Filled | src/api.py:137-140 | Writing translations into the slots keeps the number of slots. |
| Api.FilledSpec | src/api.py:137-140 | Fetched result `k` lands at position `idx[k]`, and every other slot keeps its value. |
| Api.BatchResultsSpec | src/api.py:37-47 | There is one result per line. Blank lines get "", cached lines their cached translation, and fetched lines their translations in order. |
| Api.CacheGrows | src/api.py:136-142 | A batch keeps every cache entry, and an error-free cache stays error-free. |
| Api.AttemptStep | src/api.py:81-116 | One attempt: the prompt is sent; an acceptable response ends the run; any other response leads to the next attempt, with the correction appended after a lazy one. |
| Api.Retry | src/api.py:78-126 | The retry loop sends exactly the prompts of the specified run and returns its accepted response, or nothing. |
| Api.RequestTranslations | src/api.py:78-134 | The retry loop and fallback give the specified translations and send the specified prompts. |
| Api.PendingStep | src/api.py:39-51 | Line `i` is appended to the fetch list exactly when it is neither blank nor cached. |
| Api.SlotsStep | src/api.py:39-47 | A cached line fills its slot with the cached value; blank and fetched lines leave the slots unchanged. |
| Api.FetchTextsAppend | src/api.py:49-51 | Listing one more position appends its stripped line to the texts to fetch. |
| Api.PartitionStep | src/api.py:39-51 | One step of the partition loop, for each of the blank, cached and fetched cases. |
| Api.Partition | src/api.py:35-51 | The partition loop yields the fetch positions, their stripped texts, and the slots with blank and cached lines answered. |
| Api.BatchTranslator.constructor | src/api.py:12 | The translator starts with the loaded cache. |
| Api.BatchTranslator.Store | src/api.py:137-142 | Every fetched translation goes to its line's slot, and the cache gains exactly the write-back of the non-error translations. |
| Api.BatchTranslator.TranslateBatch | src/api.py:29-144 | Results are the per-line answers. The cache is the old one with the write-back. No prompt is sent when nothing needs fetching, and otherwise exactly the prompts of the retry run. |
| SubSync.Range | subsync.py:68 | `range(a, b + 1)` has `b - a + 1` elements, `a`, `a+1`, …, or none when `a > b`. |
| SubSync.GatherFail | subsync.py:63-71 | The parts fail as a whole exactly when one part fails. |
| SubSync.RangePart | subsync.py:66-68 | The part `"a-b"` stands for the seasons `a` to `b`. |
| SubSync.SinglePart | subsync.py:69-70 | The part `"n"` stands for season `n` alone. |
| SubSync.StrictCons | subsync.py:72 | A value below all elements of an ascending duplicate-free list can lead it. |
| SubSync.Insert | subsync.py:72 | Insertion keeps the list ascending without duplicates and adds exactly the value. |
| SubSync.SortUnique | subsync.py:72 | `sorted(list(set(xs)))` is ascending, holds no duplicate, and holds exactly the values of `xs`. |
| SubSync.PartStep | subsync.py:65-71 | A failing part makes the whole answer the empty list; a parsing part extends the seasons so far. |
| SubSync.ParseSeasons | subsync.py:59-72 | "all", "todas" and "1-n", after lower-casing and stripping, give automatic mode. Any other answer gives `[]` when a part fails, and otherwise the named seasons ascending, each once. |
| SubSync.LookupSpec | subsync.py:116-127 | Empty text gives "" and a cache hit gives the cached value, both without a call. A failed call gives "" and caches nothing. A successful call gives its value and caches exactly it under the text. The translator is called exactly for a non-empty uncached text, and after a hit or a success the same lookup is a hit with the same answer. |
| SubSync.TextTranslator.constructor | subsync.py:41 | The translator starts with the loaded cache. |
| SubSync.TextTranslator.TranslateText | subsync.py:116-127 | `translate_text` returns the lookup's answer and leaves its cache. |
| SubSync.FragmentsSpec | subsync.py:171 | A Spanish caption contributes its cleaned text exactly when it overlaps the English one, in track order. |
| SubSync.FirstIndex | subsync.py:173 | Gives the first occurrence of a value. |
| SubSync.DedupeSpec | subsync.py:173 | `dict.fromkeys` keeps every value once, in order of first occurrence. |
| SubSync.NoForeignNoOverlap | subsync.py:169-173 | Without a Spanish track the overlap text is empty. |
| SubSync.OverlapTextSpec | subsync.py:169-173 | Without an overlapping Spanish caption the overlap text is empty. An overlapping caption with non-blank cleaned text makes it non-empty. |
| SubSync.CandidateSpec | subsync.py:168-177 | The translator is called only when nothing overlaps, and the cache only grows. |
| SubSync.Emit | subsync.py:179-187 | The anti-echo rule for a non-blank caption. Without a candidate it shows the cleaned text, and `last_match_txt` stays. A candidate equal to `last_match_txt` and longer than five characters gives the yellow line alone, and `last_match_txt` stays. Any other candidate goes beneath the yellow line and becomes `last_match_txt`. |
| SubSync.MergeLine | subsync.py:164-187 | Each caption adds exactly one text and keeps the earlier ones. |
| SubSync.MergeLineSpec | subsync.py:179-185 | One caption keeps the anti-echo invariant and the earlier texts. It adds a text its cue allows, and the log of shown translations grows by exactly the translation that text displays. |
| SubSync.MergeLineRule | subsync.py:164-187 | The loop body by cases. A caption blank after cleaning keeps its text. Otherwise, with the candidate `l`: no candidate gives the cleaned text; a repeat of a long `last_match_txt` gives the yellow line; any other candidate gives the two-line caption and becomes `last_match_txt`. |
| SubSync.BottomShown | subsync.py:180-185 | Of the three texts a non-blank caption can get, only the two-line one displays a translation, and that is the candidate. |
| SubSync.NoEchoPush | subsync.py:179-185 | Showing a non-empty translation that does not repeat a long last one keeps the anti-echo invariant. |
| SubSync.MergeAll | subsync.py:162-189 | There is one new text per caption. |
| SubSync.AllShownStep | subsync.py:164-187 | Extending the texts by one the last cue allows keeps every text allowed. |
| SubSync.MergeAllSpec | subsync.py:162-189 | Over a track, the translations shown are exactly those the captions display beneath their yellow lines, and `last_match_txt` is the last of them. None is empty, and none longer than five characters is displayed twice in a row. Every caption shows what its cue allows. |
| SubSync.MergeAllCache | subsync.py:176-177 | The cache keeps its entries and gains only cleaned caption texts. |
| SubSync.FullOverlapNoLookup | subsync.py:176-177 | When every non-blank caption has overlapping Spanish text, the translator is never called and the cache is unchanged. |
| SubSync.MergeCaption | subsync.py:165-187 | The loop body gives the caption's new text, the new `last_match_txt` and the cache, as the merge specification says. |
| SubSync.RetextStep | subsync.py:182-187 | Rewriting one more caption changes that caption's text only. |
| SubSync.MergeEpisode | subsync.py:161-189 | The loop rewrites each caption's text in place as the merge of the whole track prescribes and leaves timings alone; the cache ends as the merge's. |
| SubSync.ReplaceSpaces | subsync.py:215 | `replace(" ", "_")` keeps the length, turns every space into `_` and keeps every other character. |
| SubSync.OutputNameSpec | subsync.py:191 | The output name is the series folder with spaces replaced, then the upper-cased leftmost, longest tag match, or the first ten characters when nothing matches, then `_Dual.srt`. |
| SubSync.UpcomingStep | subsync.py:278-292 | One pass of the season loop: the next season joins those tried; automatic mode stops after a failure or at season 50. |
| SubSync.RunSeasons | subsync.py:275-292 | List mode tries the whole list in order, whatever fails; automatic mode tries 1, 2, … up to the first failure or season 50. |
| Subtitle.CleanLinesSpec | src/subtitle.py:26 | There is one cleaned line per caption, already stripped and free of `\N` markers. |
| Subtitle.BatchesCover | src/subtitle.py:36-38 | The batches are consecutive slices whose concatenation is the cleaned list. Each holds 1 to 50 lines, and all but the last exactly 50. |
| Subtitle.Scripted | src/subtitle.py:45 | The batch translator returns one translation per fetched text. |
| Subtitle.AnsweredConcat | src/subtitle.py:46 | Answers of consecutive runs, the later one against a grown cache, together answer the whole run. |
| Subtitle.TranslatedSpec | src/subtitle.py:45 | One batch call answers each line: "" for blank, the cached value for cached, and fetched result `f` at position `idx[f]`. It keeps the cache's entries and its freedom from error marks. |
| Subtitle.Batched | src/subtitle.py:45 | The batch translator, seen as a step, has those properties. |
| Subtitle.RunFromLines | src/subtitle.py:36-46 | `all_translations` has one entry per cleaned line. Entry `i` is "" for a blank line and the cached value for a line cached before the loop. |
| Subtitle.BatchEntry | src/subtitle.py:36-46 | Entry `k` of `all_translations`, for a line in the batch at offset `b`, is entry `k - b` of that batch's own result, the call made against the cache the earlier batches left. |
| Subtitle.RunFromSplit | src/subtitle.py:36-46 | The loop over the whole list is the loop over its first batches followed by the loop over the rest, against the cache the first part left. |
| Subtitle.RunFromCache | src/subtitle.py:36-46 | The batch loop keeps the cache's entries and its freedom from error marks. |
| Subtitle.TranslateOne | src/subtitle.py:45 | One call returns that batch's step result and leaves its cache. |
| Subtitle.TranslateAll | src/subtitle.py:36-49 | The batch loop returns the concatenated batch results and leaves the final cache of the batch-by-batch run. |
| Subtitle.NothingMissing | src/subtitle.py:58 | With length-preserving batches, `[Falta]` is never used. |
| Subtitle.Assemble | src/subtitle.py:53-61 | A blank cleaned caption keeps its text; every other becomes its cleaned text in yellow above translation `i`, or `[Falta]` past the end; no repeat suppression. |
| Subtitle.ProcessEpisode | src/subtitle.py:26-61 | Each caption is rewritten from its cleaned text and the batch loop's translations, and the cache ends as the loop leaves it. |
| Subtitle.OutputNameSpec | src/subtitle.py:65-69 | The output name is the series name, the upper-cased leftmost, longest `S\d+E\d+`/`\d+x\d+` match or the first ten characters, and `_Dual.srt`. |
| Cli.NumbersSpec | main.py:55 | When every part strips to digits, the values are given in order with repetitions; when none does, the list is empty. |
| Cli.NumbersAppend | main.py:55 | Each part is read on its own: one more part adds its value when it strips to digits and nothing otherwise, so digit parts are kept in order and the others dropped. |
| Cli.WrittenPart | main.py:55 | A written season strips to itself and reads back as its number. |
| Cli.JoinDigits | main.py:55 | Comma-joined digit strings hold only digits and commas. |
| Cli.NotAuto | main.py:52 | An answer of digits and commas does not select automatic mode. |
| Cli.IsAutoCase | main.py:52 | For all answers: two answers equal up to letter case select automatic mode alike, and an answer that selects it neither starts nor ends with whitespace, since it is not stripped. |
| Cli.IsAutoSpec | main.py:52 | Examples of that: `ALL` and `1-N` select automatic mode; ` all`, `all ` and `1-5` do not. |
| Cli.SeasonInputRoundTrip | main.py:52-55 | A comma-separated list of season numbers, the empty list included, reads back as that list. |
| Cli.UpTo50 | main.py:73 | The seasons up to the first above 50 are no more than the list. |
| Cli.UpTo50Spec | main.py:73 | They are the longest prefix of seasons not above 50. |
| Cli.FilterStep | main.py:89-93 | A tried season is processed after the earlier ones exactly when its download succeeds. |
| Cli.FilterSpec | main.py:89-93 | A season is processed exactly when it was tried and its download succeeded. |
| Cli.AutoNext | main.py:63-74 | One pass of automatic mode: the next season is tried, and the loop stops when its download fails or after season 50. |
| Cli.ListNext | main.py:63-74 | One pass of list mode: the next listed season is tried, and the loop stops at the end of the list or at a season above 50. |
| Cli.AutoRunExact | main.py:63-93 | Seasons 1, 2, … each but the last downloaded, the last failed or season 50, are exactly the automatic run. |
| Cli.UpTo50Exact | main.py:63-74 | A prefix of the list within 50, ended by the list's end or a season above 50, is exactly the seasons up to the first above 50. |
| Cli.RunSeasons | main.py:63-134 | Automatic mode tries 1, 2, … up to the first failed download or season 50. List mode tries the list in order up to the first season above 50, skipping failures. The seasons processed are the tried ones that downloaded. |
| Ui.Keep | src/ui.py:18 | The bounded buffer keeps the last `n` messages, or all when fewer. |
| Ui.KeepAppend | src/ui.py:26 | Trimming to `n` before adding more loses nothing that trimming after would keep. |
| Ui.LogManager.constructor | src/ui.py:15-18 | A new panel is empty, with `max_len` 10 unless given. |
| Ui.LogManager.Add | src/ui.py:23-26 | `add` appends the message as newest, drops the oldest only when full, and never exceeds `max_len`. |
| Ui.GetTextLines | src/ui.py:28-31 | The panel's text splits at newlines back into the messages in insertion order, when none spans two lines. |
| Ui.AddAllSpec | src/ui.py:23-26 | After any run of additions the panel holds the `max_len` most recent messages, in order. |

## Left out

- Network, files and processes are not modelled: the show search, ZIP download and extraction, workspace cleanup, loading and saving the JSON cache and the subtitle files, the `alass` subprocess and the fuzzy choice of the Spanish file. The cache is an in-memory map; a track is an array of captions.
- Gemini, Google Translate and `time.sleep` are not modelled. The oracle is a script, and the emergency call and Google Translate are functions. A 429 error and any other failure both consume an attempt; the 20-second wait is left out.
- The prompt's wording and `json.dumps` are not modelled: the prompt is `"INPUT LIST:\n"` and the lines joined by newlines. Only how it grows after a lazy response is modelled.
- `difflib.SequenceMatcher` is the abstract match count `matches`; `ratio()` is 1.0 when both snippets are empty.
- Threads, locks, progress bars, the Rich layout, log messages and logging are not modelled. `process_single_episode` and `process_episode` run one episode at a time, so the cache has one writer.
- Exceptions caught around a whole episode are not modelled, because nothing in the model raises.
- Unicode is not modelled: `strip`, `lower`, `upper`, `isdigit`, `int()` and `\d` work on ASCII characters only.
- Strings.ParseIntSpec, Seasons.ThreadCountSpec, SubSync.ParseSeasons: `int()`'s underscore digit grouping (`"1_0"` is 10) is not modelled; the model refuses such text, so main.py's thread answer `"8_0"` falls back to 8 and subsync.py's season answer `"1_0"` gives `[]`.
- main.py's `s_in.lower()` raises when the prompt is cancelled (`s_in` is `None`); that case is not modelled.
- Cli.RunSeasons: processing a downloaded season (listing its files and running `process_episode` on each) is not linked to `Subtitle.ProcessEpisode`; the loop only records which seasons are processed.
- SubSync.RunSeasons: a season's download and processing is the single predicate `succeeds`.
- Api.BatchTranslator.TranslateBatch: the guard `i < len(translations)` of the write-back always holds here, since every accepted response and every fallback has one entry per fetched text.
- An empty translation (an accepted `""` or an emergency reply that strips to `""`) is cached, as the code does; it contains no `[ERROR` mark.
