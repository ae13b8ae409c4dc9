# AutoTube core, modelled in Dafny

AutoTube is a chain of Python scripts that make a short car video. A
language model writes the title, description, hashtags, script and an image
query into `data/*.txt`. An operator reviews them. A voiceover is recorded.
Stock images are downloaded. A slideshow is rendered and uploaded. This
project models the sequential logic under that chain and proves what it
promises:

- **Image query and URL selection** (`image_downloader.py`). Modules
  `TopicResolver`, `ImageProviders`, `ImageAggregator`, `ImageStore` and
  `ImageDownloader` cover:
  - the first-match topic classifier and its fallbacks;
  - the seven query variants and their shuffle;
  - link extraction from the Pexels and Pixabay replies;
  - the capped collection loop, the order-keeping de-duplication and the
    `"supercar"` fallback;
  - the image folder: the purge, the extension taken from the URL path, and
    files named by position.
- **Repair of language-model output** (`script_caption_hashtags_ollama.py`).
  Module `ContentGenerator` covers the three tiers of `extract_json`, the
  defaulted and trimmed fields, and the reply of the Ollama call. Module
  `ScriptCounts` covers `count_sentences` and `count_words`.
- **Review gate** (`review_and_confirm.py`). Module `ReviewGate` is a state
  machine over the operator's input lines, run by the class
  `ReviewSession`.
- **Pipeline runner**
  (`assets/images/videos/latest_videos/data/pipeline_runner.py`). Module
  `PipelineRunner` covers the folder reset, modelled on a map from directory
  path to its entries, and the abort-on-first-failure fold over the six
  steps.

Shared modules:
- `Options` holds `Option` and `Result`.
- `Sequences` holds `NoDuplicates`.
- `Text` holds Python's `str.strip`, ASCII `str.lower`, the substring test,
  `str.endswith`, decimal rendering and `rfind`.

The outside world enters as parameters:
- each provider's reply to a query;
- `json.loads`, as a partial parser;
- a download success flag per URL;
- the draws that drive `random.shuffle`;
- the editor and the regeneration subprocess;
- the return code of each pipeline step.

The selection of `main` is modelled as the code does it: the `"supercar"`
fallback adds its URLs without the `seen` check that the first pass applies
(image_downloader.py:213-218), so the same URL can be selected, and
downloaded, twice. `ImageAggregator.SelectUrlsAsWritten` is that selection,
and `ImageAggregator.CollectUrls` and the whole `ImageDownloader` chain are
built on it. `ImageAggregator.SelectUrls` is a corrected selection that also
de-duplicates the fallback; it is used only for the row under "## Findings".

The fallback pass sends requests of its own. Its replies are a second
`Providers` value (`ImageDownloader.Refetched`: the same keys, other
replies), so a fallback can succeed where the first pass got nothing, even
when both passes send the same query texts.

The review gate reads a finite list of input lines. When the list runs out,
`input()` raises `EOFError`. Nothing catches it, so the process exits with 1.
`ReviewGate.Session` gives code 1 at that point.

## Model

| member | source | states |
|---|---|---|
| TopicResolver.FirstMatch | image_downloader.py:58-60 | the index is the first rule with a matching keyword; no rule before it matches; None exactly when no rule matches |
| TopicResolver.DetectFirstRuleWins | image_downloader.py:44-60 | when rule j is the first that matches `title + " " + script`, the topic is rule j's label |
| TopicResolver.DetectVerstappen | image_downloader.py:45 | a text containing "verstappen" gives "f1", whatever later rules would match |
| TopicResolver.DetectFallback | image_downloader.py:62-65 | with no rule matching, the topic is "cool car" when "car" occurs and "supercar" otherwise |
| TopicResolver.DetectCarTopic | image_downloader.py:41-65 | the detected topic is never empty |
| TopicResolver.DetectEmpty | image_downloader.py:42-65 | empty title and script give "supercar" |
| TopicResolver.KeywordsAreLong | image_downloader.py:44-56 | every keyword of the rule table has at least two characters |
| TopicResolver.ResolveBase | image_downloader.py:196-202 | a non-empty image query is used verbatim; otherwise the detected topic is used; the result is never empty |
| TopicResolver.Variants | image_downloader.py:83 | one variant per extra, in order, each `strip(base + " " + extra)` |
| TopicResolver.QueryVariants | image_downloader.py:73-83 | the seven variants of the stripped base, one per extra; their shape is carried by `VariantShape`, `QualifiedVariant` and `QueryVariantAt` |
| TopicResolver.VariantShape | image_downloader.py:83 | for trimmed parts, a variant is the base alone, the extra alone, or both joined by one space |
| TopicResolver.QualifiedVariant | image_downloader.py:74-83 | for a non-empty trimmed base, each of the six non-empty extras gives `base + " " + extra` |
| TopicResolver.QueryVariantAt | image_downloader.py:73-83 | variant i is the stripped base for i = 0 and the stripped base, a space and extra i otherwise |
| TopicResolver.ExtrasTrimmed | image_downloader.py:74-82 | every extra is free of surrounding whitespace |
| TopicResolver.Swap | image_downloader.py:84 | one exchange of the shuffle keeps the length and the multiset |
| TopicResolver.ShuffleFrom | image_downloader.py:84 | the remaining exchanges of the shuffle keep the length and the multiset |
| TopicResolver.Shuffle | image_downloader.py:84 | the shuffle, for any draws, is a permutation of its input |
| TopicResolver.BuildQueries | image_downloader.py:68-85 | exactly seven queries, equal as a multiset to the seven variants whatever the draws; only the order depends on the shuffle |
| TopicResolver.BuildQueriesJdmCar | image_downloader.py:68-85 | for the base "jdm car" the queries are, as a multiset, the seven spelled-out variants |
| ImageProviders.FirstPresent | image_downloader.py:116 | the first key of the preference order whose value is a non-empty string; None exactly when there is none |
| ImageProviders.Pick | image_downloader.py:116-117 | a picked link is never empty |
| ImageProviders.PexelsPreference | image_downloader.py:115-116 | Pexels takes `large`, then `large2x`, then `original`; with none of them the photo is skipped |
| ImageProviders.PixabayPreference | image_downloader.py:152 | Pixabay takes `largeImageURL`, then `webformatURL`; with neither the hit is skipped |
| ImageProviders.Links | image_downloader.py:114-118 | no more links than items |
| ImageProviders.LinksAppend | image_downloader.py:113-118 | the links of two runs of items are the links of each, concatenated in order |
| ImageProviders.LinksSingle | image_downloader.py:115-118 | one item contributes its picked link or nothing |
| ImageProviders.LinksFromItems | image_downloader.py:114-118 | every link is non-empty and is the pick of some item |
| ImageProviders.PexelsLinks | image_downloader.py:91-119 | a missing key or a failed request gives `[]`; an error exactly when the key is set and the reply body is not JSON; at most one link per photo |
| ImageProviders.PixabayLinks | image_downloader.py:125-155 | a missing key or a failed request gives `[]`; an error exactly when the key is set and the reply body is not JSON; at most one link per hit |
| ImageProviders.Fetch | image_downloader.py:210-211 | one query's links are the Pexels links followed by the Pixabay links; an error when either raises |
| ImageProviders.FetchNonEmpty | image_downloader.py:210-211 | no fetched link is empty |
| ImageAggregator.CollectedStep | image_downloader.py:207-211 | collecting one more query extends the list by that query's links, or stops at its error |
| ImageAggregator.GatherCount | image_downloader.py:207-209 | the number of queries issued is between the start and the number of variants |
| ImageAggregator.GatherStep | image_downloader.py:208-211 | below the cap the next query is issued, and its Pexels then Pixabay links are appended |
| ImageAggregator.FetchCases | image_downloader.py:210-211 | one turn fails with the Pexels error, else with the Pixabay error, else appends the Pexels links and then the Pixabay links |
| ImageAggregator.GatherCountFacts | image_downloader.py:207-211 | before every query issued, no reply had been fatal and fewer URLs than the cap were held; the loop ends before the last query only after a fatal reply or once the cap is reached |
| ImageAggregator.GatheredFacts | image_downloader.py:207-211 | no query after the cap is reached; an early stop means at least cap URLs |
| ImageAggregator.GatherCountPast | image_downloader.py:207-209 | while the list stays under the cap, every query is issued |
| ImageAggregator.Gather | image_downloader.py:206-211 | the loop issues exactly the counted number of queries, at most one per variant, and returns their links in order |
| ImageAggregator.CollectedPrefix | image_downloader.py:207-211 | the links of fewer queries are a prefix of the links of more |
| ImageAggregator.CollectedNothing | image_downloader.py:207-211 | queries that find nothing collect nothing |
| ImageAggregator.CollectedOk | image_downloader.py:207-211 | queries that never raise collect without error |
| ImageAggregator.Distinct | image_downloader.py:213-218 | the same set of URLs, each once, and no longer than the input |
| ImageAggregator.FirstIndex | image_downloader.py:216 | the first position of an element that occurs |
| ImageAggregator.FirstIndexExtend | image_downloader.py:215-218 | appending does not move a first occurrence |
| ImageAggregator.DistinctOfDistinct | image_downloader.py:213-218 | a list without repeats is left as it is |
| ImageAggregator.DistinctKeepsOrder | image_downloader.py:213-218 | the kept URLs appear in the order of their first occurrences |
| ImageAggregator.Dedup | image_downloader.py:213-218 | the loop with its `seen` set computes the distinct URLs: no repeats, the same set, in first-occurrence order |
| ImageAggregator.PrimaryFindsNothing | image_downloader.py:206-211 | queries that find nothing give an empty list |
| ImageAggregator.FirstTwo | image_downloader.py:223-227 | two fallback queries that each find `u` collect `[u, u]` |
| ImageAggregator.FallbackStartsTwice | image_downloader.py:220-227 | the fallback loop keeps both copies of `u` |
| ImageAggregator.FallbackKeepsDuplicates | image_downloader.py:220-227 | the selection as written returns a list with a repeated URL |
| ImageAggregator.SelectUrlsAsWritten | image_downloader.py:213-227 | a selected list is non-empty and every URL in it was gathered by the first pass or by the fallback; an error with both loops error-free means both found nothing |
| ImageAggregator.DistinctEmpty | image_downloader.py:213-220 | the de-duplicated list is empty exactly when the collected one is, so the fallback runs only when the first pass gathered nothing |
| ImageAggregator.SelectUrlsFallback | image_downloader.py:220-227 | after an empty first pass, the selection is the fallback's list exactly as gathered, repeats included |
| ImageAggregator.SelectUrls | image_downloader.py:220-227 | corrected selection for the row under "## Findings" (the code does not do this): it de-duplicates the fallback too, so a selected list is non-empty and free of repeats |
| ImageAggregator.SelectUrlsCorrects | image_downloader.py:220-227 | the corrected selection fails exactly when the selection as written fails, and otherwise is its de-duplication |
| ImageAggregator.SelectUrlsPrimary | image_downloader.py:213-220 | when the primary loop finds URLs, the selection as written is their distinct list and the fallback is not run |
| ImageAggregator.CollectUrls | image_downloader.py:206-230 | the collection loop, the de-duplication, the fallback loop appending raw URLs, and the fatal check, all as the code runs them, compute the selection as written |
| ImageStore.StripLeadingControls | image_downloader.py:174 | the URL parser's leading strip leaves a suffix that starts above the control range |
| ImageStore.RemoveUnsafe | image_downloader.py:174 | no tab or newline is left, and the text does not grow |
| ImageStore.RemoveUnsafeClean | image_downloader.py:174 | a URL without tab or newline is kept as it is |
| ImageStore.DropParams | image_downloader.py:174 | the path without `;params` is a prefix of the path |
| ImageStore.UrlPath | image_downloader.py:174 | the parsed path holds neither `?` nor `#` |
| ImageStore.SplitExt | image_downloader.py:176 | the extension is empty or starts with a dot and ends the path |
| ImageStore.LowerSuffix | image_downloader.py:175 | lowering a suffix is the suffix of the lowered text |
| ImageStore.SuffixExt | image_downloader.py:175-176 | when the lowered path ends in an image suffix, `splitext` returns the path's own spelling of that suffix |
| ImageStore.LetterTail | image_downloader.py:175-176 | such a path has a dot and then only letters at the suffix positions |
| ImageStore.RFindAt | image_downloader.py:176 | the last occurrence is found |
| ImageStore.RFindBefore | image_downloader.py:176 | an occurrence is found only before a stretch without the character |
| ImageStore.SuffixCase | image_downloader.py:175-176 | the kept extension ends the path and lowers to an image suffix |
| ImageStore.PathExtShape | image_downloader.py:173-176 | `.jpg` when the lowered path has no image suffix; otherwise the path's own image suffix; always empty or dotted |
| ImageStore.ImageExtIsExtension | image_downloader.py:173-176 | every URL's extension is a dot and letters, or empty |
| ImageStore.FileNamesDistinct | image_downloader.py:178 | different positions give different `car_{i}{ext}` file names |
| ImageStore.ImagePathsDistinct | image_downloader.py:178 | different positions give different output paths |
| ImageStore.DigitsThenDot | image_downloader.py:178 | digits followed by an extension split in one way only |
| ImageStore.SavedNameIsImage | image_downloader.py:165-178 | a saved file's name is one the next purge removes |
| ImageStore.EndsInImageSuffix | image_downloader.py:165 | a name ending in an image suffix, in any case, is an image name |
| ImageStore.SavedUpTo | image_downloader.py:171-188 | no more saved paths than the downloads tried |
| ImageStore.SavedUpToFrom | image_downloader.py:172-185 | every saved path belongs to a position whose download succeeded |
| ImageStore.SavedUpToFacts | image_downloader.py:172-185 | saved paths are distinct; position i's path is saved exactly when its download succeeded |
| ImageStore.SavedPathsFacts | image_downloader.py:168-190 | at most one path per selected URL, no repeats, saved exactly when downloaded, each from its own position |
| ImageStore.WrittenNamesIff | image_downloader.py:178-184 | a file is written exactly when some position's download succeeded under that name |
| ImageStore.ImageFolder.Purge | image_downloader.py:164-166 | the folder keeps exactly the files that are not image files |
| ImageStore.ImageFolder.DownloadAll | image_downloader.py:171-190 | returns the saved paths and adds exactly the written files |
| ImageStore.ImageFolder.SaveImages | image_downloader.py:161-190 | purges the images, keeps only `urls[:max_total]`, and returns the saved paths of that selection |
| ImageDownloader.ReadLower | image_downloader.py:23-29 | a missing file reads as ""; an existing one keeps its length and has no capital letter |
| ImageDownloader.LoadText | image_downloader.py:14-35 | title and script are lowered or ""; the image query is stripped, empty exactly when missing or blank |
| ImageDownloader.BaseKeywords | image_downloader.py:194-202 | the base phrase is never empty |
| ImageDownloader.FallbackQueries | image_downloader.py:222 | seven queries, as a multiset the variants of "supercar" |
| ImageDownloader.Outcome | image_downloader.py:229-232 | the run fails exactly when the selection as written fails |
| ImageDownloader.OutcomeSavesDistinctFiles | image_downloader.py:229-232 | a successful run returns at most ten distinct paths, each named by a position below ten |
| ImageDownloader.OutcomeFailsOnlyWithoutImages | image_downloader.py:220-230 | the run fails only when the primary queries raised or found nothing |
| ImageDownloader.OutcomeSavesUrlTwice | image_downloader.py:220-232 | on the input under "## Findings", with `u` downloadable, both `car_0` and `car_1` are written from `u` |
| ImageDownloader.DownloaderOutcome | image_downloader.py:193-232 | the whole script fails exactly when the selection as written over its own queries fails, and then only because the first pass raised or found nothing |
| ImageDownloader.FolderAfter | image_downloader.py:229-232 | a failed selection leaves the folder alone; otherwise its files that are not images stay |
| ImageDownloader.SaveOutcome | image_downloader.py:229-232 | the fatal check, then the saving of images into the folder |
| ImageDownloader.RunImageDownloader | image_downloader.py:193-232 | `main`: the result and the folder are those of the downloader run |
| ContentGenerator.GreedyBlock | script_caption_hashtags_ollama.py:128-130 | a found block runs from `{` to `}`; none is found exactly when the text has no such match |
| ContentGenerator.GreedyBlockLeftmostLongest | script_caption_hashtags_ollama.py:128 | the block is the leftmost and longest match, from the first `{` to the last `}` |
| ContentGenerator.WhitespaceIsAllSpace | script_caption_hashtags_ollama.py:137 | the pattern's `\s*` is the same whitespace as `str.isspace` |
| ContentGenerator.QuotedRun | script_caption_hashtags_ollama.py:137 | a quoted run's length is its text plus its two quotes |
| ContentGenerator.QuotedRunFacts | script_caption_hashtags_ollama.py:137 | the quoted text holds no quote and is followed by the rest of the input |
| ContentGenerator.QuotedRunRendered | script_caption_hashtags_ollama.py:137 | a rendered quoted string reads back as itself |
| ContentGenerator.MatchAt | script_caption_hashtags_ollama.py:137 | a match at a position consumes at least one character and no more than is left |
| ContentGenerator.MatchAtCapturable | script_caption_hashtags_ollama.py:137 | a match has a non-empty key, and neither part holds a quote |
| ContentGenerator.MatchAtShape | script_caption_hashtags_ollama.py:137 | a match is a rendered `"k":<ws>"v"` followed by the rest |
| ContentGenerator.MatchAtRendered | script_caption_hashtags_ollama.py:137 | a rendered pair is matched as that pair, with its full length |
| ContentGenerator.FindPairs | script_caption_hashtags_ollama.py:137 | every pair found can be captured by the pattern |
| ContentGenerator.ScanSkip | script_caption_hashtags_ollama.py:137 | text without quotes before a match adds no pair |
| ContentGenerator.NoQuoteNoPairs | script_caption_hashtags_ollama.py:137-138 | a text without quotes has no pairs |
| ContentGenerator.FindPairsRenderAll | script_caption_hashtags_ollama.py:137 | rendering capturable pairs with quote-free separators and scanning them gives the same pairs, in order |
| ContentGenerator.PairsToDict | script_caption_hashtags_ollama.py:139 | the keys are exactly those found, and every value is a string |
| ContentGenerator.PairsToDictLast | script_caption_hashtags_ollama.py:139 | for a repeated key the last value wins |
| ContentGenerator.ExtractJson | script_caption_hashtags_ollama.py:121-149 | always a dictionary; without a parsed block and with pairs found it is a dictionary of strings keyed by exactly the found keys; without either it is exactly the placeholder |
| ContentGenerator.ExtractParsedBlock | script_caption_hashtags_ollama.py:128-134 | a block that parses is returned unchanged |
| ContentGenerator.ExtractPairs | script_caption_hashtags_ollama.py:137-140 | without a parsed block, each key maps to its last value in the text |
| ContentGenerator.ExtractPlaceholder | script_caption_hashtags_ollama.py:143-149 | with no block that parses and no pair found, the result is exactly the five-field placeholder |
| ContentGenerator.ExtractPlaceholderPlain | script_caption_hashtags_ollama.py:128-149 | in particular, a text with neither `{` nor `"` gives the placeholder whatever the parser does |
| ContentGenerator.ExtractPlaceholderUnparsed | script_caption_hashtags_ollama.py:128-149 | the block of `{oops}` is the whole text, and when it does not parse the result is the placeholder |
| ContentGenerator.NoBraceNoBlock | script_caption_hashtags_ollama.py:128 | a text without `{` has no block |
| ContentGenerator.ReadField | script_caption_hashtags_ollama.py:175-179 | an absent key gives ""; a string is stripped; a value that is not a string raises |
| ContentGenerator.ReadFieldPadded | script_caption_hashtags_ollama.py:175-179 | a value padded by whitespace reads as its core |
| ContentGenerator.ReadFieldCore | script_caption_hashtags_ollama.py:175-179 | the field read is the value with only surrounding whitespace removed |
| ContentGenerator.ReadContent | script_caption_hashtags_ollama.py:175-179 | the five fields are read exactly when each is absent or a string, and each is trimmed |
| ContentGenerator.ReadContentOf | script_caption_hashtags_ollama.py:175-179 | trimmed string fields are read back unchanged |
| ContentGenerator.ReadPlaceholder | script_caption_hashtags_ollama.py:143-179 | the placeholder reads as its five fixed fields |
| ContentGenerator.RawResponse | script_caption_hashtags_ollama.py:102-116 | the response text is returned exactly for a 200 reply with a JSON body whose response is absent or a string; absent gives "" |
| ContentGenerator.Generate | script_caption_hashtags_ollama.py:159-179 | content is produced only from a 200 reply, and never when the call fails |
| ContentGenerator.GenerateOfText | script_caption_hashtags_ollama.py:163-179 | for a response text, the content is the fields read from the extracted dictionary |
| ContentGenerator.GeneratePlaceholder | script_caption_hashtags_ollama.py:143-179 | a response with no block that parses and no pair gives the placeholder content |
| ContentGenerator.GeneratePlaceholderPlain | script_caption_hashtags_ollama.py:143-179 | in particular, a response with neither `{` nor `"` gives the placeholder content |
| ContentGenerator.ContentPairsDict | script_caption_hashtags_ollama.py:139 | the five rendered fields map back to their own values |
| ContentGenerator.GeneratePairsRoundTrip | script_caption_hashtags_ollama.py:128-179 | a response that renders the five fields as pairs, with no brace, gives back that content |
| ScriptCounts.TerminatorRun | script_caption_hashtags_ollama.py:152 | the maximal run of `.`, `!` and `?` at the start |
| ScriptCounts.Pieces | script_caption_hashtags_ollama.py:152 | `re.split` on terminator runs gives at least one piece, none holding a terminator |
| ScriptCounts.Fields | script_caption_hashtags_ollama.py:152 | the split on each single terminator gives at least one piece, none holding a terminator |
| ScriptCounts.CountNonBlankAppend | script_caption_hashtags_ollama.py:153 | non-blank pieces count up across a concatenation |
| ScriptCounts.CountSentences | script_caption_hashtags_ollama.py:151-153 | `count_sentences`: never more sentences than pieces; its meaning is carried by `CountSentencesFields`, `CountSentencesBlank`, `CountSentencesOne` and `CountSentencesAppend` |
| ScriptCounts.CountSentencesFields | script_caption_hashtags_ollama.py:151-153 | splitting on runs counts the same sentences as splitting on single terminators |
| ScriptCounts.CountSentencesAppend | script_caption_hashtags_ollama.py:151-153 | sentence counts add up across a terminator |
| ScriptCounts.CountSentencesBlank | script_caption_hashtags_ollama.py:151-153 | a blank text has no sentence |
| ScriptCounts.CountSentencesOne | script_caption_hashtags_ollama.py:151-153 | a non-blank text without a terminator is one sentence |
| ScriptCounts.WordRun | script_caption_hashtags_ollama.py:157 | the maximal run of word characters at the start |
| ScriptCounts.Words | script_caption_hashtags_ollama.py:157 | `re.findall(r"\w+")` gives non-empty runs of word characters only |
| ScriptCounts.WordsBound | script_caption_hashtags_ollama.py:157 | no more words than characters |
| ScriptCounts.CountWords | script_caption_hashtags_ollama.py:156-157 | the word count is at most the length |
| ScriptCounts.CountWordsZero | script_caption_hashtags_ollama.py:156-157 | no word exactly when no character is a word character, so 0 for "" |
| ScriptCounts.WordsAppend | script_caption_hashtags_ollama.py:157 | a non-word character separates the words before it from those after it |
| ScriptCounts.CountWordsAppend | script_caption_hashtags_ollama.py:156-157 | word counts add up across a non-word character |
| ScriptCounts.CountWordsOne | script_caption_hashtags_ollama.py:157 | a run of word characters is one word |
| Text.Strip | image_downloader.py:73 | the stripped text has no surrounding whitespace and is no longer |
| Text.StripDecompose | image_downloader.py:73 | finds the position at which the stripped core sits in the text, with only whitespace before and after it |
| Text.StripUnique | image_downloader.py:73 | that decomposition is the only one |
| Text.StripIdempotent | image_downloader.py:73-83 | stripping twice is stripping once |
| Text.StripEmptyIffBlank | script_caption_hashtags_ollama.py:153 | a text strips to "" exactly when it is blank |
| Text.Contains | image_downloader.py:59 | the substring test holds exactly when the word occurs at some position |
| Text.ContainsTransitive | image_downloader.py:62 | a text containing "cars" contains "car", and the like |
| Text.NatToString | image_downloader.py:178 | a position renders as digits without a leading zero |
| Text.ParseNatToString | image_downloader.py:178 | reading the digits back gives the position |
| Text.NatToStringInjective | image_downloader.py:178 | different positions render differently |
| Text.RFind | image_downloader.py:176 | the last occurrence of a character, or -1 |
| Text.FindAny | script_caption_hashtags_ollama.py:152 | the first occurrence of a character of the set, or the length |
| ReviewGate.FileOfKey | review_and_confirm.py:7-30 | only "1" to "4" name a file, and never the image query |
| ReviewGate.ReadFile | review_and_confirm.py:14-18 | a missing file reads as "(missing)", an existing one as its stripped contents |
| ReviewGate.Show | review_and_confirm.py:20-26 | the display shows the four editable files, each trimmed |
| ReviewGate.EditField | review_and_confirm.py:28-35 | another key changes nothing; no key touches another file or the image query |
| ReviewGate.StripLines | review_and_confirm.py:54 | every line is read stripped |
| ReviewGate.Choice | review_and_confirm.py:54 | `input().strip().lower()`: never longer than the line; its meaning is carried by `ChoiceNormalised` and `ParseChoice` |
| ReviewGate.ParseChoice | review_and_confirm.py:54-66 | a line selects c, e, r or q exactly when it strips and lowers to that letter |
| ReviewGate.LowerOne | review_and_confirm.py:54 | a text lowers to one letter exactly when it is one character lowering to it |
| ReviewGate.ChoiceNormalised | review_and_confirm.py:54 | surrounding whitespace is ignored and the rest is lowered |
| ReviewGate.UpperContinue | review_and_confirm.py:54-55 | a padded "C" is the choice "c" |
| ReviewGate.Next | review_and_confirm.py:53-67 | exit 0 exactly on "c"; exits are 0 or 1; an invalid line changes nothing; only "r" changes the image query; the loop moves forward |
| ReviewGate.Session | review_and_confirm.py:53-67 | the exit code is 0 or 1 and no more lines are read than given |
| ReviewGate.Gate | review_and_confirm.py:46-67 | without the data directory, exit 1 before any prompt or display |
| ReviewGate.SessionStops | review_and_confirm.py:55-65 | an exiting pass ends the session with its code |
| ReviewGate.SessionGoes | review_and_confirm.py:58-67 | a looping pass continues the session from the next line |
| ReviewGate.ContinueExitsZero | review_and_confirm.py:54-57 | a line normalising to "c" ends the gate with 0, nothing changed |
| ReviewGate.QuitExitsOne | review_and_confirm.py:63-65 | a line normalising to "q" ends the gate with 1, nothing changed |
| ReviewGate.InvalidChoiceSkipped | review_and_confirm.py:66-67 | any other line is skipped, with no exit, no change and no display |
| ReviewGate.FailedRegenerationExitsOne | review_and_confirm.py:39-62 | a failed regeneration exits with 1 |
| ReviewGate.ZeroFromContinue | review_and_confirm.py:53-67 | a session exits with 0 only on a line that parses as "c" |
| ReviewGate.ZeroOnlyFromContinue | review_and_confirm.py:46-67 | exit 0 only right after an input normalising to "c" |
| ReviewGate.ContinueLine | review_and_confirm.py:54-55 | a stripped line that parses as "c" normalises to "c" |
| ReviewGate.SessionKeepsShown | review_and_confirm.py:51-67 | displays are only appended, each fully trimmed |
| ReviewGate.GateShows | review_and_confirm.py:51 | with the data directory, the first display shows the initial files |
| ReviewGate.GateKeepsImageQuery | review_and_confirm.py:28-67 | without "r", the image query is never changed |
| ReviewGate.ImageQueryKept | review_and_confirm.py:53-67 | from any line on, without "r", the image query is kept |
| ReviewGate.ReviewSession.ShowContent | review_and_confirm.py:20-26 | appends one display of the current files |
| ReviewGate.ReviewSession.Pass | review_and_confirm.py:54-67 | one pass of the loop: the exit code, or the next line, files and displays of `Next` |
| ReviewGate.ReviewSession.Run | review_and_confirm.py:46-67 | `main`: the exit code, files and displays of the gate |
| PipelineRunner.RemoveTree | assets/images/videos/latest_videos/data/pipeline_runner.py:14-15 | exactly the folder and everything below it is removed; the rest is kept |
| PipelineRunner.MakeDirs | assets/images/videos/latest_videos/data/pipeline_runner.py:16 | the folder exists, new when it was missing; existing directories are kept; what is created lies on its path |
| PipelineRunner.ResetFolder | assets/images/videos/latest_videos/data/pipeline_runner.py:14-16 | an existing folder, or one with nothing below it, ends empty; directories outside it are kept |
| PipelineRunner.Clean | assets/images/videos/latest_videos/data/pipeline_runner.py:13-16 | directories outside every folder are kept |
| PipelineRunner.FoldersDisjoint | assets/images/videos/latest_videos/data/pipeline_runner.py:7-12 | no listed folder lies within another |
| PipelineRunner.PrefixesDiffer | assets/images/videos/latest_videos/data/pipeline_runner.py:7-12 | two different listed folders are apart |
| PipelineRunner.ResetKeepsEmpty | assets/images/videos/latest_videos/data/pipeline_runner.py:13-16 | resetting one folder leaves another reset folder empty |
| PipelineRunner.ResetKeepsUnborn | assets/images/videos/latest_videos/data/pipeline_runner.py:13-16 | resetting one folder creates nothing below another |
| PipelineRunner.CleanUnborn | assets/images/videos/latest_videos/data/pipeline_runner.py:13-16 | resetting apart folders creates nothing below a folder |
| PipelineRunner.CleanEmpties | assets/images/videos/latest_videos/data/pipeline_runner.py:13-16 | after the loop, every folder of a disjoint list is empty |
| PipelineRunner.CleanAssetsEmpties | assets/images/videos/latest_videos/data/pipeline_runner.py:6-16 | after `clean_assets` each of the four folders exists and is empty; everything outside them is unchanged |
| PipelineRunner.CleanStep | assets/images/videos/latest_videos/data/pipeline_runner.py:13-16 | one more folder is one more reset |
| PipelineRunner.Workspace.CleanAssets | assets/images/videos/latest_videos/data/pipeline_runner.py:6-16 | the loop's directories are the folded reset of the four folders |
| PipelineRunner.FirstFailure | assets/images/videos/latest_videos/data/pipeline_runner.py:32-39 | the first step returning non-zero; every earlier one returned 0 |
| PipelineRunner.FirstFailureIs | assets/images/videos/latest_videos/data/pipeline_runner.py:32-39 | the first failure is unique |
| PipelineRunner.ExpectedCode | assets/images/videos/latest_videos/data/pipeline_runner.py:32-40 | completion is reached exactly when every step returned 0, with code 0; otherwise the code is non-zero |
| PipelineRunner.ExpectedOrder | assets/images/videos/latest_videos/data/pipeline_runner.py:20-39 | the steps start in the listed order; each after the previous returned 0; a failure's code is the run's |
| PipelineRunner.RunSteps | assets/images/videos/latest_videos/data/pipeline_runner.py:29-40 | the loop over `steps` gives the expected code, started steps and completion |
| PipelineRunner.ExitStatus | assets/images/videos/latest_videos/data/pipeline_runner.py:34 | the process status is the code modulo 256, kept as it is for 0 to 255, and 0 only for multiples of 256 |
| PipelineRunner.ExitStatusOfRun | assets/images/videos/latest_videos/data/pipeline_runner.py:31-40 | when every return code is a byte or a negated signal number, the process status is 0 exactly when every step completed |
| PipelineRunner.RunPipeline | assets/images/videos/latest_videos/data/pipeline_runner.py:18-40 | the folders are reset first, then the steps run as expected; the process status is `ExitStatus` of the code, and 0 exactly on completion when the return codes are in range |

Functions without a row of their own only compute; their properties are
stated by the lemmas in the table:
- `ImageStore.PathExt` and `ImageStore.ImageExt`, the `ext` of `save_images`:
  `PathExtShape`, `SuffixExt` and `ImageExtIsExtension`;
- `ImageStore.ImageFileName` and `ImageStore.ImagePath`, `car_{i}{ext}`:
  `FileNamesDistinct`, `ImagePathsDistinct` and `DigitsThenDot`;
- `ReviewGate.Parse`, the dispatch on the choice: `ParseChoice`, `LowerOne`
  and `UpperContinue`;
- `TopicResolver.Variant`, one `f"{base} {extra}".strip()`: `VariantShape`
  and `QualifiedVariant`;
- `Text.Lower`, ASCII `str.lower`: `LowerSuffix`, `LowerOne` and
  `ImageDownloader.ReadLower`;
- `PipelineRunner.Expected`, the reference run of the steps: `ExpectedCode`,
  `ExpectedOrder`, `ExitStatusOfRun` and `RunSteps`.

## Left out

- HTTP: the Pexels, Pixabay and Ollama calls and the image downloads. Each
  becomes a parameter: a reply per query and per pass, an Ollama reply, a
  success flag per URL. Timeouts, headers and `per_page` are not modelled.
- Within one pass, a reply is a function of the query text, so a query sent
  twice in the same pass would get the same reply twice; across the two
  passes the replies are independent.
- `json.loads` is a parameter from text to an optional dictionary. Its
  grammar is not modelled. Provider bodies are given already parsed, or
  marked not JSON.
- `random.shuffle` is modelled as CPython's Fisher–Yates swap sequence
  driven by arbitrary draws. The random source itself is not modelled.
- File reads and writes are not modelled:
  - the `data/*.txt` reads are optional strings;
  - the five writes of the generator are the returned `Content`;
  - `os.listdir`/`os.remove` are the purge on a set of names.
- Directories: `os.path.exists`, `shutil.rmtree` and `os.makedirs` act on
  a map from directory path to entries. A plain file standing at a folder's
  path, and permission errors, are not modelled.
- The runner's own location: the runner sits under `assets/images`, which
  `clean_assets` removes. This is noted only; its effect on later steps is
  not modelled.
- Subprocesses: `nano`, the regeneration run and the six pipeline steps are
  parameters that give new file contents or return codes.
- Printing and progress messages are not modelled.
- `str.lower` is ASCII only. Python lowers every Unicode capital.
- ScriptCounts.Words: the class `\w` is a parameter. Python takes it from
  the Unicode database, which is not modelled.
- ImageStore.UrlPath: models `urlparse` only as far as the path: the
  scheme, `//netloc`, `;params`, `?query` and `#fragment` are split off. IPv6
  brackets and the other checks of `urlsplit` are not modelled.
- ImageProviders.PexelsLinks: the unguarded `r.json()` and `data.get` on a
  body that is not a dictionary, which raise, are both the `Malformed`
  reply.
- ContentGenerator.RawResponse: a reply body that is not JSON raises in
  `resp.json()`. A connection failure exits with 1. Both are errors here;
  the exit code and traceback are not told apart.
- ContentGenerator.Generate: the `extract_json` error re-raised by `main` is
  modelled as an error result. Its exception type is not modelled.
- `video_creator_advanced.py`, `voiceover_ms.py` and `youtube_uploader.py`
  are not part of this model. They wrap moviepy, edge-tts and the YouTube
  API, and enter only as step return codes.

## Findings

| source | as written | input that shows it | evidently intended | confidence | as-written member | corrected member |
|---|---|---|---|---|---|---|
| image_downloader.py:220-227 | the fallback loop extends the de-duplicated list with raw provider URLs, so the image set can hold the same URL twice and download it twice | every primary query finds nothing, and the first two fallback queries each return the same URL `u` | the fallback's URLs are de-duplicated as the first pass's `seen` set (lines 213-218) de-duplicates its own, so the image set has no repeated URL | not executed | ImageAggregator.FallbackKeepsDuplicates | ImageAggregator.SelectUrls |
