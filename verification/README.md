# pdf_process in Dafny

This project models the pure core of `pdf_process`, a tool that reads Chinese tender
documents (招标文件, bidding announcements) and bid documents (投标文件, bids). It pulls fields
out of them and looks for documents that are suspiciously alike. It covers three parts:

- **The similarity engine** (`similarity_detect.py`):
  - four character-level metrics: normalised Levenshtein, character n-gram Jaccard, k-shingle
    Jaccard, and the four-feature structure similarity;
  - the weighted ensemble `comprehensive_similarity`, with its name-keyed registry and weight
    table;
  - the pairwise scanners over a document collection: all documents, bids only, one document
    against a template, the top N neighbours of one document, and one company's documents;
  - the five-band recommendation, the plagiarism risk label and the pattern tags.
- **Text normalisation and parsing** (`utils.py`):
  - whitespace collapsing;
  - OCR line filtering;
  - the `yyyy-m-d` date recogniser with calendar validation;
  - the Arabic-numeral half of the amount parser.
- **Field-extraction bookkeeping** (`pdf_info_extract.py` and `info_extractor.py`):
  - schema selection;
  - file-type classification;
  - required-field validation;
  - the schema-ordered result;
  - keyword paragraph extraction;
  - the regex key layout;
  - the merge that prefers NLP spans and fills gaps from the regexes;
  - amount standardisation.

Modules, one per file:

| module | file | models |
|---|---|---|
| `Wrappers` | wrappers.dfy | `Option` and `Result` |
| `Strings` | strings.dfy | Python's whitespace and line-break classes, `split`, `join`, `strip`, `splitlines` |
| `Seqs` | sequences.dfy | filtering, first-occurrence dedup, `s[:n]` |
| `Sorting` | sorting.dfy | `sort(key=…, reverse=True)`: stable, non-increasing |
| `Pairs` | pairs.dfy | the `for i … for j in range(i+1, n)` enumeration |
| `Levenshtein` | levenshtein.dfy | edit distance, by a recursive definition and by the two-row algorithm |
| `Metrics` | metrics.dfy | the four character-level metrics |
| `Ensemble` | ensemble.dfy | `comprehensive_similarity`, the recommendation bands, the risk label, the pattern tags |
| `Scanner` | scanner.dfy | the five `AdvancedSimilarityDetector` scans over a document collection |
| `TextClean` | text_clean.dfy | `clean_text`, `clean_ocr_text` |
| `Dates` | dates.dfy | `extract_date` |
| `Amounts` | amounts.dfy | `extract_amount`, and the plain-number fallback of `info_extractor.py` |
| `Records` | records.dfy | Python dictionaries as insertion-ordered association lists, and field values with Python truthiness |
| `Fields` | fields.dfy | the field lists and helpers the two extractors share |
| `Paragraphs` | paragraphs.dfy | `re.split(r'\n\s*\n', …)` and the stripped paragraphs |
| `PdfExtract` | pdf_extract.dfy | `pdf_info_extract.py` |
| `InfoExtract` | info_extract.dfy | `info_extractor.py` |

Floating point becomes `real`. Collaborators the core cannot see become parameters:

- `tfidf_similarity` and `bert_similarity` are oracles that return a score in [0,1], or None
  when they raise.
- The document store's lookups are input sequences of records and optional lookup results.
- The NLP model's output is an `Inference` value.
- `find_first` is a `Finder`: the capture for each result key.
- `cn2an` is a `Numerals` function from the comma-free text to its Chinese-numeral amounts.

### Behaviour worth knowing

The source behaves as follows in places a reader might not expect, and the model does the same.

- **The ensemble never says "similar" with its defaults.**
  - The default method list is tfidf, levenshtein and ngram. Their weights sum to 0.7, and the
    weighted sum is never renormalised. (This holds in exact arithmetic; floating-point rounding
    is not modelled.)
  - `is_similar` is the hard-coded, strict `overall > 0.7`. So it is never true with the
    defaults, not even for two identical documents. Identical texts at least 3 characters long
    score exactly 0.7 when the tfidf call scores them 1. Shorter identical texts score 0 on
    n-grams, and a tfidf call that raises counts as 0, so these score less.
  - `detect_similar_documents` with its defaults, and `detect_bidding_plagiarism` at its
    default threshold of 0.7, therefore always return an empty list.
  - `compare_with_template`'s default of tfidf and bert is capped at 0.5, so its
    recommendation is always the lowest band.
- **Short identical texts.** `ngram_similarity` scores two texts shorter than n as 0, not 1,
  and `shingling_similarity` raises a division by zero for two texts shorter than k.
- **Structure features.** `structure_similarity` skips a feature both texts count as zero
  instead of scoring it 1.
- **The collection scan's size check.** `detect_similar_documents` checks the record count
  before dropping records without text. So two records of which at most one has text give an
  empty list, not the "insufficient documents" message.
- **The fallback keeps its commas.** The plain-number fallback of `info_extractor.py`
  searches the text with its commas still in place. So "1,200万" standardises to 10000, not to
  12000000.
- **投标单位 is not a schema field.** The tender regex layout uses the key 投标单位, which is
  not in the tender schema (that field is 投标单位名称). It survives the merge as an extra
  key.
- **Whitespace.** `\s` is Python's full `str.isspace` class, not only ASCII whitespace.

## Model

| member | source | states |
|---|---|---|
| Levenshtein.DistanceBound | similarity_detect.py:44-46 | the edit distance never exceeds the longer length, so `1 - d/max_len` is never negative |
| Levenshtein.DistanceSelf | similarity_detect.py:44 | a text is at distance 0 from itself |
| Levenshtein.DistanceZeroIff | similarity_detect.py:44-46 | the distance is 0 exactly when the two texts are equal |
| Levenshtein.DistanceSymmetric | similarity_detect.py:44 | the distance does not depend on argument order |
| Levenshtein.DistanceStep | similarity_detect.py:44 | the distance of two prefixes obeys the insert/delete/substitute recurrence, stated over prefixes |
| Levenshtein.NextRow | similarity_detect.py:44 | from the row of distances for `a[..i]` against every prefix of `b`, computes the row for `a[..i+1]` |
| Levenshtein.ComputeDistance | similarity_detect.py:44 | the two-row dynamic program computes exactly the recursive edit distance |
| Metrics.LevenshteinSimilarity | similarity_detect.py:42-46 | the similarity is in [0,1] and is 1 exactly when the texts are equal, two empty texts included |
| Metrics.LevenshteinSymmetric | similarity_detect.py:42-46 | Levenshtein similarity does not depend on argument order |
| Metrics.GramsEmptyIff | similarity_detect.py:58-59 | a text has no n-grams exactly when it is shorter than n |
| Metrics.Jaccard | similarity_detect.py:64-67 | the Jaccard index is undefined exactly when both sets are empty, and lies in [0,1] otherwise |
| Metrics.NgramSimilarity | similarity_detect.py:56-67 | n-gram similarity is in [0,1] |
| Metrics.NgramSymmetric | similarity_detect.py:56-67 | n-gram similarity does not depend on argument order |
| Metrics.NgramIdentical | similarity_detect.py:56-67 | identical texts at least n long score 1 |
| Metrics.NgramShortTexts | similarity_detect.py:65-67 | two texts both shorter than n score 0, even when identical |
| Metrics.ShingleSimilarity | similarity_detect.py:69-78 | shingling fails with a division by zero exactly when both texts are shorter than k, and lies in [0,1] otherwise |
| Metrics.ShingleIdentical | similarity_detect.py:69-78 | identical texts at least k long score 1 |
| Metrics.Features | similarity_detect.py:100-107 | there are four feature counts, and the paragraph and sentence counts are at least 1 because they count split pieces |
| Metrics.FeatureTerms | similarity_detect.py:113-117 | there is at most one term per feature, each in [0,1] |
| Metrics.StructureTermsNonEmpty | similarity_detect.py:102-103 | at least one feature term is always scored, so the mean is never taken over an empty list |
| Metrics.StructureSimilarity | similarity_detect.py:95-119 | structure similarity is in [0,1] |
| Metrics.StructureSymmetric | similarity_detect.py:95-119 | structure similarity does not depend on argument order |
| Metrics.StructureIdentical | similarity_detect.py:95-119 | a text compared with itself scores 1 |
| Ensemble.Settle | similarity_detect.py:149-153 | a metric call that raised is scored 0, and every settled score is in [0,1] |
| Ensemble.MetricScore | similarity_detect.py:129-135 | every registered metric scores in [0,1] |
| Ensemble.Contribution | similarity_detect.py:156-157 | a metric adds between 0 and its weight when it is selected, and nothing otherwise |
| Ensemble.Compare | similarity_detect.py:144-163 | the detailed scores are keyed by exactly the registered names asked for, each being that metric's settled score in [0,1]; the overall score is the weight-times-score sum over the detailed scores and lies between 0 and the weight total of those metrics; `is_similar` holds exactly when the overall score is above 0.7 |
| Ensemble.ContributionsAreWeightedSum | similarity_detect.py:155-157 | the weighted sum over the detailed scores equals the sum of the five per-metric contributions |
| Ensemble.IdenticalScoresOne | similarity_detect.py:129-135 | every metric scores a text at least 3 long against itself as 1 when the oracles do |
| Ensemble.SelectedDefault | similarity_detect.py:144 | the default method list selects tfidf, levenshtein and ngram |
| Ensemble.DefaultMethodsNeverSimilar | similarity_detect.py:136-144 | with the default methods the overall score is at most 0.7, so `is_similar` is never true |
| Ensemble.IdenticalDefaultNotSimilar | similarity_detect.py:155-162 | a text at least 3 characters long, compared with itself while tfidf scores it 1, scores exactly 0.7 with the default methods and is not similar |
| Ensemble.CompareIdentical | similarity_detect.py:155-157 | a text at least 3 characters long, compared with itself while the oracles score it 1, scores the full weight total of the selected metrics |
| Ensemble.UnregisteredNamesIgnored | similarity_detect.py:147-148 | appending names missing from the registry changes nothing |
| Ensemble.RepeatedNamesScoredOnce | similarity_detect.py:146-150 | naming a metric twice scores it once |
| Ensemble.FailingMetricScoresZero | similarity_detect.py:149-153 | a tfidf call that raises is recorded as 0 in the detailed scores |
| Ensemble.MetricScoreSymmetric | similarity_detect.py:129-135 | each metric is symmetric when the oracles are |
| Ensemble.CompareSymmetric | similarity_detect.py:144-163 | the whole comparison is symmetric when the oracles are |
| Ensemble.Recommend | similarity_detect.py:370-381 | the band's rank is the number of edges (0.5, 0.7, 0.8, 0.9) the score strictly exceeds, so a score equal to an edge falls to the band below it |
| Ensemble.RecommendMonotone | similarity_detect.py:370-381 | a higher score never gets a lower band |
| Ensemble.TemplateDefaultsLowestBand | similarity_detect.py:232 | with the template defaults (tfidf and bert) the score is at most 0.5, so the recommendation is always the lowest band |
| Ensemble.PlagiarismRisk | similarity_detect.py:227 | the label is HIGH exactly when the score reaches one of the two top recommendation bands, that is above 0.8 |
| Ensemble.AnalyzePattern | similarity_detect.py:383-395 | each tag is present exactly when its metric scores above 0.8, tags come in a fixed order, and the ordinary tag stands alone exactly when no metric does |
| Ensemble.DefaultPatterns | similarity_detect.py:144 | the default methods never yield the structural or the semantic tag |
| Pairs.PairsFrom | similarity_detect.py:184-185 | the pairs from row `i0` on are index pairs `i0 <= i < j < n`, strictly increasing in enumeration order |
| Pairs.IndexPairs | similarity_detect.py:184-185 | every enumerated pair `(i, j)` satisfies `i < j < n` |
| Pairs.IndexPairsExactlyOnce | similarity_detect.py:184-185 | every pair `i < j < n` is enumerated, and no pair twice |
| Pairs.IndexPairsCount | similarity_detect.py:184-185 | there are n(n−1)/2 pairs |
| Pairs.DocPairs | similarity_detect.py:184-187 | the k-th document pair holds the documents at the k-th index pair |
| Pairs.DocPairsMembers | similarity_detect.py:184-187 | a pair of documents is visited exactly when the first comes before the second in the collection |
| Pairs.PairMapMembers | similarity_detect.py:184-197 | the per-pair results are exactly the results for pairs taken in collection order |
| Sorting.SortDesc | similarity_detect.py:200 | the sort yields a non-increasing sequence with the same length and the same elements |
| Sorting.InsertCounts | similarity_detect.py:200 | inserting into a sorted list adds exactly the one element, each other element keeping its count |
| Sorting.SortCounts | similarity_detect.py:200 | the sort keeps every element exactly as often as it occurs in the input |
| Sorting.SortIsStable | similarity_detect.py:200 | for every score, the elements with that score appear exactly as in the input and in the same order; this makes the sort a stable permutation |
| Seqs.Filter | similarity_detect.py:174-176 | the filter keeps exactly the elements that pass, and is never longer than its input |
| Seqs.FilterIsSubsequence | similarity_detect.py:174-176 | the filter keeps its input order |
| Seqs.FilterCounts | similarity_detect.py:174-176 | a filter keeps every passing element exactly as often as it occurs, and no other |
| Seqs.Dedup | pdf_info_extract.py:51 | the dedup has no repeats and the same members as its input |
| Seqs.DedupOfDistinct | pdf_info_extract.py:200-201 | a sequence without repeats is its own dedup |
| Seqs.PrefixSlice | similarity_detect.py:288 | `s[:n]` is a prefix of length min(n, len) for n ≥ 0, and drops the last −n elements for n < 0 |
| Scanner.DetectSimilarDocuments | similarity_detect.py:165-201 | fails exactly when there are fewer than two records; otherwise the list is sorted non-increasing, has at most n(n−1)/2 entries, holds exactly the above-threshold results of pairs of text-bearing records in collection order, and marks an entry highly similar exactly when its score is above 0.8 |
| Scanner.SimilarCounts | similarity_detect.py:183-200 | each pair record is reported exactly as often as the nested loop keeps it |
| Scanner.SimilarTiesInScanOrder | similarity_detect.py:199-200 | entries with the same score appear in enumeration order |
| Scanner.SimilarRecord | similarity_detect.py:186-197 | a pair record is keyed by exactly the selected metrics, scores between 0 and their weight total, and is highly similar exactly above 0.8 |
| Scanner.SimilarDefaultsFindNothing | similarity_detect.py:165 | with the default methods and a threshold of at least 0.7 the scan finds nothing |
| Scanner.TextlessRecordsGiveEmptyList | similarity_detect.py:168-176 | with two or more records of which fewer than two carry text, the scan returns an empty list, not the shortage message |
| Scanner.DetectBiddingPlagiarism | similarity_detect.py:203-230 | fails exactly when there are fewer than two bids; otherwise the cases are sorted non-increasing, all above threshold and at most 0.7, labelled HIGH exactly above 0.8, and are exactly the kept checks of pairs in collection order |
| Scanner.PlagiarismTiesInScanOrder | similarity_detect.py:209-230 | cases with the same score are reported in the order the nested loop found them |
| Scanner.PlagiarismCounts | similarity_detect.py:209-230 | each case is reported exactly as often as the pair checks produce it |
| Scanner.PlagiarismFound | similarity_detect.py:210-228 | the kept cases are exactly the pair checks that produced a case, each above threshold and correctly labelled |
| Scanner.PlagiarismDefaultFindsNothing | similarity_detect.py:203 | at the default threshold of 0.7 no bid pair is ever reported |
| Scanner.PlagiarismCheck | similarity_detect.py:215-228 | a bid pair yields a case exactly when both contents are non-empty and the default comparison scores above threshold; the score is then above threshold and at most 0.7, and HIGH exactly above 0.8 |
| Scanner.CompareWithTemplate | similarity_detect.py:232-256 | "not found" exactly when either document is missing, "empty content" exactly when both exist and either is empty, and otherwise a report of the comparison with the recommendation of its overall score |
| Scanner.TemplateDefaultsRecommendLowest | similarity_detect.py:232 | with the default template methods every successful report carries the lowest band's message |
| Scanner.Neighbours | similarity_detect.py:269-284 | the candidates are exactly the above-threshold comparisons with the other text-bearing documents |
| Scanner.FindSimilarToDocument | similarity_detect.py:258-288 | fails exactly when the target is missing or empty; otherwise the result is the prefix of the score-sorted above-threshold neighbours, of length min(`top_n`, n) for non-negative `top_n` and max(n + `top_n`, 0) for negative `top_n`, and holds only above-threshold neighbours with another file name |
| Scanner.FindSimilarKeepsTheBest | similarity_detect.py:286-288 | a candidate cut by the top-N slice scores no higher than any candidate kept |
| Scanner.FindSimilarLargeTopNKeepsAll | similarity_detect.py:288 | when `top_n` is at least the collection size no candidate is cut |
| Scanner.CompanyDetailsDefaultPatterns | similarity_detect.py:302-312 | a company pair is reported only above threshold, and never with the structural or semantic tag |
| Scanner.CompanyCheck | similarity_detect.py:302-313 | a company pair is reported exactly when both contents are non-empty and the default comparison scores above threshold; the score is then above threshold and at most 0.7, with neither the structural nor the semantic tag |
| Scanner.SomesCount | similarity_detect.py:307-313 | keeping the present results keeps each result exactly as often as it was produced |
| Scanner.SomesInOrder | similarity_detect.py:298-313 | the present results keep the enumeration order |
| Scanner.CompanySimilarityAnalysis | similarity_detect.py:290-320 | fails exactly when the company has fewer than two documents; otherwise the report names the company, counts its documents, and holds exactly the above-threshold pair checks in enumeration order, each as often as the enumeration produces it, with the pair count equal to the list length and at most n(n−1)/2 |
| Strings.JoinSplit | pdf_info_extract.py:190 | joining the pieces of a split with the same separator gives the text back |
| Strings.TrimStart | utils.py:8 | removes exactly the leading whitespace |
| Strings.TrimEnd | utils.py:8 | removes exactly the trailing whitespace |
| Strings.Strip | pdf_info_extract.py:178 | the stripped text is a substring that neither starts nor ends with whitespace, everything cut from either end is whitespace, and text already without edge whitespace is unchanged |
| Strings.SplitLinesJoin | utils.py:12-21 | non-empty lines without line breaks, joined with "\n", split back into the same lines |
| TextClean.Collapse | utils.py:8 | the collapsed text holds no two whitespace characters in a row, is empty only for empty input, and starts with whitespace exactly when the input does |
| TextClean.CleanText | utils.py:7-8 | the cleaned text has no whitespace run longer than one and no whitespace at either end |
| TextClean.CollapseOfCollapsed | utils.py:8 | collapsing already collapsed text changes nothing |
| TextClean.CleanTextIdempotent | utils.py:7-8 | cleaning twice is cleaning once |
| TextClean.Words | utils.py:8 | the whitespace-separated words are all non-empty |
| TextClean.CleanTextJoinsWords | utils.py:7-8 | the cleaned text is the text's words joined by single spaces |
| TextClean.KeepAllowed | utils.py:17 | keeps only characters of the allowed class, is never longer than the line, and leaves a line already made of them unchanged |
| TextClean.OcrLines | utils.py:12-20 | every kept line is at least 3 long and made of allowed characters; the kept lines are a subsequence of the cleaned input lines; each cleaned line of length at least 3 is kept exactly as often as it occurs, and no shorter one is kept |
| TextClean.AllowedIsVisible | utils.py:17 | no allowed character is whitespace or a line break |
| TextClean.CleanOcrText | utils.py:11-21 | the output's lines are exactly the kept lines; every line break in it is a '\n' between two of them, it does not end in a line break, and it is empty exactly when no line is kept |
| Strings.JoinLinesShape | utils.py:21 | non-empty lines without line breaks joined with '\n': the only line breaks are the separators, the result is empty exactly when there are no lines and otherwise does not end in a line break |
| TextClean.CleanLineOfKept | utils.py:15-17 | cleaning a kept line again leaves it unchanged |
| TextClean.CleanOcrTextIdempotent | utils.py:11-21 | OCR cleaning twice is cleaning once |
| Dates.MonthWidth | utils.py:25 | the one- or two-digit month is followed by a month separator |
| Dates.MatchAt | utils.py:25 | a match at a position has a 4-digit year, 1–2-digit month and day, and the allowed separators |
| Dates.MatchAtText | utils.py:25 | every well-formed date written out is matched as itself, unless its one-digit day is followed by another digit, which the greedy day group would take |
| Dates.MatchAtCovers | utils.py:25 | a match at a position is the text found there |
| Dates.Search | utils.py:25 | a search from a position yields a well-formed match, and yields nothing only when no position from there on matches |
| Dates.SearchIsLeftmost | utils.py:25 | the search returns the leftmost match, and no match anywhere when it returns none |
| Dates.SearchDecides | utils.py:25 | the search agrees with the leftmost-match definition |
| Dates.Parse | utils.py:28-30 | the normalised match parses exactly when both separators become '-' and the date exists in the calendar |
| Dates.ExtractDate | utils.py:24-31 | the result is a valid calendar date; it is exactly the parse of the leftmost match, and None when no position matches |
| Dates.Pad2 | utils.py:28 | two digits whose decimal value is the number |
| Dates.Pad4 | utils.py:28 | four digits whose decimal value is the number |
| Dates.ExtractDateIso | utils.py:24-31 | a valid date written as yyyy-mm-dd after digit-free text is read back as the same date |
| Dates.SlashDateRejected | utils.py:28-30 | "2025/07/08" is matched but not parsed, so it yields None |
| Dates.ChineseDateRead | utils.py:28 | "2025年7月8日" is read as 8 July 2025 |
| Dates.FirstMatchOnly | utils.py:25-31 | only the leftmost match is tried: an invalid first date hides a valid second one |
| Dates.ExtractAtStart | utils.py:25-28 | a date matched at the very start of the text is the one read |
| Amounts.UnitAt | utils.py:39 | a unit found at the front is the text there |
| Amounts.AmountAtPrefix | utils.py:39 | an amount match at the front is well formed and is exactly the text there |
| Amounts.AmountAtText | utils.py:39 | every well-formed amount written out is recognised as itself |
| Amounts.AmountAt | utils.py:39 | an amount is only ever recognised starting at a digit (that the match is well formed and is the text there is Amounts.AmountAtPrefix) |
| Amounts.Scan | utils.py:39-48 | every amount found is non-negative, there are at most as many amounts as characters, and a text without digits has none |
| Amounts.ScanAtMatch | utils.py:40-46 | when an amount is recognised at the front, the scan yields its value and then scans the rest of the text after it |
| Amounts.ScanOne | utils.py:39-46 | a single amount written out scans to its own value |
| Amounts.ScanSkipsNonDigits | utils.py:40 | digit-free text before the amounts changes nothing |
| Amounts.ScanRender | utils.py:40-46 | amounts written out with digit-free separators scan to their values in text order, 万元 counting ×10000 |
| Amounts.SampleMatches | test_amounts.py:5-8 | the two sample amounts are well formed |
| Amounts.SampleValues | test_amounts.py:5-8 | the sample amounts are worth 950000 and 28000 |
| Amounts.SampleAmounts | test_amounts.py:5-8 | "95万元、2.8万元" scans to 950000 and 28000 |
| Amounts.RemoveCommas | utils.py:35 | the result holds no comma |
| Amounts.RemoveCommasAppend | utils.py:35 | comma removal distributes over concatenation |
| Amounts.RemoveCommasNone | utils.py:35 | comma-free text is unchanged |
| Amounts.CommaGrouping | utils.py:35-46 | "1,200元" reads as 1200 because commas go first |
| Amounts.ExtractAmount | utils.py:34-60 | None exactly when neither pass finds anything; otherwise a non-empty list of the Arabic amounts in text order followed by exactly the Chinese-numeral results |
| Amounts.ArabicOnly | utils.py:34-60 | with no Chinese-numeral result the amounts are exactly the Arabic ones |
| Amounts.NothingFoundIsNone | utils.py:60 | digit-free text without Chinese numerals gives None, not an empty list |
| Amounts.FirstAmountAfter | utils.py:34-46 | the first amount written after digit- and comma-free text is the first result |
| Amounts.ScanDigitsWan | utils.py:39 | digits followed by 万 alone, without 元, are not an amount |
| Amounts.CommaFreeWan | utils.py:35 | comma removal turns "1,200万" into "1200万" |
| Amounts.NumberAt | info_extractor.py:214 | the decimal number at the front is non-negative |
| Amounts.FirstNumber | info_extractor.py:214-215 | there is no first number exactly when the text holds no digit |
| Amounts.FirstNumberAt | info_extractor.py:214-217 | the first number is the one starting at the first digit |
| Amounts.FirstNumberOfAmount | info_extractor.py:214-217 | the first number of a written amount is its numeric part |
| Amounts.FirstNumberOfDigits | info_extractor.py:214-217 | digits followed by neither a digit nor a point read as their decimal value |
| Amounts.Fallback | info_extractor.py:211-222 | the fallback finds a value exactly when the text holds a digit |
| Amounts.FallbackReadsDigits | info_extractor.py:214-222 | the fallback reads the first run of digits and multiplies it by 10000 exactly when 万 occurs anywhere in the text |
| Amounts.FallbackOf | info_extractor.py:214-222 | the fallback is the first number, scaled by 10000 when 万 occurs |
| Amounts.WanGrouped | info_extractor.py:206-222 | "1,200万" falls back to 10000, because the fallback stops at the comma |
| Records.Keys | pdf_info_extract.py:197-201 | the keys are the entries' keys in insertion order |
| Records.Find | pdf_info_extract.py:201 | a key is found exactly when it is present, with the value it was stored with |
| Records.Put | pdf_info_extract.py:201 | assigning a key gives it the new value, keeps its place (or appends it when new), and leaves every other key unchanged |
| Records.PutDistinct | pdf_info_extract.py:201 | assignment never creates a duplicate key |
| Records.FromKeys | pdf_info_extract.py:200-201 | assigning each listed key in turn gives exactly the deduplicated keys in first-assignment order, each with its value |
| Records.Show | pdf_info_extract.py:245 | `str()` of a string value is the string |
| Fields.TenderAndComplexDistinct | pdf_info_extract.py:33-47 | the tender and complex-content lists together have no repeated field |
| Fields.FirstSpan | pdf_info_extract.py:224-225 | a field's value is its first span exactly when it has a non-empty span list |
| Fields.StandardizeField | pdf_info_extract.py:238-250 | standardising one field rewrites only that field, when present, and keeps the key order |
| Fields.StandardizeAmounts | pdf_info_extract.py:234-252 | only 投标报价 and 最高限价 are rewritten, and only when present; key order is kept |
| Paragraphs.RunLastFeed | pdf_info_extract.py:173 | the scan of a whitespace run stops just past a line feed of the run, or reports where it began |
| Paragraphs.RunLastFeedSpec | pdf_info_extract.py:173 | the scan stops at the run's last line feed: no line feed of the run follows that position, and when the scan reports where it began the run holds no line feed |
| Paragraphs.BreakLen | pdf_info_extract.py:173 | a match is at least two characters long and starts and ends with a line feed; there is none where the text has no line feed |
| Paragraphs.BreakLenLongest | pdf_info_extract.py:173 | at a line feed there is a match exactly when the whitespace run after it holds another line feed; the match covers only whitespace and ends at the run's last line feed, as the greedy `\s*` gives characters back |
| Paragraphs.DoubleLineFeedBreaks | pdf_info_extract.py:173 | two line feeds in a row always start a match |
| Paragraphs.BreaksAreMatches | pdf_info_extract.py:173 | every separator the split removes is a line feed, whitespace, and a line feed |
| Paragraphs.Pieces | pdf_info_extract.py:173 | splitting always yields at least one piece |
| Paragraphs.PiecesCount | pdf_info_extract.py:173 | there is one piece more than there are separators |
| Paragraphs.PiecesRebuild | pdf_info_extract.py:173 | the pieces with the separators between them give back the text |
| Paragraphs.PiecesBreakFree | pdf_info_extract.py:173 | no piece holds a match: the split cuts at every one |
| Paragraphs.SpacedBlankLineSplits | pdf_info_extract.py:173 | "a\n \nb" splits into "a" and "b": whitespace between the line feeds still separates |
| Paragraphs.Paragraphs | pdf_info_extract.py:173-178 | there is one paragraph per piece of the split, in order, each the piece stripped |
| Paragraphs.PiecesHaveNoBlankLine | pdf_info_extract.py:173 | no split piece holds two line feeds in a row |
| Paragraphs.ParagraphsUnbroken | pdf_info_extract.py:173-178 | no paragraph holds a blank line or ends in a line feed |
| Paragraphs.SplitJoin | pdf_info_extract.py:190 | unbroken paragraphs joined by "\n\n" split back into the same paragraphs |
| PdfExtract.SchemaFor | pdf_info_extract.py:80-85 | tender announcements get the bidding schema and bids the tender and complex-content fields; anything else gets a duplicate-free union of all three lists |
| PdfExtract.Window | pdf_info_extract.py:267 | the window is the first 10000 characters, or the whole preview when it is shorter |
| PdfExtract.DetermineFileType | pdf_info_extract.py:255-273 | the type is always one of the three; bidding exactly when the name has a bidding keyword, or the name has no tender keyword and the window has a bidding keyword; tender exactly when the name has no bidding keyword and either has a tender keyword, or the window has a tender keyword and no bidding keyword |
| PdfExtract.PreviewTailIgnored | pdf_info_extract.py:267-269 | text past the first 10000 characters never changes the type |
| PdfExtract.NameDecides | pdf_info_extract.py:259-262 | a keyword in the name decides the type whatever the preview |
| PdfExtract.ProcurementBidNamedBidding | pdf_info_extract.py:259-262 | a bid whose name mentions 采购 is classified as a tender announcement |
| PdfExtract.NoEvidenceGeneral | pdf_info_extract.py:266-273 | with no name keyword and an empty preview the type is 通用 |
| PdfExtract.ValidateExtractedInfo | pdf_info_extract.py:276-285 | complete exactly when the missing list is empty, which is exactly when every required field is truthy; the missing list is the untruthy required fields in required order |
| PdfExtract.CreateOrderedResult | pdf_info_extract.py:196-203 | the keys are the schema fields in schema order, without repeats; each value is the input's value or None; other keys are dropped |
| PdfExtract.OrderedResultKeepsValues | pdf_info_extract.py:196-203 | reading any field of the ordered result gives the input's value for a schema field and None otherwise |
| PdfExtract.StandardValue | pdf_info_extract.py:239-250 | falsy and numeric values are left alone; a truthy non-number stays unchanged exactly when `extract_amount` finds nothing, and any change turns it into a number |
| PdfExtract.StandardValueFirstArabic | pdf_info_extract.py:244-250 | a truthy non-number whose comma-free text holds an Arabic amount becomes the first of them |
| PdfExtract.StandardValueIdempotent | pdf_info_extract.py:239-250 | standardising a value twice is standardising it once |
| PdfExtract.StandardValueReadsAmount | pdf_info_extract.py:245-250 | a value whose text holds a written amount becomes the first amount's number |
| PdfExtract.StandardizeAmounts | pdf_info_extract.py:234-252 | only the two amount fields change, each by the value standardisation; key order is kept |
| PdfExtract.ExtractInfo | pdf_info_extract.py:206-231 | the keys are exactly the schema's fields in order; a field holds its first NLP span when the records have one, and None otherwise, with amount fields standardised |
| PdfExtract.NoRecordsAllNone | pdf_info_extract.py:213-219 | with no NLP records every schema field is None |
| PdfExtract.TypedSchemasDistinct | pdf_info_extract.py:26-47 | the bidding schema and the bid schema have no repeated field |
| PdfExtract.TypedResultKeys | pdf_info_extract.py:229 | for the two typed documents the result's keys are the schema itself |
| PdfExtract.KeywordsFor | pdf_info_extract.py:156-170 | an unmapped field is its own single keyword |
| PdfExtract.RelevantParagraphs | pdf_info_extract.py:173-186 | the relevant paragraphs are exactly the stripped paragraphs of at least 20 characters that hold a keyword, in text order, each kept as often as it occurs |
| PdfExtract.ExtractContentByKeyword | pdf_info_extract.py:151-192 | None exactly when no paragraph is relevant; otherwise the result splits back into the first one to three relevant paragraphs, and into all of them when there are fewer than three |
| PdfExtract.ChosenParagraphs | pdf_info_extract.py:189-190 | the chosen paragraphs, joined by a blank line, split back into themselves |
| InfoExtract.SchemaFor | info_extractor.py:67-72 | tender announcements get the bidding schema and bids the tender schema; anything else gets a duplicate-free union of both; every schema has 项目名称 |
| InfoExtract.ExtractEntitiesWithNlp | info_extractor.py:75-112 | None exactly when the library is missing or the call raises; otherwise one entry per schema field, in schema order, holding that field's span texts, or [] when the result has none |
| InfoExtract.Normalise | info_extractor.py:95-100 | a list result becomes its first element, or empty when the list is empty; anything else that is not a dictionary becomes empty |
| InfoExtract.NlpRecordsNeverEmpty | info_extractor.py:105-109 | whenever the NLP pass runs its records are non-empty, so the merge always takes the NLP branch |
| InfoExtract.RegexKeys | info_extractor.py:150-191 | each key layout has no repeated key |
| InfoExtract.RegexField | info_extractor.py:153-189 | a number only ever fills the amount field of a tender or bid, a date only the bid's deadline, and a text value is always the pattern's capture for that key |
| InfoExtract.ExtractInfo | info_extractor.py:150-191 | the keys are exactly the document type's layout in assignment order, each with its pattern's value, and nothing else |
| InfoExtract.GeneralHasNoRegexFields | info_extractor.py:151 | a general document gets an empty result |
| InfoExtract.RegexAmountIsFirstWritten | info_extractor.py:165-181 | the amount field holds the first amount written in the text |
| InfoExtract.RegexAmountNone | info_extractor.py:165-181 | the amount field is None exactly when `extract_amount` finds nothing |
| InfoExtract.StandardValue | info_extractor.py:194-225 | falsy and numeric values are left alone; a truthy text value stays unchanged exactly when neither the amount parser nor the fallback finds a number |
| InfoExtract.StandardValueAgrees | info_extractor.py:206-210 | when the amount parser succeeds both standardisations agree |
| InfoExtract.FallbackUsed | info_extractor.py:211-222 | when the amount parser fails the fallback's number is used |
| InfoExtract.FallbackStopsAtComma | info_extractor.py:211-222 | "1,200万" standardises to 10000 |
| InfoExtract.NlpFirstSpans | info_extractor.py:130-133 | holds exactly the schema fields that have a first span, with that span |
| InfoExtract.Fill | info_extractor.py:135-138 | keeps the existing keys in place, adds new ones after, and takes the source value exactly for keys the source has whose current value is absent or falsy |
| InfoExtract.Merged | info_extractor.py:131-138 | a truthy NLP value is kept; a key of the regex layout whose NLP value is absent or falsy takes the regex value; the key is absent exactly when it is outside the layout and the NLP pass has no value for it |
| InfoExtract.ExtractInfoEnhanced | info_extractor.py:115-147 | the result has no repeated key, holds every regex key, and holds nothing outside the regex layout and the schema |
| InfoExtract.EnhancedWithNlp | info_extractor.py:123-142 | with the NLP pass, a non-amount field takes the regex value when the layout has it and the NLP value is absent or falsy, and the NLP value otherwise |
| InfoExtract.EnhancedAmountWithNlp | info_extractor.py:123-142 | with the NLP pass, an amount field is the same merged value, standardised |
| InfoExtract.NlpSpanWins | info_extractor.py:131-138 | a truthy first span wins over the regex value |
| InfoExtract.RegexFillsGaps | info_extractor.py:135-138 | a key the NLP pass leaves absent or falsy takes its regex value |
| InfoExtract.NoNlpIsRegex | info_extractor.py:143-147 | without the NLP pass the result is the regex result with the amount fields standardised |
| InfoExtract.TenderCompanyKeyKept | info_extractor.py:156 | the regex-only key 投标单位 is outside the tender schema and always carries the regex value |
| InfoExtract.RegexFieldPlain | info_extractor.py:155-189 | every field other than the amounts and the tender deadline is the pattern's capture as it stands |
| InfoExtract.NlpLeavesOut | info_extractor.py:105-107 | the NLP pass reports nothing for a field outside the schema |

## Left out

- `tfidf_similarity` and `bert_similarity` (similarity_detect.py:11-40, 84-93) are oracles
  whose scores lie in [0,1]. They call jieba, scikit-learn and SentenceTransformer, which are
  outside the model. A BERT cosine can in fact be negative; the model does not cover that
  case.
- `word2vec_similarity`, `sequence_similarity` and `jaro_winkler_similarity` are not in the
  detector's registry, so nothing the detector does reaches them.
- The document store (`get_all_data`, `get_tender_files`, `get_data_by_file_name`,
  `get_data_by_company`) is replaced by its results, passed in as sequences of records and
  optional lookups. db_manager.py is not part of this model.
- `generate_similarity_report` (similarity_detect.py:322-368) is left out. It writes a file,
  and its statistics only re-read the scan results.
- The module-level scan run on import (similarity_detect.py:410-420) is left out.
- The PaddleNLP set-up and the model call are left out. The call's outcome is an
  `Inference` input.
- `pdf_info_extract.py`'s own `extract_entities_with_nlp`, with its complex-field merging
  (pdf_info_extract.py:88-148), is left out. Its records are an input to
  `PdfExtract.ExtractInfo`. The keyword paragraph search it falls back to is modelled.
- `process_pdfs`, config.py, pdf_reader.py, main.py and the NLP test script do file, database
  and OCR I/O. They are not part of this model.
- `cn2an` (utils.py:50-58) is a `Numerals` parameter.
- `find_first` and `preprocess_text_for_nlp` are imported from utils.py but not defined there.
  `find_first` is a `Finder` parameter, and `preprocess_text_for_nlp` is not part of this model.
- `print` logging is left out.
- Floats are reals. IEEE-754 rounding is not modelled.
- `\d` matches ASCII digits only. Python's Unicode digits are not modelled.
- `file_name.lower()` in `determine_file_type` is omitted. Every keyword is Chinese, and
  lowering never creates or removes a Chinese character.
- ALL_SCHEMA is `list(set(...))`, whose order Python leaves unspecified. The model uses
  first-occurrence order, and its contracts claim only membership and distinctness.
- InfoExtract.ExtractInfoEnhanced: its own contract states only which keys the result holds.
  The per-field values are stated by the lemmas EnhancedWithNlp, EnhancedAmountWithNlp and
  NoNlpIsRegex.
- InfoExtract.RegexFieldPlain: a regex value is `find_first`'s capture, taken as given. The
  regular expressions themselves are not modelled.
- Metrics.Features: counts paragraphs, sentences, digit runs and punctuation marks, but the
  contract states only the count of features and the two lower bounds.
