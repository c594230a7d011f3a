# A verified model of the VIR image-retrieval core

VIR is a small content-based image retrieval engine. It describes every image by one or more
feature vectors: a colour correlogram, a colour histogram, and a bag-of-words histogram of SIFT
or ORB descriptors built against a k-means codebook. It answers a query with the database images
whose features are most similar by cosine similarity, and it scores that answer against a
ground-truth CSV by average precision. This project models the pure and algorithmic core of that
engine in Dafny and proves what each part promises:

- `Text` — `trim` and the `getline`-based `split` (`Processing.cpp`). The `trim_space` of
  `Evaluation.cpp:4-9` is the same function, so `Text.Trim` models both.
- `Config` — the line logic of `readConfig`: comments, blank lines, `[section]` headers,
  `key = value` entries and skipped malformed lines. Also `checkExist`.
- `FeatureExtractor` — `FeatureFactory::createFeature` and the correlogram defaults
  (8 colour levels, maximum distance 5).
- `GlobalFeatures` — the colour correlogram extractor: `quantizeColors`, which rewrites an
  `array2` of pixels; `calculateCorrelogram`, which accumulates neighbour counts into an array
  and normalises it in place; and `extractFeature`.
- `Codebook` — the bag-of-words histograms: nearest centre by squared distance, the first one
  on ties; counts; normalisation to a distribution.
- `Retrieval` and `Ranking` — cosine accumulators, `compareByScore`, the sort, the top-N cut,
  and the fusion of SIFT and colour-histogram scores.
- `Evaluation` — `load_csv`, `calculate_precision_at_k`, `calculate_ap`, `get_image_name`
  and `calculate_map`.
- `Lex` — the order of `std::string` keys. `std::map` iterates in this order, and
  `calculate_map` and the fusion loop depend on it.
- `Numeric` and `Results` — shared sums and the `Option`/`Result` types that model the error
  paths.

Every loop of the source becomes a `method` with a `while` loop, proved against a
specification function. The properties are then proved about that function.

Three behaviours of the code are easy to misread, and the model follows the code in each:

- The average precision of a perfect ranking is (R+1)/(2R), not 1. Each hit records
  hits-so-far / R, which is the recall at that hit (`Evaluation.AveragePrecisionClosedForm`).
- A config line `a=b=` is accepted as the entry `a = b`. `getline` drops the empty token
  after the final delimiter (`Config.TrailingEqualsStillAnEntry`).
- In the fusion, an image that has a SIFT score but no colour-histogram score gets 0 for the
  missing half, so its fused score is half its SIFT score (`Retrieval.FusionCandidates`).

## Model

| member | source | states |
|---|---|---|
| Text.LeadingSpaces | Source/21127730/Processing.cpp:5 | the count of leading blanks: the prefix it covers is all blanks, and the next character is not one |
| Text.TrailingSpaces | Source/21127730/Processing.cpp:9 | the count of trailing blanks: the suffix it covers is all blanks, and the character before it is not one |
| Text.Trim | Source/21127730/Processing.cpp:4-11 | the result is a contiguous slice starting after the leading blanks, followed in the input only by blanks; it neither starts nor ends with a blank; it is empty exactly when the input is all blanks |
| Text.TrimUnique | Source/21127730/Processing.cpp:4-11 | trimming blanks + t + blanks, where t is already trimmed, gives back exactly t |
| Text.TrimTrimmed | Source/21127730/Processing.cpp:4-11 | a string without leading or trailing blanks is its own trim |
| Text.TrimTrailingPad | Source/21127730/Processing.cpp:9-10 | trailing blanks after a trimmed string are removed |
| Text.TrimLeadingPad | Source/21127730/Processing.cpp:5-10 | leading blanks before a trimmed string are removed |
| Text.TrimIdempotent | Source/21127730/Processing.cpp:4-11 | trimming twice equals trimming once |
| Text.IndexOf | Source/21127730/Processing.cpp:18 | the position where `getline` stops: the first delimiter, or the end when there is none |
| Text.IndexOfAt | Source/21127730/Processing.cpp:18 | any position that has no delimiter before it and a delimiter (or the end) at it is that position |
| Text.Tokens | Source/21127730/Processing.cpp:14-22 | the pieces `getline` produces: the text before each delimiter, then the rest if it is non-empty; no tokens for "" |
| Text.TokensUnfold | Source/21127730/Processing.cpp:18-20 | a non-empty input yields the text up to the first delimiter, then the tokens of the rest after it |
| Text.TokensExcludeDelimiter | Source/21127730/Processing.cpp:14-22 | no token contains the delimiter |
| Text.DropTrailingAfter | Source/21127730/Processing.cpp:18 | the unfolding of "the input without a final delimiter" at a delimiter that is not the last character |
| Text.JoinCons | Source/21127730/Processing.cpp:14-22 | joining a token in front of a non-empty list puts one delimiter between them |
| Text.JoinTokens | Source/21127730/Processing.cpp:14-22 | joining the tokens with the delimiter gives back the input, minus one final delimiter if there is one |
| Text.TokensJoin | Source/21127730/Processing.cpp:14-22 | splitting a join of delimiter-free tokens, whose last token is non-empty, gives back the tokens |
| Text.TokenCount | Source/21127730/Processing.cpp:14-22 | the number of tokens is the number of delimiters, plus one when the input is non-empty and does not end in the delimiter |
| Text.OccurrencesFirst | Source/21127730/Processing.cpp:18 | the delimiters of a string are the first one plus those after it |
| Text.OccurrencesNone | Source/21127730/Processing.cpp:18 | a string without the delimiter has none of it |
| Text.Join | Source/21127730/Processing.cpp:14-22 | the partner of the split: tokens joined with one delimiter between neighbours |
| Text.DropTrailing | Source/21127730/Processing.cpp:18-20 | the input without one final delimiter, which `getline` consumes without yielding an empty token |
| Text.NextDelimiter | Source/21127730/Processing.cpp:18 | the scan of one `getline` call stops at the first delimiter at or after the start, or at the end |
| Text.TokensFrom | Source/21127730/Processing.cpp:18-19 | the tokens from a position are the slice up to the next delimiter, then the tokens after it |
| Text.Split | Source/21127730/Processing.cpp:14-22 | the loop returns exactly the token list (see `Text.JoinTokens`, `Text.TokensJoin` and `Text.TokenCount`) |
| Lex.Less | Source/21127730/Evaluation.cpp:83 | `std::string`'s `operator<`: the first differing character decides, and a proper prefix comes first |
| Lex.LessIrreflexive | Source/21127730/Evaluation.cpp:83 | no key precedes itself in the order of map iteration |
| Lex.LessTransitive | Source/21127730/Evaluation.cpp:83 | the key order is transitive |
| Lex.LessTotal | Source/21127730/Evaluation.cpp:83 | any two distinct keys are ordered one way or the other |
| Lex.LessAsymmetric | Source/21127730/Evaluation.cpp:83 | the key order never holds both ways |
| Lex.LeastExists | Source/21127730/Evaluation.cpp:83 | every non-empty key set has a first key |
| Lex.LeastUnique | Source/21127730/Evaluation.cpp:83 | the first key of a set is unique |
| Lex.Least | Source/21127730/Evaluation.cpp:83 | the key where iteration starts: in the set and before every other key |
| Lex.AscendingKeys | Source/21127730/Retrieval.cpp:97 | the iteration order of a `std::map`'s keys: it holds exactly the keys |
| Lex.AscendingKeysOrdered | Source/21127730/Retrieval.cpp:97 | the keys come in strictly ascending order |
| Lex.AscendingKeysDistinct | Source/21127730/Retrieval.cpp:97 | each key is visited once |
| Config.Classify | Source/21127730/Processing.cpp:35-56 | what a line means after trimming: blank or `#` is ignored, `[...]` is a header of its inner text, otherwise the `=` tokens decide |
| Config.EntryOf | Source/21127730/Processing.cpp:50-56 | exactly two tokens give the entry of the trimmed key and value; any other count is malformed |
| Config.SectionOf | Source/21127730/Processing.cpp:57 | `config[section]`: the section, or an empty one when it is absent |
| Config.Step | Source/21127730/Processing.cpp:35-58 | one line: ignored and malformed lines change nothing, a header resets its section and makes it current, an entry stores its key in the current section |
| Config.Run | Source/21127730/Processing.cpp:33-59 | the state after every line, in file order |
| Config.ReadConfig | Source/21127730/Processing.cpp:24-64 | a file that cannot be opened returns false and leaves the settings unchanged; otherwise true, with the settings every line's step yields, in order |
| Config.ReadLine | Source/21127730/Processing.cpp:35-58 | the loop body takes settings and section to the next line's step |
| Config.RunAppend | Source/21127730/Processing.cpp:33-59 | reading a + b is reading a and then b from the state a leaves |
| Config.RunSnoc | Source/21127730/Processing.cpp:33-59 | one more line is one more step |
| Config.SectionsKept | Source/21127730/Processing.cpp:46 | no section ever disappears |
| Config.BlankAndCommentLinesIgnored | Source/21127730/Processing.cpp:38-40 | a line that is blank or starts with `#` after trimming changes nothing |
| Config.HeaderLine | Source/21127730/Processing.cpp:43-45 | a padded `[name]` line is the header `name` |
| Config.ClassifyHeader | Source/21127730/Processing.cpp:43-45 | any line that is `[...]` after trimming is a header of its inner text |
| Config.HeaderResetsSection | Source/21127730/Processing.cpp:43-47 | after a header, the current section is its name and that section is empty; every other section is unchanged |
| Config.HeaderStep | Source/21127730/Processing.cpp:43-47 | the same reset, for one step from any state |
| Config.LineWithoutEqualsSkipped | Source/21127730/Processing.cpp:50-54 | a non-comment, non-header line without `=` (one token) is skipped |
| Config.EntryTokens | Source/21127730/Processing.cpp:50 | `key = value` splits at `=` into exactly two tokens |
| Config.EntryLine | Source/21127730/Processing.cpp:50-56 | `key = value` is the entry (key, value) with both sides trimmed |
| Config.ClassifyOther | Source/21127730/Processing.cpp:48-50 | a trimmed line that is not a comment and does not start with `[` is decided by its `=` tokens |
| Config.EntryStored | Source/21127730/Processing.cpp:55-57 | an entry line sets that key in the current section, creating the section if needed; everything else is unchanged |
| Config.EntryStep | Source/21127730/Processing.cpp:55-57 | the same store, for one step from any state |
| Config.TrailingEqualsStillAnEntry | Source/21127730/Processing.cpp:50-57 | `key=value=` is accepted as the entry (key, value) |
| Config.TrailingEqualsTokens | Source/21127730/Processing.cpp:18-20 | `key=value=` splits into two tokens, not three |
| Config.CheckExist | Source/21127730/Processing.cpp:66-71 | true exactly when the feature is in the set |
| FeatureExtractor.Name | Source/21127730/FeatureExtractor.hpp:42-53 | the feature-type name that selects each extractor |
| FeatureExtractor.CreateFeature | Source/21127730/FeatureExtractor.hpp:41-58 | each of the four exact names builds its extractor; any other string fails with "Unsupported feature type: " followed by the name |
| FeatureExtractor.DerivedKeysRejected | Source/21127730/FeatureExtractor.hpp:42-57 | names are matched exactly and case-sensitively: `sift_histogram`, `orb_histogram` and `SIFT` fail |
| Evaluation.FileName | Source/21127730/Evaluation.cpp:74 | the last path component: a suffix without separators, preceded by a separator unless it is the whole path |
| Evaluation.LastDot | Source/21127730/Evaluation.cpp:74 | the position of the last `.` in the file name, or its end when it has none |
| Evaluation.Stem | Source/21127730/Evaluation.cpp:74 | the stem is a prefix of the file name and contains no separator |
| Evaluation.LeadingZeros | Source/21127730/Evaluation.cpp:75 | the first position that is not `0` (`find_first_not_of('0')`) |
| Evaluation.DropLeadingZeros | Source/21127730/Evaluation.cpp:75 | the result is a suffix with only zeros removed in front, and it does not start with `0` |
| Evaluation.GetImageName | Source/21127730/Evaluation.cpp:73-77 | the name is the stem of the last component without its leading zeros: a suffix of that stem, not starting with `0`, with no separator |
| Evaluation.FileNameAfterSeparator | Source/21127730/Evaluation.cpp:74 | the component after a directory ending in a separator is that component |
| Evaluation.LastDotAfter | Source/21127730/Evaluation.cpp:74 | the last dot is at or after any dot |
| Evaluation.LastDotKept | Source/21127730/Evaluation.cpp:74 | text appended without a dot does not move the last dot |
| Evaluation.LastDotOf | Source/21127730/Evaluation.cpp:74 | in `base.ext` with a dot-free extension, the last dot is the one before the extension |
| Evaluation.StemOf | Source/21127730/Evaluation.cpp:74 | the stem of `base.ext` is `base`, unless `base` is empty or `.` |
| Evaluation.CanonicalName | Source/21127730/Evaluation.cpp:73-77 | the image name of `dir/base.ext` is `base` without leading zeros |
| Evaluation.DropZerosPrefix | Source/21127730/Evaluation.cpp:75 | zeros in front of text that does not start with `0` are exactly what is erased |
| Evaluation.NumberedImageName | Source/21127730/Evaluation.cpp:73-77 | a zero-padded number canonicalises to the number: `dataset/00042.jpg` gives `42` |
| Evaluation.ZerosImageName | Source/21127730/Evaluation.cpp:75 | a stem made only of zeros canonicalises to the empty name |
| Evaluation.TrimAll | Source/21127730/Evaluation.cpp:35-37 | every cell of a row is trimmed, in order |
| Evaluation.Row | Source/21127730/Evaluation.cpp:32-37 | the trimmed comma cells of a line |
| Evaluation.AddRow | Source/21127730/Evaluation.cpp:39-43 | a row of at least two cells adds cell 0 to the set of the building in cell 1, creating the set if needed; a shorter row changes nothing |
| Evaluation.Collect | Source/21127730/Evaluation.cpp:31-44 | the ground truth after the data lines, in order |
| Evaluation.GroundTruthOf | Source/21127730/Evaluation.cpp:17-46 | the first line is the header and is skipped; the data lines are collected from an empty map |
| Evaluation.RowPairs | Source/21127730/Evaluation.cpp:39-42 | a line has at least two cells, with the name in cell 0 and the building in cell 1 |
| Evaluation.AddRowMembers | Source/21127730/Evaluation.cpp:39-43 | after one line, a name is under a building exactly when it was before or that line states the pair; no empty set appears |
| Evaluation.StatedSnoc | Source/21127730/Evaluation.cpp:31-44 | the pairs stated by the lines plus one more are those of the earlier lines or of the new line |
| Evaluation.CollectMembers | Source/21127730/Evaluation.cpp:31-44 | a name is under a building exactly when some line states that pair; every building that appears has a non-empty set |
| Evaluation.GroundTruthMembers | Source/21127730/Evaluation.cpp:19-44 | the header line is skipped; the pairs held are exactly those the data lines state, with at least two cells, picture in column 0 and building in column 1 |
| Evaluation.ParseRow | Source/21127730/Evaluation.cpp:32-37 | the cell loop yields the trimmed comma tokens of the line |
| Evaluation.RecordLine | Source/21127730/Evaluation.cpp:32-43 | the body of the data loop adds that line's pair, if the line has one |
| Evaluation.LoadCsv | Source/21127730/Evaluation.cpp:12-47 | a file that cannot be opened gives the empty map; otherwise the ground truth of its lines |
| Evaluation.Hits | Source/21127730/Evaluation.cpp:54-56 | the number of positions of the retrieved list that hold a relevant name, repeats counted |
| Evaluation.CalculatePrecisionAtK | Source/21127730/Evaluation.cpp:50-61 | one value per relevant item retrieved (repeats counted), the j-th being (j+1)/R; no value when R = 0 |
| Evaluation.Mean | Source/21127730/Evaluation.cpp:64-71 | 0 for no value, otherwise the sum divided by the count |
| Evaluation.CalculateAp | Source/21127730/Evaluation.cpp:64-71 | the mean of the values, 0 for none |
| Evaluation.PrecisionList | Source/21127730/Evaluation.cpp:54-58 | the m values (j+1)/R that m hits record, one per hit |
| Evaluation.PrecisionListSum | Source/21127730/Evaluation.cpp:54-58 | the m values sum to m(m+1)/(2R) |
| Evaluation.AveragePrecisionClosedForm | Source/21127730/Evaluation.cpp:64-71 | the AP of m hits out of R is (m+1)/(2R), so a perfect ranking scores (R+1)/(2R) |
| Evaluation.RelevantRetrieved | Source/21127730/Evaluation.cpp:54-58 | the set of relevant names that occur in the retrieved list |
| Evaluation.HitsDistinct | Source/21127730/Evaluation.cpp:54-58 | over distinct retrieved names, the hit count is the number of relevant names retrieved |
| Evaluation.RelevantRetrievedSnoc | Source/21127730/Evaluation.cpp:54-58 | one more retrieved name adds itself to the relevant retrieved set if it is relevant |
| Evaluation.PrecisionsAtMostOne | Source/21127730/Evaluation.cpp:54-58 | over distinct retrieved names there are at most R hits, and every value lies in (0, 1] |
| Evaluation.RepeatedHitsCounted | Source/21127730/Evaluation.cpp:55-57 | a repeated relevant name is counted again: `[a, a]` against `{a}` gives the values 1 and 2 |
| Evaluation.Containing | Source/21127730/Evaluation.cpp:83-84 | the buildings whose sets hold the name |
| Evaluation.FirstBuilding | Source/21127730/Evaluation.cpp:83-88 | the result is "" or a building whose set holds the name |
| Evaluation.FirstBuildingIsFirstLabel | Source/21127730/Evaluation.cpp:83-88 | "" when no set holds the name; otherwise the first building, in key order, whose set holds it |
| Evaluation.AveragePrecision | Source/21127730/Evaluation.cpp:96-97 | with no more hits than relevant items, the AP lies in [0, 1] |
| Evaluation.FindBuilding | Source/21127730/Evaluation.cpp:82-88 | the ascending scan with `break` finds the first building |
| Evaluation.ScoreAgainst | Source/21127730/Evaluation.cpp:95-97 | the AP of the hits against the relevant set; hits are only possible when the set is non-empty |
| Evaluation.CalculateMap | Source/21127730/Evaluation.cpp:80-98 | 0 when the query's canonical name is in no set; otherwise the AP of the retrieved list against the first building's set |
| Numeric.SumAppend | Source/21127730/Evaluation.cpp:67-69 | the sum of a concatenation is the sum of the sums |
| Numeric.SumUpdate | Source/21127730/Codebook.cpp:48 | incrementing one element raises the sum by the increment |
| Numeric.ElementAtMostSum | Source/21127730/Codebook.cpp:50 | each non-negative element is at most the sum |
| Numeric.SumNonNegative | Source/21127730/Codebook.cpp:50 | a sum of non-negative elements is non-negative |
| Numeric.Scaled | Source/21127730/Codebook.cpp:50 | every element divided by the divisor |
| Numeric.SumScaled | Source/21127730/Codebook.cpp:50 | dividing each element divides the sum |
| Numeric.ArraySum | Source/21127730/Codebook.cpp:50 | OpenCV `sum` of a one-row matrix: the sum of its elements |
| Numeric.DivideInPlace | Source/21127730/GlobalFeatures.cpp:87-89 | every element is divided by the divisor, in place |
| Codebook.SqDist | Source/21127730/Codebook.cpp:42 | the squared L2 distance is non-negative (it orders centres as `cv::norm` does) |
| Codebook.Nearest | Source/21127730/Codebook.cpp:39-47 | a valid centre index |
| Codebook.IsNearest | Source/21127730/Codebook.cpp:39-47 | the centre the strict-`<` scan keeps: no farther than any centre and strictly closer than every earlier one |
| Codebook.NearestIsNearest | Source/21127730/Codebook.cpp:39-47 | the chosen centre is strictly closer than every earlier one and no farther than every later one |
| Codebook.NearestUnique | Source/21127730/Codebook.cpp:39-47 | that characterisation picks exactly one centre |
| Codebook.RepeatedCentreUnused | Source/21127730/Codebook.cpp:43 | because of the strict `<`, a repeated centre never wins over its first copy |
| Codebook.NearestCentre | Source/21127730/Codebook.cpp:39-47 | the inner loop returns the nearest centre |
| Codebook.Counts | Source/21127730/Codebook.cpp:35-49 | one bin per centre |
| Codebook.CountsTotal | Source/21127730/Codebook.cpp:35-49 | the bins are non-negative and add up to the number of descriptors |
| Codebook.Assigned | Source/21127730/Codebook.cpp:35-48 | some descriptor's nearest centre is the bin |
| Codebook.AssignedSnoc | Source/21127730/Codebook.cpp:48 | one more descriptor assigns its nearest centre |
| Codebook.CountsPositive | Source/21127730/Codebook.cpp:35-49 | a bin is positive exactly when some descriptor's nearest centre is that bin |
| Codebook.Histogram | Source/21127730/Codebook.cpp:28-53 | one bin per centre |
| Codebook.HistogramBinBounds | Source/21127730/Codebook.cpp:50 | every normalised bin lies in [0, 1] |
| Codebook.HistogramSumsToOne | Source/21127730/Codebook.cpp:50 | the normalised histogram sums to 1 |
| Codebook.CalculateQueryHistograms | Source/21127730/Codebook.cpp:28-53 | the loops return the normalised nearest-centre histogram |
| Codebook.CalculateHistograms | Source/21127730/Codebook.cpp:55-97 | one (file name, histogram) pair per input, in order, each the same histogram as for a query |
| Ranking.CompareByScore | Source/21127730/Retrieval.cpp:4-6 | `a` goes before `b` when its score is strictly higher |
| Ranking.SortedByScore | Source/21127730/Retrieval.cpp:51-52 | every element scores at least as high as every later one |
| Ranking.CompareByScoreStrictWeakOrder | Source/21127730/Retrieval.cpp:4-6 | the comparator is irreflexive and transitive, and its ties are transitive, as `std::sort` requires |
| Ranking.SelectionStep | Source/21127730/Retrieval.cpp:51-52 | swapping a highest-scored remaining element into place extends the sorted prefix |
| Ranking.HighestFrom | Source/21127730/Retrieval.cpp:51-52 | an index of a highest score among the remaining elements |
| Ranking.Swap | Source/21127730/Retrieval.cpp:51-52 | exchanges two elements and keeps the multiset |
| Ranking.SortByScore | Source/21127730/Retrieval.cpp:51-52 | the array ends in descending score order and is a permutation of the input |
| Ranking.TopCount | Source/21127730/Retrieval.cpp:60 | `min(numResults, size)` clamped to 0 for a non-positive request |
| Ranking.Ids | Source/21127730/Retrieval.cpp:61 | the names of the scored pairs, in order |
| Ranking.TakeTop | Source/21127730/Retrieval.cpp:60-62 | the names of the first TopCount pairs |
| Ranking.TopDominates | Source/21127730/Retrieval.cpp:60-62 | in a sorted ranking, everything returned scores at least as high as everything cut off |
| Retrieval.Dot | Source/21127730/Retrieval.cpp:21 | the sum of the products of corresponding bins |
| Retrieval.DotSymmetric | Source/21127730/Retrieval.cpp:21 | the dot product is symmetric |
| Retrieval.SquaredNorm | Source/21127730/Retrieval.cpp:22-23 | a squared norm is non-negative, and zero exactly for the zero vector |
| Retrieval.AccumulatorsOver | Source/21127730/Retrieval.cpp:13-24 | the dot product and the two squared norms over the first n flat bins |
| Retrieval.Accumulate | Source/21127730/Retrieval.cpp:17-24 | the loop yields the three accumulators over its first n bins |
| Retrieval.AsWrittenAccumulators | Source/21127730/Retrieval.cpp:17-24 | the sums the loop computes as written: over the first `rows` flat bins |
| Retrieval.CosineAccumulatorsAsWritten | Source/21127730/Retrieval.cpp:17-24 | the loop as written: bounded by `rows` |
| Retrieval.AsWrittenReadsFirstBinOnly | Source/21127730/Retrieval.cpp:17 | for a one-row histogram the loop reads only bin 0 |
| Retrieval.AsWrittenIgnoresLaterBins | Source/21127730/Retrieval.cpp:17-24 | two histograms that differ only after bin 0 get the same accumulators, though their real norms differ |
| Retrieval.AsWrittenZeroNorm | Source/21127730/Retrieval.cpp:17-26 | a non-zero histogram whose bin 0 is 0 gets norm 0, so the division is by zero |
| Retrieval.Accumulators | Source/21127730/Retrieval.cpp:13-24 | the corrected sums: over all `rows * cols` bins |
| Retrieval.AccumulatorsFull | Source/21127730/Retrieval.cpp:13-24 | the corrected accumulators over every bin: norms non-negative, zero exactly for an all-zero histogram, and swapping the arguments swaps the norms |
| Retrieval.CosineAccumulators | Source/21127730/Retrieval.cpp:13-24 | the corrected loop yields those accumulators |
| Retrieval.Cosine | Source/21127730/Retrieval.cpp:26-27 | the final division applied to the corrected sums |
| Retrieval.ComputeCosineSimilarity | Source/21127730/Retrieval.cpp:9-28 | the similarity is the final division applied to the full accumulators |
| Retrieval.CosineSymmetric | Source/21127730/Retrieval.cpp:9-28 | the similarity is symmetric |
| Retrieval.Scores | Source/21127730/Retrieval.cpp:45-48 | one (name, cosine with the query) pair per database entry, in order |
| Retrieval.SortScores | Source/21127730/Retrieval.cpp:51-53 | a descending permutation of the scores |
| Retrieval.FindTopSimilarImages | Source/21127730/Retrieval.cpp:30-65 | nothing for an empty database; otherwise the names of the first min(N, size) entries of a descending permutation of the scores |
| Retrieval.ScoreMap | Source/21127730/Retrieval.cpp:83-87 | the `std::map` the loop fills: each entry writes its similarity under its name, overwriting earlier ones |
| Retrieval.ScoreMapLastWriteWins | Source/21127730/Retrieval.cpp:84-87 | for a name listed more than once, the last entry's score is kept |
| Retrieval.ScoreMapKeys | Source/21127730/Retrieval.cpp:84-87 | the score map has exactly the listed names |
| Retrieval.FusedScore | Source/21127730/Retrieval.cpp:98 | half the SIFT score plus half the colour score, 0 for a missing colour score |
| Retrieval.Fused | Source/21127730/Retrieval.cpp:97-100 | one fused pair per id, in order |
| Retrieval.FusedScores | Source/21127730/Retrieval.cpp:97-100 | one fused pair per SIFT name, in ascending name order |
| Retrieval.FusedIds | Source/21127730/Retrieval.cpp:97-100 | the fused list keeps the ids |
| Retrieval.FusionCandidates | Source/21127730/Retrieval.cpp:97-100 | one candidate per SIFT-scored image, in ascending name order; without a colour score the fused score is half the SIFT score |
| Retrieval.FusionCandidatesDistinct | Source/21127730/Retrieval.cpp:97-100 | no image is a candidate twice |
| Retrieval.BuildScoreMap | Source/21127730/Retrieval.cpp:83-94 | the loop builds the score map |
| Retrieval.FusedSnoc | Source/21127730/Retrieval.cpp:97-100 | one more id appends its fused pair |
| Retrieval.FuseInOrder | Source/21127730/Retrieval.cpp:97-100 | the loop builds the fused list for the ids |
| Retrieval.Combine | Source/21127730/Retrieval.cpp:96-100 | the fusion loop over the SIFT map yields the fused candidates |
| Retrieval.RetrievalSiftHistogram | Source/21127730/Retrieval.cpp:67-117 | nothing if either feature list is empty; otherwise the names of the first min(N, size) entries of a descending permutation of the fused candidates |
| GlobalFeatures.WithChannel | Source/21127730/GlobalFeatures.cpp:50 | writes one channel of a pixel and leaves the other two |
| GlobalFeatures.PixelByChannels | Source/21127730/GlobalFeatures.cpp:49-51 | pixels that agree on all three channels are equal |
| GlobalFeatures.Quantize | Source/21127730/GlobalFeatures.cpp:46-50 | `v / step * step + step / 2` with `step = 256 / colorLevels`, wrapped to a byte as the `uchar` store does |
| GlobalFeatures.QuantizeBucket | Source/21127730/GlobalFeatures.cpp:46-50 | when the levels divide 256, a value stays in its bucket and moves to the bucket's middle |
| GlobalFeatures.QuantizeIdempotent | Source/21127730/GlobalFeatures.cpp:46-50 | when the levels divide 256, quantising twice equals quantising once |
| GlobalFeatures.QuantizeWrapsAround | Source/21127730/GlobalFeatures.cpp:46-50 | with 3 levels, 255 wraps to 41 in the byte, and 41 then becomes 42, so quantisation is not idempotent |
| GlobalFeatures.QuantizeEightLevels | Source/21127730/GlobalFeatures.cpp:46-50 | with the default 8 levels, values land in [16, 240] and keep their 32-wide bucket |
| GlobalFeatures.QuantizedPixel | Source/21127730/GlobalFeatures.cpp:49-51 | each of the three channels quantised |
| GlobalFeatures.QuantizeChannels | Source/21127730/GlobalFeatures.cpp:49-51 | the channel loop quantises one pixel and no other |
| GlobalFeatures.QuantizeColors | Source/21127730/GlobalFeatures.cpp:44-54 | a fresh image of the same size whose every pixel is the quantised source pixel |
| GlobalFeatures.ColorIdx | Source/21127730/GlobalFeatures.cpp:64 | the 3-bit buckets of blue, green and red packed into one of 512 indices |
| GlobalFeatures.ColorIdxBuckets | Source/21127730/GlobalFeatures.cpp:64 | the colour index encodes the three 32-wide buckets, blue highest |
| GlobalFeatures.ColorIdxSame | Source/21127730/GlobalFeatures.cpp:64 | two pixels share an index exactly when they share all three buckets |
| GlobalFeatures.QuantizeKeepsColorIdx | Source/21127730/GlobalFeatures.cpp:34-38 | 8-level quantisation keeps every colour index |
| GlobalFeatures.GridOf | Source/21127730/GlobalFeatures.cpp:63-64 | the grid of colour indices of an image |
| GlobalFeatures.DepictsGridOf | Source/21127730/GlobalFeatures.cpp:63-64 | an image has exactly one grid of colour indices |
| GlobalFeatures.QuantizedGrid | Source/21127730/GlobalFeatures.cpp:34-38 | the quantised image has the same grid as the original |
| GlobalFeatures.Hit | Source/21127730/GlobalFeatures.cpp:70-75 | an offset counts when it is not the centre, lies inside the image and has the centre's colour index |
| GlobalFeatures.RowCount | Source/21127730/GlobalFeatures.cpp:69-79 | the hits at one row offset over a range of column offsets |
| GlobalFeatures.SquareCount | Source/21127730/GlobalFeatures.cpp:68-80 | the hits over a range of row offsets |
| GlobalFeatures.NeighbourCount | Source/21127730/GlobalFeatures.cpp:67-80 | `count` at distance d: the hits in the square of offsets -d..d in both directions |
| GlobalFeatures.RowCountSplit | Source/21127730/GlobalFeatures.cpp:69-79 | a row of the window splits into two adjacent ranges |
| GlobalFeatures.SquareCountSplit | Source/21127730/GlobalFeatures.cpp:68-80 | the window splits into two adjacent bands of rows |
| GlobalFeatures.RowCountBound | Source/21127730/GlobalFeatures.cpp:69-79 | a row of the window counts at most its width, minus one on the centre row |
| GlobalFeatures.SquareCountBound | Source/21127730/GlobalFeatures.cpp:68-80 | a band counts at most its area |
| GlobalFeatures.NeighbourCountBound | Source/21127730/GlobalFeatures.cpp:66-80 | at distance d at most (2d+1)^2 - 1 neighbours match, because the centre is skipped |
| GlobalFeatures.RowCountWiden | Source/21127730/GlobalFeatures.cpp:69-79 | a wider row range counts at least as many |
| GlobalFeatures.SquareCountWidenColumns | Source/21127730/GlobalFeatures.cpp:68-80 | wider columns count at least as many |
| GlobalFeatures.NeighbourCountMonotone | Source/21127730/GlobalFeatures.cpp:66-80 | the count at distance d+1 is at least the count at distance d |
| GlobalFeatures.HitInImage | Source/21127730/GlobalFeatures.cpp:70-75 | a neighbour counts exactly when it is not the centre, lies inside the image and has the same colour index |
| GlobalFeatures.SameColourAt | Source/21127730/GlobalFeatures.cpp:70-77 | the test of one offset |
| GlobalFeatures.CountSameColour | Source/21127730/GlobalFeatures.cpp:67-80 | the window loops count the matching neighbours at distance d |
| GlobalFeatures.Slot | Source/21127730/GlobalFeatures.cpp:81 | the slot lies inside the 512 * maxDistance bins |
| GlobalFeatures.SlotsDistinct | Source/21127730/GlobalFeatures.cpp:81 | different (colour, distance) pairs use different slots |
| GlobalFeatures.AddDistances | Source/21127730/GlobalFeatures.cpp:66-82 | the bins after the distance loop of one pixel has run up to distance e: each pass adds the count to the pixel's slot |
| GlobalFeatures.AddDistancesSlot | Source/21127730/GlobalFeatures.cpp:66-82 | one pixel adds its count at distance d only to its own colour's slot for d |
| GlobalFeatures.AddDistancesStep | Source/21127730/GlobalFeatures.cpp:81 | the pass for distance e adds the count to one slot |
| GlobalFeatures.AddDistance | Source/21127730/GlobalFeatures.cpp:66-82 | the body of the distance loop performs that step on the array |
| GlobalFeatures.AddPixel | Source/21127730/GlobalFeatures.cpp:63-82 | one pixel's distance loop adds its contribution to every slot |
| GlobalFeatures.AddRow | Source/21127730/GlobalFeatures.cpp:62-83 | one row of pixels advances the accumulation by that row |
| GlobalFeatures.AccumulateImage | Source/21127730/GlobalFeatures.cpp:57-84 | a fresh array holding the accumulation over every pixel |
| GlobalFeatures.Accumulated | Source/21127730/GlobalFeatures.cpp:59-84 | 512 * maxDistance bins |
| GlobalFeatures.AccumulatedEntry | Source/21127730/GlobalFeatures.cpp:61-84 | each slot holds the sum, over the pixels of that colour so far, of their counts at that distance |
| GlobalFeatures.ColourSum | Source/21127730/GlobalFeatures.cpp:61-84 | the reference sum, in scan order, of the counts at distance d of the pixels of one colour |
| GlobalFeatures.ColourSumAbsent | Source/21127730/GlobalFeatures.cpp:61-84 | a colour the image does not contain sums to 0 |
| GlobalFeatures.ColourSumBound | Source/21127730/GlobalFeatures.cpp:61-84 | the sum is at most pixels * ((2d+1)^2 - 1) |
| GlobalFeatures.Correlogram | Source/21127730/GlobalFeatures.cpp:56-90 | 512 * maxDistance bins |
| GlobalFeatures.CorrelogramEntry | Source/21127730/GlobalFeatures.cpp:56-90 | each slot is that sum divided by the pixel count; it lies in [0, (2d+1)^2 - 1] and is 0 for an absent colour |
| GlobalFeatures.CalculateCorrelogram | Source/21127730/GlobalFeatures.cpp:56-90 | the accumulation loops followed by the in-place normalisation give the correlogram of the image's grid |
| GlobalFeatures.ExtractCorrelogram | Source/21127730/GlobalFeatures.cpp:27-42 | fails with "Input image is empty" exactly for an empty image; otherwise the 2560 correlogram values of the image with the defaults 8 and 5 (quantising first changes nothing) |

## Left out

- File, stream and console I/O: opening the CSV or config file is an `Option` of its lines; the `cerr`/`cout` messages are dropped.
- `FeatureDatabase::loadFeatures` is a parameter: the feature lists come in as sequences.
- The window display after retrieval, `main.cpp`'s driver, k-means clustering, and saving or reading the codebook are not part of this model.
- The colour-histogram, SIFT and ORB extractors are not part of this model. `createFeature` returns a tag naming the extractor it would build.
- OpenCV matrices are modelled as row-major sequences of reals; `convertTo(CV_32F)` is the identity.
- Floating point: `float`/`double` are exact reals, so rounding and NaN are not modelled.
- Retrieval.Scores, Retrieval.FindTopSimilarImages, Retrieval.ScoreMap, Retrieval.BuildScoreMap and Retrieval.RetrievalSiftHistogram: rank by the corrected cosine of the "## Findings" row, summing over every bin. The program ranks by the loop bounded by `rows` at `Retrieval.cpp:17`. Under it, histograms that differ only after bin 0 tie. The as-written sums are modelled only by `Retrieval.AsWrittenAccumulators` and its lemmas.
- Retrieval.Comparable: the `CV_Assert` type and size checks of `Retrieval.cpp:10-11` are a precondition. On a size mismatch the program throws `cv::Exception`, which the model does not represent.
- Retrieval.ComputeCosineSimilarity: the final `dot / (sqrt(normA) * sqrt(normB))` is a function parameter `finish`, because the model has no square root. The contract covers the accumulators, their symmetry and the zero cases, not the value of the quotient.
- Codebook.CalculateQueryHistograms: requires at least one descriptor and one centre. With no descriptor the code divides 0 by 0; with no centre it writes index -1. Both are outside what the code handles.
- Codebook.CalculateHistograms: requires at least one descriptor per image, for the same reason.
- Codebook.SqDist: the nearest centre is chosen by squared distance, which orders centres as `cv::norm`'s L2 distance does.
- Ranking.SortByScore: `std::sort` is not stable and its order among equal scores is unspecified. The contract states only "descending and a permutation"; the selection sort is one such order.
- Retrieval.FindTopSimilarImages: `ranked` is ghost. Which sorted permutation `std::sort` produces among ties is not specified by the code.
- The `operator[]` lookup at `Retrieval.cpp:98` inserts a 0 entry into `histogramScores`. The map is not read again, so the model uses the 0 without inserting it.
- GlobalFeatures.Quantize: requires 1 <= colorLevels <= 256. A value of 0 divides by zero, and above 256 the step is 0. Callers use only the default 8.
- GlobalFeatures.CalculateCorrelogram: `maxDistance` is a `nat`, because a negative distance yields a negative-sized vector. It requires a non-empty image, which `extractFeature` checks first.
- GlobalFeatures.ExtractCorrelogram: images always have three 8-bit channels (`Vec3b`). The result is a flat sequence rather than a one-row `Mat`.
- Text.Trim: trims only the space character, as `find_first_not_of(' ')` does; tabs and carriage returns are kept.

## Findings

| source | as written | input that shows it | evidently intended | confidence | as-written member | corrected member |
|---|---|---|---|---|---|---|
| Source/21127730/Retrieval.cpp:17 | the loop runs `i < hist1.rows`, and every stored histogram is one row of N bins, so only bin 0 is read | a query `[1, 0]` against `[1, 5]` gets the same accumulators as against `[1, 0]`; a histogram `[0, 1]` gets norm 0 | loop over all `rows * cols` bins | not executed | Retrieval.AsWrittenIgnoresLaterBins, Retrieval.AsWrittenZeroNorm | Retrieval.AccumulatorsFull, Retrieval.ComputeCosineSimilarity (and through `Retrieval.Cosine` every ranking member) |
