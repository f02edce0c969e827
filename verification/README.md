# SPIMI indexing and retrieval: a Dafny model

This project models the core of a small PubMed indexing and retrieval system. The
system is written in Python and has four parts:

- **The tokenizer** (`PubMedTokenizer.tokenize`). It lower-cases each term and turns
  every character outside `[a-zA-Z\d\s-]` into a space. It strips leading hyphens and
  drops empty, blank, short and stopword terms. It splits changed terms on single
  spaces, stems the tokens, and builds the map `{token: {pub_id: [positions]}}`.
- **The SPIMI index** (`InvertedIndex`). `add_term` stores
  `posting_list[term][doc_id] = value`. When the sum of the stored values passes
  `posting_threshold`, `write_to_disk` first spills the posting list to a numbered
  block file as sorted `term id0:id1,...` records, and `clean_index` then clears it.
  `merge_blocks` opens every block and runs a k-way merge by whole lines into
  `final_index.txt`. An equal term extends the same output line. Finally the merge
  removes the block files.
- **Ranking** (`searcher.py`): the SMART term-frequency letter of `calc_frequency`,
  the BM25 formula `calculate_bm25`, and `BM25Ranking.search`. The search folds the
  scaled per-posting scores into `pub_scores` and returns the `top_k` best
  publications.
- **Metrics** (`MetricsCalcultor`): recall, precision, F-measure and average precision.

The modules:

- `Wrappers` holds `Option`, which stands for `None` and for Python exceptions.
- `OrderedDict` holds the insertion-ordered dict, as an association list.
- `Strings` covers Python string comparison, `split`, `join`, `str(n)` and `isspace`.
- `Encoding` covers the bytes a block read meets: the gzip identification bytes and strict UTF-8 decoding.
- `Index` covers the index object, the block files and `add_term`. It uses the
  class `InvertedIndex`, whose `disk` field maps a path to its lines.
- `BlockMerge` covers the k-way merge.
- `Searcher`, `Tokenizers` and `Metrics` cover the other three parts.

Stateful code is modelled with a class and loops:

- `add_term`, `write_to_disk`, `merge_blocks`, the merge loop, the tokenizer loops and
  the average-precision loop are methods.
- Each of these methods is proved against a specification function.
- The properties are lemmas about that function.

Numbers in ranking and metrics are mathematical reals.

## Model

| member | source | states |
|---|---|---|
| OrderedDict.GetFinds | index.py:213 | `term in d` holds exactly when a lookup of `term` finds a value |
| OrderedDict.PutKeys | index.py:214-216 | `d[k] = v` keeps an existing key in its place and appends a new one |
| OrderedDict.PutDistinct | index.py:214-216 | `d[k] = v` keeps the keys of a dict distinct |
| Strings.LessIrreflexive | index.py:165 | Python string `<` is irreflexive |
| Strings.LessTransitive | index.py:165 | Python string `<` is transitive |
| Strings.LessTotal | index.py:165 | any two different strings are ordered one way or the other, so `min(lines)` exists |
| Strings.Split | tokenizers.py:112 | `s.split(' ')` yields at least one piece |
| Strings.SplitPiecesFree | tokenizers.py:112 | no piece of `s.split(' ')` contains the separator |
| Strings.JoinSplit | tokenizers.py:112 | joining the pieces of a split with the separator gives the string back |
| Strings.SplitJoin | tokenizers.py:112 | splitting the join of separator-free pieces gives the pieces back |
| Strings.SplitChars | tokenizers.py:112 | every character of every piece comes from the split string |
| Strings.Fields | index.py:167 | `line.split()` yields non-empty, whitespace-free fields |
| Strings.RecordFirstField | index.py:167 | `line.split()[0]` of a `term + " " + rest` record is its term |
| Strings.RecordOrderOrdersTerms | index.py:165-167 | if record lines are ordered by whole line, their terms are ordered too |
| Strings.LessExtendsToRecords | index.py:165 | for terms whose characters lie above the space, the term order carries over to their records |
| Strings.DecimalRoundTrip | index.py:137 | `int(str(n)) == n` for the block counter |
| Strings.DecimalInjective | index.py:137 | different counters render to different decimal strings |
| Index.StorePostingLookup | index.py:213-216 | after the store, `posting_list[term][doc_id]` is the new value (an overwrite, not a sum); every other (term, doc) entry is unchanged |
| Index.StorePostingKeys | index.py:213-216 | a known term keeps its place and a new term comes last |
| Index.StorePostingWellFormed | index.py:213-216 | the store keeps both dict levels free of repeated keys |
| Index.StorePostingTotal | index.py:203-216 | the summed threshold quantity changes by the new value minus the overwritten one |
| Index.PutTotal | index.py:203 | replacing one term's postings replaces their sum in the total |
| Index.DocFieldsShape | index.py:140 | the doc fields exist exactly when every doc id has at least two characters; field i is `id[0]:id[1]` |
| Index.TermRecordShape | index.py:140 | a record is the term, a space, and the comma-joined doc fields |
| Index.RenderLinesShape | index.py:139-141 | the written lines are the records of a prefix; the write is complete exactly when that prefix is every record, and otherwise the next record is the one that raised |
| Index.RenderLinesStops | index.py:139-140 | records after one that raises add nothing |
| Index.RenderStep | index.py:139-140 | one turn of the write loop appends the next record, or stops for good |
| Index.BlockPathInjective | index.py:137-138 | different counters name different block files |
| Index.BlockPathNotFinal | index.py:137 | no block path is `final_index.txt` |
| Index.SortedDistinct | index.py:134 | sorting distinct terms gives strictly increasing, distinct terms |
| Index.SortedTermsShape | index.py:134 | the sorted terms of the posting list are exactly its terms, strictly increasing |
| Index.RecordsIncreasing | index.py:139-140 | records of strictly increasing well-formed terms are strictly increasing lines, each led by its term |
| Index.BlockContentOrdered | index.py:134-141 | a block holds its records in strictly increasing order, each led by its term, and one record per term when no doc id is too short |
| Index.FirstMissing | index.py:148 | opening the blocks fails exactly when some recorded block is not on disk, and then it names the first such block |
| Index.RemoveFiles | index.py:186 | the removal only deletes files and keeps the content of the rest; when no recorded block is missing, it deletes exactly the recorded blocks |
| Index.WriteKeepsFilesWellFormed | index.py:137-142 | writing a sorted block and recording its name keeps every recorded block sorted |
| Index.BlockWriteKeepsFilesWellFormed | index.py:128-142 | `write_to_disk` keeps every recorded block sorted and well formed |
| Index.StorePostingTermsWellFormed | index.py:213-216 | storing under a well-formed term keeps every term well formed |
| Index.MergeOfWellFormedFiles | index.py:163-181 | with well-formed blocks every live line has a term; the output terms of a merge of sorted blocks strictly increase and are exactly the terms of the consumed lines, and, once every live line is consumed, exactly the terms of the blocks' lines |
| Index.InvertedIndex.constructor | index.py:97-104 | empty posting list, counter 0, no file names, no compressed file; `token_threshold` is 50000 when absent or 0 |
| Index.InvertedIndex.CleanIndex | index.py:124-125 | the posting list becomes empty; the method may change nothing else, so the counter, file names and disk stay |
| Index.InvertedIndex.WriteToDisk | index.py:128-142 | records `folder/block_<old counter>.txt` as a compressed file, writes the sorted block there, and bumps the counter only when the write completes; keeps the blocks well formed and every recorded block compressed |
| Index.InvertedIndex.WriteRecords | index.py:137-141 | the file is emptied, then holds the rendered records up to the first one that raises |
| Index.InvertedIndex.AddTerm | index.py:201-216 | without a spill it only stores; a due spill without a folder is a ValueError that changes nothing; otherwise one compressed block is written and one name is recorded; when the write completes, the counter rises by 1 and the posting list ends as just the new entry, and a too-short doc id instead leaves the counter and the posting list unchanged; every recorded block stays compressed |
| Index.InvertedIndex.MergeBlocks | index.py:144-188 | reading each block back as it was written, the evidently intended read: a missing block changes nothing, and no block is undecodable. Otherwise `final_index.txt` holds the assembly of the consumed lines. The merge fails (IndexError, blocks kept) exactly when an empty block survives the filter or a live line has no term; a surviving empty block fails it before anything is consumed. Otherwise every live line is consumed once and the blocks are removed in order. With well-formed blocks the output terms strictly increase, the merge fails exactly when an empty block survives, and on success the output terms are exactly the blocks' terms |
| Index.InvertedIndex.FindMissing | index.py:148 | finds the first recorded block that is not on disk |
| Index.InvertedIndex.MergeBlocksAsWritten | index.py:144-188 | the text-mode read as written: a missing block changes nothing; otherwise the first compressed block in `filenames` order raises UnicodeDecodeError before `final_index.txt` is opened, so nothing changes; so once every recorded block is compressed, as `write_to_disk` leaves them, a merge of one or more blocks always ends this way; with no compressed block it merges as `MergeBlocks` does |
| Index.InvertedIndex.FindGzipped | index.py:149 | finds the first recorded block that was written compressed |
| Index.FirstGzipped | index.py:149 | names the first recorded block written compressed, in read order, and none exactly when no recorded block is compressed |
| Encoding.AsciiDecodes | index.py:148-149 | a file of ASCII bytes reads as UTF-8 text without a decoding error |
| Encoding.GzipMemberUndecodable | index.py:137-149 | whatever prefix of a gzip member a text read decodes first, from two bytes on, strict UTF-8 decoding fails at byte 1, the 0x8b of the gzip header: UnicodeDecodeError |
| Index.InvertedIndex.WriteFinalIndex | index.py:162-183 | for blocks read back as written, `final_index.txt` holds the assembled output; the merge completes exactly when no empty block survives the filter and every live line has a term, and then every live line was consumed exactly once; a surviving empty block leaves nothing consumed |
| Index.InvertedIndex.RemoveBlockFiles | index.py:186 | removes the recorded blocks in order and stops at the first one already gone |
| BlockMerge.Live | index.py:149 | the lines a block yields before `readline()[:-1]` first gives "" |
| BlockMerge.ReadLineLive | index.py:176-178 | reading gives "" exactly once the live lines are used up |
| BlockMerge.SortStringsSorts | index.py:168 | `sorted` is a permutation into non-decreasing order |
| BlockMerge.OutputFileLines | index.py:171 | the file opens with an empty line, then has one line per output term |
| BlockMerge.TakenOf | index.py:167-168 | each consumed line contributes its first field as the term and its sorted remaining fields as the chunk |
| BlockMerge.EmitTerms | index.py:170-174 | a term equal to the last one leaves the output terms unchanged; any other term is appended |
| BlockMerge.EmitChunks | index.py:170-174 | every step appends its chunk to the written chunks |
| BlockMerge.AssembleKeepsEveryChunk | index.py:170-174 | every consumed chunk is written once, in consumption order; no posting is lost or repeated |
| BlockMerge.AssembleTermsSame | index.py:170-174 | the output terms are exactly the consumed terms |
| BlockMerge.AssembleTermsIncreasing | index.py:165-174 | with terms consumed in non-decreasing order, each distinct term starts exactly one output line, in strictly increasing order |
| BlockMerge.OpenedPending | index.py:148-149 | opening every block puts exactly the live lines of all blocks in the pool |
| BlockMerge.DropEmptyAsWrittenKeepsAnEmptyBlock | index.py:153-159 | the filter as written keeps one of two empty blocks; for two empty block files the opened lines are `[""]` although there is no live line and none without a term, so `Merge` fails |
| BlockMerge.DropEmptyAsWrittenKeepsNonEmpty | index.py:153-159 | the filter as written drops no non-empty line and keeps their order; it differs from the intended filter only by the empty lines it leaves |
| BlockMerge.DropEmptyBlocks | index.py:153-159 | the corrected filter keeps exactly the blocks with a non-empty first line, in order, with their cursors |
| BlockMerge.NonEmptyKeepsPool | index.py:153-159 | the corrected filter keeps no empty line and loses no pending line |
| BlockMerge.MinIndex | index.py:165 | `lines.index(min(lines))`: the first position of a line no greater than every current line |
| BlockMerge.OpenBlocks | index.py:148-159 | after opening and the filter as written, the current lines are the filtered first lines and the pool is every live line; when no empty line survived, every cursor sits on a live line |
| BlockMerge.DropEmptyAsWrittenBlocks | index.py:153-159 | the pop-while-iterating loop computes the filter as written on the lines, pops each cursor with its line, and loses no pending line |
| BlockMerge.PopEmptyBlock | index.py:155-157 | popping a block whose first line is empty loses no pending line and keeps the other blocks at their first lines |
| BlockMerge.Merge | index.py:148-181 | for blocks read back as written, the output is the assembly of the consumed lines, a sub-multiset of the live lines. The merge completes exactly when no empty block survives the filter as written and every live line has a term, and then it has consumed every live line. A surviving empty block makes it fail before it consumes anything. With sorted blocks, lines are consumed in non-decreasing order |
| BlockMerge.MergeOpened | index.py:163-181 | the merge loop from the opened blocks completes exactly when no current line is empty and every live line has a term, and then has consumed every live line; an empty current line makes the first step fail with nothing consumed |
| BlockMerge.MergeIntended | index.py:148-181 | with the intended filter of empty blocks, the merge completes exactly when every live line has a term, and then has consumed every live line |
| BlockMerge.EmptyLineIsLeast | index.py:165 | an empty current line is the smallest, so `min(lines)` picks an empty line when there is one |
| BlockMerge.LineInPool | index.py:165-167 | the current line under a cursor is a live line, so a current line without a term is a live line without a term |
| BlockMerge.OpenBlocksIntended | index.py:148-159 | the intended filter leaves no empty current line, puts every live line in the pool and every cursor on a live line |
| BlockMerge.SplitRecord | index.py:167-168 | a line has a term exactly when it has a field; the term is its first field, the postings its sorted remaining fields |
| BlockMerge.WriteChunk | index.py:170-174 | the write is one `Emit` step, and the most recent term becomes the term written |
| BlockMerge.ReadNext | index.py:176-181 | the next line replaces the consumed one, or the block is retired; the merge state is kept and the consumed count stays below the live-line count, which bounds the loop |
| BlockMerge.RetireStep | index.py:178-181 | retiring a dry block moves the consumed line from the pool to the output and keeps the merge state |
| BlockMerge.AdvanceStep | index.py:176 | advancing a block moves the consumed line from the pool to the output and keeps the merge state |
| BlockMerge.LineBelowPending | index.py:165 | with sorted blocks, the smallest current line is no greater than any pending line |
| BlockMerge.MergedTermsOrdered | index.py:163-181 | for sorted blocks of well-formed records, every live line has a term; the output terms strictly increase and are exactly the terms of the consumed lines, and, once every live line is consumed, exactly the terms of the input's live lines |
| BlockMerge.PickedTermsInOrder | index.py:165-167 | record lines consumed in order give their terms in order |
| BlockMerge.PickedStepTerms | index.py:167 | the terms of the steps are exactly the terms of the consumed lines |
| Searcher.FrequencyLetterOfNotation | searcher.py:89 | for `ddd.qqq`, the letter read is the first letter of `qqq` |
| Searcher.FrequencyLetterMalformed | searcher.py:89 | a notation without a dot, or with nothing after it, raises IndexError |
| Searcher.CalcFrequencyOfNotation | searcher.py:84-102 | 'n' gives tf, 'l' gives `1 + log10(tf)`, 'a', 'b' and 'L' are not implemented, and any other letter gives None |
| Searcher.LogWeightIncreasing | searcher.py:92-93 | with an increasing logarithm, the 'l' weight does not decrease with tf |
| Searcher.Bm25AtAverageLength | searcher.py:171-179 | at the average length the denominator is `tf + k1`, whatever b is |
| Searcher.Bm25Bounds | searcher.py:171-179 | under the usual parameters BM25 is defined and lies in `[0, idf*(k1+1)]` |
| Searcher.Bm25IncreasingInTf | searcher.py:171-179 | BM25 does not decrease as tf grows |
| Searcher.Bm25DecreasingInLength | searcher.py:171-179 | BM25 does not increase as the publication gets longer |
| Searcher.AddScoreCases | searcher.py:161-164 | a new pub gets the score; a known pub gets it added to its own |
| Searcher.ScorePostingsGet | searcher.py:156-164 | after the inner loop, each pub's score has its posting's gain added, if it has one |
| Searcher.ScoreTokensStep | searcher.py:146-164 | one outer-loop step folds one token's postings; it only unfolds the definition for the `Search` loop, and `Searcher.ScoreTokensIsSum` is the promise |
| Searcher.ScoreTokensSkip | searcher.py:151-153 | a token whose postings are None or empty leaves the scores unchanged; it only unfolds the definition for the `Search` loop |
| Searcher.TokenStepGet | searcher.py:146-164 | one query token adds the pub's per-posting score times the token's query count |
| Searcher.ScoreTokensIsSum | searcher.py:146-164 | each pub's final score is the sum, over the tokens whose postings hold it, of score times query tf; a pub in no postings list has no entry |
| Searcher.ScoreTokensDistinct | searcher.py:143-164 | `pub_scores` never holds a pub twice |
| Searcher.InsertByScorePermutes | searcher.py:167 | insertion adds exactly one entry |
| Searcher.InsertByScoreDescending | searcher.py:167 | insertion keeps scores in non-increasing order |
| Searcher.SortByScoreSorts | searcher.py:167 | the sort is a permutation into non-increasing score order |
| Searcher.NLargestShape | searcher.py:167 | the result has `min(top_k, n)` distinct scored pubs (none for `top_k < 1`) in non-increasing score order, and no omitted pub outscores a returned one |
| Searcher.Search | searcher.py:140-169 | the result is the top-k of the folded `pub_scores` |
| Searcher.ScoreToken | searcher.py:156-164 | the inner loop computes the fold of one token's postings |
| Tokenizers.NewTokenizer | tokenizers.py:75 | a `minL` of None becomes 0 and any other value is kept (the absent-or-0 case is 0) |
| Tokenizers.LStripHyphensSuffix | tokenizers.py:106 | `lstrip('-')` removes exactly the leading hyphens |
| Tokenizers.FilterShape | tokenizers.py:103-106 | the filtered term is no longer than the term, holds only lower-case letters, digits, whitespace and hyphens, and has no leading hyphen |
| Tokenizers.FilterIdempotent | tokenizers.py:103-106 | filtering a filtered term changes nothing |
| Tokenizers.PlainTermEmittedOnce | tokenizers.py:116-118 | a term the filter leaves unchanged, long enough and not a stopword, is emitted once, stemmed only if a stemmer is set, under either piece test |
| Tokenizers.KeptPiecesProper | tokenizers.py:112-115 | without a stemmer, every piece kept by the test as written is made of filtered characters and is either non-blank and longer than `minL`, or a stopword; under the intended test it is also never a stopword |
| Tokenizers.TermTokensProper | tokenizers.py:103-118 | without a stemmer, every token of a term is made of filtered characters and is non-blank and at least `minL` long, or (as written) a stopword piece; under the intended test no token is a stopword |
| Tokenizers.FilteredTermsProper | tokenizers.py:100-118 | the same shape holds for the whole `filtered_terms` list, for each piece test |
| Tokenizers.PositionsOf | tokenizers.py:122-126 | a token's positions are exactly where it stands, strictly increasing |
| Tokenizers.BuildTokensGet | tokenizers.py:120-126 | every token maps to the single key `pub_id`, with exactly its positions |
| Tokenizers.BuildTokensDistinct | tokenizers.py:120-126 | no token is a key twice |
| Tokenizers.BuildTokensKeys | tokenizers.py:120-126 | the keys are exactly the emitted tokens |
| Tokenizers.TokenMap | tokenizers.py:120-126 | the finished map is a dict whose entries are `{pub_id: positions}` |
| Tokenizers.FilterTerms | tokenizers.py:100-118 | the first loop computes `filtered_terms` with the piece test as written |
| Tokenizers.AppendPieces | tokenizers.py:112-115 | the inner loop appends the stemmed pieces that pass the piece test as written, stopword pieces included |
| Tokenizers.AppendTermTokens | tokenizers.py:102-117 | one pass of the first loop appends exactly the tokens that term contributes: nothing when it is dropped, its stemmed pieces that pass the piece test as written when cleaning changed it, its stem otherwise |
| Tokenizers.EnumerateTokens | tokenizers.py:120-126 | the enumeration loop computes the token map |
| Tokenizers.Tokenize | tokenizers.py:97-128 | the result is the token map of `filtered_terms` as written (stopword pieces included): a dict with exact positions per token, empty for no terms |
| Tokenizers.FilterOfComma | tokenizers.py:103-106 | "the," filters to "the " |
| Tokenizers.StopwordPieceKeptAsWritten | tokenizers.py:113 | with stopwords {"the"} and minL 0, `filtered_terms` of ["the,"] is ["the"] and the token map is `{"the": {pub_id: [0]}}`, while the intended test gives no token |
| Tokenizers.KeptPiecesWithoutStopwords | tokenizers.py:112-115 | without a stemmer, the intended test keeps exactly the pieces the test as written keeps, less the stopwords |
| Tokenizers.TermTokensWithoutStopwords | tokenizers.py:102-117 | without a stemmer, the intended tokens of a term are the ones the source emits, less the stopwords |
| Tokenizers.IntendedDropsStopwords | tokenizers.py:100-118 | without a stemmer, the intended `filtered_terms` is the source's with every stopword token taken out |
| Metrics.ElemsSize | metrics.py:22 | a list has at least as many entries as distinct documents, and exactly as many without duplicates |
| Metrics.RecallBounds | metrics.py:12-22 | recall is defined exactly for non-empty `relevant`, lies in [0,1], and is 0 exactly when nothing relevant was obtained |
| Metrics.RecallOne | metrics.py:12-22 | without duplicate relevant docs, recall is 1 exactly when every relevant doc was obtained |
| Metrics.PrecisionBounds | metrics.py:25-35 | precision is defined exactly for non-empty `obtained`, lies in [0,1], and is 0 exactly when nothing relevant was obtained |
| Metrics.PrecisionOne | metrics.py:25-35 | without duplicate obtained docs, precision is 1 exactly when every obtained doc is relevant |
| Metrics.HarmonicSymmetric | metrics.py:55-58 | the F-measure formula is symmetric in precision and recall |
| Metrics.HarmonicBetween | metrics.py:58 | for positive p and r, `2pr/(p+r)` lies between them |
| Metrics.HarmonicBounds | metrics.py:55-58 | for p and r in [0,1] the F-measure formula, including its 0 for `p + r == 0`, lies in [0,1] |
| Metrics.FMeasureBounds | metrics.py:38-58 | F-measure is defined exactly when both lists are non-empty, lies in [0,1], is 0 exactly when nothing relevant was obtained, and otherwise lies between precision and recall |
| Metrics.AveragePrecision | metrics.py:61-81 | the loop computes the sum of the prefix precisions at relevant positions, divided by `len(relevant)` |
| Metrics.PrecisionSumBounds | metrics.py:71-79 | the sum lies between 0 and the number of relevant positions |
| Metrics.RelevantCountIsHits | metrics.py:71-79 | without duplicates, the relevant positions count the distinct hits |
| Metrics.AveragePrecisionDefined | metrics.py:81 | average precision is defined exactly for non-empty `relevant` and is never negative |
| Metrics.PrecisionSumNoneRelevant | metrics.py:71-79 | with no relevant obtained doc, the sum stays 0 |
| Metrics.AveragePrecisionZero | metrics.py:71-81 | average precision is 0 when no obtained doc is relevant |
| Metrics.AveragePrecisionAtMostOne | metrics.py:71-81 | average precision is at most 1 when `obtained` has no duplicates |
| Metrics.DuplicateObtainedExceedsOne | metrics.py:72-81 | with duplicates the bound fails: obtaining "a" twice against ["a"] gives 1.5 |

## Left out

- Files are modelled as sequences of lines in a map from path to lines.
  - Blocks are written gzip-compressed (index.py:137) but opened as UTF-8 text (index.py:148). As written, the first `readline()` of any block raises UnicodeDecodeError, so `merge_blocks` fails on every block `write_to_disk` produced. `Index.InvertedIndex.MergeBlocksAsWritten` models that. The rest of the merge model (`Index.InvertedIndex.MergeBlocks`, `BlockMerge`) assumes each block is read as it was written, and the model keeps the lines of a file rather than its bytes; the compressed bytes are modelled only by their first two (`Encoding`).
  - Other encoding details, buffering, `close()` and `os.makedirs` are not modelled.
  - A block whose write raises keeps the records written before the error. What gzip would actually flush at that point is not modelled.
- The spill threshold in `add_term` is compared with the total of the values, as the source does. `None` and `0` switch the spill off. A `kwargs` without `token_threshold` raises KeyError in the source; the constructor takes an `Option` instead.
- `merge_blocks` takes a `folder` argument that its body never uses. It is not modelled.
- Its `print` and the timing statistics of `SPIMIIndexer.build_index` are left out. So are `build_index` itself, `load_from_disk` and `print_statistics`.
- `BaseIndex.add_term` is not modelled. `InvertedIndex` overrides it, and it keeps a different shape (doc id to terms).
- The per-posting BM25 score is a parameter of `Search`. The source computes it from `idf`, `pub_length`, `avg_pub_length` and `self.k`, none of which it defines, so calling it would raise NameError. The formula itself is modelled and proved separately as `Searcher.Bm25`.
- `index.search_token` is a function parameter of `Search`.
- `heapq.nlargest` is modelled as a stable descending sort followed by a prefix.
- `log10` is a function parameter. Floating point is modelled as exact reals, so rounding and the `int` 0 that `calculate_fmeasure` returns instead of `0.0` are not modelled.
- `TFIDFRanking.search` is not modelled: it is an unfinished skeleton that returns None. Neither are `batch_search` (reading and printing) and the reader.
- The stemmer is an abstract function, `None` when no stemmer is configured. `get_stemmer` and the nltk stemmers are not part of this model. An unknown stemmer name makes `stemmer_obj` None and `stem` an AttributeError in the source. The model assumes a configured stemmer is a function.
- Stopword-file loading, and its FileNotFoundError, is not modelled: the stopword set is a parameter.
- `lower()` and the regex classes `a-zA-Z` and `\d` are modelled on ASCII. Non-ASCII case mappings and Unicode digits are not modelled. Whitespace follows `str.isspace`.
- The base `Tokenizer.tokenize` is not part of this model: it relies on attributes only the subclass sets.
- `Tokenizers.Tokenize` is split into three loop methods, and `Index.InvertedIndex.MergeBlocks` into helpers. This keeps each proof small; the order of operations is the source's. The tokenizer and the merge loop follow the code as written, including the defects under "## Findings"; the intended behaviour is modelled beside them (`Tokenizers.PieceTest.Intended`, `BlockMerge.MergeIntended`). For the block read it is the other way round: `MergeBlocks` reads blocks as written, and `MergeBlocksAsWritten` is the text-mode read of the source.
- Tokenizers.TermTokensProper: the token-shape guarantee is stated without a stemmer only, because an abstract stemmer can return anything.
- Tokenizers.KeptPiecesProper: likewise stated without a stemmer only.
- Tokenizers.FilteredTermsProper: likewise stated without a stemmer only.
- The tokenizer and the index are not connected. The ordered-output claims of the merge assume every indexed term is free of whitespace (`TermsWellFormed`). A token with whitespace inside, such as a term "a b" that the filter leaves unchanged, does not meet that assumption.

## Findings

| source | as written | input that shows it | evidently intended | confidence | as-written member | corrected member |
|---|---|---|---|---|---|---|
| index.py:137-149 | blocks are written through `gzip.GzipFile` but opened with `open(path, 'r', encoding='utf-8')`; the first `readline()` decodes the gzip header, and its second byte 0x8b starts no UTF-8 character, so UnicodeDecodeError is raised before `final_index.txt` is opened | any index whose `add_term` spilled at least one block, then `merge_blocks`: the first block raises, and nothing is merged | read each block as it was written, as the comment at index.py:137 says (`gzip` in read mode) | high, not executed | Index.InvertedIndex.MergeBlocksAsWritten | Index.InvertedIndex.MergeBlocks |
| index.py:153-159 | `for b in block_files` walks the list while the body pops from it, so each pop ends the walk one element early, and a second empty block survives. The first merge step then takes "" as the smallest line, and `"".split()[0]` raises IndexError | two block files that are both empty when read back: the filter leaves one of them, `Merge` and `MergeBlocks` fail after `final_index.txt` was emptied, and the block files stay. In the program as written the decoding error of the row above comes first for every block it wrote itself | remove every block whose first line is empty | high, not executed | BlockMerge.DropEmptyAsWrittenKeepsAnEmptyBlock | BlockMerge.MergeIntended |
| tokenizers.py:113 | `p and p.strip() != "" and len(p) > minL or p in stopwords` keeps every stopword piece: the `or p in stopwords` clause admits it, whatever the grouping | term "the," with stopwords {"the"} and minL 0: it filters to "the ", which is split, and the piece "the" is emitted | `and p not in stopwords`: keep a piece that is non-empty, not blank, longer than `minL` and not a stopword, matching how whole terms are dropped at line 108 | medium, not executed | Tokenizers.StopwordPieceKeptAsWritten | Tokenizers.IntendedDropsStopwords |
