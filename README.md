# A teaching MapReduce engine, modelled in Dafny

The repository is a set of small MapReduce engines written in Python. Each engine runs the same three phases.

- **Map**: the per-record outputs of `map_function(key, value)` are concatenated in record order.
- **Shuffle**: the pairs are grouped into a `defaultdict(list)` in arrival order, then turned into `dict(sorted(...))`, so keys come out in ascending order.
- **Reduce**: one `reduce_function(key, values)` call per group, with the outputs concatenated in group order.

The engines differ around that core.

- **Sequential engine** (`mapreduce/simple_map_reduce.py`). It inlines a word tokenizer and a sum in place of the two user functions.
- **HDFS engine** (`simple_map_reduce_hdfs.py`). It calls the user functions. It also cuts the work into map chunks of two records, shuffle partitions of `max(1, n // 3)` groups and reducer batches of `max(1, n // 2)` groups. Each piece with a non-empty result is written as one file.
- **Threaded engine** (`threaded_word_count_csv.py`). It runs one map task per record and one reduce task per group on a thread pool, and gathers the results as they complete.

The subclasses supply the concrete functions:
- a lower-case, split and strip word tokenizer (`word_count_hdfs.py`);
- two counters of a CSV line's seventh column (`word_clase_csv.py`, `mapreduce/word_counts.py`);
- the sum reducer.

## How the model is built

**The shared grouper.** The grouper appears in three files but is modelled once, as `Grouper.Shuffle`.
- It is generic over the key type and a strict total order `lt`.
- A Python dict with ordered items is a sequence of `(key, values)` entries.
- `sorted` is an insertion sort, `Order.Sort`.
- Python's `<` on `str` is `Order.StrLess`.

**Specification functions.** `Phases.MapAll`, `Phases.ReduceAll` and `Phases.Job` state what the sequential phases compute. Every engine's loops are proved against them.

**User functions.** A subclass's override of `map_function` or `reduce_function` is a function-valued parameter.

**The thread pool.** The threaded engine is modelled without threads. Each `as_completed` loop becomes `Completion.Gather`. It takes two parameters:
- an explicit completion order, which is a permutation of the task indices;
- the set of tasks whose `future.result()` raises.

**The HDFS engine's files.** The engine returns the payloads it would write, instead of writing them:
- the chunk files;
- the partition files;
- the reducer files;
- the metadata record.

**Strings.** Strings are handled at the ASCII level:
- `str.lower` folds `A`–`Z`;
- `str.split()` and `str.isspace()` treat ten characters as white space: tab, line feed, vertical tab, form feed, carriage return, the four information separators (U+001C to U+001F) and the space;
- `strip('.,!?";')` removes those six characters from both ends.

**CSV parsing.** `csv.reader` is a parameter `parse`. It maps a line to its first row's columns, a parse error, or no row at all.

## Where the model differs from the code's comments

**Partition and batch counts.** The code's comments speak of "3 reducers" for the shuffle partitions and "2 reducers" for the reduce batches. The real counts differ:
- `max(1, n // 3)` gives one partition per group below six groups, and at most four partitions from six groups on (`SimpleMapReduceHdfs.PartitionCount`);
- `max(1, n // 2)` gives up to three batches (`SimpleMapReduceHdfs.ReducerCount`).

The model follows the code.

**The sequential engine's user functions.** `mapreduce/simple_map_reduce.py` documents `map_function` and `reduce_function` as the methods to override, but its phases never call them. The model follows the code; see Findings.

## Model

| member | source | states |
|---|---|---|
| Order.Sort | mapreduce/simple_map_reduce.py:107 | `sorted` returns a permutation of the keys it is given |
| Order.SortAscending | mapreduce/simple_map_reduce.py:107 | sorting distinct keys under a strict total order makes them strictly ascending |
| Order.AscendingUnique | mapreduce/simple_map_reduce.py:107 | two strictly ascending lists with the same members are equal, so the sorted dict is fixed by its key set |
| Order.StrLessIsStrictTotalOrder | threaded_word_count_csv.py:81 | Python's `<` on `str` is irreflexive, transitive, and orders any two distinct strings |
| Seqs.SumPermutation | mapreduce/simple_map_reduce.py:133 | `sum(values)` does not depend on the order of the values |
| Seqs.SumOfOnes | word_count_hdfs.py:21 | the sum of a list of ones is its length |
| PyStr.SplitWords | word_count_hdfs.py:14 | `split()` yields non-empty tokens free of white space whose concatenation is the line's non-space characters |
| PyStr.SplitEmptyIffBlank | threaded_word_count_csv.py:25 | a line splits into no tokens exactly when it is empty or white space only |
| PyStr.SplitJoin | word_count_hdfs.py:14 | splitting words joined by single spaces gives the words back |
| PyStr.StripIsTrimmedSlice | word_count_hdfs.py:15 | `strip('.,!?";')` returns a slice of the token: everything before and after it is one of the six characters, and neither end of the result is one |
| PyStr.StripIdempotent | word_count_hdfs.py:15 | stripping twice is stripping once |
| PyStr.StripNoPunct | word_count_hdfs.py:15 | a token without any of the six characters is left unchanged |
| PyStr.StripKeepsChars | word_count_hdfs.py:15 | every character of the stripped token comes from the token |
| PyStr.LowerFacts | word_count_hdfs.py:14 | `lower()` leaves no upper-case letter, keeps the length and keeps white space and the six characters in place |
| PyStr.LowerIdempotent | word_count_hdfs.py:14 | lower-casing twice is lower-casing once |
| Grouper.KeyOrder | mapreduce/simple_map_reduce.py:103-104 | the dict's key order has no duplicates and holds exactly the keys that received a value |
| Grouper.Shuffle | mapreduce/simple_map_reduce.py:101-107 | the grouping loop and the sort compute `Group(lt, pairs)`; the same code is at simple_map_reduce_hdfs.py:101-108 and threaded_word_count_csv.py:76-81 |
| Grouper.GroupIsSortedByKey | simple_map_reduce_hdfs.py:101-108 | keys strictly ascending, exactly the keys that occur, each with a non-empty list holding that key's values in arrival order |
| Grouper.ValuesOfIsSubsequence | threaded_word_count_csv.py:78-79 | a key's list is, value for value, the subsequence of the pairs that carry that key |
| Grouper.GroupIsComplete | simple_map_reduce_hdfs.py:101-108 | flattening the groups gives back exactly the input pairs as a multiset, so the number of values equals the number of pairs |
| Grouper.GroupPermutation | threaded_word_count_csv.py:78-81 | reordering the pairs leaves the sorted keys unchanged and each key's values unchanged up to order |
| Grouper.ValuesOfMultiset | threaded_word_count_csv.py:78-79 | permuted pairs give each key a permutation of its values |
| Grouper.ValuesOfCount | mapreduce/simple_map_reduce.py:103-104 | a key's list is as long as the number of pairs carrying the key |
| Grouper.RegroupWellFormed | simple_map_reduce_hdfs.py:123 | grouping the flattened pairs of strictly ascending, non-empty groups gives those groups back |
| Grouper.GroupIdempotent | mapreduce/simple_map_reduce.py:101-107 | grouping the flattening of a grouping reproduces it |
| Grouper.GroupSingle | mapreduce/simple_map_reduce.py:101-107 | a single pair groups into a single one-value entry |
| Phases.MapAllAppend | simple_map_reduce_hdfs.py:59-66 | mapping a concatenation of records maps each part and concatenates |
| Phases.ReduceAllAppend | simple_map_reduce_hdfs.py:162-172 | reducing a concatenation of groups reduces each part and concatenates |
| Phases.MapAllEcho | simple_map_reduce_hdfs.py:22-27 | the default `map_function` hands the input on unchanged |
| Counting.SumReduceCounts | word_count_hdfs.py:17-22 | on a list of ones the sum reducer returns the list's length |
| Counting.SumReduceOrderIndependent | threaded_word_count_csv.py:46-48 | the sum reducer gives the same pair for any ordering of the values |
| Counting.SumReduceAll | mapreduce/simple_map_reduce.py:131-134 | one `(key, sum(values))` per group, in group order |
| Counting.SummingShuffle | mapreduce/simple_map_reduce.py:101-134 | grouping then summing: keys strictly ascending, exactly the keys that occur, each total the sum of that key's values |
| Counting.CountingShuffle | word_count_hdfs.py:15-22 | when every value is 1, each key's total is the number of pairs carrying it |
| Counting.SumReduceGroupPermutation | threaded_word_count_csv.py:76-81 | any reordering of the pairs yields the same `(key, total)` lists, group by group |
| Completion.CompletionOrderInRange | threaded_word_count_csv.py:57-60 | a completion order names every submitted task exactly once |
| Completion.Gather | threaded_word_count_csv.py:60-66 | the `as_completed` loop appends each successful task's output in completion order and skips the tasks that raise |
| Completion.CompletedContiguous | threaded_word_count_csv.py:60-64 | each task's output lands as one contiguous block at the point where the task completes |
| Completion.FailedContributeNothing | threaded_word_count_csv.py:65-66 | a raising task contributes exactly what an empty result would |
| Completion.CompletedMultiset | threaded_word_count_csv.py:60-64 | the gathered pairs, as a multiset, depend only on which tasks completed, not on their order |
| Completion.CompletionOrderIrrelevant | threaded_word_count_csv.py:57-66 | for any completion order the gathered pairs are a permutation of the surviving outputs in submission order |
| Completion.NoFailurePermutation | threaded_word_count_csv.py:57-66 | with no raising task the gathered pairs are a permutation of the sequential concatenation |
| Completion.SingleFailure | threaded_word_count_csv.py:62-66 | one raising task drops exactly its own output and nothing else |
| Csv.ColumnSix | word_clase_csv.py:28-30 | a row of at least seven columns yields exactly `(columns[6], 1)`; only such a row yields anything, and never more than one pair |
| WordClaseCsv.BlankLineIsSkipped | word_clase_csv.py:19-20 | an empty or white-space line yields nothing, whatever the parser would say |
| WordClaseCsv.MapFunctionCases | word_clase_csv.py:13-37 | a non-blank line with at least seven columns yields exactly `(columns[6], 1)`; a short row, parse error or missing row yields nothing; never more than one pair |
| WordClaseCsv.ColumnSixOnes | word_clase_csv.py:28-30 | every pair the map phase emits carries the count 1 |
| WordClaseCsv.ColumnSixJobCounts | word_clase_csv.py:13-42 | the job counts each seventh-column value: keys strictly ascending, exactly the emitted values, each total the number of lines carrying it |
| WordCounts.MapFunctionCases | mapreduce/word_counts.py:13-27 | a row of at least seven columns yields exactly `(columns[6], 1)`; a short row (the caught `IndexError`), a parse error or no row yields nothing |
| WordCounts.AgreesOnNonBlankLines | mapreduce/word_counts.py:13-27 | on every non-blank line this counter agrees with the one in `word_clase_csv.py` |
| WordCounts.AgreesEverywhere | mapreduce/word_counts.py:13-27 | with a parser that finds no seventh column on blank lines, the two counters agree on every line |
| WordCountHdfs.StripCleansToken | word_count_hdfs.py:15 | a lower-cased token that strips to something non-empty strips to a clean word |
| WordCountHdfs.CleanWordsAreClean | word_count_hdfs.py:15 | the kept words are clean, and there are no more of them than tokens |
| WordCountHdfs.MapFunctionEmitsCleanOnes | word_count_hdfs.py:14-15 | every emitted pair is `(w, 1)` with `w` non-empty, lower-case, white-space free and not starting or ending with `.,!?";`; no more pairs than tokens |
| WordCountHdfs.MapFunctionBlank | word_count_hdfs.py:14-15 | a blank line emits nothing |
| WordCountHdfs.MapFunctionPlainLine | word_count_hdfs.py:14-15 | on a line with no upper-case letter and none of the six characters, one `(w, 1)` per white-space token, in token order |
| WordCountHdfs.MapAllWords | word_count_hdfs.py:14-15 | the keys of the mapped pairs are the input's words, record after record |
| WordCountHdfs.MapAllOnes | word_count_hdfs.py:15 | every mapped pair carries the count 1 |
| WordCountHdfs.InputWordsAreClean | word_count_hdfs.py:15 | every word of the input is a clean word |
| SimpleMapReduce.MapPhase | mapreduce/simple_map_reduce.py:47-85 | the inlined tokenizer produces exactly what `word_count_hdfs.py`'s `map_function` would, over the whole input; keys are the input's words, every value is 1 |
| SimpleMapReduce.ShufflePhase | mapreduce/simple_map_reduce.py:87-113 | the grouped mapping: strictly ascending keys, exactly the keys that occur, each key's values in arrival order |
| SimpleMapReduce.ReducePhase | mapreduce/simple_map_reduce.py:115-138 | the inlined sum: one `(key, sum(values))` per group, in group order |
| SimpleMapReduce.WordCountCounts | mapreduce/simple_map_reduce.py:140-165 | the word count: keys strictly ascending, exactly the input's words, each total the word's number of occurrences |
| SimpleMapReduce.Execute | mapreduce/simple_map_reduce.py:140-165 | `execute` is the word count of its input whatever the subclass; the empty input gives the empty result |
| SimpleMapReduce.WordCountKeysAreClean | mapreduce/simple_map_reduce.py:67-76 | no key of the word count is empty, contains upper case or white space, or starts or ends with `.,!?";` |
| SimpleMapReduce.DefaultJobTotalsKeys | mapreduce/simple_map_reduce.py:19-45 | with the default functions actually called, the job totals each key's values, keys ascending |
| SimpleMapReduce.ExecuteWith | mapreduce/simple_map_reduce.py:140-160 | the engine that calls `map_function` and `reduce_function` computes `Job` (map, shuffle, reduce) |
| SimpleMapReduce.ExecuteIgnoresOverride | mapreduce/simple_map_reduce.py:65-76 | as written, no input produces the key `Chile`, because every key is lower-cased; this includes the line ChileLine, whose seventh column is `Chile` |
| SimpleMapReduce.ExecuteWithUsesOverride | mapreduce/simple_map_reduce.py:65 | the engine calling the override counts that line's `Chile` once |
| SimpleMapReduce.ChileLineMapped | word_clase_csv.py:13-37 | the column-6 map phase over that line emits exactly `("Chile", 1)` |
| Chunking.ChunksCover | simple_map_reduce_hdfs.py:59-60 | `range(0, n, size)` slices cover the list in order without overlap, hold 1 to `size` elements, all full but the last, and number ceil(n / size), none for an empty list |
| Chunking.NonEmptyConcat | simple_map_reduce_hdfs.py:70-73 | writing only the non-empty results loses nothing from their concatenation |
| Chunking.NonEmptyPositions | simple_map_reduce_hdfs.py:176-181 | the written results are non-empty and come from strictly increasing piece numbers |
| SimpleMapReduceHdfs.ReduceAllIdentity | simple_map_reduce_hdfs.py:29-34 | reducing with the default `reduce_function` returns the groups unchanged |
| SimpleMapReduceHdfs.DefaultJobIsGrouping | simple_map_reduce_hdfs.py:22-34 | with both default functions the job returns the grouped mapping itself |
| SimpleMapReduceHdfs.MapEachConcat | simple_map_reduce_hdfs.py:59-66 | mapping chunk by chunk gives the same pairs as mapping all records |
| SimpleMapReduceHdfs.ReduceEachConcat | simple_map_reduce_hdfs.py:162-172 | reducing batch by batch gives the same pairs as reducing all groups |
| SimpleMapReduceHdfs.FlattenEachConcat | simple_map_reduce_hdfs.py:123 | the partition files together hold the flattened groups in order |
| SimpleMapReduceHdfs.PartitionCount | simple_map_reduce_hdfs.py:112 | `max(1, n // 3)` gives one partition per group below six groups and at most four from six on |
| SimpleMapReduceHdfs.ReducerCount | simple_map_reduce_hdfs.py:160 | `max(1, n // 2)` gives at most three batches, and one per group up to three groups |
| SimpleMapReduceHdfs.RunMapper | simple_map_reduce_hdfs.py:63-66 | one chunk's results are `map_function` on its records, concatenated in order |
| SimpleMapReduceHdfs.RunReducer | simple_map_reduce_hdfs.py:168-172 | one batch's results are `reduce_function` on its keys and their grouped values, in order |
| SimpleMapReduceHdfs.ChunkFiles | simple_map_reduce_hdfs.py:59-73 | the chunk files hold, in order, all the map output; none is empty; there are at most ceil(n / 2) |
| SimpleMapReduceHdfs.MapPhase | simple_map_reduce_hdfs.py:36-82 | the intermediate list is the sequential map output; the chunk files are the non-empty chunk results; `chunk_num` counts them |
| SimpleMapReduceHdfs.PartitionFilesRegroup | simple_map_reduce_hdfs.py:116-127 | each partition file, grouped again, gives back its partition; together the files hold every intermediate pair |
| SimpleMapReduceHdfs.WritePartitions | simple_map_reduce_hdfs.py:112-127 | the partition loop writes the sorted groups cut into consecutive slices of `size`, each as its flattened pairs |
| SimpleMapReduceHdfs.ShufflePhase | simple_map_reduce_hdfs.py:84-137 | the grouped mapping, the partition size `max(1, n // 3)`, its partitions and their files |
| SimpleMapReduceHdfs.ReducerFiles | simple_map_reduce_hdfs.py:162-181 | the reducer files hold, in order, all the reduce output; each is non-empty and named by a distinct, increasing reducer number |
| SimpleMapReduceHdfs.RunReducers | simple_map_reduce_hdfs.py:159-181 | the batch loop computes the sequential reduce output, counts every batch, and writes the non-empty batch results |
| SimpleMapReduceHdfs.ReducePhase | simple_map_reduce_hdfs.py:139-202 | the final list is the sequential reduce output; the batch size is `max(1, n // 2)`; the metadata records the result count, the batches run and the reducers that wrote a file |
| SimpleMapReduceHdfs.Execute | simple_map_reduce_hdfs.py:204-232 | `execute` computes reduce after shuffle after map |
| ThreadedWordCountCsv.ThreadedMapPhase | threaded_word_count_csv.py:50-70 | one `map_function` task per record, results gathered in completion order, raising tasks skipped |
| ThreadedWordCountCsv.ThreadedReducePhase | threaded_word_count_csv.py:90-110 | one `reduce_function` task per group, results gathered in completion order, raising tasks skipped |
| ThreadedWordCountCsv.Execute | threaded_word_count_csv.py:112-130 | threaded map, shuffle, threaded reduce; with no raising task the result is a permutation of the sequential job's |
| ThreadedWordCountCsv.ThreadedMapPermutation | threaded_word_count_csv.py:57-66 | whatever the order, the map phase gathers a permutation of the surviving records' outputs |
| ThreadedWordCountCsv.ThreadedMapNoFailure | threaded_word_count_csv.py:57-66 | with no raising task the map phase gathers a permutation of the sequential map output |
| ThreadedWordCountCsv.ThreadedMapSingleFailure | threaded_word_count_csv.py:62-66 | one raising map task loses exactly that record's pairs |
| ThreadedWordCountCsv.ThreadedReduceSingleFailure | threaded_word_count_csv.py:100-106 | one raising reduce task loses exactly its group's `(key, total)` |
| ThreadedWordCountCsv.MapAllWithout | threaded_word_count_csv.py:62-66 | the sequential map output, less one record's pairs, is up to order the map output of the other records |
| ThreadedWordCountCsv.ThreadedJobSingleFailure | threaded_word_count_csv.py:112-130 | with the sum reducer, one raising map task makes the whole job return, up to order, the sequential job's result on the other records |
| ThreadedWordCountCsv.ThreadedJobOrderIndependent | threaded_word_count_csv.py:112-130 | with the sum reducer, the multiset of results is the same for any completion orders of both pools, given the same raising tasks |
| ThreadedWordCountCsv.ThreadedMatchesSequential | threaded_word_count_csv.py:112-130 | with the sum reducer and no raising task the result is a permutation of the sequential engine's |
| ThreadedWordCountCsv.ThreadedColumnSixCounts | threaded_word_count_csv.py:22-48 | with no raising task and any completion orders, the keys are exactly the seventh-column values emitted and each total is the number of lines carrying it |

## Left out

- `hdfs_simulator.py` is not part of this model. It is filesystem I/O: directories, JSON files and sizes. The HDFS engine returns the payloads it would pass to `write_file` instead.
- The HDFS engine's input and consolidated files (`input_data.json`, `map_output_consolidated.json`, `grouped_data.json`, `final_output.json`) are not modelled. Their payloads are the input, `intermediate`, `groups` and `final`, which the phases already return. The read at the start of `_shuffle_phase` is a `print` only.
- SimpleMapReduceHdfs.ReducePhase: `reducer_outputs` is recorded as the list of reducer numbers that wrote a file, not as the file names `reducer_NNN.json`. The `job_id` field is not modelled because it comes from `hash(id(self))`.
- SimpleMapReduceHdfs.MapPhase: `intermediate_results` is extended once per chunk rather than once per record. The list is the same after each chunk.
- SimpleMapReduceHdfs.RunReducers: `final_results` is extended once per batch rather than once per key. The list is the same after each batch.
- `mapreduce/map_reduce_interface.py` is left out. It declares only the two abstract methods, and the engines take those functions as parameters.
- Threads are not modelled: `ThreadPoolExecutor`, `as_completed`, `threading.Lock` (which guards only `print`), `num_threads` and `os.cpu_count()` are absent. The pool's completion order and the set of raising tasks are parameters.
- The two `future_to_*` dicts are not modelled separately. They map a task back to its record for the error message only, so a task is named by its index.
- Timings (`time.time()`), all `print` output, `_show_hdfs_structure`, `cleanup_hdfs` and the `__main__` blocks are left out. The `__main__` blocks read a CSV file, sort results by count and write a CSV file.
- `csv.reader` is not modelled: quoting, escapes and dialects are absent. Its first row is an uninterpreted parameter `parse`.
- Unicode is not modelled. `lower`, `split` and `isspace` are their ASCII counterparts, and `StrLess` compares code points.
- Python's dynamic typing is replaced by generic key and value types. Keys need a strict total order when they are sorted, and values are `int` where `sum` is applied.
- An exception raised by a user function in the sequential and HDFS engines is not modelled. Those engines would propagate it, so user functions are total here.

## Findings

| source | as written | input that shows it | evidently intended | confidence | as-written member | corrected member |
|---|---|---|---|---|---|---|
| mapreduce/simple_map_reduce.py:65-76, :132-133 | `_map_phase` and `_reduce_phase` inline a word tokenizer and a sum; the calls to `self.map_function` and `self.reduce_function` are commented out, so a subclass's overrides are never used | the CSV line `1,a,b,c,d,e,Chile` run through the column-6 subclass yields no key `Chile` | the phases call the overridable functions, so the subclass counts its seventh column and `Chile` is counted once | not executed | SimpleMapReduce.ExecuteIgnoresOverride | SimpleMapReduce.ExecuteWith |

`SimpleMapReduce.Execute` models the engine exactly as written. `SimpleMapReduce.ExecuteWith` is the corrected engine, which calls the overrides. Three lemmas state properties of the corrected engine:
- `SimpleMapReduce.ExecuteWithUsesOverride`;
- `SimpleMapReduce.DefaultJobTotalsKeys`;
- `WordClaseCsv.ColumnSixJobCounts`.
