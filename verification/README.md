# OpenSearch benchmark scripts — a Dafny model

This project models the data-handling core of a set of OpenSearch benchmarking
scripts:

- **Bulk ingestion** (`benchmark_ingestion/run_bulk.py`, `benchmark_ingestion/bulk.py`).
  - The launcher writes an *offset file*: the byte offset of every line of a JSONL corpus.
  - It then starts `total_ranks` worker commands.
  - Each worker owns the line indices `i` with `i % total == rank`.
  - A worker cuts its share into windows of `bulk_size`, reads each line by seeking to its offset, and sends `{"index": …}`/document pairs to the bulk API.
  - It retries the items the cluster reports as failed.
- **Search workload** (`benchmark_search/workload.py`).
  - Parameter validators.
  - The query data set, with its 1-based `read_line`.
  - `partition`: each client gets `total_queries // total_partitions` lines starting at `partition_index * q + 1`.
  - `params`: a client cycles through its own lines and builds neural-sparse requests.
- **SageMaker load test** (`benchmark_sagemaker/locust_benchmark_sm.py`, `benchmark_sagemaker/automated_benchmark.py`).
  - Sizing of the generated payload.
  - The stage schedule.
  - The user ramp of `test_parameter_set`.
  - The best-result summary of `main`.
- **Search relevance** (`benchmark_ingestion/search_relevance.py`).
  - The query body of `create_query_body`.
  - The `{id: score}` dictionary that `search_query` builds from the hits.

## How Python is modelled

- **Python semantics** are written out explicitly in module `PyInt`:
  - floor division and modulo for negative operands;
  - `str(int)` and `int(str)`;
  - `str.strip()`.
- **JSON values and Python errors.** Decoded JSON is the `JsonValue.Json` datatype. Python exceptions are the `Exceptions.Exception` datatype carried in a `Result`:
  - a dictionary subscript raises `KeyError` on a missing key and `TypeError` on a non-dictionary;
  - `x // 0` raises `ZeroDivisionError`;
  - `range(…, 0)` raises `ValueError`.
- **The outside world becomes parameters.** This covers the file system, the OpenSearch cluster, Locust and the clock.
  - The corpus is a byte sequence.
  - `json.loads` of a corpus line is a `parse` function.
  - The cluster's bulk responses and the load-test measurements are finite oracle sequences.
  - A loop that in Python runs until the cluster or the ramp says stop ends with an explicit "oracle exhausted" status when the sequence runs out.
- **Where the docstring and the code disagree, the model follows the code.** The docstring of `test_parameter_set` says the ramp stops below a 10 % gain. The code compares against `0.08`, so `AutomatedBenchmark.MinImprovement` is 8 %.

## Model

| member | source | states |
|---|---|---|
| PyInt.FloorDiv | benchmark_ingestion/bulk.py:64 | Python `//` rounds toward minus infinity: `b*q <= a < b*q + b` for a positive divisor, mirrored for a negative one |
| PyInt.Mod | benchmark_ingestion/bulk.py:64 | Python `%` satisfies `a == b*(a//b) + r` with the remainder taking the divisor's sign |
| PyInt.PositiveDivisorAgrees | benchmark_search/workload.py:138 | for a positive divisor Python's `//` and `%` coincide with Euclidean division |
| PyInt.NatToDecimal | benchmark_ingestion/run_bulk.py:21 | `str(n)` of a natural is a non-empty digit string without a leading zero |
| PyInt.IntToDecimal | benchmark_ingestion/run_bulk.py:21 | `str(i)` starts with `-` exactly when `i` is negative, and is all digits otherwise |
| PyInt.DigitsValueOfDecimal | benchmark_ingestion/run_bulk.py:21 | the digits written by `str(n)` read back as `n` |
| PyInt.StripLeft | benchmark_ingestion/bulk.py:62 | removes exactly the maximal leading run of whitespace |
| PyInt.StripRight | benchmark_ingestion/bulk.py:62 | removes exactly the maximal trailing run of whitespace |
| PyInt.Strip | benchmark_ingestion/bulk.py:62 | the result has no whitespace at either end and a string already without it is unchanged |
| PyInt.ParseInt | benchmark_ingestion/bulk.py:62 | `int(s)` fails on a blank string and otherwise only accepts text ending in a digit |
| PyInt.ParseIntSpec | benchmark_ingestion/bulk.py:62 | `int(s)` succeeds iff the stripped text is an optional `+` or `-` followed by one or more digits, and then returns the signed decimal value |
| PyInt.ParseIntAccepts | benchmark_ingestion/bulk.py:62 | an optional sign followed by digits, after stripping, parses to its signed decimal value |
| PyInt.ParseIntAccepted | benchmark_ingestion/bulk.py:62 | whatever `int(s)` accepts is an optional sign followed by digits after stripping |
| PyInt.StripTrailingNewline | benchmark_ingestion/bulk.py:62 | `line.strip()` removes exactly the newline the file iterator leaves on a line |
| PyInt.ParseIntOfDecimal | benchmark_ingestion/bulk.py:62 | `int(str(i)) == i` and `int((str(i) + "\n").strip()) == i` for every integer, negative ones included |
| PyInt.ParseIntOfNegative | benchmark_ingestion/bulk.py:62 | a minus sign followed by digits parses to the negated digit value |
| PyInt.ParseIntOfDigits | benchmark_ingestion/bulk.py:62 | a run of digits parses to its decimal value |
| JsonValue.Subscript | benchmark_ingestion/bulk.py:13 | `v[key]` succeeds iff `v` is a dict holding `key`; otherwise `KeyError` for a dict, `TypeError` for anything else |
| JsonValue.Contains | benchmark_ingestion/bulk.py:18 | `key in v` tests dict keys or list members, and raises `TypeError` for scalars |
| JsonValue.Entry | benchmark_ingestion/bulk.py:71 | a one-entry dict yields its value back under its key |
| TextLines.LineLen | benchmark_ingestion/run_bulk.py:15 | the first line of a buffer has no newline before its end and ends in a newline unless it runs to the end of the data |
| TextLines.ReadLine | benchmark_ingestion/bulk.py:36-37 | `seek(off); readline()` returns the contiguous slice from `off` that forms one line, and nothing past the end of the file |
| TextLines.LinesPartition | benchmark_ingestion/run_bulk.py:15-17 | iterating a file's lines yields pieces that concatenate back to the file, each a single line, all but the last ending in a newline |
| TextLines.FlattenLines | benchmark_ingestion/run_bulk.py:15-17 | the file's lines concatenate back to the whole file |
| TextLines.LinesWellFormed | benchmark_ingestion/run_bulk.py:15-17 | every line holds at most one newline, at its end, and all but the last end in one |
| TextLines.LinesSuffix | benchmark_ingestion/run_bulk.py:15-17 | the lines after the first `k` are the lines of the bytes that follow them |
| TextLines.LinesSplitAt | benchmark_ingestion/run_bulk.py:15-17 | the bytes after the first `k` lines are exactly the remaining lines concatenated |
| TextLines.LinesTailWellFormed | benchmark_ingestion/run_bulk.py:15-17 | every suffix of the line list is still a list of well-formed lines |
| TextLines.ReadLineAtLineStart | benchmark_ingestion/bulk.py:35-37 | reading at the start offset of line `k` returns line `k` exactly |
| TextLines.LineLenOfLine | benchmark_ingestion/bulk.py:37 | `readline` on a complete line followed by anything stops exactly at that line's end |
| TextLines.LinesOfFlatten | benchmark_ingestion/bulk.py:61-62 | writing well-formed lines and iterating the file gives back the same lines |
| Bulk.ParseEach | benchmark_ingestion/bulk.py:61-62 | the comprehension succeeds iff every line converts, and then holds each line's value in order; otherwise `ValueError` |
| Bulk.ParseOffsets | benchmark_ingestion/bulk.py:61-62 | a readable offset file gives one offset per line |
| Bulk.ParseEachAll | benchmark_ingestion/bulk.py:61-62 | when each line converts to the matching value, the whole list is those values |
| Bulk.Owned | benchmark_ingestion/bulk.py:64 | a rank's share is ascending and holds exactly the indices below `n` whose `% total` is the rank |
| Bulk.AllIdxs | benchmark_ingestion/bulk.py:64 | `ZeroDivisionError` iff `total == 0` and there is a line to test; else exactly the indices `i < n` with `i % total == rank`, ascending |
| Bulk.OwnedCountStep | benchmark_ingestion/bulk.py:64 | adding line `n` grows exactly the share of rank `n % total` |
| Bulk.OwnedCountAll | benchmark_ingestion/bulk.py:64 | the shares of ranks `0..total-1` together number exactly `n` lines |
| Bulk.OwnedCountEmpty | benchmark_ingestion/bulk.py:64 | with no lines every share is empty |
| Bulk.PartitionCover | benchmark_ingestion/bulk.py:64 | every line belongs to the rank `i % total`, no line to two ranks, ranks outside `0..total-1` get nothing, and the shares add up to `n` |
| Bulk.OwnedOutOfRange | benchmark_ingestion/bulk.py:64 | a rank outside `0..total-1` owns no line |
| Bulk.WindowBounds | benchmark_ingestion/bulk.py:66 | `range(0, len, size)` has a `k`-th start exactly when `k*size < len` |
| Bulk.Window | benchmark_ingestion/bulk.py:68 | each window is non-empty and no longer than `bulk_size` |
| Bulk.Windows | benchmark_ingestion/bulk.py:66-68 | `ValueError` iff `bulk_size == 0`; a negative size yields no windows; a positive size yields windows of 1 to `bulk_size` indices |
| Bulk.WindowIsSlice | benchmark_ingestion/bulk.py:68 | window `k` is `all_idxs[k*size : min(k*size+size, len)]` |
| Bulk.WindowAt | benchmark_ingestion/bulk.py:66-68 | the `j`-th window produced starts inside the list and is the slice at `j*size` |
| Bulk.WindowsPrefix | benchmark_ingestion/bulk.py:66-68 | the first `k` windows together are the first `min(k*size, len)` indices |
| Bulk.WindowsCover | benchmark_ingestion/bulk.py:66-68 | the windows concatenate back to the whole share, and each begins `k*size` indices in |
| Bulk.BulkBody | benchmark_ingestion/bulk.py:67-72 | the body alternates the index action and the documents: entry `2k` is the action and `2k+1` is document `k` |
| Bulk.DocumentsOfBulkBody | benchmark_ingestion/bulk.py:67-72 | the documents can be recovered from a bulk body in order |
| Bulk.ReadLineByIndex | benchmark_ingestion/bulk.py:31-38 | `ValueError` iff the index is out of range; a negative offset makes `seek` fail; otherwise the decoded line at the offset, or a decode error |
| Bulk.ReadWindow | benchmark_ingestion/bulk.py:69-70 | a window's reads succeed iff every index reads, and give each index's document in order |
| Bulk.ReadEach | benchmark_ingestion/bulk.py:69-70 | reading in order stops at the first failure and otherwise returns one value per index |
| Bulk.ItemFailed | benchmark_ingestion/bulk.py:18 | a well-shaped bulk item has failed exactly when its `index` entry carries an `error` key |
| Bulk.FailedIn | benchmark_ingestion/bulk.py:17-19 | the failed positions are ascending, in range, and exactly the items reporting an error |
| Bulk.FailedPositions | benchmark_ingestion/bulk.py:17-19 | for an item list, the failed positions are the ones `FailedIn` finds |
| Bulk.PySlice | benchmark_ingestion/bulk.py:22 | a Python slice is clamped to the list and equals the Dafny slice when in range |
| Bulk.Resubmit | benchmark_ingestion/bulk.py:20-22 | the new body holds, in order, the action/document pair of every failed position, and nothing else |
| Bulk.Retry | benchmark_ingestion/bulk.py:12-28 | nothing is resubmitted iff the response reports no errors; otherwise the first resubmission is the failed pairs; an empty resubmission is refused with `ValueError`; the retry is unfinished iff it resubmits once more than there are backend responses and the last resubmission is not empty; a completed retry consumed at most the backend's responses |
| Bulk.RetryRound | benchmark_ingestion/bulk.py:13-22 | one round stops cleanly iff the response reports no errors; it resends iff the response reports errors and its failed pairs can be read, and then resends exactly those pairs; otherwise reading the response raised |
| Bulk.RoundChainedShift | benchmark_ingestion/bulk.py:27-28 | a round of the retry that follows a resubmission is the same round, one later, of the whole retry |
| Bulk.RetryChained | benchmark_ingestion/bulk.py:12-28 | every resubmission answers a response that still reports errors, and is the failed pairs of the previous round's body under that response |
| Bulk.RetryEmptyOnlyLast | benchmark_ingestion/bulk.py:20-28 | no resubmission but the last is empty: an empty resubmission ends the retry |
| Bulk.RetryCompletedFinal | benchmark_ingestion/bulk.py:13-14 | a completed retry consumed at most the backend's responses, and the response it ended on reports no errors |
| Bulk.RetryRaisedFinal | benchmark_ingestion/bulk.py:13-22 | a retry that raised, other than on an empty resubmission, ended on a response whose `errors` or failed items cannot be read |
| Bulk.RetryFinal | benchmark_ingestion/bulk.py:12-28 | both of the above, for every retry |
| Bulk.RetryEnds | benchmark_ingestion/bulk.py:12-28 | only the last resubmission can be empty; a completed retry ends on a response reporting no errors; a raised one ends on a response it cannot read or on an empty resubmission |
| Bulk.RetryChain | benchmark_ingestion/bulk.py:12-28 | both of the above, for every retry |
| Bulk.RetryResendsOnlyFailed | benchmark_ingestion/bulk.py:12-28 | in every round, a resubmission holds exactly the pairs whose item failed in that round's response: an indexed document is never sent again |
| Bulk.ResubmitOnlyFailed | benchmark_ingestion/bulk.py:17-22 | a resubmission holds exactly the pairs of failed items, never of an item that succeeded, and is no larger than the original |
| Bulk.EmptyResubmission | benchmark_ingestion/bulk.py:12-28 | `errors: true` with no failed item makes the next body empty, which the client refuses with `ValueError`, whatever the backend would answer |
| Bulk.PermanentRejectionNeverFinishes | benchmark_ingestion/bulk.py:12-28 | a document the cluster always rejects is resubmitted on every response, and the retry uses up every response supplied without completing |
| Bulk.RejectOneResubmits | benchmark_ingestion/bulk.py:13-22 | a one-item rejection has `errors` set and makes the same pair the next body |
| Bulk.FailedInOne | benchmark_ingestion/bulk.py:17-19 | a single failed item yields failed position 0 |
| Bulk.ResubmitOnePair | benchmark_ingestion/bulk.py:20-22 | resubmitting position 0 of a one-pair body resends that pair |
| Bulk.SubmitWindows | benchmark_ingestion/bulk.py:66-74 | the worker sends one bulk body per window, in order, each built from that window's reads; it sends all of them when it completes |
| Bulk.SubmitWindowsCompletes | benchmark_ingestion/bulk.py:66-74 | when every window's lines read and each first submission gets a response reporting no errors, every window is submitted once, none is retried, and the loop completes |
| Bulk.SubmitCleanWindow | benchmark_ingestion/bulk.py:66-74 | a window that reads and gets a clean response is submitted once, and the loop moves on with the next response |
| Bulk.RunWorker | benchmark_ingestion/bulk.py:54-74 | an offset file that does not parse, a zero `--total` with lines to test, and a zero bulk size each raise before anything is sent; a negative bulk size sends nothing and completes |
| Bulk.RunWorkerCompletes | benchmark_ingestion/bulk.py:54-74 | a worker whose offsets parse, whose owned lines all read and whose backend answers every window cleanly completes without a retry |
| Bulk.WindowElement | benchmark_ingestion/bulk.py:66-69 | every index in a window is one of the worker's indices |
| Bulk.SubmitWindowsDocuments | benchmark_ingestion/bulk.py:66-74 | the documents first submitted are, in order, the reads of all windows' indices |
| Bulk.WindowDocuments | benchmark_ingestion/bulk.py:67-72 | batch `k` carries the documents read for window `k` |
| Bulk.WorkerSubmitsOwnedLines | benchmark_ingestion/bulk.py:61-74 | a completed worker first submits exactly one document per owned line index, in ascending order, each the line read at that index |
| RunBulk.OffsetLines | benchmark_ingestion/run_bulk.py:19-21 | the offset file has one `"{offset}\n"` line per offset |
| RunBulk.TellOffsets | benchmark_ingestion/run_bulk.py:12-17 | the recorded offsets start at 0, each advances by the previous line's length, and they strictly increase |
| RunBulk.WriteOffsets | benchmark_ingestion/run_bulk.py:19-21 | the written text reads back as the same offsets |
| RunBulk.SerializeSnoc | benchmark_ingestion/run_bulk.py:20-21 | writing one more offset appends exactly its line |
| RunBulk.CreateOffsetFile | benchmark_ingestion/run_bulk.py:11-23 | returns the line count (zero iff the corpus is empty); offset `k` is inside the corpus and reading there returns line `k`; the offset file reads back as these offsets |
| RunBulk.OffsetLinesWellFormed | benchmark_ingestion/run_bulk.py:19-21 | every written offset line is one line ending in a newline |
| RunBulk.ParseOffsetLine | benchmark_ingestion/bulk.py:62 | a written offset line parses back to its offset |
| RunBulk.OffsetFileRoundTrip | benchmark_ingestion/run_bulk.py:19-21 | the offset file written by the launcher reads back in the worker (bulk.py lines 61-62) as exactly the same offsets |
| RunBulk.PathsDetermineBase | benchmark_ingestion/run_bulk.py:121-122 | distinct base names give distinct corpus paths and distinct offset paths |
| RunBulk.LaunchCommands | benchmark_ingestion/run_bulk.py:30-42 | one command per rank `0..total_ranks-1`, none when `total_ranks <= 0` |
| RunBulk.FlagValue | benchmark_ingestion/bulk.py:41-51 | a flag value found on the command line is one of its words, after the flag itself |
| RunBulk.BulkSizeOf | benchmark_ingestion/bulk.py:49 | without `--bulk_size` the bulk size is 10 |
| RunBulk.WorkerArgsOf | benchmark_ingestion/bulk.py:41-51 | only a `python bulk.py …` command parses as a worker invocation |
| RunBulk.ArgvWorkerArgsOf | benchmark_ingestion/bulk.py:41-51 | with rank, total, index and file flags present and no `--bulk_size`, the worker sees those values and bulk size 10 |
| RunBulk.CommandFlags | benchmark_ingestion/run_bulk.py:31-42 | the launched command line carries `str(rank)`, `str(total_ranks)`, the index name and the file name, and no bulk size |
| RunBulk.FlagValueOfPairs | benchmark_ingestion/bulk.py:41-51 | on a command line of distinct `--flag value` pairs, each flag reads its own value and absent flags read nothing |
| RunBulk.FlagValueAbsent | benchmark_ingestion/bulk.py:41-51 | a flag never used as a flag word has no value |
| RunBulk.LaunchedWorkerArgs | benchmark_ingestion/run_bulk.py:30-42 | the worker started for rank `r` parses its arguments as rank `r`, the launcher's total, index and file, and bulk size 10 |
| RunBulk.LaunchCoversEveryLine | benchmark_ingestion/run_bulk.py:30-42 | with `total_ranks >= 1` every line index is loaded by the worker of rank `i % total_ranks` and by no other worker |
| RunBulk.Launch | benchmark_ingestion/run_bulk.py:121-127 | the offset file is written iff it does not exist yet, and then reads back as the corpus's line starts; one worker command per rank |
| RunBulk.IndexedWorkerLoadsOwnedLines | benchmark_ingestion/bulk.py:61-74 | given the launcher's offset file, a completed worker submits, in order, the parse of every corpus line it owns |
| RunBulk.ReadsAtLineStarts | benchmark_ingestion/bulk.py:31-38 | a read by index through the line-start offsets is the parse of that corpus line |
| Workload.ParseStringParameter | benchmark_search/workload.py:28-37 | succeeds iff a present value is a string, or the key is absent and the default is not None; otherwise the matching configuration error |
| Workload.ParseIntParameter | benchmark_search/workload.py:40-49 | succeeds iff a present value is an int, or the key is absent and the default is truthy; otherwise the matching configuration error |
| Workload.ParseListParameter | benchmark_search/workload.py:52-64 | succeeds iff a present value is a list, or the key is absent and the default is a non-empty value; otherwise the matching configuration error |
| Workload.ValidatorDefaultQuirks | benchmark_search/workload.py:28-64 | an empty-string default is accepted, while a default of `0`, `[]` or None is rejected as missing, and `True` is not an int |
| Workload.PresentKeyIgnoresDefault | benchmark_search/workload.py:28-64 | when the key is present the default plays no part |
| Workload.PyIndex | benchmark_search/workload.py:201 | `lines[i]` succeeds iff `-len <= i < len`, counting negative indices from the end; otherwise `IndexError` |
| Workload.ReadLine | benchmark_search/workload.py:193-201 | numbers `1..total` read that line; out-of-range numbers raise; `0` slips past the guard and reads the last line, or raises `IndexError` on an empty file |
| Workload.ReadLoadedLine | benchmark_search/workload.py:177-201 | line `n` of a loaded data set is the `n`-th line of its file, newline kept |
| Workload.NewSource | benchmark_search/workload.py:89-108 | construction succeeds iff every required parameter validates and the data file exists; the source then holds all file lines and zeroed counters |
| Workload.Partition | benchmark_search/workload.py:136-142 | `ZeroDivisionError` iff there are no partitions; otherwise a copy whose quota is `total // partitions`, whose offset is `index*quota + 1` and whose current client is the index |
| Workload.RequestShape | benchmark_search/workload.py:157-173 | a request names the index, switches `_source` off and carries the query tokens at the neural-sparse path |
| Workload.Params | benchmark_search/workload.py:145-174 | one call resets the counter at the quota, reads line `offset + count`, and on success advances the counter and returns a request carrying that line's `sparse_embedding`; a request is returned iff the quota is not zero and the line reads, decodes and has a `sparse_embedding` |
| Workload.ServeAnswersEveryCall | benchmark_search/workload.py:145-174 | a fresh client whose lines can all be served returns a request on every call: `k` calls give `k` requests and no error |
| Workload.ServeNeverRaises | benchmark_search/workload.py:145-174 | the same client never raises, however many calls are made |
| Workload.ServeWithNeverRaises | benchmark_search/workload.py:145-174 | any step that serves every state reading one of the client's lines never raises in the call loop |
| Workload.ParamsServes | benchmark_search/workload.py:145-174 | a state whose next line can be served gets a request |
| Workload.ParamsStep | benchmark_search/workload.py:145-174 | a call changes nothing but the counter, and any request it returns carries the tokens of the line it read |
| Workload.ServeReadsCyclically | benchmark_search/workload.py:147-156 | a client's `j`-th call reads line `offset + j % quota` |
| Workload.ServeWithUnfold | benchmark_search/workload.py:145-174 | each further call extends the read sequence by one line until the first error |
| Workload.ServeWithFinal | benchmark_search/workload.py:147-166 | after `k` error-free calls the counter is `(k-1) % quota + 1` and the next read is `offset + k % quota` |
| Workload.CyclicLinesAt | benchmark_search/workload.py:147-156 | the cyclic reference sequence has `offset + j % quota` at position `j` |
| Workload.ServeWithCyclic | benchmark_search/workload.py:147-166 | the lines read equal the cyclic reference sequence |
| Workload.ServeRequestsCarryTokens | benchmark_search/workload.py:152-173 | every request returned carries the `sparse_embedding` of the line read for it, and only the counter of the source changes |
| Workload.ServeWithCarries | benchmark_search/workload.py:152-173 | over any number of calls each request carries the tokens of its line, and at most one read is left without a request, the failing one |
| Workload.CounterWraps | benchmark_search/workload.py:147-150 | resetting the counter at the quota and then incrementing keeps it equal to the call count modulo the quota |
| Workload.ClientRangeInFile | benchmark_search/workload.py:138-139 | each client's lines lie within `1..total`, and the `total % partitions` trailing lines are read by no client |
| Workload.ClientRangesDisjoint | benchmark_search/workload.py:138-139 | two different clients never read the same line |
| Workload.EveryCoveredLineHasAReader | benchmark_search/workload.py:138-139 | every line up to `partitions * quota` is read by client `(n-1) // quota` |
| Workload.ClientReadsValidLines | benchmark_search/workload.py:138-156 | a client's reads stay within its data set and return the file's line at that number |
| LocustPayload.Utf8Len | benchmark_sagemaker/locust_benchmark_sm.py:55 | each character encodes to 1 to 4 UTF-8 bytes |
| LocustPayload.EncodeChar | benchmark_sagemaker/locust_benchmark_sm.py:55 | a character's encoding has its UTF-8 length |
| LocustPayload.EncodeAppend | benchmark_sagemaker/locust_benchmark_sm.py:55 | the encoding of a concatenation is the concatenation of the encodings |
| LocustPayload.Repeat | benchmark_sagemaker/locust_benchmark_sm.py:61 | `s * k` has `k*len(s)` elements, and none for `k <= 0` |
| LocustPayload.EncodeRepeat | benchmark_sagemaker/locust_benchmark_sm.py:61-62 | encoding `doc * k` equals repeating `doc`'s encoding `k` times |
| LocustPayload.FitBytes | benchmark_sagemaker/locust_benchmark_sm.py:62-69 | cutting the bytes and decoding with `errors="ignore"` keeps a prefix of the text |
| LocustPayload.FitBytesPrefix | benchmark_sagemaker/locust_benchmark_sm.py:62-69 | the kept text's bytes are a prefix of the original bytes |
| LocustPayload.FitBytesBudget | benchmark_sagemaker/locust_benchmark_sm.py:62-69 | the kept text fits the byte budget, and the next character would not fit |
| LocustPayload.FitBytesSpec | benchmark_sagemaker/locust_benchmark_sm.py:62-69 | the kept text fits the budget, falls short of it by under 4 bytes when anything is dropped, and text that already fits is kept whole |
| LocustPayload.FitBytesAtBoundary | benchmark_sagemaker/locust_benchmark_sm.py:62-69 | cutting exactly at a character boundary keeps exactly the characters before it |
| LocustPayload.SliceEnd | benchmark_sagemaker/locust_benchmark_sm.py:62 | the end of `b[:n]` is clamped to the length and counts from the end for negative `n` |
| LocustPayload.GeneratePayload | benchmark_sagemaker/locust_benchmark_sm.py:41-81 | a zero document size, or an empty doc under a positive size, raises `ZeroDivisionError`; otherwise `ValueError` iff the request size is not a multiple of the document size; a success holds `request // size` copies of one document |
| LocustPayload.RepeatCountIsCeiling | benchmark_sagemaker/locust_benchmark_sm.py:60 | `(size + cur - 1) // cur` is the ceiling of `size/cur`: enough copies, and one fewer would fall short |
| LocustPayload.PaddedDocument | benchmark_sagemaker/locust_benchmark_sm.py:58-64 | a short doc is repeated and cut to within 4 bytes of the target size, never above it, and exactly to it when a character boundary falls there |
| LocustPayload.TruncatedDocument | benchmark_sagemaker/locust_benchmark_sm.py:65-69 | a long doc is cut to a prefix within 4 bytes of the target size, never above it, and exactly to it when a character boundary falls there |
| LocustPayload.FirstStage | benchmark_sagemaker/locust_benchmark_sm.py:176-179 | the stage chosen is the first whose duration exceeds the run time; there is none iff every duration has passed |
| LocustPayload.Tick | benchmark_sagemaker/locust_benchmark_sm.py:173-181 | `tick` returns the users and spawn rate of the first unfinished stage, and None once every stage has passed |
| LocustPayload.DefaultSchedule | benchmark_sagemaker/locust_benchmark_sm.py:168-181 | the default shape runs 10 users at spawn rate 5 before 5 s, then 10 at 10 until 30 s, then stops |
| AutomatedBenchmark.DocsPerRequest | benchmark_sagemaker/automated_benchmark.py:76 | `ZeroDivisionError` iff the document size is zero; otherwise the number of whole documents that fit in the request |
| AutomatedBenchmark.DocsPerRequestOfProduct | benchmark_sagemaker/automated_benchmark.py:165-167 | the request size built as `size * docs` is divided back into exactly `docs` documents |
| AutomatedBenchmark.StartUsers | benchmark_sagemaker/automated_benchmark.py:151-159 | requests under 10 KB start at `max(start + 2*step, 1)` users, larger ones at `start` |
| AutomatedBenchmark.RampFrom | benchmark_sagemaker/automated_benchmark.py:164-201 | the ramp records at most one run per measurement |
| AutomatedBenchmark.TestParameterSet | benchmark_sagemaker/automated_benchmark.py:137-203 | `ZeroDivisionError` iff the document size is zero; otherwise at most one run per measurement |
| AutomatedBenchmark.RampRecordsMeasurements | benchmark_sagemaker/automated_benchmark.py:164-184 | run `k` records measurement `k` at `users + k*step`; a missing measurement or the end of the oracle is the stop it reports |
| AutomatedBenchmark.RampRunsPassed | benchmark_sagemaker/automated_benchmark.py:186-201 | every run before the last kept a gain of at least 8 % and left the next user count within 40 |
| AutomatedBenchmark.RampLastRunStops | benchmark_sagemaker/automated_benchmark.py:186-201 | a ramp that recorded no run stopped on the measurements; otherwise it stopped on low improvement iff the last run gained under 8 % on a positive previous throughput, on the user limit iff it did not stall and one more step passes 40 users, and on the measurements iff neither holds |
| AutomatedBenchmark.RampFromUsers | benchmark_sagemaker/automated_benchmark.py:195-201 | user counts rise by `step` from run to run, never exceed 40 after the first run, and a positive step bounds the number of runs |
| AutomatedBenchmark.RampUsers | benchmark_sagemaker/automated_benchmark.py:150-201 | a parameter set's first run uses the chosen start users, each later run adds `step`, and no later run exceeds 40 users |
| AutomatedBenchmark.FirstRunNeverStalls | benchmark_sagemaker/automated_benchmark.py:162-193 | a low-improvement stop needs at least two runs, the earlier with positive throughput, and a gain under 8 % |
| AutomatedBenchmark.ZeroThroughputRunsForever | benchmark_sagemaker/automated_benchmark.py:187-201 | with a non-positive step and zero throughput the ramp never stops by itself |
| AutomatedBenchmark.BestRun | benchmark_sagemaker/automated_benchmark.py:309 | `max(…, key=rps)` picks a run of maximal throughput, the first such |
| AutomatedBenchmark.RunsOf | benchmark_sagemaker/automated_benchmark.py:302-307 | keeps exactly the runs of one parameter set |
| AutomatedBenchmark.Summary | benchmark_sagemaker/automated_benchmark.py:301-312 | at most one summary row per parameter set |
| AutomatedBenchmark.SummaryCoversEverySet | benchmark_sagemaker/automated_benchmark.py:301-312 | every listed parameter set with recorded runs has its best run (the first with the highest throughput) in the summary |
| AutomatedBenchmark.SummaryCoversAllSets | benchmark_sagemaker/automated_benchmark.py:301-312 | the same, for all listed sets at once |
| AutomatedBenchmark.SummaryRowsAreBest | benchmark_sagemaker/automated_benchmark.py:301-312 | each summary row is a recorded run of a listed parameter set with the highest throughput among that set's runs |
| AutomatedBenchmark.RunAll | benchmark_sagemaker/automated_benchmark.py:263-274 | without a zero document size every parameter set runs; a crash is a `ZeroDivisionError` caused by a set with document size zero; every recorded run belongs to a listed set |
| AutomatedBenchmark.RunAllIsConcatenation | benchmark_sagemaker/automated_benchmark.py:263-274 | all results are returned iff every set's ramp completes, and they are then every set's runs concatenated in the order of the parameter list |
| AutomatedBenchmark.RunAllUnfinished | benchmark_sagemaker/automated_benchmark.py:263-274 | the benchmark stops unfinished iff some set's ramp runs out of measurements after every earlier set completed |
| AutomatedBenchmark.FirstExhaustedShift | benchmark_sagemaker/automated_benchmark.py:265-274 | a later set is the first to run out iff the first set completed and it is the first to run out among the rest |
| AutomatedBenchmark.Benchmark | benchmark_sagemaker/automated_benchmark.py:263-314 | without a zero document size the benchmark does not crash; with no recorded runs there is no summary; every summary row is its set's best run, and every listed set with recorded runs has its best run in the summary; it completes iff every set's ramp completes, and then its results are every set's runs in order; it is unfinished iff some set is the first to run out of measurements |
| SearchRelevance.CreateQueryBody | benchmark_ingestion/search_relevance.py:30-66 | `ValueError` iff the type is neither `neural_sparse` nor `match`; otherwise a body of `query`, `_source` and `size` 15 whose query puts the text under the embedding field or under `match.text` |
| SearchRelevance.NeuralSparsePath | benchmark_ingestion/search_relevance.py:43-54 | the neural-sparse body holds the query text at `query.neural_sparse.<field>.query_text` |
| SearchRelevance.QueryTextRoundTrip | benchmark_ingestion/search_relevance.py:43-64 | the query text can be read back from every body built |
| SearchRelevance.EmbeddingFieldOnlyForNeuralSparse | benchmark_ingestion/search_relevance.py:43-64 | the embedding field shapes only the neural-sparse body, where different fields give different bodies |
| SearchRelevance.HitEntry | benchmark_ingestion/search_relevance.py:89 | a hit contributes its `_source.id` and `_score`, and fails when either is missing or the id is not hashable |
| SearchRelevance.Scores | benchmark_ingestion/search_relevance.py:89 | the comprehension succeeds iff every hit yields an entry |
| SearchRelevance.ScoresKeys | benchmark_ingestion/search_relevance.py:89 | the dictionary's keys are exactly the hits' ids |
| SearchRelevance.ScoresLastHitWins | benchmark_ingestion/search_relevance.py:89 | for a repeated id, the score kept is that of its last hit |
| SearchRelevance.ScoresFirstError | benchmark_ingestion/search_relevance.py:89 | the comprehension raises the error of the first bad hit |
| SearchRelevance.HitList | benchmark_ingestion/search_relevance.py:88-89 | iterating `hits` gives a list's elements, nothing for an empty dict or string, and `TypeError` otherwise |
| SearchRelevance.SearchQuery | benchmark_ingestion/search_relevance.py:84-90 | an invalid query type raises `ValueError` before any search; a success returns the query id with the scores of the response's hits; it succeeds iff the body builds, `hits.hits` is present and iterable, and every hit gives a hashable id and a score |

## Left out

- Process supervision in `run_bulk.py`: waiting on workers, signal handling and killing processes. These are operating-system interactions. Only the commands the launcher builds are modelled.
- The OpenSearch client and its network calls. opensearch-py is not part of this model.
  - One behaviour of its `bulk` is modelled: it refuses an empty body with `ValueError` before sending anything. A worker's first body is never empty, because windows are not.
  - Bulk responses are an oracle sequence `backend`.
  - A search response is a parameter.
  - `get_os_client`, AWS authentication and `--region` are not part of this model.
  - `utils.py` and `fetch_index_to_jsonl.py` are not part of this model.
- File I/O, reduced to the data it carries.
  - The corpus is a byte sequence and the offset file is text.
  - The existence test is a boolean.
  - The query file is a map from path to text.
  - `doc.txt` is the `doc` parameter.
  - `error.json`, `time.sleep`, `print`, `tqdm` and the CSV writer have no effect on the modelled data and are left out.
- `json.loads` and `json.dumps`. Decoding a corpus or query line is an abstract `parse` function. `generate_payload_from_doc` returns the document list rather than its JSON text.
- UTF-8 decoding of a corpus line, including `DecodeError`, is folded into `parse`. Decoding with `errors="ignore"` after a byte cut is modelled as dropping the incomplete last character. This is what it does on text that was valid UTF-8 before the cut.
- Floating point.
  - The value of `percent_completed` in `params` is not modelled. The division by a zero quota that computes it raises `ZeroDivisionError`, and `Workload.Params` models that error.
  - Throughput and latency are Dafny `real`s.
- Load-test measurement, behind the `Measurement` oracle:
  - `run_locust_test`, `parse_metrics_file` and `numpy.percentile`;
  - Locust itself;
  - the SageMaker endpoint.
- The wall-clock start and end timestamps recorded with each run.
- Locust's `get_run_time()` is the `runTime` parameter.
- Argument parsing.
  - `argparse` is modelled as `--flag value` pairs where the last occurrence wins.
  - The rank and total are read with `int()`.
  - A worker command line without `--rank` or `--total` is not a worker invocation in the model (`RunBulk.ArgvWorkerArgs` gives `None`). In the script both flags are optional: without `--rank` the worker owns no line and submits nothing, and without `--total` the modulo at bulk.py:64 raises `TypeError` on the first line. The launcher always passes both flags.
  - Help, abbreviations, `--use_aws_auth` and `--region` are left out.
  - The parameter list of `automated_benchmark.py` (`ast.literal_eval`) is given already parsed.
- PyInt.ParseInt: accepts only ASCII digits with an optional sign and surrounding whitespace, as `PyInt.ParseIntSpec` states. Python's `int()` also accepts underscores between digits and non-ASCII digits. These are left out because the offset file never contains them.
- `str.isspace` is modelled for ASCII and Latin-1 whitespace only.
- Line splitting treats only `\n` as a line end, which matches binary-mode iteration. Universal-newline translation of `\r` in text mode is left out.
- `self.infinite` in the workload is never read, so it is left out.
- Python dictionary keys that compare equal across numeric types (`1 == 1.0 == True`) are distinct keys in `SearchRelevance.Scores`.
- `ThreadPoolExecutor`, BEIR evaluation and result output in `search_relevance.py` are left out.
- Unbounded loops are modelled over a finite oracle or a call count, because Dafny functions must terminate.
  - `Bulk.Retry`'s recursion and `AutomatedBenchmark.RampFrom`'s `while True` stop with an explicit unfinished status when their oracle runs out.
- Bulk.Retry: does not model CPython's recursion limit. The script's `retry` calls itself once per round, so after about a thousand rounds of rejection it raises `RecursionError`, where the model keeps resubmitting. Exceptions raised by `client.bulk` itself, such as connection or transport errors, cannot be expressed by the response oracle either.
  - `Workload.Serve` models the first `k` calls of `params`.
- Per-run measurements. `AutomatedBenchmark.RunAll` and `AutomatedBenchmark.Benchmark` take one measurement sequence per parameter set, where the script draws from one clock.
- `AutomatedBenchmark.RampRecordsMeasurements`, `AutomatedBenchmark.RampRunsPassed` and `AutomatedBenchmark.RampLastRunStops` are stated against the measurement oracle. They say nothing about the wall-clock time the script spends.
- RunBulk.FlagValue: states only that a value comes from the command line; which occurrence it is follows from `RunBulk.FlagValueOfPairs`.
- RunBulk.WorkerArgsOf: states only the `python bulk.py` prefix; the parsed values are stated by `RunBulk.LaunchedWorkerArgs`.
- Bulk.ParseOffsets: states only the count of offsets; the values are stated by `RunBulk.OffsetFileRoundTrip`.
- AutomatedBenchmark.RampFrom: states only the bound on runs; the contents are stated by `AutomatedBenchmark.RampRecordsMeasurements` and its siblings.
- AutomatedBenchmark.Summary: states only the row count; which rows appear is stated by `AutomatedBenchmark.SummaryRowsAreBest` and `AutomatedBenchmark.SummaryCoversEverySet`.
- AutomatedBenchmark.RunAll: states only the crash condition and where the runs come from; the returned runs are stated by `AutomatedBenchmark.RunAllIsConcatenation`, and the unfinished case by `AutomatedBenchmark.RunAllUnfinished`.
- SearchRelevance.Scores: states only when it succeeds; its keys and values are stated by `SearchRelevance.ScoresKeys` and `SearchRelevance.ScoresLastHitWins`.
