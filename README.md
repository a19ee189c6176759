# Kernolog consolidation and batch rotation, modelled in Dafny

Kernolog tails the system journal into a `raw_logs` table and consolidates it in two stages.

The **consolidator** (`process_logs_thread` in `batchmanager/batchmana.py`) runs in passes. Each pass:

- reads a cursor, the largest `original_id` already stored in `clean`;
- fetches up to 1000 raw rows above the cursor, ordered by timestamp;
- masks each message (IPv4, IPv6, timestamps, paths, numbers), feeds it to a template miner and extracts its parameters;
- re-sorts the records by timestamp and cuts them into 10-second context windows;
- deduplicates every window by (template id, template, parameters);
- appends one `clean` row per key and upserts one `context_groups` summary row per window.

The **batch manager** (`batch_management_thread`, `shift_batches_down`, `add_logs_to_batch`, `log_batch_event`) copies new clean rows into the live table `batch_1` of five generations. When batch 1 would grow beyond 100 rows, it first rotates the generations down by one. It keeps a `batch_metadata` table keyed by batch id and an append-only `batch_events` log.

`test_performance.py` carries test-local helpers:

- `normalize_log`, which strips the syslog header and `[pid]` brackets and collapses whitespace;
- the `k=` and `display=` option parsers;
- a metadata list that is trimmed to its newest 100 entries.

The project has one Dafny module per concern:

| file | module | what it holds |
|---|---|---|
| `wrappers.dfy` | `Wrappers` | `Option` |
| `decimal.dfy` | `Decimal` | decimal digits, `str(n)` for naturals |
| `stable_sort.dfy` | `StableSort` | Python's stable `list.sort(key=...)`, as an insertion sort with its correctness lemma |
| `masking.dfy` | `Masking` | `mask_message`, `extract_params`; the four regular expressions other than `\b\d+\b` are abstract matchers |
| `consolidation.dfy` | `Consolidation` | one consolidator pass; the `clean` and `context_groups` tables are the class `Consolidator` |
| `batches.dfy` | `Batches` | the batch database as the class `BatchStore`, whose pure specification is the `Store` value |
| `perf_helpers.dfy` | `PerformanceHelpers` | the helpers of `test_performance.py` |

How the outside world is handled:

- **Timestamps** are integers counting microseconds.
- **The wall clock** is a parameter: `now`, or `nowSeconds` for the group-id seed.
- **The template miner** is a function of the masked lines it has already been fed.
- **`parse_timestamp`**, with its fall-back to the current time, is a function `resolve` from a raw row to its timestamp.
- **SQLite tables** are sequences and maps held in memory.

## Model

| member | source | states |
|---|---|---|
| Decimal.ValueOfNatToString | batchmanager/batchmana.py:317 | the decimal text of a count reads back as that count, so the summary and event texts carry the exact number |
| StableSort.SortByCorrect | batchmanager/batchmana.py:214 | the sort is a permutation of its input, is ordered by the key, and keeps the input order among elements with equal keys (Python's sort is stable) |
| StableSort.SortBySorted | batchmanager/batchmana.py:414-418 | sorting an already ordered list leaves it as it is, so `ORDER BY id` over rows already in id order keeps them in place |
| Masking.NumberSpans | batchmanager/batchmana.py:44 | the spans `finditer` yields for `\b\d+\b` are in bounds, left to right and disjoint, and are exactly the maximal digit runs with a word boundary on both sides |
| Masking.Mask | batchmanager/batchmana.py:199-205 | the IPv4, IPv6, TIME, PATH and NUM substitutions in that order, each run on the previous output; the result holds no standalone number |
| Masking.MaskWithoutMatches | batchmanager/batchmana.py:199-205 | a message in which none of the five patterns matches comes back unchanged from the IPv4, IPv6, TIME, PATH, NUM substitution chain |
| Masking.SubstituteLength | batchmanager/batchmana.py:199-205 | replacing disjoint in-bounds matches by a token changes the length by the token length per match minus the characters the matches covered |
| Masking.SubstituteRemovesNumbers | batchmanager/batchmana.py:204 | replacing every `\b\d+\b` match of a text by a digit-free token that starts and ends with a non-word character leaves no standalone number |
| Masking.MaskLeavesNoNumber | batchmanager/batchmana.py:199-205 | after the whole masking chain no standalone number is left: `\b\d+\b` finds no match in the masked message |
| Masking.ExtractParams | batchmanager/batchmana.py:207-217 | one `{type, value}` entry per match of the five patterns on the unmasked text, each taken from a match, as many as there are matches |
| Masking.ExtractKeepsEveryMatch | batchmanager/batchmana.py:207-217 | the extracted parameters are a permutation of all matches of the five patterns on the original text, one per match and nothing dropped; they are sorted by start offset, and each is the `{type, value}` of its match |
| Masking.SameOffsetInPatternOrder | batchmanager/batchmana.py:209-214 | matches that start at the same offset come out in pattern order IP, IPV6, TIME, PATH, NUM |
| Consolidation.MaxOriginalIdAttained | batchmanager/batchmana.py:232-233 | the cursor of a non-empty `clean` table is the original id of one of its rows, and every stored original id is at most the cursor |
| Consolidation.IdAbove | batchmanager/batchmana.py:238 | a raw row is eligible exactly when it is in the table and its id is above the cursor |
| Consolidation.FetchRaw | batchmanager/batchmana.py:235-243 | at most 1000 rows, each a row of the table above the cursor, in timestamp order |
| Consolidation.FetchRawSpec | batchmanager/batchmana.py:235-243 | the fetch holds at most 1000 rows, all from the table and above the cursor, ordered by timestamp; together with the rows it skips it is exactly the eligible rows; it skips rows only when full; no skipped row is earlier than a fetched one |
| Consolidation.Process | batchmanager/batchmana.py:247-265 | one record per fetched row, in fetch order, each carrying its row's id and raw message |
| Consolidation.Windows | batchmanager/batchmana.py:273-285 | the windows concatenate back to the sorted records and none is empty |
| Consolidation.WindowsArePartition | batchmanager/batchmana.py:267-285 | the windows concatenate to the sorted records and none is empty; each record is at most 10 s after its window's first record; each window's first record is more than 10 s after the previous window's first |
| Consolidation.GroupByWindow | batchmanager/batchmana.py:273-285 | the grouping loop yields exactly those windows, with consecutive group ids from the seed |
| Consolidation.EntryOfSummarizes | batchmanager/batchmana.py:287-301 | the dedup entry of a key exists exactly when the key occurs; its original id and sample come from the key's first record, its count is the number of records with the key, and first/last seen are their earliest and latest timestamps |
| Consolidation.FirstSeenKeys | batchmanager/batchmana.py:288-292 | the dictionary's key order lists exactly the keys that have an entry |
| Consolidation.FirstSeenDistinct | batchmanager/batchmana.py:288-292 | the dictionary's key order lists every key once |
| Consolidation.Dedup | batchmanager/batchmana.py:287-301 | the dedup loop builds the keys in first-occurrence order, and for every key exactly the entry specified by `EntryOf` |
| Consolidation.GroupCountTotal | batchmanager/batchmana.py:287-301 | the counts of a window's dictionary add up to the number of records in the window |
| Consolidation.GroupRowsSummarize | batchmanager/batchmana.py:306-311 | a window gets one clean row per distinct key, in first-occurrence order, each carrying its key, count, earliest and latest timestamps, and the first record's original id and message |
| Consolidation.SummaryOf | batchmanager/batchmana.py:303-318 | the summary row carries the window's group id and record count, first seen no later than last seen, and between 1 and that count unique templates |
| Consolidation.SummaryDescribesGroup | batchmanager/batchmana.py:303-304 | the summary row counts every record of the window and one unique template per clean row written for it; its first/last seen are the earliest and latest timestamps of the window, both attained |
| Consolidation.Upsert | batchmanager/batchmana.py:313-318 | the new summary is the last row, and the table holds exactly it and the old rows with other group ids |
| Consolidation.UpsertSpec | batchmanager/batchmana.py:313-318 | `INSERT OR REPLACE` keeps group ids unique, stores the new summary and replaces only the row with the same group id |
| Consolidation.GroupSeed | batchmanager/batchmana.py:272 | with a non-zero `MAX(group_id)` the seed lies above it; with none or 0 it is the clock |
| Consolidation.SeedAboveStoredIds | batchmanager/batchmana.py:270-272 | seeded from a non-zero `MAX(group_id)`, every new group id is above every stored one |
| Consolidation.LastGroupId | batchmanager/batchmana.py:270-271 | `MAX(group_id)` is NULL exactly on an empty table and otherwise bounds every stored group id |
| Consolidation.LastGroupIdAttained | batchmanager/batchmana.py:270-271 | on a non-empty table, `MAX(group_id)` is the id of a stored group |
| Consolidation.PassAccountsForEveryRow | batchmanager/batchmana.py:243-311 | the counts of all clean rows a pass writes add up to the number of raw rows it fetched: nothing is lost or counted twice |
| Consolidation.CursorAdvances | batchmanager/batchmana.py:232-241 | a pass that fetches anything moves the cursor strictly forward |
| Consolidation.Consolidator.MaxGroupId | batchmanager/batchmana.py:270-271 | the loop computes `MAX(group_id)` of the summary table |
| Consolidation.Consolidator.RowsOf | batchmanager/batchmana.py:306-311 | the rows written from a window's dictionary are its specified clean rows, with consecutive ids |
| Consolidation.Consolidator.WriteRows | batchmanager/batchmana.py:287-311 | the rows of all windows, window by window, with consecutive ids from the next free id |
| Consolidation.Consolidator.WriteSummaries | batchmanager/batchmana.py:313-318 | the summary table after upserting every window's summary in order, with group ids still unique |
| Consolidation.Consolidator.RunPass | batchmanager/batchmana.py:232-320 | with nothing above the cursor nothing changes; otherwise `clean` gains exactly the rows of every window, with consecutive ids, and `context_groups` is upserted with every window's summary, ids seeded from the largest group id or the clock |
| Batches.ShiftAsWritten | batchmanager/batchmana.py:338-374 | the rotation as written, which keeps batch 5's metadata row and can stop at a relabel; batch 4's rows are in table `batch_5` afterwards whether or not it stops |
| Batches.Shift | batchmanager/batchmana.py:338-374 | the rotation with batch 5's metadata row deleted too: batch 1 is empty, batch k+1 holds old batch k's rows, and events are only appended (corrected rotation, see ## Findings) |
| Batches.ShiftRotates | batchmanager/batchmana.py:338-374 | after a rotation batch 1 is empty and batch k+1 holds old batch k's rows; batch 5's rows and its metadata row are gone; metadata k becomes k+1 with `updated_at` refreshed; the events are DELETED(5, count) only when count > 0, then MOVED for batches 5, 4, 3, 2 with count 0 (corrected rotation, see ## Findings) |
| Batches.ShiftKeepsValid | batchmanager/batchmana.py:338-374 | a rotation keeps every metadata row's count equal to the size of its table (corrected rotation, see ## Findings) |
| Batches.AddSpec | batchmanager/batchmana.py:376-402 | the given batch gains exactly the new rows at its end, the other batches are unchanged, a non-empty list leaves a metadata row for the batch, and one event is appended exactly when the list is non-empty |
| Batches.AddLogsEffect | batchmanager/batchmana.py:376-402 | an empty list changes nothing. Otherwise, exactly the given rows are appended to that batch and no other batch changes. An existing metadata row gains `len(logs)` and takes the latest `last_seen`, keeping `first_seen`; a new row has count `len(logs)` and the earliest and latest times. Exactly one LOADED event is appended |
| Batches.AddKeepsValid | batchmanager/batchmana.py:376-402 | adding logs keeps every metadata count equal to the size of its table |
| Batches.SeenAttained | batchmanager/batchmana.py:387-388 | the first and last seen times written to the metadata are those of actual new rows |
| Batches.LastCleanId | batchmanager/batchmana.py:411-412 | `MAX(clean_id) or 0`: 0 on an empty batch 1, otherwise at least every clean id in it |
| Batches.LastCleanIdAttained | batchmanager/batchmana.py:411-412 | the manager's cursor on a non-empty batch 1 is the clean id of one of its rows |
| Batches.NewLogs | batchmanager/batchmana.py:414-418 | the clean rows above the cursor, sorted by id, and a permutation of the filtered rows |
| Batches.NewLogsSpec | batchmanager/batchmana.py:414-418 | the new logs are exactly the clean rows above the cursor, in ascending id order |
| Batches.NewLogsInTableOrder | batchmanager/batchmana.py:414-418 | when the clean table's ids increase along the table, the new logs are the rows above the cursor in table order |
| Batches.CycleSpec | batchmanager/batchmana.py:411-427 | a cycle without new logs changes nothing; otherwise batch 1 ends with exactly the new rows (corrected rotation, see ## Findings) |
| Batches.CycleEffect | batchmanager/batchmana.py:419-427 | with new logs, a cycle rotates exactly when they would overflow batch 1, then puts all of them into batch 1, however many there are; without new logs nothing changes (corrected rotation, see ## Findings) |
| Batches.CycleKeepsValid | batchmanager/batchmana.py:419-427 | a cycle keeps the store valid (corrected rotation, see ## Findings) |
| Batches.CycleBoundsLiveBatch | batchmanager/batchmana.py:419-427 | when batch 1 is within 100 rows and a fetch brings at most 100 new rows, batch 1 is within 100 rows after the cycle (corrected rotation, see ## Findings) |
| Batches.ShiftAsWrittenConflicts | batchmanager/batchmana.py:340-357 | the rotation as written fails exactly when batches 4 and 5 both have metadata rows, and says what the failure leaves behind |
| Batches.ShiftAsWrittenAgrees | batchmanager/batchmana.py:340-357 | without a batch-5 metadata row, the rotation as written and the corrected one agree |
| Batches.FifthRotationConflicts | batchmanager/batchmana.py:117-125 | a valid store with all five generations in use makes the rotation as written fail, while the corrected rotation succeeds and stays valid |
| Batches.BatchStore.constructor | batchmanager/batchmana.py:100-125 | five empty batch tables, no metadata, no events |
| Batches.BatchStore.LogBatchEvent | batchmanager/batchmana.py:330-336 | appends exactly one event and leaves the metadata alone |
| Batches.BatchStore.ShiftBatchesDown | batchmanager/batchmana.py:338-374 | the in-place rotation loop yields the state `Shift` specifies and keeps the store valid (corrected rotation, see ## Findings) |
| Batches.BatchStore.AddLogsToBatch | batchmanager/batchmana.py:376-402 | the in-place update yields the state `AddSpec` specifies and keeps the store valid |
| Batches.BatchStore.ManageCycle | batchmanager/batchmana.py:411-427 | fetches the clean rows above batch 1's largest clean id in id order, and rotates exactly when batch 1's count plus their number exceeds 100; the new state is the one `CycleSpec` specifies (corrected rotation, see ## Findings) |
| PerformanceHelpers.PrefixAnchored | test_performance.py:13 | a recognised header starts with a capitalised three-letter month and ends in whitespace that is not followed by more whitespace |
| PerformanceHelpers.HeaderOnlyAtStart | test_performance.py:13 | a line that does not start with an upper-case letter keeps everything: the header pattern is anchored |
| PerformanceHelpers.ClassicHeaderRecognized | test_performance.py:13 | a header `Mon DD HH:MM:SS host ` is recognised in full, and nothing of the following text is taken |
| PerformanceHelpers.RemovePidsKeeps | test_performance.py:14 | text without `[` passes through PID removal untouched |
| PerformanceHelpers.RemovePidsDrops | test_performance.py:14 | a `[digits]` group is removed |
| PerformanceHelpers.CollapseSpacesCollapsed | test_performance.py:15 | after collapsing, no two whitespace characters are adjacent and every whitespace is a single space |
| PerformanceHelpers.CollapsedFixed | test_performance.py:15 | collapsing already collapsed text changes nothing |
| PerformanceHelpers.StripIsSlice | test_performance.py:23 | stripping removes only leading and trailing whitespace |
| PerformanceHelpers.Normalize | test_performance.py:18-23 | header removal, PID removal, whitespace collapsing and stripping in that order; the result is no longer than the line and has no whitespace at either end |
| PerformanceHelpers.NormalizeTidy | test_performance.py:18-23 | the output has no leading or trailing whitespace, and every internal whitespace run is one space |
| PerformanceHelpers.TidyFixed | test_performance.py:22-23 | tidy text is left alone by collapsing and stripping |
| PerformanceHelpers.NormalizeSyslogLine | test_performance.py:18-23 | a header, a process name, a `[pid]` and a message normalise to the collapsed and stripped name and message |
| PerformanceHelpers.TidyAcrossRun | test_performance.py:22-23 | two tidy pieces joined by any whitespace run normalise to the pieces joined by one space |
| PerformanceHelpers.TidySyslogLine | test_performance.py:18-23 | a syslog line whose name and message are already tidy normalises to exactly name + message |
| PerformanceHelpers.GappedSyslogLine | test_performance.py:18-23 | a syslog line whose message has one inner whitespace run normalises with that run reduced to one space |
| PerformanceHelpers.NormalizeExample1 | test_performance.py:29-32 | the first asserted case: `systemd: ollama.service failed` |
| PerformanceHelpers.NormalizeExample2 | test_performance.py:33-36 | the second asserted case: `kernel: Error occurred` |
| PerformanceHelpers.NormalizeExample3 | test_performance.py:37-40 | the third asserted case: the double space collapses, giving `nginx: Connection timeout` |
| PerformanceHelpers.ParseK | test_performance.py:70-77 | no result unless the part starts with `k=` |
| PerformanceHelpers.ParseKRoundTrip | test_performance.py:70-77 | `k=` followed by the decimal text of n, with or without a minus sign, parses back to n or -n |
| PerformanceHelpers.ParseKSome | test_performance.py:70-77 | the model's `ParseK` succeeds exactly when the part is `k=` followed by an optional sign and a non-empty ASCII digit string (narrower than `int()`, see ## Left out) |
| PerformanceHelpers.ParseKExamples | test_performance.py:88-90 | `k=10` gives 10, `k=5` gives 5, `k=invalid` gives None |
| PerformanceHelpers.LowerIdempotent | test_performance.py:82 | lower-casing leaves no upper-case letter and lower-casing twice changes nothing |
| PerformanceHelpers.ParseDisplay | test_performance.py:79-83 | a result exactly when the part starts with `display=`, as long as the remainder |
| PerformanceHelpers.ParseDisplayValue | test_performance.py:79-83 | the result is the lower-cased remainder after `display=` |
| PerformanceHelpers.ParseDisplayExamples | test_performance.py:94-96 | `raw` and `pretty` are kept; `PRETTY` becomes `pretty` |
| PerformanceHelpers.NewestSnoc | test_performance.py:113-116 | trimming after every append gives the same list as trimming once at the end |
| PerformanceHelpers.AppendBounded | test_performance.py:111-116 | one append-and-trim step keeps the newest 100 entries in order |
| PerformanceHelpers.FillBounded | test_performance.py:110-116 | after any number of appends the list has at most 100 entries and holds the newest ids in order |
| PerformanceHelpers.MemoryBoundsExample | test_performance.py:118-120 | after appending ids 0..149 the list holds exactly ids 50..149 in order |

## Left out

- I/O and scheduling are not modelled: `stream_logs_thread`, `store_log`, journalctl, `main`, the threads, the `while True` polling loops, `time.sleep`, progress printing and the per-cycle status report of `batch_management_thread`.
- Connection and commit semantics are not modelled. Each pass or cycle acts on in-memory tables, and a statement that raises leaves the effects of the earlier statements in place.
- `init_database` is not modelled beyond the empty batch tables that `BatchStore`'s constructor creates. The `clean` table starts empty in `Consolidator`'s constructor.
- The regular expressions `IP_V4_RE`, `IP_V6_RE`, `TIMESTAMP_RE` and `PATH_RE` are abstract matchers. They are assumed only to yield in-bounds, non-empty, left-to-right, disjoint spans. `\b\d+\b` is concrete, but over ASCII word characters only; Python's Unicode `\w` and `\d` are not modelled.
- The drain3 template miner is not modelled. It is a parameter answering for each masked line given the lines fed before it in the pass. Its persistence file and its `template_mined` fall-back are not modelled.
- `parse_timestamp`, `datetime.now()`, `fromtimestamp` and float epochs are not modelled. The resolved timestamp is an integer given by the parameter `resolve`, and `now` is a parameter. One `now` serves a whole call, whereas the source reads the clock once per statement.
- `json.dumps` of the parameters is not modelled. The parameter list itself stands for its JSON text in the dedup key and in the stored rows.
- Consolidation.CursorAdvances: the cursor only advances; "no raw row is processed twice" is not claimed. Only the first original id of each key is stored, so a later duplicate with a larger id can be fetched again by the next pass.
- Batches.AddLogsEffect: `first_seen` and `last_seen` are integers compared numerically. The source takes the minimum and maximum of ISO-8601 strings, which agree with numeric order only for same-format timestamps.
- The `PRIMARY KEY (clean_id)` of the batch tables is not modelled. Batch rows are sequences that may repeat a clean id.
- The metadata-list entries of the memory-bounds test are modelled by their ids. The `text` and `timestamp` fields only ride along.
- PerformanceHelpers.ParseK: Python's `int()` also accepts surrounding whitespace, underscores between digits and non-ASCII digits. The model accepts an optional sign followed by ASCII digits only.
- PerformanceHelpers.ParseKSome: its if-and-only-if is about the model's `ParseK`. `int(part[2:])` also accepts inputs outside it, such as `k= 5`, `k=5 ` and `k=1_000`.
- PerformanceHelpers.ParseDisplay: `str.lower()` is modelled on ASCII letters only.
- PerformanceHelpers.NormalizeTidy: `\s` is modelled as the ASCII whitespace characters, and `str.strip()` as stripping those same characters. `\d` in the header pattern and in `PID_PATTERN` is modelled as the ASCII digits 0-9; Python's `str` patterns also match other Unicode decimal digits, so for example `[٣]` is removed by `PID_PATTERN` and a header written with such digits is stripped, which the model does not do.
- Batches.ShiftRotates, Batches.Shift, Batches.CycleSpec, Batches.ShiftKeepsValid, Batches.CycleEffect, Batches.CycleKeepsValid, Batches.CycleBoundsLiveBatch, Batches.BatchStore.ShiftBatchesDown and Batches.BatchStore.ManageCycle describe the corrected rotation of ## Findings, not the code as written. As written, the fifth overflowing cycle raises inside `shift_batches_down`, after `batch_4` has become `batch_5` and before `add_logs_to_batch` runs, so its new logs are not added. Batch 1 then keeps its count, so every later cycle with new logs overflows again, drops `batch_5` again and raises on `ALTER TABLE batch_4`, because `batch_4` no longer exists. Batches.ShiftAsWrittenConflicts and Batches.FifthRotationConflicts state the first failure.
- `test_normalize_performance` is not modelled: it is a timing benchmark with no functional assertion.

## Findings

| source | as written | input that shows it | evidently intended | confidence | as-written member | corrected member |
|---|---|---|---|---|---|---|
| batchmanager/batchmana.py:340-357 | `shift_batches_down` drops table `batch_5` but keeps its `batch_metadata` row. The relabel from 4 to 5 then violates the `batch_id` primary key (batchmanager/batchmana.py:119), after `batch_4` has already been renamed to `batch_5`. | A store where batches 4 and 5 both have metadata rows, as after the fourth rotation (`FullStore`): the fifth rotation raises. | Delete batch 5's metadata row together with its table, so that every rotation succeeds and each metadata row keeps counting its own table. | not executed | Batches.ShiftAsWrittenConflicts | Batches.BatchStore.ShiftBatchesDown |
