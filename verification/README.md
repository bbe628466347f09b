# Query-log merge engine of AdGuardHome-LogSync, in Dafny

AdGuardHome writes its query log as newline-delimited JSON, one object per
DNS query. Each object carries its time as an ISO-8601 string under `"T"`.
LogSync merges several such shards into one log, in order of their `"T"` strings. The merge
engine exists in two variants, and both are modelled here:

- `adguardhome_logsync/utils/querylog_merge.py` adds a retention cutoff.
  A record whose instant lies before `active_time` is dropped. The sorted
  payloads are written out, each followed by `b"\n"`.
- `utils/querylog_merge.py` keeps every line that decodes to an object with a
  `"T"`; any other decoded line raises. It returns the sorted payloads joined
  with `b"\n"`.

Both variants run `merge_querylog_streaming` once per shard. It reads the
shard line by line and strips each line. It skips blank lines and lines that
`orjson.loads` rejects. It buffers the `("T" string, stripped line)` pair of
every kept line. Once the buffer holds `chunk_size` pairs it inserts them,
under a lock, into one shared `SortedList`, and after the last line it
inserts whatever is left. `merge_querylogs` gathers the ingestors with
`asyncio.gather` and then serialises the sorted list.

The modules follow that structure:

- `common.dfy` (`Common`): Option and Result, plus sequence helpers (`Flatten`, `Map`, `FirstIndex`, multiset facts).
- `bytes.dfy` (`Bytes`): `bytes.strip()` and the lines that iterating over a binary-mode file yields.
- `records.dfy` (`Records`):
  - the decoded JSON value, `LogRecord` and the verdict of the per-line filter;
  - the `["T"]` lookup;
  - the total order on `(str, bytes)` tuples;
  - `Sort`, the specification of the sorted arrangement of a collection of records.
- `sorted_list.dfy` (`SortedLists`): the class `SortedList`, whose `items` are always sorted. Its `Update` inserts a batch by binary search. Lemmas show that successive batches give the sorted arrangement of all their records, in whatever order they arrive.
- `ingest.dfy` (`Ingest`): the chunked-buffer loop of `merge_querylog_streaming`, shared by both variants. The per-line filter is a parameter.
- `gather.dfy` (`Gathering`): `asyncio.gather` over the ingestors, with lemmas that the order of the shards does not matter.
- `retention_merge.dfy` (`RetentionMerge`) and `plain_merge.dfy` (`PlainMerge`): each variant's filter, serialiser and `merge_querylogs`, with lemmas about what a merge produces.

Three library calls are parameters of the model, not part of it:

- `orjson.loads` is a function `decode` from bytes to `Option<Json>`. `None` means that `JSONDecodeError` is raised.
- `datetime.fromisoformat(t).timestamp()` is a function `epoch` from strings to `Option<real>`. `None` means that `fromisoformat` raises.
- File contents come in as byte sequences and the output goes out as one.

A merge that raises is a `Failure` carrying the reason. No output is produced in that case.

Both variants call `bytes.strip()`, which removes ASCII whitespace from both
ends of a line, and `Bytes.Strip` does the same.

## Model

Both variants share the ingestor code (`Ingest`, `Gathering`, `SortedLists`).
Rows for shared members cite the retention variant.

| member | source | states |
|---|---|---|
| Bytes.Strip | adguardhome_logsync/utils/querylog_merge.py:33 | `line.strip()`: the result is the slice of the line that follows its leading whitespace; every byte cut on either side is ASCII whitespace; neither end of the result is; and the result is empty exactly when the line is all whitespace |
| Bytes.StripAround | adguardhome_logsync/utils/querylog_merge.py:33 | strip removes exactly the whitespace around a non-empty middle whose ends are not whitespace |
| Bytes.StripIdempotent | adguardhome_logsync/utils/querylog_merge.py:33 | stripping a stripped line changes nothing |
| Bytes.StripTerminated | adguardhome_logsync/utils/querylog_merge.py:100 | a written output line (payload and `b"\n"`) strips back to the payload |
| Bytes.StripRawLine | adguardhome_logsync/utils/querylog_merge.py:32-33 | a line from file iteration has no `b"\n"` left once stripped, because its only `b"\n"` is trailing whitespace |
| Bytes.Lines | adguardhome_logsync/utils/querylog_merge.py:31-32 | iterating over a binary-mode file: the lines put back together are the file; no line is empty; `b"\n"` ends every line but possibly the last and appears nowhere else |
| Bytes.LinesCons | adguardhome_logsync/utils/querylog_merge.py:32 | content that starts with a `b"\n"`-free run and a `b"\n"` yields that run and the `b"\n"` as its first line, then the lines of the rest |
| Bytes.LinesSingle | utils/querylog_merge.py:29 | content without `b"\n"` is one line |
| Records.TimestampOf | adguardhome_logsync/utils/querylog_merge.py:37 | the `["T"]` lookup together with the `str` that `datetime.fromisoformat` requires of its result: both succeed exactly on an object whose `"T"` is a string, and then yield that string; a non-object raises TypeError at the lookup; an object without `"T"` raises KeyError; a `"T"` that is not a string raises TypeError in `fromisoformat` |
| Records.LineKey | adguardhome_logsync/utils/querylog_merge.py:33-37 | no lookup happens exactly when the line is all whitespace or does not decode; otherwise the result is the `["T"]` lookup on the decoded value |
| Records.LexLessFirstDifference | adguardhome_logsync/utils/querylog_merge.py:10 | `str` values (by code point) and `bytes` values compare as Python compares them: a proper prefix comes first, otherwise the smaller value at the first position where they differ |
| Records.PrecedesIsTupleOrder | adguardhome_logsync/utils/querylog_merge.py:10 | the order of the list is Python's `<=` on `(T, payload)` tuples: equal tuples, or a smaller timestamp, or the same timestamp and a smaller payload |
| Records.PrecedesTotal | adguardhome_logsync/utils/querylog_merge.py:10 | any two `(T, payload)` tuples are comparable |
| Records.PrecedesAntisymmetric | adguardhome_logsync/utils/querylog_merge.py:10 | tuples that precede each other are equal |
| Records.PrecedesTransitive | adguardhome_logsync/utils/querylog_merge.py:10 | the tuple order is transitive: strings by code point, then payloads byte by byte |
| Records.InsertSorted | adguardhome_logsync/utils/querylog_merge.py:48 | inserting a tuple into a sorted sequence keeps it sorted and adds exactly that tuple |
| Records.SortPermutes | adguardhome_logsync/utils/querylog_merge.py:80 | the sorted arrangement of some records is sorted and holds exactly those records, duplicates included |
| Records.SortCharacterised | adguardhome_logsync/utils/querylog_merge.py:80 | the contents of a `SortedList` holding some records are the one sequence that is sorted and holds exactly those records |
| Records.SortedUnique | adguardhome_logsync/utils/querylog_merge.py:80 | two sorted sequences that hold the same records are equal |
| Records.SortDependsOnMultiset | adguardhome_logsync/utils/querylog_merge.py:84-95 | the sorted arrangement depends only on which records there are |
| Records.SortAppend | adguardhome_logsync/utils/querylog_merge.py:48 | adding records to a sorted arrangement gives the same result as sorting everything together |
| Records.SortSorted | adguardhome_logsync/utils/querylog_merge.py:80 | sorting a sorted sequence leaves it unchanged |
| SortedLists.BisectRight | adguardhome_logsync/utils/querylog_merge.py:48 | the insertion point in a sorted list: every tuple before it precedes the new tuple, and no tuple after it does |
| SortedLists.InsertAt | adguardhome_logsync/utils/querylog_merge.py:48 | inserting at that point keeps the list sorted and adds exactly the new tuple |
| SortedLists.SortedList.constructor | adguardhome_logsync/utils/querylog_merge.py:80 | `SortedList()` is empty and sorted |
| SortedLists.SortedList.Update | adguardhome_logsync/utils/querylog_merge.py:48 | `update(batch)` keeps the list sorted; the new contents are the sorted arrangement of the old contents plus the batch |
| SortedLists.ApplyBatchesSorts | adguardhome_logsync/utils/querylog_merge.py:45-51 | successive `update` calls leave the sorted arrangement of all their records together |
| SortedLists.BatchOrderIrrelevant | adguardhome_logsync/utils/querylog_merge.py:46-48 | batches inserted whole, in any order and cut in any way, leave the same contents when they hold the same records |
| Ingest.EffectiveChunk | adguardhome_logsync/utils/querylog_merge.py:45 | the number of buffered records at which `len(chunk_buffer) >= chunk_size` first holds after an append: `chunk_size` itself when it is at least 1, and at least 1 otherwise |
| Ingest.SmallChunkActsAsOne | adguardhome_logsync/utils/querylog_merge.py:41-51 | because the flush test runs right after an append, a shard ingested with a chunk size below 1 inserts exactly what it inserts with a chunk size of 1 |
| Ingest.FlushedPrefix | adguardhome_logsync/utils/querylog_merge.py:45-51 | the records flushed in whole chunks are a prefix of the records accepted, short of them by less than one chunk |
| Ingest.ShardFatal | adguardhome_logsync/utils/querylog_merge.py:35-37 | a shard's ingestor raises exactly when one of its lines does |
| Ingest.ShardAdded | adguardhome_logsync/utils/querylog_merge.py:28-62 | the records a shard inserts are all it accepts, whatever the chunk size, unless a line raises; if one does, they are a whole number of chunks from the front of the records accepted before that line, short of them by less than one chunk |
| Ingest.IngestShard | adguardhome_logsync/utils/querylog_merge.py:28-62 | `merge_querylog_streaming`: it raises with the reason of the first line that raises, if any; the list stays sorted; and the new contents are the sorted arrangement of the old contents plus what the shard adds; the same loop serves utils/querylog_merge.py:25-55, which has no retention test |
| Ingest.StopAt | adguardhome_logsync/utils/querylog_merge.py:37 | when line i is the first to raise, the ingestor reports its reason and has inserted exactly the chunks flushed before it |
| Ingest.IngestLine | adguardhome_logsync/utils/querylog_merge.py:41-51 | one line that does not raise keeps the loop invariant: the accepted records are the flushed whole chunks followed by a buffer of fewer than `chunk_size` records |
| Ingest.FlushChunk | adguardhome_logsync/utils/querylog_merge.py:45-51 | a buffer that has reached `chunk_size` is inserted and becomes one more whole chunk |
| Ingest.Flush | adguardhome_logsync/utils/querylog_merge.py:46-50 | one `update(chunk_buffer)` adds the buffer to the sorted contents |
| Ingest.FinishShard | adguardhome_logsync/utils/querylog_merge.py:57-62 | the trailing flush leaves every accepted record in the list |
| Ingest.AcceptedKeeps | adguardhome_logsync/utils/querylog_merge.py:41 | a property of every record the filter accepts holds of every record a shard contributes |
| Ingest.AcceptedMembers | adguardhome_logsync/utils/querylog_merge.py:33-41 | a record is among those the shard's lines contribute (`Accepted`, which is what the ingestor buffers when no line raises) exactly when the filter accepts it from one of the lines |
| Ingest.AcceptedExactly | adguardhome_logsync/utils/querylog_merge.py:33-41 | lines that the filter accepts one by one contribute exactly their records, in line order, and none raises |
| Gathering.ShardOutcome | adguardhome_logsync/utils/querylog_merge.py:84-95 | an ingestor's outcome is a failure exactly when a line of its shard raises |
| Gathering.GatherSucceeds | adguardhome_logsync/utils/querylog_merge.py:95 | `gather` succeeds exactly when every ingestor does |
| Gathering.GatherFirstFailure | adguardhome_logsync/utils/querylog_merge.py:95 | a failed gather reports the exception of the first failing ingestor in list order |
| Gathering.GatherConcatenates | adguardhome_logsync/utils/querylog_merge.py:95 | a successful gather holds the records of every ingestor, in list order |
| Gathering.GatherReorder | adguardhome_logsync/utils/querylog_merge.py:84-95 | rearranging the ingestors changes neither success nor the records gathered |
| Gathering.GatherInto | adguardhome_logsync/utils/querylog_merge.py:80-95 | running the ingestors into one list: it fails exactly when the gather does, and with its reason; on success the list holds its old records and every gathered record, sorted |
| Gathering.GatherShard | adguardhome_logsync/utils/querylog_merge.py:84-93 | one ingestor's run matches its outcome and adds its records to the list |
| Gathering.ShardOrderIrrelevant | adguardhome_logsync/utils/querylog_merge.py:84-95 | the order of the shard paths changes neither success nor the sorted records |
| Gathering.GatherKeeps | adguardhome_logsync/utils/querylog_merge.py:84-95 | a property of every accepted record holds of every gathered record |
| RetentionMerge.Classify | adguardhome_logsync/utils/querylog_merge.py:33-54 | blank and undecodable lines are skipped; a failing `["T"]` lookup or a rejected ISO string raises with that reason; a decoded record is kept exactly when its instant is at or after `active_time`; a kept record is the verbatim `"T"` string and the stripped line |
| RetentionMerge.ClassifyStripped | adguardhome_logsync/utils/querylog_merge.py:33 | the filter only looks at the stripped line |
| RetentionMerge.Reread | adguardhome_logsync/utils/querylog_merge.py:41 | a kept record's payload, written as a line with or without `b"\n"`, is read back as the same record |
| RetentionMerge.LinesOfTerminated | adguardhome_logsync/utils/querylog_merge.py:97-100 | read back line by line, the output has one line per payload, in order, each the payload and exactly one `b"\n"` |
| RetentionMerge.TerminatedSnoc | adguardhome_logsync/utils/querylog_merge.py:98-100 | writing one more payload appends that payload and one `b"\n"` to the output |
| RetentionMerge.WriteMergedLog | adguardhome_logsync/utils/querylog_merge.py:97-100 | the output loop writes each payload of the list in index order, each followed by `b"\n"` |
| RetentionMerge.MergeQuerylogs | adguardhome_logsync/utils/querylog_merge.py:65-100 | `merge_querylogs` yields the merged log: the first failure, or the sorted kept payloads, each terminated |
| RetentionMerge.MergedLogIs | adguardhome_logsync/utils/querylog_merge.py:80-100 | when no shard raises, writing out any sorted arrangement of the gathered records gives the merged log |
| RetentionMerge.MergeFails | adguardhome_logsync/utils/querylog_merge.py:95-97 | the merge fails, and writes nothing, exactly when some line of some shard raises |
| RetentionMerge.KeptRecords | adguardhome_logsync/utils/querylog_merge.py:39-41 | every gathered record is at or after `active_time` and rereads as itself |
| RetentionMerge.MergedOutput | adguardhome_logsync/utils/querylog_merge.py:97-100 | the output has one line per kept record, sorted by `(T, payload)`, duplicates kept, each the payload and `b"\n"`; all are at or after `active_time`; the output is empty exactly when no record is kept |
| RetentionMerge.MergeIdempotent | adguardhome_logsync/utils/querylog_merge.py:65-100 | merging the merged log on its own gives it back unchanged |
| RetentionMerge.ShardOrder | adguardhome_logsync/utils/querylog_merge.py:84-95 | any rearrangement of the shards merges to the same bytes, or fails as well (possibly with another shard's exception) |
| PlainMerge.Classify | utils/querylog_merge.py:30-47 | blank and undecodable lines are skipped; a failing `["T"]` lookup raises with that reason; every other line is kept as the verbatim `"T"` string and the stripped line |
| PlainMerge.ClassifyStripped | utils/querylog_merge.py:30 | the filter only looks at the stripped line |
| PlainMerge.Reread | utils/querylog_merge.py:34 | a kept record's payload, written as a line with or without `b"\n"`, is read back as the same record |
| PlainMerge.LinesOfJoin | utils/querylog_merge.py:85 | read back line by line, `b"\n".join` of non-empty payloads has one line per payload, in order, each followed by `b"\n"` except the last |
| PlainMerge.JoinThenNewline | utils/querylog_merge.py:85 | `b"\n".join` of some payloads, with one more `b"\n"`, is every payload followed by `b"\n"`, the output of the retention variant |
| PlainMerge.MergeQuerylogs | utils/querylog_merge.py:58-85 | `merge_querylogs` yields the merged bytes: the first failure, or the sorted payloads joined |
| PlainMerge.MergedLogIs | utils/querylog_merge.py:71-85 | when no shard raises, joining the payloads of any sorted arrangement of the gathered records gives the merged result |
| PlainMerge.MergeFails | utils/querylog_merge.py:46-82 | the merge fails exactly when some line of some shard raises |
| PlainMerge.KeptRecords | utils/querylog_merge.py:33-34 | every gathered record rereads as itself |
| PlainMerge.MergedOutput | utils/querylog_merge.py:85 | the result has one line per kept record, sorted by `(T, payload)`, duplicates kept, separated by `b"\n"` with none after the last; it is `b""` exactly when no record is kept |
| PlainMerge.MergeIdempotent | utils/querylog_merge.py:58-85 | merging the merged bytes on their own gives them back unchanged |
| PlainMerge.ShardOrder | utils/querylog_merge.py:71-82 | any rearrangement of the shards gives the same bytes, or fails as well (possibly with another shard's exception) |

## Left out

- Async file I/O (`aiofiles`): a shard is its content as bytes, and the output is returned rather than written. Opening, reading and writing never fail in the model.
- Concurrency (`asyncio.Lock`, `asyncio.gather`): the ingestors run one after the other in list order. `SortedLists.BatchOrderIrrelevant` and `Gathering.ShardOrderIrrelevant` cover the orders the lock allows. The branch that updates without the lock is the same update.
- Gathering.GatherInto: when several shards raise, the model reports the first failing shard in list order. The source reports whichever ingestor raises first in time, which depends on scheduling. Ingestors still running after a failure are not modelled either; their inserts are discarded with the list.
- `orjson.loads` and `datetime.fromisoformat(...).timestamp()` are parameters. JSON is modelled only as far as `["T"]` sees it: an object, a string, or anything else. The instant is an exact `real`, so float rounding and the local time zone that `timestamp()` applies to naive times are not modelled.
- PlainMerge.Classify: a `"T"` that is not a string is modelled as raising (TypeError) at its line. The source buffers such a pair, and a TypeError occurs only when `SortedList` compares it with a tuple whose `"T"` differs from it and cannot be ordered against it (a str, or for example `None` against a number), so whether it raises depends on the other records.
- The internals of `SortedList` (load-balanced sublists, and the sort-and-rebuild path of `update` for large batches): the contents are one sorted sequence, and `update` inserts each tuple by binary search, which leaves the same contents.
- The unused `line_count` counter.
- adguardhome_logsync/main.py, adguardhome_logsync/__main__.py and utils/querylog_copy.py (argument parsing, temporary files, copying and moving files, `asyncio.run`) are not part of this model.
