# Loki shipping connection, modelled in Dafny

This project models the connection that ships a structured logger's records to a
Loki push endpoint (`remote/remote.go`). The logger's encoder hands every
encoded record to the connection. The connection copies the record into a
bounded ingestion queue, `buffer` (1000 items). A `Sync` call queues a flush
barrier behind the records already queued.

A single dispatcher loop takes one item at a time from the queue:

- A record joins the `batch` (100 records). The loop flushes once the batch is full.
- A barrier joins the pending barriers, `syncs` (100), and always triggers a
  flush. The code drops the oldest pending barrier when `syncs` is full. That
  never happens: a successful flush closes every pending barrier and a failed one
  ends the loop, so `syncs` is empty whenever a loop iteration continues.
- A 10-second timer also triggers a flush. The timer is re-armed on every loop
  iteration, so it fires only after 10 seconds in which nothing was received.
- Cancellation stops the loop.

A flush (`send`) works as follows:

1. It drains the batch.
2. For every record it:
   - decodes the record;
   - raises the record's timestamp to the watermark `lastTime`;
   - keys the record by level, logger name (`""` when absent) and label values;
   - strips the time, level, logger and label keys from the payload.
3. It sorts every group by time.
4. It raises the watermark to the latest time sent.
5. It builds one stream object per group. The object holds a label map with
   `level` and `logger` on top, and `[decimal time, payload]` values.
6. It delivers the streams. When delivery succeeds, every pending barrier is
   closed.

Structure:

- Module `Remote` holds the class `LokiConn`, with the four pieces of state as
  fields. Its methods are one per step: enqueue, write, sync-submit, dispatch,
  send, closing the barriers, and one loop iteration (`Step`).
- The flush's imperative parts are heap-free methods with loops: draining,
  sorting per group (an in-place insertion sort on an array), raising the
  watermark, and emitting streams in map-iteration order. Each is proved against
  specification functions in module `Streams`.
- Module `Streams` holds:
  - the per-record key and payload extraction;
  - the reference grouping `Group`;
  - the ordering and watermark predicates;
  - the stream objects.
- Module `Decimal` holds the decimal rendering of timestamps and its inverse.

Modelling choices:

- Records reach the model as raw bytes. JSON decoding is the parameter
  `decode: seq<byte> -> Option<Fields>`. The decoded time field `ts` is an
  integer count of Unix nanoseconds.
- Reflection over the label type's struct tags becomes an explicit schema. The
  schema is an ordered list of `(tag, zero value)` fields; an empty tag is an
  untagged field. Two fields may share a tag: the decoder then fills neither.
- HTTP delivery is the boolean oracle `delivered`. It says whether the retry loop
  ends with the endpoint's success answer or with cancellation.
- Go's map iteration order is an arbitrary choice (`:|`).
- Where the source panics on a record (`lo.Must`, a failed type assertion), the
  model returns the error `Panic(cause)`. The records drained before that record
  are lost, and the watermark is left unchanged.

## Model

| member | source | states |
|---|---|---|
| Remote.LokiConn.constructor | remote/remote.go:35-41 | A new connection has an empty queue, batch and pending set, and its watermark is the clock reading at setup. |
| Remote.Barrier.constructor | remote/remote.go:112 | A new barrier is open. |
| Remote.LokiConn.Enqueue | remote/remote.go:128-135 | The item is appended at the tail exactly when the queue holds fewer than 1000 items. Otherwise the result is the "no space in buffer" error and the queue is unchanged. Batch, pending barriers and watermark are untouched, and the pending barriers stay distinct and open. |
| Remote.LokiConn.Write | remote/remote.go:103-109 | Enqueues a copy of the entry's bytes (their value, not the array). Reports the entry's full length whether or not the enqueue succeeded. |
| Remote.LokiConn.Sync | remote/remote.go:111-115 | A fresh open barrier is queued behind everything already queued when there is room. Otherwise the "no space in buffer" error is returned without waiting. |
| Remote.EvictOldest | remote/remote.go:74-80 | The pending set never exceeds its capacity. The new barrier is always last, and the rest is the newest part of the old set, in order. |
| Remote.EvictOldestMembers | remote/remote.go:74-80 | After the push, every pending barrier is either the new one or was pending before. |
| Remote.LokiConn.Dispatch | remote/remote.go:67-81 | A record goes to the batch tail, with a flush exactly when the batch reaches 100. A barrier is pushed with evict-oldest and always flushes. The queue, the distinctness of pending barriers and their openness are kept. |
| Remote.PopHead | remote/remote.go:67 | Taking the queue head keeps the pending barriers distinct and adds none. A barrier at the head is no longer queued. |
| Remote.LokiConn.Receive | remote/remote.go:67-81 | Pops the queue head and dispatches it. The new batch, pending set and flush decision are the reference functions `BatchAfter`, `SyncsAfter` and `Flushes`. |
| Streams.Clamp | remote/remote.go:164-167 | The sent timestamp is the record's own or the watermark, and it is at least both. |
| Streams.Payload | remote/remote.go:175-191 | The payload keeps exactly the record's keys other than `ts`, `level`, `logger` and the label tags, with their values unchanged. |
| Streams.DecodeRecord | remote/remote.go:158-196 | A record yields an entry exactly when its time is a number, its level a string, and its logger name a string, null or absent. A bad time is reported first. The entry's time is the clamped time, its key is (level, logger name or `""`, label values), and its payload contains no reserved key. |
| Streams.DecodeBatch | remote/remote.go:154-200 | A batch that decodes yields one entry per record, in order, each being that record's decoding. |
| Streams.DecodeBatchFailsAt | remote/remote.go:154-163 | A batch that stops at record n fails with that record's error, and every record before it decodes. |
| Streams.DecodeBatchErrAt | remote/remote.go:154-163 | A batch that fails to decode stops at some record, with that record's error. |
| Streams.FailsAtUnique | remote/remote.go:154-163 | The record a batch stops at, and its error, are determined by the batch. |
| Streams.DecodeBatchErrExtends | remote/remote.go:157-163 | Once a prefix of the batch fails, the whole batch fails with the same error. |
| Streams.GroupedIsGroup | remote/remote.go:193-196 | The grouping the drain loop builds (append each item to its key's group) equals the reference grouping (each key that occurs maps to its records' items, in drain order). |
| Streams.ItemsWithKeyComplete | remote/remote.go:193-196 | Every drained record lands in the group of its own key. |
| Streams.ItemsWithKeySound | remote/remote.go:193-196 | A group holds only items of drained records with that key. |
| Streams.GroupAppend | remote/remote.go:193-196 | Draining one more record appends its item to its key's group (created when missing), and every other group is unchanged. |
| Streams.GroupNonEmpty | remote/remote.go:193-206 | No group is empty, so the last item of every group exists. |
| Streams.GroupTotalSize | remote/remote.go:153-200 | The groups together hold exactly as many items as records were drained. |
| Streams.SortedGroupingSize | remote/remote.go:201-204 | Sorting the groups neither loses nor duplicates an item. |
| Streams.GroupTimesAtLeast | remote/remote.go:164-167 | No grouped time is below the watermark at flush start. |
| Streams.RaisedWatermarkIsLatest | remote/remote.go:206-209 | When anything is sent, the raised watermark equals the latest timestamp sent. |
| Remote.DecodedSoFarStep | remote/remote.go:154-196 | Decoding one more record extends the decoded prefix and appends the record's item to its group. |
| Remote.DecodedSoFarDone | remote/remote.go:153-200 | A fully decoded batch has non-empty groups with full label tuples, and no time below the watermark. |
| Remote.DrainBatch | remote/remote.go:153-200 | Drains the batch in FIFO order. On success the batch is empty and the result is the reference grouping of the batch's decodings. On failure it returns the error of the first record that does not decode, every record before that one decodes, and the remaining batch is exactly the records after it. |
| Remote.SortByTime | remote/remote.go:202-204 | The group is sorted by time and is a permutation of the original. No order is promised among equal times. |
| Remote.InsertLast | remote/remote.go:202-204 | One insertion step extends the time-sorted prefix by one item and permutes the array. |
| Remote.SortedCopy | remote/remote.go:201-204 | The result is a time-sorted permutation of the group. |
| Remote.SortedTimesBetween | remote/remote.go:164-167 | A sorted group lies between the flush-start watermark and its last time. |
| Remote.RaiseWatermark | remote/remote.go:206-209 | Raising the watermark to a group's last time keeps it the maximum of the old watermark and every time seen, reached by some group when raised. |
| Remote.SortedSoFarStep | remote/remote.go:201-210 | Sorting one more group and raising the watermark keeps the partial sorted grouping. |
| Remote.SortGroups | remote/remote.go:201-210 | Every group is sorted by time and is a permutation of its input group. The new watermark is max(old watermark, latest time), and all times lie between the two watermarks. |
| Streams.LabelMap | remote/remote.go:224-236 | The label map holds only tagged fields and never a null value. |
| Streams.LabelMapAt | remote/remote.go:224-236 | A tagged label whose tag no other field carries is in the map exactly when its value is not null, and then with that value. |
| Streams.LabelMapAgree | remote/remote.go:224-236 | The map's entry for a tag depends only on the values of the fields carrying that tag. |
| Streams.StreamLabels | remote/remote.go:223-238 | The stream map holds the label map plus `level` and `logger`, which override labels of the same name. |
| Streams.StreamLabelsAt | remote/remote.go:224-238 | Each label whose tag is its own and not `level` or `logger` appears in the stream map exactly when non-null, with its value. |
| Streams.RecordLabelReachesStream | remote/remote.go:159-161 | From a record to its stream map, for a field whose tag is its own and not `level` or `logger`: a non-null record value under the tag is the label. Otherwise the field's zero value is the label, or the tag is absent when that zero is null. |
| Streams.SharedTagIgnoresRecord | remote/remote.go:159-161 | A tag carried by two label fields is ignored by the decoder: any two records' stream maps agree on it. |
| Streams.ValuesReadBack | remote/remote.go:214-221 | Each value's time string parses back to the item's time, and its payload is the item's. Over a sorted group, the parsed times are non-decreasing. |
| Decimal.FormatInt | remote/remote.go:218 | The rendering is a numeral (optional minus sign, then digits), with a minus sign exactly for negative numbers and no leading zero (the canonical `strconv.FormatInt` form). |
| Decimal.ParseFormatInt | remote/remote.go:218 | Parsing the decimal rendering of a timestamp gives the timestamp back. |
| Decimal.FormatIntInjective | remote/remote.go:218 | Two timestamps have the same rendering exactly when they are equal. |
| Remote.BuiltSoFarStep | remote/remote.go:213-243 | Emitting one more key's stream keeps every visited key emitted once, at its position. |
| Remote.BuildStreams | remote/remote.go:212-244 | As many streams as groups: one stream per group, every group exactly once, in some visiting order. Each stream is `BuildStream` of its key and sorted group. |
| Remote.Flush | remote/remote.go:148-244 | An empty batch sends nothing and changes nothing. A bad record fails with `Panic` carrying the error of the first record that does not decode. The batch keeps exactly the records after that one, and the watermark is unchanged. Otherwise the batch is emptied, the groups are the sorted reference grouping, the watermark is raised, the body has one stream per group, and the outcome is the delivery oracle's. |
| Remote.FlushDrainsEveryRecord | remote/remote.go:153-210 | A flush whose records all decode empties the batch, and its sorted groups hold exactly one item per drained record. |
| Remote.FlushWatermarkBounds | remote/remote.go:164-167 | A flush never lowers the watermark. Every sent time lies between the old watermark and the new one. |
| Remote.FlushKeepsRecordsAfterFailure | remote/remote.go:155-163 | When a batch first fails at record n, the flush fails with that record's error, keeps exactly the records after n, sends nothing and leaves the watermark. |
| Remote.LokiConn.Send | remote/remote.go:148-244 | Applies `Flush` to the connection's batch and watermark: keeps the remaining batch (never full), raises `lastTime`, and leaves the queue and pending barriers untouched. |
| Remote.LokiConn.Store | remote/remote.go:206-209 | Writes back the given batch (never full) and watermark. Queue and pending barriers are unchanged. |
| Remote.LokiConn.CloseSyncs | remote/remote.go:91-99 | Closes every pending barrier and empties the pending set. The barriers still queued stay open and distinct. |
| Remote.LokiConn.FlushBatch | remote/remote.go:87-99 | Sends the batch. On success every pending barrier is closed and the set emptied; on failure the set is kept. The watermark never decreases. |
| Remote.LokiConn.Step | remote/remote.go:62-100 | One loop iteration. Cancellation stops with nothing changed. A record that leaves the batch short of full only joins the batch. Otherwise the flush meets `SendSpec`, and the pending barriers are closed on success or kept on failure. A barrier evicted from the pending set, or still queued, is never closed. The watermark never decreases, and the batch is never left full. An iteration that continues leaves the pending set empty or as it was, so from an empty pending set (as the constructor leaves it) it stays empty at every loop head and eviction never occurs. |

## Left out

- HTTP delivery is not modelled: request building, the push URL, Basic authorization, the 3-second per-attempt timeout, and the retry every second until success or cancellation (remote/remote.go:246-291). It is the boolean oracle `delivered`, and the streams are returned as `body`.
- Goroutines and channels, the 10-second timer, context cancellation and `Sync`'s 10-second wait for its barrier are not modelled (remote/remote.go:62-66, 82-84, 117-125). One loop iteration is `Step` on an event, so the model is sequential. The timer is the free event `TimerFired`, which may occur in any iteration. In the source it occurs only after 10 seconds without a received item, because `time.After` is re-armed on every iteration (remote/remote.go:64). A steady trickle of records under 10 seconds apart therefore keeps a short batch unsent until it fills or a barrier arrives.
- JSON decoding and encoding (`encoding/json`), RFC 3339 time parsing and the re-marshalling of the payload are foreign library calls (remote/remote.go:158-163, 195). Decoding is the parameter `decode`, the time is already an integer, and the payload stays a decoded map.
- Streams.DecodeRecord: decoding a record into the label type fails in the source when a label field has the wrong JSON type. The model assumes label values always decode.
- Streams.LabelValue: the source's decoder matches a record's keys to tags without regard to case (`"ENV"` fills the field tagged `env`, while the exact-match `delete` keeps `"ENV"` in the payload). The model matches tags exactly.
- Streams.LabelValue: a label field of interface type that receives a JSON object or array makes the stream key unhashable, and the source panics when grouping the record (remote/remote.go:193). The model groups such a record like any other.
- Streams.LabelValue: a label value is the JSON value under its tag, and keys are compared as JSON values. The source converts the value to the field's Go type and compares Go values. They differ for pointer-typed label fields (`Env *string`). The decoder allocates a new pointer for every record, so the key comparison at remote/remote.go:193 compares addresses, and each record with the field set gets a stream of its own. A nil pointer passes the nil check at remote/remote.go:232 as a typed nil and is emitted as `null`. The model groups equal values together and leaves null labels out.
- Streams.LabelValue: untagged exported label fields are matched by the source's decoder by field name. The model gives them their zero value and never emits them, as the source does.
- Streams.LabelMap: a struct tag with options (`json:"env,omitempty"`) is used verbatim by the source as the key to delete and as the stream label. The schema's tag is taken to be the plain JSON key. A field tagged `json:"-"` is skipped by the decoder, yet the source still deletes the key `"-"` and emits a `"-"` label (remote/remote.go:186-190, 227-235). The model treats `"-"` as an ordinary tag. An unexported tagged field makes the source panic when it reads the label value (remote/remote.go:231). The model emits such a field like any other.
- JSON numbers decoded as 64-bit floating point, and the 64-bit width of timestamps (`int64`), are not modelled. Times are unbounded integers.
- The order of streams in the push body follows Go's map iteration order, which is unspecified. The model lets it be any order and records it in the ghost `order`.
- The zap core wiring (`WithRemote`, remote/remote.go:34-52) is not modelled, because it is library plumbing. The same holds for the context helpers in `logger.go`, the command-line configuration `config.go` and the data-only `remote/config.go`.
- A record that the source panics on ends the process there. The model instead returns `Panic(cause)` from the flush, with the records drained before it lost, the rest of the batch kept, and the watermark unchanged.
