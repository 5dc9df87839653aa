/**
 * The Loki shipping connection: a bounded ingestion queue shared by writers, and
 * the dispatcher state it feeds (the batch, the pending flush barriers and the
 * timestamp watermark). Channels become sequences with explicit capacities; one
 * iteration of the dispatcher loop is one call of `Step`.
 */
module Remote {
  import opened Wrappers
  import opened Json
  import opened Streams

  /** Capacity of the ingestion queue. */
  const BUFFER_CAP := 1000
  /** Capacity of the batch; a full batch is flushed at once. */
  const BATCH_SIZE := 100
  /** Capacity of the pending-barrier queue (the batch size in the source). */
  const SYNCS_CAP := 100

  datatype Error =
    | NoSpaceInBuffer          // the ingestion queue was full
    | Cancelled                // the context was cancelled (the loop stops)
    | Panic(cause: DecodeError) // a drained record could not be decoded

  /** A flush barrier: the channel a `Sync` caller waits on until it is closed. */
  class Barrier {
    var closed: bool

    constructor ()
      ensures !closed
    {
      closed := false;
    }
  }

  /** What travels through the ingestion queue: a record's bytes or a barrier. */
  datatype Item = Data(bytes: seq<byte>) | SyncToken(barrier: Barrier)

  /** The arm of the dispatcher's `select` that fired. */
  datatype Event = Received | TimerFired | Done

  datatype StepResult = Continue | Stop(err: Error)

  predicate Distinct<T(==)>(s: seq<T>) {
    forall i, j :: 0 <= i < j < |s| ==> s[i] != s[j]
  }

  /** The barriers among the queued items, in queue order. */
  function BarriersOf(items: seq<Item>): seq<Barrier> {
    if items == [] then []
    else (if items[0].SyncToken? then [items[0].barrier] else []) + BarriersOf(items[1..])
  }

  /** A bounded FIFO push that makes room by dropping the oldest element: the new
      element is always kept, the bound is never exceeded, and what remains of the
      old contents is their newest part, in order. */
  function EvictOldest<T>(q: seq<T>, x: T, cap: nat): (r: seq<T>)
    requires 0 < cap && |q| <= cap
    ensures |r| == if |q| < cap then |q| + 1 else cap
    ensures r[|r| - 1] == x
    ensures r[..|r| - 1] == q[|q| - (|r| - 1)..]
  {
    if |q| < cap then q + [x] else q[1..] + [x]
  }

  /** The pending barriers never include one that was not pending or just received. */
  lemma EvictOldestMembers<T>(q: seq<T>, x: T, cap: nat)
    requires 0 < cap && |q| <= cap
    ensures forall y :: y in EvictOldest(q, x, cap) ==> y == x || y in q
  {
  }

  /** The pending barriers after dispatching the head of `buffer` on event `ev`. */
  function SyncsAfter(syncs: seq<Barrier>, ev: Event, buffer: seq<Item>): seq<Barrier>
    requires |syncs| <= SYNCS_CAP
  {
    if ev.Received? && buffer != [] && buffer[0].SyncToken?
    then EvictOldest(syncs, buffer[0].barrier, SYNCS_CAP) else syncs
  }

  /** The batch after dispatching the head of `buffer` on event `ev`. */
  function BatchAfter(batch: seq<seq<byte>>, ev: Event, buffer: seq<Item>): seq<seq<byte>> {
    if ev.Received? && buffer != [] && buffer[0].Data? then batch + [buffer[0].bytes] else batch
  }

  /** Whether the loop iteration reaches the flush (everything except a data record
      that leaves the batch short of full, and cancellation). */
  predicate Flushes(batch: seq<seq<byte>>, ev: Event, buffer: seq<Item>) {
    match ev
    case Done => false
    case TimerFired => true
    case Received => buffer != [] && (buffer[0].SyncToken? || |batch| + 1 >= BATCH_SIZE)
  }

  /** `sorted` sorts every group of `items` by time, and `w2` is the watermark `w`
      raised to the latest of those times; no sorted time is below `w`. */
  ghost predicate IsFlushOf(items: map<Key, seq<LogItem>>, w: int, sorted: map<Key, seq<LogItem>>, w2: int) {
    && IsSortedGrouping(sorted, items)
    && IsRaisedWatermark(w2, w, sorted)
    && (forall k, j :: k in sorted && 0 <= j < |sorted[k]| ==> sorted[k][j].time >= w)
  }

  /** `body` holds one stream per group of `sorted`, each group exactly once, emitted in
      the order `order`; every key carries one label value per schema field. */
  ghost predicate IsPushBody(schema: Schema, sorted: map<Key, seq<LogItem>>, order: seq<Key>, body: seq<Stream>) {
    && Distinct(order)
    && (forall i :: 0 <= i < |order| ==> order[i] in sorted && |order[i].labels| == |schema|)
    && (forall k :: k in sorted ==> k in order)
    && |body| == |order|
    && (forall i :: 0 <= i < |order| ==> body[i] == BuildStream(schema, order[i], sorted[order[i]]))
  }

  /** Draining `raw` with watermark `w` decoded every record into `entries`, and `items`
      is their grouping: non-empty groups, no time below `w`, full label tuples. */
  ghost predicate IsDrained(schema: Schema, decode: seq<byte> -> Option<Fields>, raw: seq<seq<byte>>, w: int,
                            entries: seq<Entry>, items: map<Key, seq<LogItem>>) {
    && DecodeBatch(schema, decode, raw, w) == Ok(entries)
    && items == Group(entries)
    && (forall k :: k in items ==> items[k] != [] && |k.labels| == |schema|)
    && (forall k, j :: k in items && 0 <= j < |items[k]| ==> items[k][j].time >= w)
  }

  /** Everything a flush of `raw` with watermark `w` promises about the new batch `rest`,
      the new watermark `w2`, its outcome `r` and the pushed streams `body`; `sorted` is
      the sorted grouping and `order` the order in which streams were emitted. */
  ghost predicate SendSpec(
    schema: Schema, decode: seq<byte> -> Option<Fields>, delivered: bool,
    raw: seq<seq<byte>>, w: int,
    rest: seq<seq<byte>>, w2: int, r: Outcome<Error>, body: seq<Stream>,
    sorted: map<Key, seq<LogItem>>, order: seq<Key>)
  {
    if raw == [] then
      r == Pass && body == [] && rest == [] && w2 == w
    else
      match DecodeBatch(schema, decode, raw, w)
      case Err(e) =>
        && r == Fail(Panic(e)) && body == [] && w2 == w
        && |rest| < |raw| && rest == raw[|raw| - |rest|..]
        && FailsAt(schema, decode, raw, w, |raw| - |rest| - 1, e)
      case Ok(entries) =>
        && rest == []
        && IsFlushOf(Grouped(entries), w, sorted, w2)
        && IsPushBody(schema, sorted, order, body)
        && r == (if delivered then Pass else Fail(Cancelled))
  }

  /** Drained exactly once: a flush whose records all decode empties the batch, and its
      sorted groups hold exactly one item per drained record. */
  lemma FlushDrainsEveryRecord(
    schema: Schema, decode: seq<byte> -> Option<Fields>, delivered: bool,
    raw: seq<seq<byte>>, w: int,
    rest: seq<seq<byte>>, w2: int, r: Outcome<Error>, body: seq<Stream>,
    sorted: map<Key, seq<LogItem>>, order: seq<Key>)
    requires SendSpec(schema, decode, delivered, raw, w, rest, w2, r, body, sorted, order)
    requires raw != [] && DecodeBatch(schema, decode, raw, w).Ok?
    ensures rest == [] && TotalSize(sorted) == |raw|
  {
    var entries := DecodeBatch(schema, decode, raw, w).value;
    GroupTotalSize(entries);
    GroupedIsGroup(entries);
    SortedGroupingSize(sorted, Group(entries));
  }

  /** A flush never lowers the watermark, and every pushed time lies between the old
      watermark and the new one. */
  lemma FlushWatermarkBounds(
    schema: Schema, decode: seq<byte> -> Option<Fields>, delivered: bool,
    raw: seq<seq<byte>>, w: int,
    rest: seq<seq<byte>>, w2: int, r: Outcome<Error>, body: seq<Stream>,
    sorted: map<Key, seq<LogItem>>, order: seq<Key>)
    requires SendSpec(schema, decode, delivered, raw, w, rest, w2, r, body, sorted, order)
    ensures w2 >= w
    ensures raw != [] && DecodeBatch(schema, decode, raw, w).Ok? ==>
      forall k, j :: k in sorted && 0 <= j < |sorted[k]| ==> w <= sorted[k][j].time <= w2
  {
  }

  /** A flush whose batch first fails at record n fails with that record's error and
      keeps exactly the records after it; the records up to n are dropped. */
  lemma FlushKeepsRecordsAfterFailure(
    schema: Schema, decode: seq<byte> -> Option<Fields>, delivered: bool,
    raw: seq<seq<byte>>, w: int,
    rest: seq<seq<byte>>, w2: int, r: Outcome<Error>, body: seq<Stream>,
    sorted: map<Key, seq<LogItem>>, order: seq<Key>, n: nat, e: DecodeError)
    requires SendSpec(schema, decode, delivered, raw, w, rest, w2, r, body, sorted, order)
    requires FailsAt(schema, decode, raw, w, n, e)
    ensures r == Fail(Panic(e)) && rest == raw[n + 1..] && w2 == w && body == []
  {
    DecodeBatchFailsAt(schema, decode, raw, w, n, e);
    FailsAtUnique(schema, decode, raw, w, n, e, |raw| - |rest| - 1, e);
  }

  /** Taking the head off the queue keeps the pending barriers distinct, and a barrier
      at the head is no longer among them. */
  lemma PopHead(syncs: seq<Barrier>, buffer: seq<Item>)
    requires buffer != [] && Distinct(syncs + BarriersOf(buffer))
    ensures Distinct(syncs + BarriersOf(buffer[1..]))
    ensures buffer[0].SyncToken? ==> buffer[0].barrier !in syncs + BarriersOf(buffer[1..])
    ensures forall x :: x in syncs + BarriersOf(buffer[1..]) ==> x in syncs + BarriersOf(buffer)
  {
    var tokens := syncs + BarriersOf(buffer);
    var rest := BarriersOf(buffer[1..]);
    if buffer[0].SyncToken? {
      assert tokens == syncs + [buffer[0].barrier] + rest;
      DistinctDrop(tokens, |syncs|);
      assert tokens[..|syncs|] + tokens[|syncs| + 1..] == syncs + rest;
    } else {
      assert tokens == syncs + rest;
    }
  }

  /** Dropping the first of a distinct sequence's front part keeps it distinct, and the
      dropped element is not among the rest. */
  lemma DropFirst<T>(a: seq<T>, c: seq<T>)
    requires a != [] && Distinct(a + c)
    ensures Distinct(a[1..] + c) && a[0] !in a[1..] + c
  {
    DistinctDrop(a + c, 0);
    assert (a + c)[1..] == a[1..] + c;
  }

  lemma {:induction false} BarriersOfAppend(items: seq<Item>, x: Item)
    ensures BarriersOf(items + [x]) == BarriersOf(items) + (if x.SyncToken? then [x.barrier] else [])
  {
    if items != [] {
      assert (items + [x])[1..] == items[1..] + [x];
      BarriersOfAppend(items[1..], x);
    }
  }

  lemma {:induction false} DistinctDrop<T>(s: seq<T>, k: nat)
    requires Distinct(s) && k < |s|
    ensures Distinct(s[..k] + s[k + 1..])
    ensures s[k] !in s[..k] + s[k + 1..]
  {
    var t := s[..k] + s[k + 1..];
    forall i | 0 <= i < |t| ensures t[i] == s[if i < k then i else i + 1] {}
  }

  /** Inserting a new element after the surviving suffix of the front part keeps distinctness. */
  lemma DistinctInsert<T>(a: seq<T>, c: seq<T>, x: T, d: nat)
    requires Distinct(a + c) && x !in a + c && d <= |a|
    ensures Distinct(a[d..] + [x] + c)
  {
    var s := a + c;
    var t := a[d..] + [x] + c;
    var n := |a| - d;
    forall i | 0 <= i < |t| && i != n ensures t[i] == s[if i < n then i + d else i - 1 + d] {}
    forall i | 0 <= i < |s| ensures s[i] in a + c {}
  }

  lemma DistinctAppend<T>(s: seq<T>, x: T)
    requires Distinct(s) && x !in s
    ensures Distinct(s + [x])
  {
  }

  lemma DistinctSplit<T>(a: seq<T>, c: seq<T>)
    requires Distinct(a + c)
    ensures Distinct(a) && Distinct(c)
    ensures forall x :: x in c ==> x !in a
  {
    assert forall i :: 0 <= i < |a| ==> (a + c)[i] == a[i];
    assert forall i :: 0 <= i < |c| ==> (a + c)[|a| + i] == c[i];
  }

  /** Builds one stream object per group; the streams come out in whatever order
      the keys are visited (Go's map iteration order is unspecified). */
  method BuildStreams(schema: Schema, groups: map<Key, seq<LogItem>>)
    returns (body: seq<Stream>, ghost order: seq<Key>)
    requires forall k :: k in groups ==> |k.labels| == |schema|
    ensures |body| == |groups|
    ensures IsPushBody(schema, groups, order, body)
  {
    body, order := [], [];
    var rest := groups.Keys;
    while rest != {}
      invariant rest <= groups.Keys && |body| + |rest| == |groups.Keys|
      invariant BuiltSoFar(schema, groups, rest, order, body)
      decreases |rest|
    {
      var k :| k in rest;
      BuiltSoFarStep(schema, groups, rest, order, body, k);
      body := body + [BuildStream(schema, k, groups[k])];
      order := order + [k];
      rest := rest - {k};
    }
  }

  /** The state of `BuildStreams` with the keys `rest` still to visit: every visited key
      was visited once and its stream emitted at the same position. */
  ghost predicate BuiltSoFar(schema: Schema, groups: map<Key, seq<LogItem>>, rest: set<Key>,
                             order: seq<Key>, body: seq<Stream>) {
    && (forall k :: k in groups ==> |k.labels| == |schema|)
    && Distinct(order) && |body| == |order|
    && (forall i :: 0 <= i < |order| ==> order[i] in groups && order[i] !in rest)
    && (forall k :: k in groups ==> k in rest || k in order)
    && (forall i :: 0 <= i < |order| ==> body[i] == BuildStream(schema, order[i], groups[order[i]]))
  }

  /** Visiting one more key keeps `BuiltSoFar`. */
  lemma BuiltSoFarStep(schema: Schema, groups: map<Key, seq<LogItem>>, rest: set<Key>,
                       order: seq<Key>, body: seq<Stream>, k: Key)
    requires BuiltSoFar(schema, groups, rest, order, body) && k in rest && k in groups
    requires |k.labels| == |schema|
    ensures BuiltSoFar(schema, groups, rest - {k}, order + [k], body + [BuildStream(schema, k, groups[k])])
  {
    DistinctAppend(order, k);
  }

  /** Sorts the items of one group by time, in place (sort.Slice: not stable). */
  method SortByTime(a: array<LogItem>)
    modifies a
    ensures SortedByTime(a[..])
    ensures multiset(a[..]) == old(multiset(a[..]))
  {
    var i := 0;
    while i < a.Length
      invariant 0 <= i <= a.Length
      invariant SortedUpTo(a[..], i)
      invariant multiset(a[..]) == old(multiset(a[..]))
    {
      InsertLast(a, i);
      i := i + 1;
    }
  }

  /** The first `n` items of `s` are in time order. */
  predicate SortedUpTo(s: seq<LogItem>, n: nat) {
    forall p, q :: 0 <= p < q < n && q < |s| ==> s[p].time <= s[q].time
  }

  /** Sorts every group by time, visiting the groups in any order, and raises the
      watermark `w` to the latest timestamp of each group. */
  method SortGroups(items: map<Key, seq<LogItem>>, w: int) returns (groups: map<Key, seq<LogItem>>, watermark: int)
    requires forall k :: k in items ==> items[k] != []
    requires forall k, j :: k in items && 0 <= j < |items[k]| ==> items[k][j].time >= w
    ensures IsFlushOf(items, w, groups, watermark)
  {
    groups, watermark := map[], w;
    var todo := items.Keys;
    while todo != {}
      invariant todo <= items.Keys && groups.Keys == items.Keys - todo
      invariant SortedSoFar(items, w, groups, watermark)
      decreases |todo|
    {
      var k :| k in todo;
      var s := SortedCopy(items[k]);
      var lastTS := s[|s| - 1].time;
      SortedSoFarStep(items, w, groups, watermark, k, s);
      watermark := if lastTS > watermark then lastTS else watermark;
      groups := groups[k := s];
      todo := todo - {k};
    }
    SortedSoFarDone(items, w, groups, watermark);
  }

  /** Once every group is done, `SortedSoFar` is the flush's sorted grouping. */
  lemma SortedSoFarDone(items: map<Key, seq<LogItem>>, w: int, groups: map<Key, seq<LogItem>>, watermark: int)
    requires SortedSoFar(items, w, groups, watermark) && groups.Keys == items.Keys
    ensures IsFlushOf(items, w, groups, watermark)
  {
  }

  /** The state of `SortGroups` between two groups: the groups done so far are sorted
      and the watermark is raised over them. */
  ghost predicate SortedSoFar(items: map<Key, seq<LogItem>>, w: int, groups: map<Key, seq<LogItem>>, watermark: int) {
    && (forall k :: k in groups ==> k in items && SortedByTime(groups[k]) && multiset(groups[k]) == multiset(items[k]))
    && IsRaisedWatermark(watermark, w, groups)
    && (forall k, j :: k in groups && 0 <= j < |groups[k]| ==> groups[k][j].time >= w)
  }

  /** Adding one more sorted group keeps `SortedSoFar`, with the watermark raised to the
      group's last (latest) time. */
  lemma SortedSoFarStep(items: map<Key, seq<LogItem>>, w: int, groups: map<Key, seq<LogItem>>, watermark: int,
                        k: Key, s: seq<LogItem>)
    requires SortedSoFar(items, w, groups, watermark) && k in items && k !in groups
    requires forall j :: 0 <= j < |items[k]| ==> items[k][j].time >= w
    requires s != [] && SortedByTime(s) && multiset(s) == multiset(items[k])
    ensures SortedSoFar(items, w, groups[k := s], if s[|s| - 1].time > watermark then s[|s| - 1].time else watermark)
  {
    SortedTimesBetween(items[k], s, w);
    RaiseWatermark(w, groups, watermark, k, s);
  }

  /** A sorted permutation of times at least `w` lies between `w` and its last time. */
  lemma SortedTimesBetween(group: seq<LogItem>, s: seq<LogItem>, w: int)
    requires forall j :: 0 <= j < |group| ==> group[j].time >= w
    requires s != [] && SortedByTime(s) && multiset(s) == multiset(group)
    ensures forall j :: 0 <= j < |s| ==> w <= s[j].time <= s[|s| - 1].time
  {
    forall j | 0 <= j < |s| ensures w <= s[j].time {
      assert s[j] in multiset(group);
    }
  }

  /** Raising the watermark over one more group whose times are at most its last one. */
  lemma RaiseWatermark(w: int, groups: map<Key, seq<LogItem>>, watermark: int, k: Key, s: seq<LogItem>)
    requires IsRaisedWatermark(watermark, w, groups) && k !in groups
    requires s != [] && forall j :: 0 <= j < |s| ==> s[j].time <= s[|s| - 1].time
    ensures IsRaisedWatermark(if s[|s| - 1].time > watermark then s[|s| - 1].time else watermark, w, groups[k := s])
  {
    var last := s[|s| - 1].time;
    var w2 := if last > watermark then last else watermark;
    var g := groups[k := s];
    assert TimesOf(s)[|s| - 1] == last;
    if w2 != w {
      if last > watermark {
        assert k in g && w2 in TimesOf(g[k]);
      } else {
        var h :| h in groups && w2 in TimesOf(groups[h]);
        assert h in g && g[h] == groups[h];
      }
    }
  }

  /** Sorts one group's items by time in a scratch array (the group's slice in the source). */
  method SortedCopy(group: seq<LogItem>) returns (s: seq<LogItem>)
    ensures SortedByTime(s) && multiset(s) == multiset(group) && |s| == |group|
  {
    var a := new LogItem[|group|](j requires 0 <= j < |group| => group[j]);
    assert a[..] == group;
    SortByTime(a);
    s := a[..];
    assert |multiset(s)| == |multiset(group)|;
  }

  /** One insertion step: with a[..i] sorted by time, moves a[i] left past the later
      times before it, so that a[..i+1] is sorted. */
  method InsertLast(a: array<LogItem>, i: nat)
    requires i < a.Length && SortedUpTo(a[..], i)
    modifies a
    ensures SortedUpTo(a[..], i + 1)
    ensures multiset(a[..]) == old(multiset(a[..]))
  {
    var j := i;
    while j > 0 && a[j - 1].time > a[j].time
      invariant 0 <= j <= i
      invariant Inserting(a[..], i, j)
      invariant multiset(a[..]) == old(multiset(a[..]))
    {
      ghost var before := a[..];
      InsertingStep(before, i, j);
      a[j - 1], a[j] := a[j], a[j - 1];
      assert a[..] == Swap(before, j - 1);
      j := j - 1;
    }
    InsertingDone(a[..], i, j);
  }

  /** `s` with the neighbours at `p` and `p + 1` exchanged. */
  function Swap(s: seq<LogItem>, p: nat): (r: seq<LogItem>)
    requires p + 1 < |s|
    ensures multiset(r) == multiset(s)
  {
    s[p := s[p + 1]][p + 1 := s[p]]
  }

  /** The state of the insertion of item `i`, now at position `j`: apart from position
      `j`, items up to `i` are in time order; the items after `j` are not earlier than it,
      and its two neighbours are in order with each other. */
  ghost predicate Inserting(s: seq<LogItem>, i: nat, j: nat)
  {
    && j <= i < |s|
    && (forall p, q :: 0 <= p < q <= i && p != j && q != j ==> s[p].time <= s[q].time)
    && (forall q :: j < q <= i ==> s[j].time <= s[q].time)
    && (0 < j < i ==> s[j - 1].time <= s[j + 1].time)
  }

  lemma InsertingStep(s: seq<LogItem>, i: nat, j: nat)
    requires Inserting(s, i, j) && 0 < j && s[j - 1].time > s[j].time
    ensures Inserting(Swap(s, j - 1), i, j - 1)
  {
  }

  lemma InsertingDone(s: seq<LogItem>, i: nat, j: nat)
    requires Inserting(s, i, j) && (j == 0 || s[j - 1].time <= s[j].time)
    ensures SortedUpTo(s, i + 1)
  {
  }


  /** The state of the drain loop once the records `done` are decoded: `entries` are
      their decodings and `items` their grouping. */
  ghost predicate DecodedSoFar(schema: Schema, decode: seq<byte> -> Option<Fields>, done: seq<seq<byte>>, w: int,
                               entries: seq<Entry>, items: map<Key, seq<LogItem>>) {
    && DecodeBatch(schema, decode, done, w) == Ok(entries)
    && items == Group(entries)
    && (forall k :: k in items ==> |k.labels| == |schema|)
    && (forall i :: 0 <= i < |entries| ==> entries[i].item.time >= w)
  }

  /** Decoding one more record appends its item to the group of its key. */
  lemma DecodedSoFarStep(schema: Schema, decode: seq<byte> -> Option<Fields>, done: seq<seq<byte>>, x: seq<byte>,
                         w: int, entries: seq<Entry>, items: map<Key, seq<LogItem>>, e: Entry)
    requires DecodedSoFar(schema, decode, done, w, entries, items)
    requires DecodeOne(schema, decode, x, w) == Ok(e)
    ensures DecodedSoFar(schema, decode, done + [x], w, entries + [e], items[e.key := GroupOf(items, e.key) + [e.item]])
  {
    var next := done + [x];
    assert next[..|next| - 1] == done;
    GroupAppend(entries, e);
    var all := entries + [e];
    forall k | k in Group(all) ensures |k.labels| == |schema| {
      if k != e.key {
        assert k in items;
      }
    }
  }

  /** A fully decoded batch is drained: its groups are non-empty and no time is below `w`. */
  lemma DecodedSoFarDone(schema: Schema, decode: seq<byte> -> Option<Fields>, raw: seq<seq<byte>>, w: int,
                         entries: seq<Entry>, items: map<Key, seq<LogItem>>)
    requires DecodedSoFar(schema, decode, raw, w, entries, items)
    ensures IsDrained(schema, decode, raw, w, entries, items)
  {
    GroupTimesAtLeast(entries, w);
    forall k | k in items ensures items[k] != [] {
      GroupNonEmpty(entries, k);
    }
  }

  /** Drains the batch `raw` in FIFO order, decoding each record against the watermark
      `w` and appending it to the group of its key; stops at the first record that fails
      to decode, leaving exactly the records after it in `rest`. */
  method DrainBatch(schema: Schema, decode: seq<byte> -> Option<Fields>, raw: seq<seq<byte>>, w: int)
    returns (r: Result<map<Key, seq<LogItem>>, DecodeError>, rest: seq<seq<byte>>, ghost entries: seq<Entry>)
    ensures r.Ok? ==> rest == [] && IsDrained(schema, decode, raw, w, entries, r.value)
    ensures r.Err? ==> DecodeBatch(schema, decode, raw, w) == Err(r.error)
    ensures r.Err? ==> |rest| < |raw| && rest == raw[|raw| - |rest|..]
    ensures r.Err? ==> FailsAt(schema, decode, raw, w, |raw| - |rest| - 1, r.error)
  {
    rest := raw;
    var items: map<Key, seq<LogItem>> := map[];
    entries := [];
    while rest != []
      invariant |rest| <= |raw| && rest == raw[|raw| - |rest|..]
      invariant DecodedSoFar(schema, decode, raw[..|raw| - |rest|], w, entries, items)
    {
      ghost var done := raw[..|raw| - |rest|];
      var rawItem := rest[0];
      rest := rest[1..];
      assert raw[..|raw| - |rest|] == done + [rawItem];
      var decoded := DecodeOne(schema, decode, rawItem, w);
      if decoded.Err? {
        r := Err(decoded.error);
        assert raw[|raw| - |rest| - 1] == rawItem;
        DecodeBatchFailsAt(schema, decode, raw, w, |raw| - |rest| - 1, r.error);
        return;
      }
      var e := decoded.value;
      DecodedSoFarStep(schema, decode, done, rawItem, w, entries, items, e);
      items := items[e.key := GroupOf(items, e.key) + [e.item]];
      entries := entries + [e];
    }
    assert raw[..|raw|] == raw;
    DecodedSoFarDone(schema, decode, raw, w, entries, items);
    r := Ok(items);
  }

  /** One flush's delivery side on the batch `raw` and the watermark `w`: drain, group
      and sort the batch, raise the watermark, build the push body; `delivered` says
      whether the delivery loop ends with the endpoint's success answer rather than with
      cancellation. An empty batch sends nothing. */
  method Flush(schema: Schema, decode: seq<byte> -> Option<Fields>, delivered: bool, raw: seq<seq<byte>>, w: int)
    returns (r: Outcome<Error>, rest: seq<seq<byte>>, w2: int, body: seq<Stream>,
             ghost sorted: map<Key, seq<LogItem>>, ghost order: seq<Key>)
    ensures rest == [] || |rest| < |raw|
    ensures w2 >= w
    ensures SendSpec(schema, decode, delivered, raw, w, rest, w2, r, body, sorted, order)
  {
    rest, w2, body, sorted, order := [], w, [], map[], [];
    if raw == [] {
      r := Pass;
      return;
    }
    var drained;
    ghost var entries;
    drained, rest, entries := DrainBatch(schema, decode, raw, w);
    if drained.Err? {
      r := Fail(Panic(drained.error));
      return;
    }
    var groups;
    GroupedIsGroup(entries);
    groups, w2 := SortGroups(drained.value, w);
    sorted := groups;
    body, order := BuildStreams(schema, groups);
    r := if delivered then Pass else Fail(Cancelled);
  }

  class LokiConn {
    /** The label schema of the configured label type. */
    const schema: Schema
    /** Ingestion queue shared with writers (capacity BUFFER_CAP). */
    var buffer: seq<Item>
    /** Watermark: no record is sent with a smaller timestamp. */
    var lastTime: int
    /** Records waiting for the next flush (capacity BATCH_SIZE). */
    var batch: seq<seq<byte>>
    /** Barriers waiting for the next successful flush (capacity SYNCS_CAP). */
    var syncs: seq<Barrier>

    /** Every barrier still pending: the dispatched ones, then the queued ones. */
    ghost var tokens: seq<Barrier>

    ghost predicate Valid()
      reads this, tokens
    {
      && |buffer| <= BUFFER_CAP && |batch| <= BATCH_SIZE && |syncs| <= SYNCS_CAP
      && tokens == syncs + BarriersOf(buffer)
      && Distinct(tokens)
      && forall b :: b in tokens ==> !b.closed
    }

    /** The state between two loop iterations: the batch is never left full. */
    ghost predicate Idle()
      reads this, tokens
    {
      Valid() && |batch| < BATCH_SIZE
    }

    /** The connection as set up for a label schema; `now` is the clock reading at setup. */
    constructor (schema: Schema, now: int)
      ensures Idle()
      ensures this.schema == schema && lastTime == now
      ensures buffer == [] && batch == [] && syncs == []
    {
      this.schema := schema;
      buffer := [];
      lastTime := now;
      batch := [];
      syncs := [];
      tokens := [];
    }

    /** Non-blocking enqueue: appends at the tail when there is room, fails otherwise. */
    method Enqueue(item: Item) returns (r: Outcome<Error>)
      requires Valid()
      requires item.SyncToken? ==> item.barrier !in tokens && !item.barrier.closed
      modifies this
      ensures Valid()
      ensures r.Pass? <==> |old(buffer)| < BUFFER_CAP
      ensures r.Fail? ==> r.error == NoSpaceInBuffer
      ensures buffer == if r.Pass? then old(buffer) + [item] else old(buffer)
      ensures batch == old(batch) && syncs == old(syncs) && lastTime == old(lastTime)
    {
      if |buffer| < BUFFER_CAP {
        BarriersOfAppend(buffer, item);
        if item.SyncToken? {
          DistinctAppend(tokens, item.barrier);
          assert tokens + [item.barrier] == syncs + BarriersOf(buffer + [item]);
        } else {
          assert BarriersOf(buffer + [item]) == BarriersOf(buffer);
        }
        buffer := buffer + [item];
        tokens := syncs + BarriersOf(buffer);
        r := Pass;
      } else {
        r := Fail(NoSpaceInBuffer);
      }
    }

    /** The logger's sink: enqueues a copy of `entry` (the caller reuses its buffer)
        and reports the full length whether or not the enqueue succeeded. */
    method Write(entry: array<byte>) returns (n: int, r: Outcome<Error>)
      requires Valid()
      modifies this
      ensures Valid()
      ensures n == entry.Length
      ensures r.Pass? <==> |old(buffer)| < BUFFER_CAP
      ensures r.Fail? ==> r.error == NoSpaceInBuffer
      ensures buffer == if r.Pass? then old(buffer) + [Data(entry[..])] else old(buffer)
      ensures batch == old(batch) && syncs == old(syncs) && lastTime == old(lastTime)
    {
      var data := entry[..];
      r := Enqueue(Data(data));
      n := |data|;
    }

    /** The submitting half of Sync: a new barrier is queued behind every record
        already queued; the caller then waits for it to be closed. */
    method Sync() returns (r: Result<Barrier, Error>)
      requires Valid()
      modifies this
      ensures Valid()
      ensures r.Ok? <==> |old(buffer)| < BUFFER_CAP
      ensures r.Err? ==> r.error == NoSpaceInBuffer && buffer == old(buffer)
      ensures r.Ok? ==> fresh(r.value) && !r.value.closed && buffer == old(buffer) + [SyncToken(r.value)]
      ensures batch == old(batch) && syncs == old(syncs) && lastTime == old(lastTime)
    {
      ghost var pending := tokens;
      var b := new Barrier();
      assert b !in pending;
      var e := Enqueue(SyncToken(b));
      if e.Pass? {
        r := Ok(b);
      } else {
        r := Err(e.error);
      }
    }

    /** One received item: a record joins the batch, which asks for a flush only once
        full; a barrier joins the pending barriers, evicting the oldest when they are
        full, and always asks for a flush. */
    method Dispatch(item: Item) returns (flush: bool)
      requires Idle()
      requires item.SyncToken? ==> item.barrier !in tokens && !item.barrier.closed
      modifies this
      ensures Valid()
      ensures item.Data? ==> batch == old(batch) + [item.bytes] && syncs == old(syncs)
      ensures item.Data? ==> flush == (|batch| == BATCH_SIZE)
      ensures item.SyncToken? ==> syncs == EvictOldest(old(syncs), item.barrier, SYNCS_CAP)
      ensures item.SyncToken? ==> batch == old(batch) && flush
      ensures !flush ==> Idle()
      ensures buffer == old(buffer) && lastTime == old(lastTime)
    {
      match item {
        case Data(bytes) =>
          batch := batch + [bytes];
          flush := |batch| == BATCH_SIZE;
        case SyncToken(b) =>
          var d := if |syncs| < SYNCS_CAP then 0 else 1;
          DistinctInsert(syncs, BarriersOf(buffer), b, d);
          syncs := EvictOldest(syncs, b, SYNCS_CAP);
          assert syncs == old(syncs)[d..] + [b];
          tokens := syncs + BarriersOf(buffer);
          flush := true;
      }
    }

    /** The connection's `send`: `Flush` on its batch and watermark, keeping what the
        flush leaves of the batch and the raised watermark. */
    method Send(decode: seq<byte> -> Option<Fields>, delivered: bool)
      returns (r: Outcome<Error>, body: seq<Stream>, ghost sorted: map<Key, seq<LogItem>>, ghost order: seq<Key>)
      requires Valid()
      modifies this
      ensures Valid()
      ensures buffer == old(buffer) && syncs == old(syncs) && tokens == old(tokens) && |batch| < BATCH_SIZE
      ensures lastTime >= old(lastTime)
      ensures SendSpec(schema, decode, delivered, old(batch), old(lastTime), batch, lastTime, r, body, sorted, order)
    {
      var rest, watermark;
      r, rest, watermark, body, sorted, order := Flush(schema, decode, delivered, batch, lastTime);
      Store(rest, watermark);
    }

    /** Replaces the batch by what a flush left of it and sets the raised watermark. */
    method Store(rest: seq<seq<byte>>, watermark: int)
      requires Valid() && |rest| < BATCH_SIZE
      modifies this
      ensures Valid()
      ensures batch == rest && lastTime == watermark
      ensures buffer == old(buffer) && syncs == old(syncs) && tokens == old(tokens)
    {
      batch, lastTime := rest, watermark;
    }

    /** Closes every pending barrier, oldest first, and empties the pending queue. */
    method CloseSyncs()
      requires Valid()
      modifies this, syncs
      ensures Valid()
      ensures syncs == [] && forall b :: b in old(syncs) ==> b.closed
      ensures buffer == old(buffer) && batch == old(batch) && lastTime == old(lastTime)
    {
      ghost var closing := syncs;
      ghost var queued := BarriersOf(buffer);
      DistinctSplit(syncs, queued);
      while syncs != []
        invariant |syncs| <= |closing| && syncs == closing[|closing| - |syncs|..]
        invariant forall j :: 0 <= j < |closing| - |syncs| ==> closing[j].closed
        invariant Distinct(syncs + queued)
        invariant forall b :: b in syncs + queued ==> !b.closed
        invariant buffer == old(buffer) && batch == old(batch) && lastTime == old(lastTime)
      {
        var b := syncs[0];
        DropFirst(syncs, queued);
        syncs := syncs[1..];
        b.closed := true;
      }
      assert syncs + queued == queued;
      tokens := queued;
    }

    /** One iteration of the dispatcher loop for the `select` arm `ev`: dispatch the
        received item, and unless a record left the batch short of full, flush and
        then close the pending barriers. `sent` is the flush's outcome. */
    method Step(ev: Event, decode: seq<byte> -> Option<Fields>, delivered: bool)
      returns (r: StepResult, body: seq<Stream>,
               sent: Outcome<Error>, ghost sorted: map<Key, seq<LogItem>>, ghost order: seq<Key>)
      requires Idle()
      requires ev.Received? ==> buffer != []
      modifies this, tokens
      ensures Idle()
      ensures buffer == if ev.Received? then old(buffer)[1..] else old(buffer)
      ensures ev.Done? ==>
        r == Stop(Cancelled) && body == [] &&
        batch == old(batch) && syncs == old(syncs) && lastTime == old(lastTime)
      ensures !ev.Done? && !Flushes(old(batch), ev, old(buffer)) ==>
        && r == Continue && body == []
        && batch == BatchAfter(old(batch), ev, old(buffer))
        && syncs == old(syncs) && lastTime == old(lastTime)
      ensures Flushes(old(batch), ev, old(buffer)) ==>
        && SendSpec(schema, decode, delivered, BatchAfter(old(batch), ev, old(buffer)), old(lastTime),
                    batch, lastTime, sent, body, sorted, order)
        && r == (if sent.Pass? then Continue else Stop(sent.error))
        && (sent.Pass? ==> syncs == [] && forall b :: b in SyncsAfter(old(syncs), ev, old(buffer)) ==> b.closed)
        && (sent.Fail? ==> syncs == SyncsAfter(old(syncs), ev, old(buffer)))
      ensures forall b :: b in old(tokens) && b !in SyncsAfter(old(syncs), ev, old(buffer)) ==> !b.closed
      ensures lastTime >= old(lastTime)
      ensures r == Continue ==> syncs == [] || syncs == old(syncs)
    {
      body, sent, sorted, order := [], Pass, map[], [];
      var flush := true;
      match ev {
        case Done =>
          r := Stop(Cancelled);
          return;
        case TimerFired =>
        case Received =>
          flush := Receive();
      }
      if !flush {
        r := Continue;
        return;
      }
      assert forall i :: 0 <= i < |syncs| ==> syncs[i] in tokens;
      assert forall i :: 0 <= i < |syncs| ==> syncs[i] in old(tokens);
      sent, body, sorted, order := FlushBatch(decode, delivered);
      r := if sent.Pass? then Continue else Stop(sent.error);
    }

    /** Takes the head of the ingestion queue and dispatches it; says whether the
        dispatcher must flush now. */
    method Receive() returns (flush: bool)
      requires Idle() && buffer != []
      modifies this
      ensures Valid()
      ensures buffer == old(buffer)[1..] && lastTime == old(lastTime)
      ensures batch == BatchAfter(old(batch), Received, old(buffer))
      ensures syncs == SyncsAfter(old(syncs), Received, old(buffer))
      ensures flush == Flushes(old(batch), Received, old(buffer))
      ensures !flush ==> Idle()
      ensures forall x :: x in tokens ==> x in old(tokens)
    {
      var item := buffer[0];
      PopHead(syncs, buffer);
      buffer := buffer[1..];
      tokens := syncs + BarriersOf(buffer);
      flush := Dispatch(item);
      if item.SyncToken? {
        EvictOldestMembers(old(syncs), item.barrier, SYNCS_CAP);
      }
    }

    /** The flush at the end of a loop iteration: send the batch, and when the send
        succeeded, close every pending barrier. */
    method FlushBatch(decode: seq<byte> -> Option<Fields>, delivered: bool)
      returns (sent: Outcome<Error>, body: seq<Stream>, ghost sorted: map<Key, seq<LogItem>>, ghost order: seq<Key>)
      requires Valid()
      modifies this, syncs
      ensures Idle()
      ensures buffer == old(buffer)
      ensures SendSpec(schema, decode, delivered, old(batch), old(lastTime), batch, lastTime, sent, body, sorted, order)
      ensures sent.Pass? ==> syncs == [] && forall b :: b in old(syncs) ==> b.closed
      ensures sent.Fail? ==> syncs == old(syncs)
      ensures lastTime >= old(lastTime)
      ensures forall x :: x in tokens ==> x in old(tokens)
    {
      sent, body, sorted, order := Send(decode, delivered);
      if sent.Pass? {
        CloseSyncs();
      }
    }
  }
}
