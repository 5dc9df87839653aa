/**
 * The pure part of a flush: turning one decoded record into a stream key and a
 * log item, grouping the drained batch by key, and building the push-API stream
 * objects. The imperative drain/sort loop in module Remote is proved against the
 * functions defined here.
 */
module Streams {
  import opened Wrappers
  import opened Json
  import Decimal

  /** Field names the logger's encoder uses for the time, the level and the logger name. */
  const TIME_KEY := "ts"
  const LEVEL_KEY := "level"
  const NAME_KEY := "logger"

  /** One field of the label schema: its JSON tag ("" for an untagged field) and the
      value the field holds when the record does not set it (its zero value). */
  datatype LabelField = LabelField(tag: string, zero: Value)

  /** The label schema: the fields of the caller's label type, in declaration order. */
  type Schema = seq<LabelField>

  /** Identifies one remote stream: level, logger name and the label values. */
  datatype Key = Key(level: string, logger: string, labels: seq<Value>)

  /** One record ready for sending: its (clamped) timestamp and its remaining payload. */
  datatype LogItem = LogItem(time: int, data: Fields)

  datatype Entry = Entry(key: Key, item: LogItem)

  /** Why a drained record could not be turned into a log item (the source panics). */
  datatype DecodeError = Malformed | BadTime | BadLevel | BadLogger

  /** One element of the push body: the stream's label map and its `[time, payload]` pairs. */
  datatype Stream = Stream(labels: map<string, Value>, values: seq<(string, Fields)>)

  /** No other field of the schema carries the tag of field i. */
  predicate UniqueTag(schema: Schema, i: nat)
    requires i < |schema|
  {
    forall j :: 0 <= j < |schema| && j != i ==> schema[j].tag != schema[i].tag
  }

  function Tags(schema: Schema): set<string> {
    set i | 0 <= i < |schema| && schema[i].tag != "" :: schema[i].tag
  }

  /** The keys removed from a record's payload. */
  function Reserved(schema: Schema): set<string> {
    {TIME_KEY, LEVEL_KEY, NAME_KEY} + Tags(schema)
  }

  // ---------------------------------------------------------------------------
  // One record

  /** The timestamp a record is sent with: its own, raised to the watermark. */
  function Clamp(ts: int, watermark: int): (r: int)
    ensures r >= watermark && r >= ts
    ensures r == ts || r == watermark
  {
    if watermark > ts then watermark else ts
  }

  /** What decoding the record into the label type puts into field i: the record's value
      under the field's tag, unless that value is null (which leaves the field as it was)
      or another field carries the same tag (the decoder then ignores both fields). */
  function LabelValue(schema: Schema, i: nat, fields: Fields): Value
    requires i < |schema|
  {
    var t := schema[i].tag;
    if t != "" && UniqueTag(schema, i) && t in fields && fields[t] != Null then fields[t] else schema[i].zero
  }

  function LabelValues(schema: Schema, fields: Fields): (vs: seq<Value>)
    ensures |vs| == |schema|
  {
    seq(|schema|, i requires 0 <= i < |schema| => LabelValue(schema, i, fields))
  }

  /** The payload sent for a record: the record without time, level, logger and label keys. */
  function Payload(schema: Schema, fields: Fields): (p: Fields)
    ensures p.Keys == fields.Keys - Reserved(schema)
    ensures forall k :: k in p ==> p[k] == fields[k]
  {
    fields - Reserved(schema)
  }

  /** The logger name of a record: "" when the field is absent or null. */
  predicate HasLoggerName(fields: Fields) {
    NAME_KEY !in fields || fields[NAME_KEY].Null? || fields[NAME_KEY].Str?
  }

  function LoggerName(fields: Fields): string
    requires HasLoggerName(fields)
  {
    if NAME_KEY in fields && fields[NAME_KEY].Str? then fields[NAME_KEY].s else ""
  }

  /** Turns one decoded record into its stream key and log item, given the
      watermark at the start of the flush; fails where the source panics. */
  function DecodeRecord(schema: Schema, fields: Fields, watermark: int): (r: Result<Entry, DecodeError>)
    ensures r.Ok? <==>
      TIME_KEY in fields && fields[TIME_KEY].Num? &&
      LEVEL_KEY in fields && fields[LEVEL_KEY].Str? &&
      HasLoggerName(fields)
    ensures !(TIME_KEY in fields && fields[TIME_KEY].Num?) ==> r == Err(BadTime)
    ensures r.Ok? ==>
      && r.value.item.time == Clamp(fields[TIME_KEY].n, watermark)
      && r.value.key == Key(fields[LEVEL_KEY].s, LoggerName(fields), LabelValues(schema, fields))
      && r.value.item.data == Payload(schema, fields)
      && r.value.item.data.Keys !! Reserved(schema)
  {
    if !(TIME_KEY in fields && fields[TIME_KEY].Num?) then Err(BadTime)
    else if !(LEVEL_KEY in fields && fields[LEVEL_KEY].Str?) then Err(BadLevel)
    else if !HasLoggerName(fields) then Err(BadLogger)
    else
      var ts := Clamp(fields[TIME_KEY].n, watermark);
      Ok(Entry(Key(fields[LEVEL_KEY].s, LoggerName(fields), LabelValues(schema, fields)),
               LogItem(ts, Payload(schema, fields))))
  }

  /** Decodes the raw bytes of one record, then the record. */
  function DecodeOne(schema: Schema, decode: seq<byte> -> Option<Fields>, raw: seq<byte>, watermark: int)
    : Result<Entry, DecodeError>
  {
    match decode(raw)
    case None => Err(Malformed)
    case Some(fields) => DecodeRecord(schema, fields, watermark)
  }

  /** Decodes a whole batch in order, stopping at the first record that fails. */
  function DecodeBatch(schema: Schema, decode: seq<byte> -> Option<Fields>, batch: seq<seq<byte>>, watermark: int)
    : (r: Result<seq<Entry>, DecodeError>)
    ensures r.Ok? ==> |r.value| == |batch|
    ensures r.Ok? ==> forall i :: 0 <= i < |batch| ==>
      DecodeOne(schema, decode, batch[i], watermark) == Ok(r.value[i])
  {
    if batch == [] then Ok([])
    else
      match DecodeBatch(schema, decode, batch[..|batch| - 1], watermark)
      case Err(e) => Err(e)
      case Ok(es) =>
        match DecodeOne(schema, decode, batch[|batch| - 1], watermark)
        case Err(e) => Err(e)
        case Ok(e) => Ok(es + [e])
  }

  /** Decoding `batch` stops at record n with error e: the records before it decode and
      record n does not. */
  ghost predicate FailsAt(schema: Schema, decode: seq<byte> -> Option<Fields>, batch: seq<seq<byte>>,
                          watermark: int, n: nat, e: DecodeError) {
    && n < |batch|
    && DecodeBatch(schema, decode, batch[..n], watermark).Ok?
    && DecodeOne(schema, decode, batch[n], watermark) == Err(e)
  }

  /** A batch that stops at record n fails with that record's error, and every record
      before n decodes. */
  lemma DecodeBatchFailsAt(schema: Schema, decode: seq<byte> -> Option<Fields>, batch: seq<seq<byte>>,
                           watermark: int, n: nat, e: DecodeError)
    requires FailsAt(schema, decode, batch, watermark, n, e)
    ensures DecodeBatch(schema, decode, batch, watermark) == Err(e)
    ensures forall i :: 0 <= i < n ==> DecodeOne(schema, decode, batch[i], watermark).Ok?
  {
    var next := batch[..n + 1];
    assert next[..|next| - 1] == batch[..n];
    DecodeBatchErrExtends(schema, decode, batch, n + 1, watermark);
    forall i | 0 <= i < n ensures DecodeOne(schema, decode, batch[i], watermark).Ok? {
      assert batch[..n][i] == batch[i];
    }
  }

  /** A batch that fails to decode stops at some record, with that record's error. */
  lemma {:induction false} DecodeBatchErrAt(schema: Schema, decode: seq<byte> -> Option<Fields>,
                                            batch: seq<seq<byte>>, watermark: int, e: DecodeError)
    returns (n: nat)
    requires DecodeBatch(schema, decode, batch, watermark) == Err(e)
    ensures FailsAt(schema, decode, batch, watermark, n, e)
  {
    var init := batch[..|batch| - 1];
    if DecodeBatch(schema, decode, init, watermark).Err? {
      n := DecodeBatchErrAt(schema, decode, init, watermark, e);
      assert init[..n] == batch[..n] && init[n] == batch[n];
    } else {
      n := |batch| - 1;
    }
  }

  /** There is only one place a batch can fail at: the failing record and its error are
      determined by the batch. */
  lemma FailsAtUnique(schema: Schema, decode: seq<byte> -> Option<Fields>, batch: seq<seq<byte>>,
                      watermark: int, n: nat, e: DecodeError, m: nat, e': DecodeError)
    requires FailsAt(schema, decode, batch, watermark, n, e)
    requires FailsAt(schema, decode, batch, watermark, m, e')
    ensures n == m && e == e'
  {
    DecodeBatchFailsAt(schema, decode, batch, watermark, n, e);
    DecodeBatchFailsAt(schema, decode, batch, watermark, m, e');
  }

  /** A batch fails to decode as soon as one of its prefixes does. */
  lemma {:induction false} DecodeBatchErrExtends(
    schema: Schema, decode: seq<byte> -> Option<Fields>, batch: seq<seq<byte>>, n: nat, watermark: int)
    requires n <= |batch|
    requires DecodeBatch(schema, decode, batch[..n], watermark).Err?
    ensures DecodeBatch(schema, decode, batch, watermark) == DecodeBatch(schema, decode, batch[..n], watermark)
    decreases |batch| - n
  {
    if n == |batch| {
      assert batch[..n] == batch;
    } else {
      var next := batch[..n + 1];
      assert next[..|next| - 1] == batch[..n];
      DecodeBatchErrExtends(schema, decode, batch, n + 1, watermark);
    }
  }

  // ---------------------------------------------------------------------------
  // Grouping

  /** The items of the entries under key k, in the order the entries were drained. */
  function ItemsWithKey(entries: seq<Entry>, k: Key): seq<LogItem> {
    if entries == [] then []
    else
      var e := entries[|entries| - 1];
      ItemsWithKey(entries[..|entries| - 1], k) + (if e.key == k then [e.item] else [])
  }

  function KeysOf(entries: seq<Entry>): set<Key> {
    set i | 0 <= i < |entries| :: entries[i].key
  }

  /** The reference grouping: each key that occurs maps to its entries' items, in order. */
  function Group(entries: seq<Entry>): map<Key, seq<LogItem>> {
    map k | k in KeysOf(entries) :: ItemsWithKey(entries, k)
  }

  /** The group of key k in g, or the empty group (Go's `items[key]` on a missing key). */
  function GroupOf(g: map<Key, seq<LogItem>>, k: Key): seq<LogItem> {
    if k in g then g[k] else []
  }

  lemma {:induction false} ItemsWithKeyAbsent(entries: seq<Entry>, k: Key)
    requires k !in KeysOf(entries)
    ensures ItemsWithKey(entries, k) == []
  {
    if entries != [] {
      var init := entries[..|entries| - 1];
      assert KeysOf(init) <= KeysOf(entries) by {
        forall x | x in KeysOf(init) ensures x in KeysOf(entries) {
          var i :| 0 <= i < |init| && init[i].key == x;
          assert entries[i].key == x;
        }
      }
      ItemsWithKeyAbsent(init, k);
      assert entries[|entries| - 1].key in KeysOf(entries);
    }
  }

  /** Draining one more entry appends its item to the tail of its own group and
      leaves every other group as it was. */
  lemma GroupAppend(entries: seq<Entry>, e: Entry)
    ensures Group(entries + [e]) == Group(entries)[e.key := GroupOf(Group(entries), e.key) + [e.item]]
  {
    var all := entries + [e];
    assert all[..|all| - 1] == entries;
    assert KeysOf(all) == KeysOf(entries) + {e.key} by {
      forall x | x in KeysOf(all) ensures x in KeysOf(entries) + {e.key} {
        var i :| 0 <= i < |all| && all[i].key == x;
        if i < |entries| { assert entries[i].key == x; }
      }
      forall x | x in KeysOf(entries) ensures x in KeysOf(all) {
        var i :| 0 <= i < |entries| && entries[i].key == x;
        assert all[i].key == x;
      }
      assert all[|entries|].key == e.key;
    }
    var lhs := Group(all);
    var rhs := Group(entries)[e.key := GroupOf(Group(entries), e.key) + [e.item]];
    assert lhs.Keys == rhs.Keys;
    forall k | k in lhs ensures lhs[k] == rhs[k] {
      if k == e.key && k !in KeysOf(entries) {
        ItemsWithKeyAbsent(entries, k);
      }
    }
  }

  /** The grouping as the drain loop builds it: record by record, each item appended
      to the group of its key (Go's `items[key] = append(items[key], item)`). */
  function Grouped(entries: seq<Entry>): map<Key, seq<LogItem>> {
    if entries == [] then map[]
    else
      var g := Grouped(entries[..|entries| - 1]);
      var e := entries[|entries| - 1];
      g[e.key := GroupOf(g, e.key) + [e.item]]
  }

  /** The loop's grouping is the reference grouping. */
  lemma {:induction false} GroupedIsGroup(entries: seq<Entry>)
    ensures Grouped(entries) == Group(entries)
  {
    if entries != [] {
      var init := entries[..|entries| - 1];
      var e := entries[|entries| - 1];
      assert init + [e] == entries;
      GroupedIsGroup(init);
      GroupAppend(init, e);
    }
  }

  /** Every drained record lands in the group of its own key. */
  lemma {:induction false} ItemsWithKeyComplete(entries: seq<Entry>, i: nat)
    requires i < |entries|
    ensures entries[i].item in ItemsWithKey(entries, entries[i].key)
  {
    var init := entries[..|entries| - 1];
    if i < |entries| - 1 {
      ItemsWithKeyComplete(init, i);
      assert init[i] == entries[i];
    }
  }

  /** A group holds only items of drained records carrying that group's key. */
  lemma {:induction false} ItemsWithKeySound(entries: seq<Entry>, k: Key, x: LogItem)
    requires x in ItemsWithKey(entries, k)
    ensures Entry(k, x) in entries
  {
    var init := entries[..|entries| - 1];
    var e := entries[|entries| - 1];
    if x in ItemsWithKey(init, k) {
      ItemsWithKeySound(init, k, x);
    } else {
      assert e.key == k && e.item == x;
    }
  }

  /** No group is empty (the source reads the last item of every group). */
  lemma GroupNonEmpty(entries: seq<Entry>, k: Key)
    requires k in Group(entries)
    ensures Group(entries)[k] != []
  {
    var i :| 0 <= i < |entries| && entries[i].key == k;
    ItemsWithKeyComplete(entries, i);
  }

  /** Sum of the group sizes of g. */
  ghost function TotalSize(g: map<Key, seq<LogItem>>): nat
    decreases |g.Keys|
  {
    if g == map[] then 0
    else
      var k := PickKey(g);
      |g[k]| + TotalSize(g - {k})
  }

  ghost function PickKey(g: map<Key, seq<LogItem>>): (k: Key)
    requires g != map[]
    ensures k in g
  {
    var k :| k in g; k
  }

  lemma {:induction false} TotalSizeRemove(g: map<Key, seq<LogItem>>, k: Key)
    requires k in g
    ensures TotalSize(g) == |g[k]| + TotalSize(g - {k})
    decreases |g.Keys|
  {
    var p := PickKey(g);
    if p != k {
      assert (g - {p}).Keys < g.Keys;
      assert (g - {k}).Keys < g.Keys;
      TotalSizeRemove(g - {p}, k);
      TotalSizeRemove(g - {k}, p);
      assert g - {p} - {k} == g - {k} - {p};
    }
  }

  lemma TotalSizeUpdate(g: map<Key, seq<LogItem>>, k: Key, v: seq<LogItem>)
    ensures TotalSize(g[k := v]) == TotalSize(g) - |GroupOf(g, k)| + |v|
  {
    TotalSizeRemove(g[k := v], k);
    assert g[k := v] - {k} == g - {k};
    if k in g {
      TotalSizeRemove(g, k);
    } else {
      assert g - {k} == g;
    }
  }

  /** Drained exactly once: the groups together hold as many items as records were drained. */
  lemma {:induction false} GroupTotalSize(entries: seq<Entry>)
    ensures TotalSize(Group(entries)) == |entries|
  {
    if entries != [] {
      var init := entries[..|entries| - 1];
      var e := entries[|entries| - 1];
      assert init + [e] == entries;
      GroupTotalSize(init);
      GroupAppend(init, e);
      TotalSizeUpdate(Group(init), e.key, GroupOf(Group(init), e.key) + [e.item]);
    }
  }

  /** Two groupings whose groups have the same sizes key by key hold as many items. */
  lemma {:induction false} TotalSizeSameSizes(g: map<Key, seq<LogItem>>, h: map<Key, seq<LogItem>>)
    requires g.Keys == h.Keys && forall k :: k in g ==> |g[k]| == |h[k]|
    ensures TotalSize(g) == TotalSize(h)
    decreases |g.Keys|
  {
    if g != map[] {
      var k := PickKey(g);
      TotalSizeRemove(h, k);
      assert (g - {k}).Keys < g.Keys;
      TotalSizeSameSizes(g - {k}, h - {k});
    }
  }

  /** Sorting the groups neither loses nor duplicates an item. */
  lemma SortedGroupingSize(sorted: map<Key, seq<LogItem>>, g: map<Key, seq<LogItem>>)
    requires IsSortedGrouping(sorted, g)
    ensures TotalSize(sorted) == TotalSize(g)
  {
    forall k | k in sorted ensures |sorted[k]| == |g[k]| {
      assert |multiset(sorted[k])| == |multiset(g[k])|;
    }
    TotalSizeSameSizes(sorted, g);
  }

  /** Every item of a group carries a timestamp at least w when every entry does. */
  lemma GroupTimesAtLeast(entries: seq<Entry>, w: int)
    requires forall i :: 0 <= i < |entries| ==> entries[i].item.time >= w
    ensures forall k, j :: k in Group(entries) && 0 <= j < |Group(entries)[k]| ==> Group(entries)[k][j].time >= w
  {
    forall k, j | k in Group(entries) && 0 <= j < |Group(entries)[k]|
      ensures Group(entries)[k][j].time >= w
    {
      var x := Group(entries)[k][j];
      ItemsWithKeySound(entries, k, x);
      var i :| 0 <= i < |entries| && entries[i] == Entry(k, x);
    }
  }

  // ---------------------------------------------------------------------------
  // Ordering and the watermark

  predicate SortedByTime(s: seq<LogItem>) {
    forall p, q :: 0 <= p < q < |s| ==> s[p].time <= s[q].time
  }

  /** `sorted` holds the groups of `g`, each reordered by time; the order among equal
      timestamps is not fixed (the source's sort is not stable). */
  predicate IsSortedGrouping(sorted: map<Key, seq<LogItem>>, g: map<Key, seq<LogItem>>) {
    && sorted.Keys == g.Keys
    && forall k :: k in g ==> SortedByTime(sorted[k]) && multiset(sorted[k]) == multiset(g[k])
  }

  /** w2 is max(w, the largest timestamp in the groups). */
  predicate IsRaisedWatermark(w2: int, w: int, groups: map<Key, seq<LogItem>>) {
    && w2 >= w
    && (forall k, j :: k in groups && 0 <= j < |groups[k]| ==> groups[k][j].time <= w2)
    && (w2 == w || exists k :: k in groups && w2 in TimesOf(groups[k]))
  }

  function TimesOf(items: seq<LogItem>): (ts: seq<int>)
    ensures |ts| == |items|
    ensures forall j :: 0 <= j < |items| ==> ts[j] == items[j].time
  {
    if items == [] then [] else TimesOf(items[..|items| - 1]) + [items[|items| - 1].time]
  }

  /** The raised watermark is at most the latest timestamp of the flush: since every sent
      timestamp was clamped to the old watermark, it equals the latest one when any was sent. */
  lemma RaisedWatermarkIsLatest(w2: int, w: int, groups: map<Key, seq<LogItem>>)
    requires IsRaisedWatermark(w2, w, groups)
    requires forall k, j :: k in groups && 0 <= j < |groups[k]| ==> groups[k][j].time >= w
    requires exists k :: k in groups && groups[k] != []
    ensures exists k, j :: k in groups && 0 <= j < |groups[k]| && groups[k][j].time == w2
  {
    var k :| k in groups && groups[k] != [];
    if w2 == w {
      assert groups[k][0].time >= w && groups[k][0].time <= w2;
    } else {
      var k' :| k' in groups && w2 in TimesOf(groups[k']);
      var j :| 0 <= j < |TimesOf(groups[k'])| && TimesOf(groups[k'])[j] == w2;
      assert groups[k'][j].time == w2;
    }
  }

  // ---------------------------------------------------------------------------
  // Stream objects

  /** The label fields of a stream: tagged, non-null label values, later fields
      overriding earlier ones with the same tag. */
  function LabelMap(schema: Schema, labels: seq<Value>): (m: map<string, Value>)
    requires |labels| == |schema|
    ensures m.Keys <= Tags(schema)
    ensures forall t :: t in m ==> m[t] != Null
  {
    if schema == [] then map[]
    else
      var n := |schema| - 1;
      var m0 := LabelMap(schema[..n], labels[..n]);
      assert Tags(schema[..n]) <= Tags(schema) by {
        forall t | t in Tags(schema[..n]) ensures t in Tags(schema) {
          var i :| 0 <= i < n && schema[..n][i].tag != "" && schema[..n][i].tag == t;
          assert schema[i].tag == t;
        }
      }
      if schema[n].tag != "" && labels[n] != Null then m0[schema[n].tag := labels[n]] else m0
  }

  /** A tagged label whose tag no other field carries is in the map exactly when its
      value is not null, and then with that value. */
  lemma {:induction false} LabelMapAt(schema: Schema, labels: seq<Value>, i: nat)
    requires |labels| == |schema|
    requires i < |schema| && schema[i].tag != "" && UniqueTag(schema, i)
    ensures labels[i] != Null ==> schema[i].tag in LabelMap(schema, labels) && LabelMap(schema, labels)[schema[i].tag] == labels[i]
    ensures labels[i] == Null ==> schema[i].tag !in LabelMap(schema, labels)
  {
    var n := |schema| - 1;
    var s0, l0 := schema[..n], labels[..n];
    if i < n {
      assert s0[i] == schema[i] && l0[i] == labels[i];
      assert UniqueTag(s0, i) by {
        forall j | 0 <= j < n && j != i ensures s0[j].tag != s0[i].tag {
          assert s0[j] == schema[j];
        }
      }
      LabelMapAt(s0, l0, i);
    }
  }

  /** The map's entry for tag t depends only on the label values of the fields tagged t. */
  lemma {:induction false} LabelMapAgree(schema: Schema, l1: seq<Value>, l2: seq<Value>, t: string)
    requires |l1| == |schema| && |l2| == |schema|
    requires forall i :: 0 <= i < |schema| && schema[i].tag == t ==> l1[i] == l2[i]
    ensures t in LabelMap(schema, l1) <==> t in LabelMap(schema, l2)
    ensures t in LabelMap(schema, l1) ==> LabelMap(schema, l1)[t] == LabelMap(schema, l2)[t]
  {
    if schema != [] {
      var n := |schema| - 1;
      forall i | 0 <= i < n && schema[..n][i].tag == t ensures l1[..n][i] == l2[..n][i] {
        assert schema[..n][i] == schema[i];
      }
      LabelMapAgree(schema[..n], l1[..n], l2[..n], t);
    }
  }

  /** The `stream` map of a push entry: the label map, then `level` and `logger`, which
      override labels of the same name. */
  function StreamLabels(schema: Schema, key: Key): (m: map<string, Value>)
    requires |key.labels| == |schema|
    ensures LEVEL_KEY in m && m[LEVEL_KEY] == Str(key.level)
    ensures NAME_KEY in m && m[NAME_KEY] == Str(key.logger)
    ensures m.Keys == LabelMap(schema, key.labels).Keys + {LEVEL_KEY, NAME_KEY}
    ensures forall t :: t in m && t != LEVEL_KEY && t != NAME_KEY ==> m[t] == LabelMap(schema, key.labels)[t]
  {
    LabelMap(schema, key.labels)[LEVEL_KEY := Str(key.level)][NAME_KEY := Str(key.logger)]
  }

  /** The `values` of a push entry: `[decimal time, payload]` per item, in the group's order. */
  function Values(items: seq<LogItem>): (vs: seq<(string, Fields)>)
    ensures |vs| == |items|
  {
    seq(|items|, j requires 0 <= j < |items| => (Decimal.FormatInt(items[j].time), items[j].data))
  }

  function BuildStream(schema: Schema, key: Key, items: seq<LogItem>): Stream
    requires |key.labels| == |schema|
  {
    Stream(StreamLabels(schema, key), Values(items))
  }

  /** Each tagged label of the key whose tag is its own and not `level` or `logger` appears
      in the stream map with its value when it is not null, and is absent when it is null. */
  lemma StreamLabelsAt(schema: Schema, key: Key, i: nat)
    requires |key.labels| == |schema|
    requires i < |schema| && schema[i].tag != "" && UniqueTag(schema, i)
    requires schema[i].tag != LEVEL_KEY && schema[i].tag != NAME_KEY
    ensures key.labels[i] != Null ==>
      schema[i].tag in StreamLabels(schema, key) && StreamLabels(schema, key)[schema[i].tag] == key.labels[i]
    ensures key.labels[i] == Null ==> schema[i].tag !in StreamLabels(schema, key)
  {
    LabelMapAt(schema, key.labels, i);
  }

  /** From a record to its stream: a label field whose tag is its own (and not `level` or
      `logger`) shows up in the stream map with the record's value when the record holds a
      non-null value under the tag; otherwise with the field's zero value, unless that zero
      is null, in which case the tag is absent. */
  lemma RecordLabelReachesStream(schema: Schema, fields: Fields, w: int, e: Entry, i: nat)
    requires DecodeRecord(schema, fields, w) == Ok(e)
    requires i < |schema| && schema[i].tag != "" && UniqueTag(schema, i)
    requires schema[i].tag != LEVEL_KEY && schema[i].tag != NAME_KEY
    ensures var t, m := schema[i].tag, StreamLabels(schema, e.key);
      && (t in fields && fields[t] != Null ==> t in m && m[t] == fields[t])
      && ((t !in fields || fields[t] == Null) && schema[i].zero != Null ==> t in m && m[t] == schema[i].zero)
      && ((t !in fields || fields[t] == Null) && schema[i].zero == Null ==> t !in m)
  {
    assert e.key.labels[i] == LabelValue(schema, i, fields);
    StreamLabelsAt(schema, e.key, i);
  }

  /** A tag that two label fields share is ignored when decoding: whatever the records
      hold, two records' stream maps agree on that tag. */
  lemma SharedTagIgnoresRecord(schema: Schema, f1: Fields, w1: int, e1: Entry, f2: Fields, w2: int, e2: Entry,
                               i: nat, j: nat)
    requires DecodeRecord(schema, f1, w1) == Ok(e1) && DecodeRecord(schema, f2, w2) == Ok(e2)
    requires i < j < |schema| && schema[i].tag == schema[j].tag
    requires schema[i].tag != LEVEL_KEY && schema[i].tag != NAME_KEY
    ensures var t := schema[i].tag;
      && (t in StreamLabels(schema, e1.key) <==> t in StreamLabels(schema, e2.key))
      && (t in StreamLabels(schema, e1.key) ==> StreamLabels(schema, e1.key)[t] == StreamLabels(schema, e2.key)[t])
  {
    var t := schema[i].tag;
    forall k | 0 <= k < |schema| && schema[k].tag == t ensures e1.key.labels[k] == e2.key.labels[k] {
      assert !UniqueTag(schema, k) by {
        if k == i { assert schema[j].tag == schema[k].tag; } else { assert schema[i].tag == schema[k].tag; }
      }
      assert e1.key.labels[k] == LabelValue(schema, k, f1);
      assert e2.key.labels[k] == LabelValue(schema, k, f2);
    }
    LabelMapAgree(schema, e1.key.labels, e2.key.labels, t);
  }

  /** Reading back the values of a stream gives each item's time and payload, in order;
      over a sorted group the read-back times are non-decreasing. */
  lemma ValuesReadBack(items: seq<LogItem>)
    ensures forall j :: 0 <= j < |items| ==>
      Decimal.IsNumeral(Values(items)[j].0) &&
      Decimal.ParseInt(Values(items)[j].0) == items[j].time &&
      Values(items)[j].1 == items[j].data
    ensures SortedByTime(items) ==> forall p, q :: 0 <= p < q < |items| ==>
      Decimal.ParseInt(Values(items)[p].0) <= Decimal.ParseInt(Values(items)[q].0)
  {
    forall j | 0 <= j < |items| ensures Decimal.ParseInt(Decimal.FormatInt(items[j].time)) == items[j].time {
      Decimal.ParseFormatInt(items[j].time);
    }
  }
}
