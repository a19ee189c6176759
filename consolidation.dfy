/**
 * The consolidator: one pass of the body of `process_logs_thread` in
 * batchmanager/batchmana.py, with SQLite, drain3 and the clock turned into
 * parameters.
 *
 * A pass reads the cursor (the largest stored original id), fetches the raw
 * rows above it ordered by timestamp, masks and classifies them, re-sorts by
 * the resolved timestamp, cuts the sorted records into 10-second windows,
 * deduplicates each window by (template id, template, params) and appends
 * one clean row per key plus one summary row per window.
 *
 * Timestamps are integers counting microseconds.
 */
module Consolidation {
  import opened Wrappers
  import opened Masking
  import StableSort
  import Decimal

  /** CONTEXT_WINDOW_SECONDS (10 s) in microseconds. */
  const WindowMicros: int := 10_000_000

  /** LIMIT of the raw-log query. */
  const FetchLimit: nat := 1000

  /** A row of `raw_logs`; `timestamp` is the raw column, in microseconds, that the fetch orders by. */
  datatype RawLog = RawLog(id: int, message: string, timestamp: int)

  /** What the template miner answers for one masked line. */
  datatype Mined = Mined(clusterId: int, template: string)

  /**
   * The stateful template miner as a function of what it has been fed: its
   * answer for a masked line, given the masked lines fed before it in the pass.
   */
  type Miner = (seq<string>, string) -> Mined

  /** One element of `processed`. */
  datatype Record = Record(originalId: int, template: string, templateId: int,
                           params: seq<Param>, timestamp: int, raw: string)

  /** A row of the `clean` table. */
  datatype CleanRow = CleanRow(id: int, originalId: int, groupId: int, templateId: int,
                               template: string, params: seq<Param>, count: nat,
                               firstSeen: int, lastSeen: int, sample: string)

  /** A row of `context_groups`. */
  datatype GroupSummary = GroupSummary(groupId: int, summary: string, firstSeen: int, lastSeen: int,
                                       uniqueTemplates: nat, totalMessages: nat)

  /** A window of records together with the group id given to it. */
  datatype Group = Group(id: int, recs: seq<Record>)

  // ---------------------------------------------------------------------------
  // Cursor and fetch
  // ---------------------------------------------------------------------------

  /** `SELECT MAX(original_id) FROM clean` on a non-empty table. */
  function MaxOriginalId(clean: seq<CleanRow>): (mx: int)
    requires clean != []
    ensures forall i :: 0 <= i < |clean| ==> clean[i].originalId <= mx
    decreases |clean|
  {
    if |clean| == 1 then clean[0].originalId
    else
      var rest := MaxOriginalId(clean[1..]);
      assert forall i :: 1 <= i < |clean| ==> clean[i] == clean[1..][i - 1];
      if clean[0].originalId >= rest then clean[0].originalId else rest
  }

  /** The maximum is the original id of some stored row. */
  lemma {:induction false} MaxOriginalIdAttained(clean: seq<CleanRow>) returns (i: nat)
    requires clean != []
    ensures i < |clean| && clean[i].originalId == MaxOriginalId(clean)
    decreases |clean|
  {
    if |clean| == 1 {
      i := 0;
    } else if clean[0].originalId >= MaxOriginalId(clean[1..]) {
      i := 0;
    } else {
      var j := MaxOriginalIdAttained(clean[1..]);
      i := j + 1;
    }
  }

  /** The cursor: the largest stored original id, or 0 when `clean` is empty. */
  function LastProcessed(clean: seq<CleanRow>): int {
    if clean == [] then 0 else MaxOriginalId(clean)
  }

  /** `WHERE id > cursor`, in table order. */
  function IdAbove(raw: seq<RawLog>, cursor: int): (r: seq<RawLog>)
    ensures forall x :: x in r <==> x in raw && x.id > cursor
    decreases |raw|
  {
    if raw == [] then []
    else (if raw[0].id > cursor then [raw[0]] else []) + IdAbove(raw[1..], cursor)
  }

  function RawTime(r: RawLog): int {
    r.timestamp
  }

  /** The eligible rows in fetch order: by timestamp, equal timestamps in table order. */
  function ByTime(raw: seq<RawLog>, cursor: int): seq<RawLog> {
    StableSort.SortBy(IdAbove(raw, cursor), RawTime)
  }

  function FetchCount(raw: seq<RawLog>, cursor: int): nat {
    var n := |IdAbove(raw, cursor)|;
    if n < FetchLimit then n else FetchLimit
  }

  /**
   * `WHERE id > cursor ORDER BY timestamp ASC LIMIT 1000`: at most 1000 rows
   * of the table, all above the cursor, in timestamp order.
   */
  function FetchRaw(raw: seq<RawLog>, cursor: int): (r: seq<RawLog>)
    ensures |r| <= FetchLimit
    ensures forall x :: x in r ==> x in raw && x.id > cursor
    ensures StableSort.SortedBy(r, RawTime)
  {
    FetchedPrefix(raw, cursor);
    ByTime(raw, cursor)[..FetchCount(raw, cursor)]
  }

  lemma FetchedPrefix(raw: seq<RawLog>, cursor: int)
    ensures forall x :: x in ByTime(raw, cursor)[..FetchCount(raw, cursor)] ==> x in raw && x.id > cursor
    ensures StableSort.SortedBy(ByTime(raw, cursor)[..FetchCount(raw, cursor)], RawTime)
  {
    ByTimeFacts(raw, cursor);
    var b := ByTime(raw, cursor);
    var n := FetchCount(raw, cursor);
    SplitSorted(b, n);
    forall x | x in b[..n] ensures x in raw && x.id > cursor {
      assert x in multiset(IdAbove(raw, cursor));
    }
  }

  /** The eligible rows the limit leaves out of this fetch. */
  function Skipped(raw: seq<RawLog>, cursor: int): seq<RawLog> {
    ByTime(raw, cursor)[FetchCount(raw, cursor)..]
  }

  lemma ByTimeFacts(raw: seq<RawLog>, cursor: int)
    ensures multiset(ByTime(raw, cursor)) == multiset(IdAbove(raw, cursor))
    ensures StableSort.SortedBy(ByTime(raw, cursor), RawTime)
  {
    StableSort.SortByCorrect(IdAbove(raw, cursor), RawTime);
  }

  /**
   * The fetch returns at most 1000 rows, all above the cursor and ordered by
   * timestamp; together with the rows it skips it is exactly the eligible
   * rows, it skips rows only when it is full, and every skipped row is no
   * earlier than every fetched one.
   */
  lemma FetchRawSpec(raw: seq<RawLog>, cursor: int)
    ensures |FetchRaw(raw, cursor)| <= FetchLimit
    ensures |FetchRaw(raw, cursor)| < FetchLimit ==> Skipped(raw, cursor) == []
    ensures multiset(FetchRaw(raw, cursor)) + multiset(Skipped(raw, cursor)) == multiset(IdAbove(raw, cursor))
    ensures forall i :: 0 <= i < |FetchRaw(raw, cursor)| ==> FetchRaw(raw, cursor)[i] in raw && FetchRaw(raw, cursor)[i].id > cursor
    ensures StableSort.SortedBy(FetchRaw(raw, cursor), RawTime)
    ensures forall i, j :: 0 <= i < |FetchRaw(raw, cursor)| && 0 <= j < |Skipped(raw, cursor)|
              ==> FetchRaw(raw, cursor)[i].timestamp <= Skipped(raw, cursor)[j].timestamp
  {
    ByTimeFacts(raw, cursor);
    SplitSorted(ByTime(raw, cursor), FetchCount(raw, cursor));
    forall i | 0 <= i < |FetchRaw(raw, cursor)| ensures FetchRaw(raw, cursor)[i] in raw && FetchRaw(raw, cursor)[i].id > cursor {
      assert FetchRaw(raw, cursor)[i] in multiset(IdAbove(raw, cursor));
    }
  }

  /** Cutting a timestamp-ordered sequence keeps both parts ordered and the head no later than the tail. */
  lemma SplitSorted(sorted: seq<RawLog>, n: nat)
    requires StableSort.SortedBy(sorted, RawTime) && n <= |sorted|
    ensures multiset(sorted[..n]) + multiset(sorted[n..]) == multiset(sorted)
    ensures StableSort.SortedBy(sorted[..n], RawTime)
    ensures forall i, j :: 0 <= i < n && 0 <= j < |sorted| - n ==> sorted[..n][i].timestamp <= sorted[n..][j].timestamp
  {
    assert sorted == sorted[..n] + sorted[n..];
    forall i, j | 0 <= i < n && 0 <= j < |sorted| - n ensures sorted[..n][i].timestamp <= sorted[n..][j].timestamp {
      assert RawTime(sorted[i]) <= RawTime(sorted[n + j]);
    }
  }

  // ---------------------------------------------------------------------------
  // Masking, classification and the re-sort
  // ---------------------------------------------------------------------------

  function MaskedLines(m: Matchers, rows: seq<RawLog>): (r: seq<string>)
    requires ValidMatchers(m)
    ensures |r| == |rows|
  {
    seq(|rows|, i requires 0 <= i < |rows| => Mask(m, rows[i].message))
  }

  /**
   * The `processed` list before its sort: the masked line goes to the miner,
   * the parameters come from the original line, `resolve` stands for
   * `parse_timestamp` with its fall-back to the current time.
   */
  function Process(m: Matchers, mine: Miner, resolve: RawLog -> int, rows: seq<RawLog>): (ps: seq<Record>)
    requires ValidMatchers(m)
    ensures |ps| == |rows|
    ensures forall i :: 0 <= i < |rows| ==> ps[i].originalId == rows[i].id && ps[i].raw == rows[i].message
  {
    var masked := MaskedLines(m, rows);
    seq(|rows|, i requires 0 <= i < |rows| =>
      var mined := mine(masked[..i], masked[i]);
      Record(rows[i].id, mined.template, mined.clusterId, ExtractParams(m, rows[i].message),
             resolve(rows[i]), rows[i].message))
  }

  function TimeOf(r: Record): int {
    r.timestamp
  }

  // ---------------------------------------------------------------------------
  // Windows
  // ---------------------------------------------------------------------------

  function Flatten(ws: seq<seq<Record>>): seq<Record>
    decreases |ws|
  {
    if ws == [] then [] else ws[0] + Flatten(ws[1..])
  }

  /**
   * A cut of ps into windows: the windows concatenate to ps, none is empty,
   * every record is at most 10 s after its window's first record, and each
   * window's first record is more than 10 s after the previous window's first.
   */
  ghost predicate IsWindowPartition(ps: seq<Record>, ws: seq<seq<Record>>) {
    && Flatten(ws) == ps
    && (forall g :: 0 <= g < |ws| ==> ws[g] != [])
    && (forall g, r :: 0 <= g < |ws| && 0 <= r < |ws[g]| ==> ws[g][r].timestamp - ws[g][0].timestamp <= WindowMicros)
    && (forall g :: 0 < g < |ws| ==> ws[g][0].timestamp - ws[g - 1][0].timestamp > WindowMicros)
  }

  /** The grouping loop continued from an open window `current` over the records `rest`. */
  function WindowsFrom(current: seq<Record>, rest: seq<Record>): seq<seq<Record>>
    requires current != []
    decreases |rest|
  {
    if rest == [] then [current]
    else if rest[0].timestamp - current[0].timestamp <= WindowMicros then WindowsFrom(current + [rest[0]], rest[1..])
    else [current] + WindowsFrom([rest[0]], rest[1..])
  }

  /** The windows the grouping loop cuts ps into. */
  function Windows(ps: seq<Record>): (ws: seq<seq<Record>>)
    ensures Flatten(ws) == ps
    ensures forall g :: 0 <= g < |ws| ==> ws[g] != []
  {
    if ps == [] then []
    else
      WindowsFromPartition([ps[0]], ps[1..]);
      assert [ps[0]] + ps[1..] == ps;
      WindowsFrom([ps[0]], ps[1..])
  }

  lemma {:induction false} WindowsFromPartition(current: seq<Record>, rest: seq<Record>)
    requires current != []
    requires forall r :: 0 <= r < |current| ==> current[r].timestamp - current[0].timestamp <= WindowMicros
    ensures IsWindowPartition(current + rest, WindowsFrom(current, rest))
    ensures WindowsFrom(current, rest)[0][0] == current[0]
    decreases |rest|
  {
    var ws := WindowsFrom(current, rest);
    if rest == [] {
      assert current + rest == current;
      assert Flatten(ws) == current + Flatten([]);
    } else if rest[0].timestamp - current[0].timestamp <= WindowMicros {
      WindowsFromPartition(current + [rest[0]], rest[1..]);
      assert current + [rest[0]] + rest[1..] == current + rest;
    } else {
      var tail := WindowsFrom([rest[0]], rest[1..]);
      WindowsFromPartition([rest[0]], rest[1..]);
      assert [rest[0]] + rest[1..] == rest;
      assert ws == [current] + tail && ws[1..] == tail;
      assert Flatten(ws) == current + Flatten(tail);
      forall g | 0 < g < |ws| ensures ws[g][0].timestamp - ws[g - 1][0].timestamp > WindowMicros {
        if g > 1 { assert ws[g] == tail[g - 1] && ws[g - 1] == tail[g - 2]; }
      }
    }
  }

  /**
   * The grouping loop on the timestamp-sorted records yields a window
   * partition of them: nothing lost, duplicated or reordered, no empty group,
   * each group within 10 s of its first record, and consecutive groups' first
   * records more than 10 s apart.
   */
  lemma WindowsArePartition(ps: seq<Record>)
    ensures IsWindowPartition(ps, Windows(ps))
  {
    if ps != [] {
      WindowsFromPartition([ps[0]], ps[1..]);
      assert [ps[0]] + ps[1..] == ps;
    }
  }

  function Numbered(ws: seq<seq<Record>>, seed: int): (gs: seq<Group>)
    ensures |gs| == |ws|
  {
    seq(|ws|, g requires 0 <= g < |ws| => Group(seed + g, ws[g]))
  }

  function RecsOf(gs: seq<Group>): (ws: seq<seq<Record>>)
    ensures |ws| == |gs|
  {
    seq(|gs|, g requires 0 <= g < |gs| => gs[g].recs)
  }

  /**
   * The grouping loop: walk the sorted records keeping the open group and
   * its start time; a record more than 10 s after the start closes the group
   * under the next id.  Ids are consecutive from the seed.
   */
  method GroupByWindow(ps: seq<Record>, seed: int) returns (gs: seq<Group>)
    ensures gs == Numbered(Windows(ps), seed)
  {
    gs := [];
    var current: seq<Record> := [];
    var startTime := 0;
    var gidSeq := seed;
    for i := 0 to |ps|
      invariant i == 0 ==> gs == [] && current == []
      invariant i > 0 ==> current != [] && startTime == current[0].timestamp
      invariant i > 0 ==> RecsOf(gs) + WindowsFrom(current, ps[i..]) == Windows(ps)
      invariant gidSeq == seed + |gs|
      invariant forall g :: 0 <= g < |gs| ==> gs[g].id == seed + g
    {
      var p := ps[i];
      assert ps[i..][0] == p && ps[i..][1..] == ps[i + 1..];
      if current == [] {
        current := [p];
        startTime := p.timestamp;
      } else if p.timestamp - startTime <= WindowMicros {
        current := current + [p];
      } else {
        assert RecsOf(gs + [Group(gidSeq, current)]) == RecsOf(gs) + [current];
        gs := gs + [Group(gidSeq, current)];
        gidSeq := gidSeq + 1;
        current := [p];
        startTime := p.timestamp;
      }
    }
    if current != [] {
      assert ps[|ps|..] == [];
      assert RecsOf(gs + [Group(gidSeq, current)]) == RecsOf(gs) + [current];
      gs := gs + [Group(gidSeq, current)];
    }
    assert RecsOf(gs) == Windows(ps);
  }

  // ---------------------------------------------------------------------------
  // Deduplication within a group
  // ---------------------------------------------------------------------------

  /** The dedup key; the parameter list itself stands for its JSON text. */
  datatype Key = Key(templateId: int, template: string, params: seq<Param>)

  function KeyOf(r: Record): Key {
    Key(r.templateId, r.template, r.params)
  }

  /** The records of recs with key k, in order. */
  function Occurrences(recs: seq<Record>, k: Key): seq<Record>
    decreases |recs|
  {
    if recs == [] then []
    else Occurrences(recs[..|recs| - 1], k) + (if KeyOf(recs[|recs| - 1]) == k then [recs[|recs| - 1]] else [])
  }

  ghost predicate Distinct<T>(xs: seq<T>) {
    forall i, j :: 0 <= i < j < |xs| ==> xs[i] != xs[j]
  }

  function MinTime(rs: seq<Record>): (t: int)
    requires rs != []
    ensures forall i :: 0 <= i < |rs| ==> t <= rs[i].timestamp
    decreases |rs|
  {
    if |rs| == 1 then rs[0].timestamp
    else
      var prev := MinTime(rs[..|rs| - 1]);
      assert forall i :: 0 <= i < |rs| - 1 ==> rs[..|rs| - 1][i] == rs[i];
      if rs[|rs| - 1].timestamp < prev then rs[|rs| - 1].timestamp else prev
  }

  function MaxTime(rs: seq<Record>): (t: int)
    requires rs != []
    ensures forall i :: 0 <= i < |rs| ==> rs[i].timestamp <= t
    decreases |rs|
  {
    if |rs| == 1 then rs[0].timestamp
    else
      var prev := MaxTime(rs[..|rs| - 1]);
      assert forall i :: 0 <= i < |rs| - 1 ==> rs[..|rs| - 1][i] == rs[i];
      if rs[|rs| - 1].timestamp > prev then rs[|rs| - 1].timestamp else prev
  }

  /** The earliest timestamp is that of an actual record. */
  lemma {:induction false} MinTimeAttained(rs: seq<Record>) returns (i: nat)
    requires rs != []
    ensures i < |rs| && rs[i].timestamp == MinTime(rs)
    decreases |rs|
  {
    if |rs| == 1 {
      i := 0;
    } else {
      var init := rs[..|rs| - 1];
      if rs[|rs| - 1].timestamp < MinTime(init) {
        i := |rs| - 1;
      } else {
        i := MinTimeAttained(init);
        assert rs[i] == init[i];
      }
    }
  }

  /** The latest timestamp is that of an actual record. */
  lemma {:induction false} MaxTimeAttained(rs: seq<Record>) returns (i: nat)
    requires rs != []
    ensures i < |rs| && rs[i].timestamp == MaxTime(rs)
    decreases |rs|
  {
    if |rs| == 1 {
      i := 0;
    } else {
      var init := rs[..|rs| - 1];
      if rs[|rs| - 1].timestamp > MaxTime(init) {
        i := |rs| - 1;
      } else {
        i := MaxTimeAttained(init);
        assert rs[i] == init[i];
      }
    }
  }

  /** One dedup entry: first original id, count, first/last seen, sample message. */
  datatype Agg = Agg(originalId: int, count: nat, firstSeen: int, lastSeen: int, sample: string)

  /** What a set of records sharing one key should be summarised as. */
  function Summarize(occ: seq<Record>): Agg
    requires occ != []
  {
    Agg(occ[0].originalId, |occ|, MinTime(occ), MaxTime(occ), occ[0].raw)
  }

  /** A dictionary entry seeing one more record with its key. */
  function Widen(d: Agg, r: Record): Agg {
    Agg(d.originalId, d.count + 1,
        if r.timestamp < d.firstSeen then r.timestamp else d.firstSeen,
        if r.timestamp > d.lastSeen then r.timestamp else d.lastSeen,
        d.sample)
  }

  /**
   * The dictionary entry for key k after the records recs, as the dedup loop
   * builds it: absent until the key first occurs, then opened with count 1
   * and widened by every later record with that key.
   */
  function EntryOf(recs: seq<Record>, k: Key): Option<Agg>
    decreases |recs|
  {
    if recs == [] then None
    else
      var prev := EntryOf(recs[..|recs| - 1], k);
      var r := recs[|recs| - 1];
      if KeyOf(r) != k then prev
      else if prev.None? then Some(Agg(r.originalId, 1, r.timestamp, r.timestamp, r.raw))
      else Some(Widen(prev.value, r))
  }

  lemma OccurrencesSnoc(recs: seq<Record>, x: Record, k: Key)
    ensures Occurrences(recs + [x], k) == Occurrences(recs, k) + (if KeyOf(x) == k then [x] else [])
  {
    assert (recs + [x])[..|recs + [x]| - 1] == recs;
  }

  lemma MinMaxSnoc(occ: seq<Record>, x: Record)
    requires occ != []
    ensures MinTime(occ + [x]) == if x.timestamp < MinTime(occ) then x.timestamp else MinTime(occ)
    ensures MaxTime(occ + [x]) == if x.timestamp > MaxTime(occ) then x.timestamp else MaxTime(occ)
  {
    assert (occ + [x])[..|occ + [x]| - 1] == occ;
  }

  /**
   * The entry the loop builds for a key is the summary of the records with
   * that key: it exists exactly when the key occurs, its original id and
   * sample are the first occurrence's, its count is the number of
   * occurrences, and its first/last seen are their earliest and latest
   * timestamps.
   */
  lemma {:induction false} EntryOfSummarizes(recs: seq<Record>, k: Key)
    ensures EntryOf(recs, k).Some? <==> Occurrences(recs, k) != []
    ensures EntryOf(recs, k).Some? ==> EntryOf(recs, k).value == Summarize(Occurrences(recs, k))
    decreases |recs|
  {
    if recs != [] {
      var init, r := recs[..|recs| - 1], recs[|recs| - 1];
      assert recs == init + [r];
      EntryOfSummarizes(init, k);
      OccurrencesSnoc(init, r, k);
      var occ := Occurrences(init, k);
      if KeyOf(r) == k {
        if occ == [] {
          assert Occurrences(recs, k) == [r];
          assert EntryOf(recs, k) == Some(Agg(r.originalId, 1, r.timestamp, r.timestamp, r.raw));
        } else {
          MinMaxSnoc(occ, r);
          assert Occurrences(recs, k) == occ + [r];
          assert (occ + [r])[0] == occ[0];
          assert EntryOf(recs, k) == Some(Widen(EntryOf(init, k).value, r));
        }
      } else {
        assert Occurrences(recs, k) == occ;
      }
    }
  }

  /** The keys of recs in the order they are first seen: the insertion order of the dictionary. */
  function FirstSeenOrder(recs: seq<Record>): (keys: seq<Key>)
    decreases |recs|
  {
    if recs == [] then []
    else
      var prev := FirstSeenOrder(recs[..|recs| - 1]);
      var k := KeyOf(recs[|recs| - 1]);
      if k in prev then prev else prev + [k]
  }

  /** A non-empty group has at least one key and no more keys than records. */
  lemma {:induction false} FirstSeenOrderSize(recs: seq<Record>)
    ensures |FirstSeenOrder(recs)| <= |recs|
    ensures recs != [] ==> 1 <= |FirstSeenOrder(recs)|
    decreases |recs|
  {
    if recs != [] {
      FirstSeenOrderSize(recs[..|recs| - 1]);
    }
  }

  /** A key is listed exactly when the dictionary has an entry for it. */
  lemma {:induction false} FirstSeenKeys(recs: seq<Record>)
    ensures forall k :: k in FirstSeenOrder(recs) <==> EntryOf(recs, k).Some?
    decreases |recs|
  {
    if recs != [] {
      FirstSeenKeys(recs[..|recs| - 1]);
    }
  }

  /** Every key is listed once. */
  lemma {:induction false} FirstSeenDistinct(recs: seq<Record>)
    ensures Distinct(FirstSeenOrder(recs))
    decreases |recs|
  {
    if recs != [] {
      FirstSeenDistinct(recs[..|recs| - 1]);
    }
  }

  /** keys and agg are the dedup dictionary of recs: its keys in insertion order and its entries. */
  ghost predicate IsDedupOf(recs: seq<Record>, keys: seq<Key>, agg: map<Key, Agg>) {
    && keys == FirstSeenOrder(recs)
    && (forall k :: k in agg <==> k in keys)
    && (forall k :: k in agg ==> EntryOf(recs, k) == Some(agg[k]))
  }

  lemma AbsorbStep(recs: seq<Record>, r: Record)
    ensures FirstSeenOrder(recs + [r]) == if KeyOf(r) in FirstSeenOrder(recs) then FirstSeenOrder(recs) else FirstSeenOrder(recs) + [KeyOf(r)]
    ensures forall k :: EntryOf(recs + [r], k) ==
              if KeyOf(r) != k then EntryOf(recs, k)
              else if EntryOf(recs, k).None? then Some(Agg(r.originalId, 1, r.timestamp, r.timestamp, r.raw))
              else Some(Widen(EntryOf(recs, k).value, r))
  {
    assert (recs + [r])[..|recs + [r]| - 1] == recs;
  }

  /**
   * The dedup dictionary of one group, kept as its insertion-ordered key list
   * and its key-to-entry map.  A new key gets an entry with count 1; a known
   * key has its count bumped and its first/last seen widened.
   */
  method Dedup(recs: seq<Record>) returns (keys: seq<Key>, agg: map<Key, Agg>)
    ensures keys == FirstSeenOrder(recs)
    ensures forall k :: k in agg <==> k in keys
    ensures forall k :: k in agg ==> EntryOf(recs, k) == Some(agg[k])
  {
    keys, agg := [], map[];
    for i := 0 to |recs|
      invariant IsDedupOf(recs[..i], keys, agg)
    {
      var r := recs[i];
      var key := KeyOf(r);
      assert recs[..i + 1] == recs[..i] + [r];
      AbsorbStep(recs[..i], r);
      FirstSeenKeys(recs[..i]);
      if key !in agg {
        agg := agg[key := Agg(r.originalId, 1, r.timestamp, r.timestamp, r.raw)];
        keys := keys + [key];
      } else {
        agg := agg[key := Widen(agg[key], r)];
      }
    }
    assert recs[..|recs|] == recs;
  }

  // ---------------------------------------------------------------------------
  // Rows written for one group, and for a whole pass
  // ---------------------------------------------------------------------------

  /** The clean row for key k of a group (k must occur in the group). */
  function RowFor(gid: int, recs: seq<Record>, k: Key, id: int): CleanRow
    requires EntryOf(recs, k).Some?
  {
    var a := EntryOf(recs, k).value;
    CleanRow(id, a.originalId, gid, k.templateId, k.template, k.params, a.count, a.firstSeen, a.lastSeen, a.sample)
  }

  /** The clean rows for the keys of a group, in order, ids from firstId on. */
  function RowsFor(gid: int, recs: seq<Record>, keys: seq<Key>, firstId: int): (rows: seq<CleanRow>)
    requires forall k :: k in keys ==> EntryOf(recs, k).Some?
    ensures |rows| == |keys|
    ensures forall j :: 0 <= j < |rows| ==> rows[j].id == firstId + j
    decreases |keys|
  {
    if keys == [] then []
    else RowsFor(gid, recs, keys[..|keys| - 1], firstId) + [RowFor(gid, recs, keys[|keys| - 1], firstId + |keys| - 1)]
  }

  /** The clean rows of one group, one per key in insertion order, ids from firstId on. */
  function GroupRows(g: Group, firstId: int): seq<CleanRow> {
    FirstSeenKeys(g.recs);
    RowsFor(g.id, g.recs, FirstSeenOrder(g.recs), firstId)
  }

  /** The `context_groups` row of one group. */
  function SummaryOf(g: Group): (r: GroupSummary)
    requires g.recs != []
    ensures r.groupId == g.id && r.totalMessages == |g.recs|
    ensures r.firstSeen <= r.lastSeen
    ensures 1 <= r.uniqueTemplates <= r.totalMessages
  {
    FirstSeenOrderSize(g.recs);
    assert MinTime(g.recs) <= g.recs[0].timestamp <= MaxTime(g.recs);
    GroupSummary(g.id, "Group of " + Decimal.NatToString(|g.recs|) + " logs",
                 MinTime(g.recs), MaxTime(g.recs), |FirstSeenOrder(g.recs)|, |g.recs|)
  }

  /** The clean rows a pass appends for the groups gs, ids from firstId on. */
  function PassRows(gs: seq<Group>, firstId: int): (rows: seq<CleanRow>)
    ensures forall j :: 0 <= j < |rows| ==> rows[j].id == firstId + j
    decreases |gs|
  {
    if gs == [] then []
    else
      var init := PassRows(gs[..|gs| - 1], firstId);
      init + GroupRows(gs[|gs| - 1], firstId + |init|)
  }

  /** The summaries of table other than group gid's, in table order. */
  function Without(table: seq<GroupSummary>, gid: int): (r: seq<GroupSummary>)
    ensures forall x :: x in r <==> x in table && x.groupId != gid
    decreases |table|
  {
    if table == [] then []
    else (if table[0].groupId != gid then [table[0]] else []) + Without(table[1..], gid)
  }

  /** `INSERT OR REPLACE`: the row with the same group id, if any, is deleted and the new row goes last. */
  function Upsert(table: seq<GroupSummary>, s: GroupSummary): (r: seq<GroupSummary>)
    ensures |r| >= 1 && r[|r| - 1] == s
    ensures forall x :: x in r <==> x == s || (x in table && x.groupId != s.groupId)
  {
    Without(table, s.groupId) + [s]
  }

  ghost predicate UniqueIds(table: seq<GroupSummary>) {
    forall i, j :: 0 <= i < j < |table| ==> table[i].groupId != table[j].groupId
  }

  lemma {:induction false} WithoutUnique(table: seq<GroupSummary>, gid: int)
    requires UniqueIds(table)
    ensures UniqueIds(Without(table, gid))
    decreases |table|
  {
    if table != [] {
      WithoutUnique(table[1..], gid);
      var rest := Without(table[1..], gid);
      forall x | x in rest ensures x.groupId != table[0].groupId {
        var j :| 0 <= j < |table[1..]| && table[1..][j] == x;
        assert table[j + 1] == x;
      }
    }
  }

  /**
   * The group id is the table's primary key: an upsert keeps ids unique,
   * stores the new summary, drops only the row it replaces, and keeps every
   * other row.
   */
  lemma UpsertSpec(table: seq<GroupSummary>, s: GroupSummary)
    requires UniqueIds(table)
    ensures UniqueIds(Upsert(table, s))
    ensures s in Upsert(table, s)
    ensures forall x :: x in Upsert(table, s) <==> x == s || (x in table && x.groupId != s.groupId)
  {
    WithoutUnique(table, s.groupId);
    var r := Upsert(table, s);
    forall i, j | 0 <= i < j < |r| ensures r[i].groupId != r[j].groupId {
      if j == |r| - 1 {
        assert r[i] in Without(table, s.groupId);
      }
    }
  }

  /** `INSERT OR REPLACE` of each group's summary, in order. */
  function Upserts(table: seq<GroupSummary>, gs: seq<Group>): seq<GroupSummary>
    requires forall g :: 0 <= g < |gs| ==> gs[g].recs != []
    decreases |gs|
  {
    if gs == [] then table
    else Upsert(Upserts(table, gs[..|gs| - 1]), SummaryOf(gs[|gs| - 1]))
  }

  /** `SELECT MAX(group_id) FROM context_groups`: None on an empty table. */
  function LastGroupId(table: seq<GroupSummary>): (r: Option<int>)
    ensures r.None? <==> table == []
    ensures r.Some? ==> forall i :: 0 <= i < |table| ==> table[i].groupId <= r.value
    decreases |table|
  {
    if table == [] then None
    else
      var prev := LastGroupId(table[..|table| - 1]);
      var last := table[|table| - 1].groupId;
      assert forall i :: 0 <= i < |table| - 1 ==> table[..|table| - 1][i] == table[i];
      if prev.None? || last > prev.value then Some(last) else prev
  }

  /** The largest group id is the id of a stored group. */
  lemma {:induction false} LastGroupIdAttained(table: seq<GroupSummary>) returns (i: nat)
    requires table != []
    ensures i < |table| && table[i].groupId == LastGroupId(table).value
    decreases |table|
  {
    var init := table[..|table| - 1];
    var prev := LastGroupId(init);
    if prev.None? || table[|table| - 1].groupId > prev.value {
      i := |table| - 1;
    } else {
      i := LastGroupIdAttained(init);
      assert table[i] == init[i];
    }
  }

  /** `(last_gid + 1) if last_gid else int(now)`: 0 and NULL both fall back to the clock. */
  function GroupSeed(lastGid: Option<int>, nowSeconds: int): (r: int)
    ensures lastGid.Some? && lastGid.value != 0 ==> r > lastGid.value
    ensures lastGid.None? || lastGid.value == 0 ==> r == nowSeconds
  {
    if lastGid.Some? && lastGid.value != 0 then lastGid.value + 1 else nowSeconds
  }

  /**
   * Seeded from a non-zero `MAX(group_id)`, the new group ids lie above every
   * stored one, so a pass never replaces an earlier pass's summary.
   */
  lemma SeedAboveStoredIds(table: seq<GroupSummary>, nowSeconds: int, g: nat)
    requires LastGroupId(table).Some? && LastGroupId(table).value != 0
    ensures forall i :: 0 <= i < |table| ==> table[i].groupId < GroupSeed(LastGroupId(table), nowSeconds) + g
  {
  }

  /** The groups of a pass over the fetched rows: its windows, numbered from the seed. */
  function PassGroups(m: Matchers, mine: Miner, resolve: RawLog -> int, fetched: seq<RawLog>, seed: int): (gs: seq<Group>)
    requires ValidMatchers(m)
    ensures forall g :: 0 <= g < |gs| ==> gs[g].recs != []
  {
    Numbered(Windows(StableSort.SortBy(Process(m, mine, resolve, fetched), TimeOf)), seed)
  }

  // ---------------------------------------------------------------------------
  // What the rows of a pass mean
  // ---------------------------------------------------------------------------

  /**
   * row is the clean row of key k in a group gid with records recs: it
   * carries the key, the number of records with that key, their earliest and
   * latest timestamps, and the original id and message of the first of them.
   */
  ghost predicate RowSummarizes(row: CleanRow, gid: int, recs: seq<Record>, k: Key, id: int) {
    var occ := Occurrences(recs, k);
    && occ != []
    && row.id == id && row.groupId == gid
    && Key(row.templateId, row.template, row.params) == k
    && row.count == |occ| && row.firstSeen == MinTime(occ) && row.lastSeen == MaxTime(occ)
    && row.originalId == occ[0].originalId && row.sample == occ[0].raw
  }

  lemma {:induction false} RowsForAt(gid: int, recs: seq<Record>, keys: seq<Key>, firstId: int, j: int)
    requires forall k :: k in keys ==> EntryOf(recs, k).Some?
    requires 0 <= j < |keys|
    ensures RowsFor(gid, recs, keys, firstId)[j] == RowFor(gid, recs, keys[j], firstId + j)
    decreases |keys|
  {
    if j < |keys| - 1 {
      var init := keys[..|keys| - 1];
      assert init[j] == keys[j];
      RowsForAt(gid, recs, init, firstId, j);
    }
  }

  /**
   * The rows of a group are one per distinct key of the group, in
   * first-occurrence order, each summarising the records with its key.
   */
  lemma GroupRowsSummarize(g: Group, firstId: int)
    ensures |GroupRows(g, firstId)| == |FirstSeenOrder(g.recs)|
    ensures Distinct(FirstSeenOrder(g.recs))
    ensures forall k :: k in FirstSeenOrder(g.recs) <==> Occurrences(g.recs, k) != []
    ensures forall j :: 0 <= j < |GroupRows(g, firstId)| ==>
              RowSummarizes(GroupRows(g, firstId)[j], g.id, g.recs, FirstSeenOrder(g.recs)[j], firstId + j)
  {
    var keys := FirstSeenOrder(g.recs);
    FirstSeenDistinct(g.recs);
    FirstSeenKeys(g.recs);
    forall k ensures k in keys <==> Occurrences(g.recs, k) != [] {
      EntryOfSummarizes(g.recs, k);
    }
    forall j | 0 <= j < |keys| ensures RowSummarizes(GroupRows(g, firstId)[j], g.id, g.recs, keys[j], firstId + j) {
      RowsForAt(g.id, g.recs, keys, firstId, j);
      EntryOfSummarizes(g.recs, keys[j]);
    }
  }

  /**
   * The summary row of a group: it counts every record of the group, one
   * unique template per clean row written for the group, whose counts add
   * up to the group's size, and spans exactly the group's earliest and
   * latest timestamps.
   */
  lemma SummaryDescribesGroup(g: Group, firstId: int)
    requires g.recs != []
    ensures SummaryOf(g).groupId == g.id
    ensures SummaryOf(g).totalMessages == |g.recs| == TotalCount(GroupRows(g, firstId))
    ensures SummaryOf(g).uniqueTemplates == |GroupRows(g, firstId)|
    ensures forall i :: 0 <= i < |g.recs| ==>
              SummaryOf(g).firstSeen <= g.recs[i].timestamp <= SummaryOf(g).lastSeen
    ensures exists i :: 0 <= i < |g.recs| && g.recs[i].timestamp == SummaryOf(g).firstSeen
    ensures exists i :: 0 <= i < |g.recs| && g.recs[i].timestamp == SummaryOf(g).lastSeen
  {
    var s := SummaryOf(g);
    GroupRowsTotal(g, firstId);
    assert |GroupRows(g, firstId)| == |FirstSeenOrder(g.recs)|;
    var lo := MinTimeAttained(g.recs);
    var hi := MaxTimeAttained(g.recs);
    assert g.recs[lo].timestamp == s.firstSeen && g.recs[hi].timestamp == s.lastSeen;
  }

  /** The sum of the counts of some clean rows. */
  function TotalCount(rows: seq<CleanRow>): nat
    decreases |rows|
  {
    if rows == [] then 0 else TotalCount(rows[..|rows| - 1]) + rows[|rows| - 1].count
  }

  lemma {:induction false} TotalAppend(a: seq<CleanRow>, b: seq<CleanRow>)
    ensures TotalCount(a + b) == TotalCount(a) + TotalCount(b)
    decreases |b|
  {
    if b == [] {
      assert a + b == a;
    } else {
      assert (a + b)[..|a + b| - 1] == a + b[..|b| - 1];
      TotalAppend(a, b[..|b| - 1]);
    }
  }

  function CountOf(recs: seq<Record>, k: Key): nat {
    if EntryOf(recs, k).Some? then EntryOf(recs, k).value.count else 0
  }

  /** The counts the dictionary holds for the keys, added up. */
  function CountSum(recs: seq<Record>, keys: seq<Key>): nat
    decreases |keys|
  {
    if keys == [] then 0 else CountSum(recs, keys[..|keys| - 1]) + CountOf(recs, keys[|keys| - 1])
  }

  lemma {:induction false} RowsForTotal(gid: int, recs: seq<Record>, keys: seq<Key>, firstId: int)
    requires forall k :: k in keys ==> EntryOf(recs, k).Some?
    ensures TotalCount(RowsFor(gid, recs, keys, firstId)) == CountSum(recs, keys)
    decreases |keys|
  {
    if keys != [] {
      var init := keys[..|keys| - 1];
      RowsForTotal(gid, recs, init, firstId);
      var last := [RowFor(gid, recs, keys[|keys| - 1], firstId + |keys| - 1)];
      TotalAppend(RowsFor(gid, recs, init, firstId), last);
      assert TotalCount(last) == last[0].count by {
        assert last[..0] == [];
      }
    }
  }

  lemma {:induction false} CountSumSnoc(recs: seq<Record>, r: Record, keys: seq<Key>)
    requires Distinct(keys)
    ensures CountSum(recs + [r], keys) == CountSum(recs, keys) + (if KeyOf(r) in keys then 1 else 0)
    decreases |keys|
  {
    AbsorbStep(recs, r);
    if keys != [] {
      var init, k := keys[..|keys| - 1], keys[|keys| - 1];
      assert keys == init + [k];
      DistinctInit(keys);
      CountSumSnoc(recs, r, init);
    }
  }

  /** Dropping the last key of a list of distinct keys leaves distinct keys, none of them the last. */
  lemma DistinctInit(keys: seq<Key>)
    requires Distinct(keys) && keys != []
    ensures Distinct(keys[..|keys| - 1]) && keys[|keys| - 1] !in keys[..|keys| - 1]
  {
    var init := keys[..|keys| - 1];
    forall i, j | 0 <= i < j < |init| ensures init[i] != init[j] {
      assert init[i] == keys[i] && init[j] == keys[j];
    }
    forall i | 0 <= i < |init| ensures init[i] != keys[|keys| - 1] {
      assert init[i] == keys[i];
    }
  }

  /** The counts of a group's dictionary add up to the size of the group. */
  lemma {:induction false} GroupCountTotal(recs: seq<Record>)
    ensures CountSum(recs, FirstSeenOrder(recs)) == |recs|
    decreases |recs|
  {
    if recs != [] {
      var init, r := recs[..|recs| - 1], recs[|recs| - 1];
      assert recs == init + [r];
      GroupCountTotal(init);
      FirstSeenDistinct(init);
      FirstSeenKeys(init);
      AbsorbStep(init, r);
      var keys := FirstSeenOrder(init);
      CountSumSnoc(init, r, keys);
      if KeyOf(r) !in keys {
        assert FirstSeenOrder(recs) == keys + [KeyOf(r)];
        assert (keys + [KeyOf(r)])[..|keys|] == keys;
        assert CountOf(recs, KeyOf(r)) == 1;
      }
    }
  }

  lemma FlattenSnoc(ws: seq<seq<Record>>, w: seq<Record>)
    ensures Flatten(ws + [w]) == Flatten(ws) + w
    decreases |ws|
  {
    if ws == [] {
      assert [w][1..] == [];
    } else {
      assert (ws + [w])[1..] == ws[1..] + [w];
      FlattenSnoc(ws[1..], w);
    }
  }

  /** The counts of one group's rows add up to the size of the group. */
  lemma GroupRowsTotal(g: Group, firstId: int)
    ensures TotalCount(GroupRows(g, firstId)) == |g.recs|
  {
    FirstSeenKeys(g.recs);
    RowsForTotal(g.id, g.recs, FirstSeenOrder(g.recs), firstId);
    GroupCountTotal(g.recs);
  }

  lemma RecsOfSnoc(gs: seq<Group>)
    requires gs != []
    ensures RecsOf(gs) == RecsOf(gs[..|gs| - 1]) + [gs[|gs| - 1].recs]
  {
  }

  lemma TotalStep(a: seq<CleanRow>, b: seq<CleanRow>, ws: seq<seq<Record>>, w: seq<Record>)
    requires TotalCount(a) == |Flatten(ws)| && TotalCount(b) == |w|
    ensures TotalCount(a + b) == |Flatten(ws + [w])|
  {
    TotalAppend(a, b);
    FlattenSnoc(ws, w);
  }

  /** The counts of the rows of a pass add up to the number of records grouped. */
  lemma {:induction false} PassRowsTotal(gs: seq<Group>, firstId: int)
    ensures TotalCount(PassRows(gs, firstId)) == |Flatten(RecsOf(gs))|
    decreases |gs|
  {
    if gs != [] {
      var init, g := gs[..|gs| - 1], gs[|gs| - 1];
      var before := PassRows(init, firstId);
      var after := GroupRows(g, firstId + |before|);
      assert PassRows(gs, firstId) == before + after;
      RecsOfSnoc(gs);
      assert RecsOf(gs) == RecsOf(init) + [g.recs];
      PassRowsTotal(init, firstId);
      GroupRowsTotal(g, firstId + |before|);
      TotalStep(before, after, RecsOf(init), g.recs);
    }
  }

  /**
   * Nothing fetched is lost or counted twice: the counts of the clean rows a
   * pass writes add up to the number of rows it fetched.
   */
  lemma PassAccountsForEveryRow(m: Matchers, mine: Miner, resolve: RawLog -> int, fetched: seq<RawLog>, seed: int, firstId: int)
    requires ValidMatchers(m)
    ensures TotalCount(PassRows(PassGroups(m, mine, resolve, fetched, seed), firstId)) == |fetched|
  {
    var ps := StableSort.SortBy(Process(m, mine, resolve, fetched), TimeOf);
    var ws := Windows(ps);
    WindowsArePartition(ps);
    assert RecsOf(Numbered(ws, seed)) == ws;
    PassRowsTotal(Numbered(ws, seed), firstId);
  }

  /** Every record of recs came from a raw row above the cursor. */
  ghost predicate AllAbove(recs: seq<Record>, cursor: int) {
    forall x :: x in recs ==> x.originalId > cursor
  }

  lemma {:induction false} EntryIdAbove(recs: seq<Record>, k: Key, cursor: int)
    requires AllAbove(recs, cursor) && EntryOf(recs, k).Some?
    ensures EntryOf(recs, k).value.originalId > cursor
    decreases |recs|
  {
    var init, r := recs[..|recs| - 1], recs[|recs| - 1];
    if EntryOf(init, k).Some? {
      assert AllAbove(init, cursor) by {
        forall x | x in init ensures x.originalId > cursor {
          assert x in recs;
        }
      }
      EntryIdAbove(init, k, cursor);
    }
  }

  lemma {:induction false} RowsForAbove(gid: int, recs: seq<Record>, keys: seq<Key>, firstId: int, cursor: int)
    requires forall k :: k in keys ==> EntryOf(recs, k).Some?
    requires AllAbove(recs, cursor)
    ensures forall j :: 0 <= j < |keys| ==> RowsFor(gid, recs, keys, firstId)[j].originalId > cursor
  {
    forall j | 0 <= j < |keys| ensures RowsFor(gid, recs, keys, firstId)[j].originalId > cursor {
      RowsForAt(gid, recs, keys, firstId, j);
      EntryIdAbove(recs, keys[j], cursor);
    }
  }

  lemma {:induction false} PassRowsAbove(gs: seq<Group>, firstId: int, cursor: int)
    requires forall g :: 0 <= g < |gs| ==> AllAbove(gs[g].recs, cursor)
    ensures forall j :: 0 <= j < |PassRows(gs, firstId)| ==> PassRows(gs, firstId)[j].originalId > cursor
    ensures (exists g :: 0 <= g < |gs| && gs[g].recs != []) ==> PassRows(gs, firstId) != []
    decreases |gs|
  {
    if gs != [] {
      var init, g := gs[..|gs| - 1], gs[|gs| - 1];
      PassRowsAbove(init, firstId, cursor);
      var before := PassRows(init, firstId);
      FirstSeenKeys(g.recs);
      RowsForAbove(g.id, g.recs, FirstSeenOrder(g.recs), firstId + |before|, cursor);
      if g.recs != [] {
        assert KeyOf(g.recs[|g.recs| - 1]) in FirstSeenOrder(g.recs);
      }
      if exists h :: 0 <= h < |gs| && gs[h].recs != [] {
        var h :| 0 <= h < |gs| && gs[h].recs != [];
        if h < |gs| - 1 {
          assert init[h] == gs[h];
        }
      }
    }
  }

  lemma FlattenMember(ws: seq<seq<Record>>, g: int, x: Record)
    requires 0 <= g < |ws| && x in ws[g]
    ensures x in Flatten(ws)
    decreases |ws|
  {
    if g > 0 {
      FlattenMember(ws[1..], g - 1, x);
    }
  }

  /**
   * The clean rows a pass writes for a non-empty batch of rows above the
   * cursor are not empty, and each carries the original id of a row above
   * the cursor.
   */
  lemma PassRowsAboveCursor(m: Matchers, mine: Miner, resolve: RawLog -> int, fetched: seq<RawLog>,
                            seed: int, firstId: int, cursor: int)
    requires ValidMatchers(m)
    requires fetched != [] && forall i :: 0 <= i < |fetched| ==> fetched[i].id > cursor
    ensures PassRows(PassGroups(m, mine, resolve, fetched, seed), firstId) != []
    ensures forall j :: 0 <= j < |PassRows(PassGroups(m, mine, resolve, fetched, seed), firstId)| ==>
              PassRows(PassGroups(m, mine, resolve, fetched, seed), firstId)[j].originalId > cursor
  {
    var ps := StableSort.SortBy(Process(m, mine, resolve, fetched), TimeOf);
    ProcessedAbove(m, mine, resolve, fetched, cursor);
    WindowsAbove(ps, seed, cursor);
    PassRowsAbove(Numbered(Windows(ps), seed), firstId, cursor);
  }

  /** Processing and sorting keep the original ids of the fetched rows. */
  lemma ProcessedAbove(m: Matchers, mine: Miner, resolve: RawLog -> int, fetched: seq<RawLog>, cursor: int)
    requires ValidMatchers(m)
    requires forall i :: 0 <= i < |fetched| ==> fetched[i].id > cursor
    ensures |StableSort.SortBy(Process(m, mine, resolve, fetched), TimeOf)| == |fetched|
    ensures AllAbove(StableSort.SortBy(Process(m, mine, resolve, fetched), TimeOf), cursor)
  {
    var ps0 := Process(m, mine, resolve, fetched);
    var ps := StableSort.SortBy(ps0, TimeOf);
    StableSort.SortByCorrect(ps0, TimeOf);
    forall x | x in ps ensures x.originalId > cursor {
      assert x in multiset(ps0);
    }
  }

  /** Every window of records above the cursor holds only such records; the first is non-empty. */
  lemma WindowsAbove(ps: seq<Record>, seed: int, cursor: int)
    requires AllAbove(ps, cursor)
    ensures forall g :: 0 <= g < |Numbered(Windows(ps), seed)| ==> AllAbove(Numbered(Windows(ps), seed)[g].recs, cursor)
    ensures ps != [] ==> |Numbered(Windows(ps), seed)| > 0 && Numbered(Windows(ps), seed)[0].recs != []
  {
    var ws := Windows(ps);
    WindowsArePartition(ps);
    var gs := Numbered(ws, seed);
    forall g | 0 <= g < |gs| ensures AllAbove(gs[g].recs, cursor) {
      forall x | x in gs[g].recs ensures x.originalId > cursor {
        FlattenMember(ws, g, x);
      }
    }
  }

  /** Appending rows whose original ids all lie above the cursor moves the cursor past it. */
  lemma AppendAboveAdvances(clean: seq<CleanRow>, rows: seq<CleanRow>, cursor: int)
    requires cursor == LastProcessed(clean)
    requires rows != [] && forall j :: 0 <= j < |rows| ==> rows[j].originalId > cursor
    ensures LastProcessed(clean + rows) > cursor
  {
    assert (clean + rows)[|clean|] == rows[0];
  }

  /**
   * A pass that fetches anything moves the cursor forward: every clean row
   * it writes carries the id of a fetched row, and every fetched row lies
   * above the cursor (FetchRawSpec).
   */
  lemma CursorAdvances(clean: seq<CleanRow>, fetched: seq<RawLog>, m: Matchers, mine: Miner, resolve: RawLog -> int, seed: int)
    requires ValidMatchers(m)
    requires fetched != [] && forall i :: 0 <= i < |fetched| ==> fetched[i].id > LastProcessed(clean)
    ensures LastProcessed(clean + PassRows(PassGroups(m, mine, resolve, fetched, seed), |clean| + 1)) > LastProcessed(clean)
  {
    var cursor := LastProcessed(clean);
    PassRowsAboveCursor(m, mine, resolve, fetched, seed, |clean| + 1, cursor);
    AppendAboveAdvances(clean, PassRows(PassGroups(m, mine, resolve, fetched, seed), |clean| + 1), cursor);
  }

  // ---------------------------------------------------------------------------
  // The consolidator's tables and one pass
  // ---------------------------------------------------------------------------

  /** Rows numbered on from the end of a consecutively numbered table keep it consecutively numbered. */
  lemma AppendKeepsIds(clean: seq<CleanRow>, rows: seq<CleanRow>)
    requires forall i :: 0 <= i < |clean| ==> clean[i].id == i + 1
    requires forall j :: 0 <= j < |rows| ==> rows[j].id == |clean| + 1 + j
    ensures forall i :: 0 <= i < |clean + rows| ==> (clean + rows)[i].id == i + 1
  {
  }

  class Consolidator {
    /** The `clean` table, in id order. */
    var clean: seq<CleanRow>
    /** The `context_groups` table. */
    var groups: seq<GroupSummary>

    /**
     * `clean` is only appended to with AUTOINCREMENT ids, so row i has id
     * i + 1; `group_id` is the primary key of `context_groups`.
     */
    ghost predicate Valid()
      reads this
    {
      && (forall i :: 0 <= i < |clean| ==> clean[i].id == i + 1)
      && UniqueIds(groups)
    }

    constructor ()
      ensures Valid() && clean == [] && groups == []
    {
      clean := [];
      groups := [];
    }

    /** `SELECT MAX(group_id) FROM context_groups`. */
    method MaxGroupId() returns (r: Option<int>)
      ensures r == LastGroupId(groups)
    {
      r := None;
      for i := 0 to |groups|
        invariant r == LastGroupId(groups[..i])
      {
        assert groups[..i + 1][..i] == groups[..i];
        if r.None? || groups[i].groupId > r.value {
          r := Some(groups[i].groupId);
        }
      }
      assert groups[..|groups|] == groups;
    }

    /** The clean rows of a group from its dedup dictionary, ids from firstId on. */
    static method RowsOf(g: Group, keys: seq<Key>, agg: map<Key, Agg>, firstId: int) returns (rows: seq<CleanRow>)
      requires keys == FirstSeenOrder(g.recs)
      requires forall k :: k in agg <==> k in keys
      requires forall k :: k in agg ==> EntryOf(g.recs, k) == Some(agg[k])
      ensures rows == GroupRows(g, firstId)
    {
      rows := [];
      for j := 0 to |keys|
        invariant rows == RowsFor(g.id, g.recs, keys[..j], firstId)
      {
        var k := keys[j];
        var d := agg[k];
        assert keys[..j + 1][..j] == keys[..j];
        rows := rows + [CleanRow(firstId + j, d.originalId, g.id, k.templateId, k.template, k.params,
                                 d.count, d.firstSeen, d.lastSeen, d.sample)];
      }
      assert keys[..|keys|] == keys;
    }

    /**
     * The clean rows the pass writes: for each group in order, one row per
     * dedup key, in the dictionary's order, with consecutive ids.
     */
    static method WriteRows(gs: seq<Group>, firstId: int) returns (rows: seq<CleanRow>)
      ensures rows == PassRows(gs, firstId)
    {
      rows := [];
      for i := 0 to |gs|
        invariant rows == PassRows(gs[..i], firstId)
      {
        assert gs[..i + 1][..i] == gs[..i] && gs[..i + 1][i] == gs[i];
        var keys, agg := Dedup(gs[i].recs);
        var more := RowsOf(gs[i], keys, agg, firstId + |rows|);
        rows := rows + more;
      }
      assert gs[..|gs|] == gs;
    }

    /** The summary rows the pass upserts, one per group in order. */
    static method WriteSummaries(table: seq<GroupSummary>, gs: seq<Group>) returns (result: seq<GroupSummary>)
      requires UniqueIds(table) && forall g :: 0 <= g < |gs| ==> gs[g].recs != []
      ensures result == Upserts(table, gs)
      ensures UniqueIds(result)
    {
      result := table;
      for i := 0 to |gs|
        invariant result == Upserts(table, gs[..i])
        invariant UniqueIds(result)
      {
        var g := gs[i];
        assert gs[..i + 1][..i] == gs[..i] && gs[..i + 1][i] == g;
        var keys, agg := Dedup(g.recs);
        var summary := GroupSummary(g.id, "Group of " + Decimal.NatToString(|g.recs|) + " logs",
                                    MinTime(g.recs), MaxTime(g.recs), |keys|, |g.recs|);
        assert summary == SummaryOf(g);
        UpsertSpec(result, summary);
        result := Without(result, g.id) + [summary];
      }
      assert gs[..|gs|] == gs;
    }

    /**
     * One pass of the consolidator.  With nothing above the cursor it changes
     * nothing; otherwise it appends the clean rows of every window, in window
     * order and key order, and upserts every window's summary.
     */
    method RunPass(raw: seq<RawLog>, m: Matchers, mine: Miner, resolve: RawLog -> int, nowSeconds: int)
      returns (fetched: seq<RawLog>)
      requires Valid() && ValidMatchers(m)
      modifies this
      ensures Valid()
      ensures fetched == FetchRaw(raw, LastProcessed(old(clean)))
      ensures fetched == [] ==> clean == old(clean) && groups == old(groups)
      ensures fetched != [] ==>
                var gs := PassGroups(m, mine, resolve, fetched, GroupSeed(LastGroupId(old(groups)), nowSeconds));
                && clean == old(clean) + PassRows(gs, |old(clean)| + 1)
                && groups == Upserts(old(groups), gs)
    {
      var cursor := LastProcessed(clean);
      fetched := FetchRaw(raw, cursor);
      if fetched == [] {
        return;
      }
      var processed := StableSort.SortBy(Process(m, mine, resolve, fetched), TimeOf);
      var lastGid := MaxGroupId();
      var seed := GroupSeed(lastGid, nowSeconds);
      var gs := GroupByWindow(processed, seed);
      assert gs == PassGroups(m, mine, resolve, fetched, seed);
      var rows := WriteRows(gs, |clean| + 1);
      var table := WriteSummaries(groups, gs);
      AppendKeepsIds(clean, rows);
      clean := clean + rows;
      groups := table;
    }
  }
}
