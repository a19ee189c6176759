/**
 * The rotating batch store of batchmanager/batchmana.py: five generations
 * `batch_1` (live) to `batch_5` (oldest) of clean rows, the `batch_metadata`
 * table keyed by batch id and the append-only `batch_events` log, together
 * with one cycle of `batch_management_thread`.
 *
 * The SQLite database is held in memory; `datetime.now()` is the parameter
 * `now` and timestamps are integers.  Table `batch_k` is `batches[k - 1]`.
 */
module Batches {
  import opened Decimal
  import StableSort
  import Masking
  import Consolidation

  /** BATCH_SIZE: the live batch rotates when it would grow beyond this. */
  const BatchSize: nat := 100
  /** NUM_BATCHES. */
  const NumBatches: nat := 5

  /** A row of a `batch_k` table: the columns of a clean row plus `created_at`. */
  datatype BatchRow = BatchRow(cleanId: int, template: string, templateId: int, params: seq<Masking.Param>,
                               count: nat, firstSeen: int, lastSeen: int, sample: string, createdAt: int)

  /** A row of `batch_metadata` without its key `batch_id`. */
  datatype Meta = Meta(logCount: int, firstSeen: int, lastSeen: int, createdAt: int, updatedAt: int)

  datatype EventType = DELETED | MOVED | LOADED

  /** A row of `batch_events` without its AUTOINCREMENT id. */
  datatype Event = Event(kind: EventType, batchId: int, count: int, timestamp: int, details: string)

  /** The batch database as a value. */
  datatype Store = Store(batches: seq<seq<BatchRow>>, meta: map<int, Meta>, events: seq<Event>)

  /**
   * How a rotation ends: every table renamed, or stopped by the primary key
   * of `batch_metadata`, with the state the failed statement leaves behind.
   */
  datatype ShiftResult = Shifted(store: Store) | Conflict(store: Store)

  /**
   * Five tables; metadata only for batch ids 1..5, whose `log_count` is the
   * size of its table; a table without a metadata row is empty.
   */
  ghost predicate ValidStore(s: Store) {
    && |s.batches| == NumBatches
    && (forall k :: k in s.meta ==> 1 <= k <= NumBatches && s.meta[k].logCount == |s.batches[k - 1]|)
    && (forall k :: 1 <= k <= NumBatches && k !in s.meta ==> s.batches[k - 1] == [])
  }

  // ---------------------------------------------------------------------------
  // Events
  // ---------------------------------------------------------------------------

  function DroppedEvent(count: int, now: int): Event {
    Event(DELETED, 5, count, now, "Batch 5 dropped")
  }

  function MovedEvent(from: nat, now: int): Event {
    Event(MOVED, from + 1, 0, now, "Renamed batch_" + NatToString(from) + " \U{2192} batch_" + NatToString(from + 1))
  }

  function LoadedEvent(batchId: nat, n: nat, now: int): Event {
    Event(LOADED, batchId, n, now, "Added " + NatToString(n) + " logs to Batch " + NatToString(batchId))
  }

  // ---------------------------------------------------------------------------
  // shift_batches_down
  // ---------------------------------------------------------------------------

  /** `log_count` of batch 5's metadata row, or 0 without one. */
  function DeletedCount(meta: map<int, Meta>): int {
    if 5 in meta then meta[5].logCount else 0
  }

  /** DROP TABLE batch_5, and a DELETED event when its metadata counts any rows. */
  function DropFifth(s: Store, now: int): (r: Store)
    requires |s.batches| == NumBatches
    ensures |r.batches| == NumBatches
  {
    var n := DeletedCount(s.meta);
    Store(s.batches[4 := []], s.meta, s.events + (if n > 0 then [DroppedEvent(n, now)] else []))
  }

  /** `UPDATE batch_metadata SET batch_id = from + 1, updated_at = now WHERE batch_id = from`. */
  function Relabel(meta: map<int, Meta>, from: int, now: int): map<int, Meta> {
    if from in meta then (meta - {from})[from + 1 := meta[from].(updatedAt := now)] else meta
  }

  /** The same UPDATE violates the primary key: both ids already have a row. */
  predicate RelabelConflicts(meta: map<int, Meta>, from: int) {
    from in meta && from + 1 in meta
  }

  /**
   * The renaming loop from batch `from` down to batch 1: rename the table to
   * the next id, relabel its metadata row, log a MOVED event.  A relabel
   * that hits the primary key raises, after the table has been renamed.
   */
  function MoveFrom(s: Store, from: nat, now: int): (r: ShiftResult)
    requires |s.batches| == NumBatches && from <= 4
    ensures |r.store.batches| == NumBatches
    decreases from
  {
    if from == 0 then Shifted(s)
    else
      var renamed := s.batches[from := s.batches[from - 1]][from - 1 := []];
      if RelabelConflicts(s.meta, from) then Conflict(s.(batches := renamed))
      else MoveFrom(Store(renamed, Relabel(s.meta, from, now), s.events + [MovedEvent(from, now)]), from - 1, now)
  }

  /**
   * `shift_batches_down` as written: batch 5's table is dropped but its
   * metadata row is kept.  The fresh `batch_1` is the empty table the
   * renames leave behind.
   */
  function ShiftAsWritten(s: Store, now: int): (r: ShiftResult)
    requires |s.batches| == NumBatches
    ensures |r.store.batches| == NumBatches && r.store.batches[4] == s.batches[3]
  {
    MoveFromTop(DropFifth(s, now), 4, now);
    MoveFrom(DropFifth(s, now), 4, now)
  }

  /** The first rename of the loop is never undone: batch `from + 1` ends up with batch `from`'s rows. */
  lemma MoveFromTop(s: Store, from: nat, now: int)
    requires |s.batches| == NumBatches && 1 <= from <= 4
    ensures MoveFrom(s, from, now).store.batches[from] == s.batches[from - 1]
  {
    var renamed := s.batches[from := s.batches[from - 1]][from - 1 := []];
    if !RelabelConflicts(s.meta, from) {
      MoveFromKeepsAbove(Store(renamed, Relabel(s.meta, from, now), s.events + [MovedEvent(from, now)]), from - 1, now);
    }
  }

  /** The renaming loop from batch `from` down leaves the tables above `from + 1` alone. */
  lemma {:induction false} MoveFromKeepsAbove(s: Store, from: nat, now: int)
    requires |s.batches| == NumBatches && from <= 4
    ensures forall k :: from < k < NumBatches ==> MoveFrom(s, from, now).store.batches[k] == s.batches[k]
    decreases from
  {
    if from > 0 {
      var renamed := s.batches[from := s.batches[from - 1]][from - 1 := []];
      if !RelabelConflicts(s.meta, from) {
        MoveFromKeepsAbove(Store(renamed, Relabel(s.meta, from, now), s.events + [MovedEvent(from, now)]), from - 1, now);
      }
    }
  }

  /** Dropping batch 5 together with its metadata row. */
  function EvictFifth(s: Store, now: int): (r: Store)
    requires |s.batches| == NumBatches
    ensures |r.batches| == NumBatches && 5 !in r.meta
  {
    var d := DropFifth(s, now);
    d.(meta := d.meta - {5})
  }

  /** The rotation with batch 5's metadata row deleted along with its table. */
  function Shift(s: Store, now: int): (r: Store)
    requires |s.batches| == NumBatches
    ensures r.batches == [[]] + s.batches[..4]
    ensures |r.events| > |s.events| && r.events[..|s.events|] == s.events
  {
    var e := EvictFifth(s, now);
    MoveFromUnrolled(e, now);
    assert e.batches[..4] == s.batches[..4];
    MoveFrom(e, 4, now).store
  }

  /** One relabel step that does not hit the primary key moves one row, if there is one. */
  lemma RelabelMoves(meta: map<int, Meta>, from: int, now: int)
    requires !RelabelConflicts(meta, from)
    ensures from !in Relabel(meta, from, now)
    ensures from in meta ==> from + 1 in Relabel(meta, from, now)
                             && Relabel(meta, from, now)[from + 1] == meta[from].(updatedAt := now)
    ensures from !in meta ==> Relabel(meta, from, now) == meta
    ensures forall k :: k != from && k != from + 1 ==>
              (k in Relabel(meta, from, now) <==> k in meta)
              && (k in meta ==> Relabel(meta, from, now)[k] == meta[k])
  {
  }

  /** The four steps of the loop, written out, when no relabel conflicts. */
  lemma {:induction false} MoveFromUnrolled(s: Store, now: int)
    requires |s.batches| == NumBatches && 5 !in s.meta
    ensures MoveFrom(s, 4, now).Shifted?
    ensures var m1 := Relabel(s.meta, 4, now);
            var m2 := Relabel(m1, 3, now);
            var m3 := Relabel(m2, 2, now);
            MoveFrom(s, 4, now).store
            == Store([[]] + s.batches[..4], Relabel(m3, 1, now),
                     s.events + [MovedEvent(4, now), MovedEvent(3, now), MovedEvent(2, now), MovedEvent(1, now)])
  {
    var b := s.batches;
    var m1 := Relabel(s.meta, 4, now);
    RelabelMoves(s.meta, 4, now);
    var m2 := Relabel(m1, 3, now);
    RelabelMoves(m1, 3, now);
    var m3 := Relabel(m2, 2, now);
    RelabelMoves(m2, 2, now);
    var b1 := b[4 := b[3]][3 := []];
    var b2 := b1[3 := b1[2]][2 := []];
    var b3 := b2[2 := b2[1]][1 := []];
    var b4 := b3[1 := b3[0]][0 := []];
    var e1 := s.events + [MovedEvent(4, now)];
    var e2 := e1 + [MovedEvent(3, now)];
    var e3 := e2 + [MovedEvent(2, now)];
    var e4 := e3 + [MovedEvent(1, now)];
    assert MoveFrom(s, 4, now) == MoveFrom(Store(b1, m1, e1), 3, now);
    assert MoveFrom(Store(b1, m1, e1), 3, now) == MoveFrom(Store(b2, m2, e2), 2, now);
    assert MoveFrom(Store(b2, m2, e2), 2, now) == MoveFrom(Store(b3, m3, e3), 1, now);
    assert MoveFrom(Store(b3, m3, e3), 1, now) == Shifted(Store(b4, Relabel(m3, 1, now), e4));
    assert b4 == [[]] + b[..4];
    assert e4 == s.events + [MovedEvent(4, now), MovedEvent(3, now), MovedEvent(2, now), MovedEvent(1, now)];
  }

  /**
   * A rotation: batch 1 starts empty, batch k + 1 holds what batch k held,
   * batch 5's rows are gone; the metadata row of batch k becomes that of
   * batch k + 1 with `updated_at` refreshed, batch 5's row is gone and batch
   * 1 has none; the events are DELETED(5, count) when batch 5 counted any
   * rows, then MOVED for batches 5, 4, 3 and 2 with count 0.
   */
  lemma ShiftRotates(s: Store, now: int)
    requires |s.batches| == NumBatches
    ensures Shift(s, now).batches == [[]] + s.batches[..4]
    ensures Shift(s, now).events
         == s.events + (if DeletedCount(s.meta) > 0 then [DroppedEvent(DeletedCount(s.meta), now)] else [])
          + [MovedEvent(4, now), MovedEvent(3, now), MovedEvent(2, now), MovedEvent(1, now)]
    ensures 1 !in Shift(s, now).meta
    ensures forall k :: 2 <= k <= 5 ==>
              (k in Shift(s, now).meta <==> k - 1 in s.meta)
              && (k - 1 in s.meta ==> Shift(s, now).meta[k] == s.meta[k - 1].(updatedAt := now))
    ensures forall k :: (k < 1 || k > 5) ==>
              (k in Shift(s, now).meta <==> k in s.meta)
              && (k in s.meta ==> Shift(s, now).meta[k] == s.meta[k])
  {
    var e := EvictFifth(s, now);
    MoveFromUnrolled(e, now);
    var m1 := Relabel(e.meta, 4, now);
    RelabelMoves(e.meta, 4, now);
    var m2 := Relabel(m1, 3, now);
    RelabelMoves(m1, 3, now);
    var m3 := Relabel(m2, 2, now);
    RelabelMoves(m2, 2, now);
    RelabelMoves(m3, 1, now);
    assert e.batches[..4] == s.batches[..4];
  }

  /** A rotation keeps the store valid: metadata still counts its own table. */
  lemma ShiftKeepsValid(s: Store, now: int)
    requires ValidStore(s)
    ensures ValidStore(Shift(s, now))
  {
    ShiftRotates(s, now);
    var r := Shift(s, now);
    forall k | k in r.meta ensures 1 <= k <= NumBatches && r.meta[k].logCount == |r.batches[k - 1]| {
      assert r.batches[k - 1] == s.batches[k - 2];
    }
    forall k | 1 <= k <= NumBatches && k !in r.meta ensures r.batches[k - 1] == [] {
      if k > 1 {
        assert r.batches[k - 1] == s.batches[k - 2];
      }
    }
  }

  // ---------------------------------------------------------------------------
  // add_logs_to_batch
  // ---------------------------------------------------------------------------

  /** The inserted rows: each clean row with `created_at = now`, in order. */
  function ToBatchRow(c: Consolidation.CleanRow, now: int): BatchRow {
    BatchRow(c.id, c.template, c.templateId, c.params, c.count, c.firstSeen, c.lastSeen, c.sample, now)
  }

  function Rows(logs: seq<Consolidation.CleanRow>, now: int): (rows: seq<BatchRow>)
    ensures |rows| == |logs|
  {
    seq(|logs|, i requires 0 <= i < |logs| => ToBatchRow(logs[i], now))
  }

  /** `min(log[5] for log in logs)`. */
  function MinFirstSeen(logs: seq<Consolidation.CleanRow>): (t: int)
    requires logs != []
    ensures forall i :: 0 <= i < |logs| ==> t <= logs[i].firstSeen
    decreases |logs|
  {
    if |logs| == 1 then logs[0].firstSeen
    else
      var prev := MinFirstSeen(logs[..|logs| - 1]);
      assert forall i :: 0 <= i < |logs| - 1 ==> logs[..|logs| - 1][i] == logs[i];
      if logs[|logs| - 1].firstSeen < prev then logs[|logs| - 1].firstSeen else prev
  }

  /** `max(log[6] for log in logs)`. */
  function MaxLastSeen(logs: seq<Consolidation.CleanRow>): (t: int)
    requires logs != []
    ensures forall i :: 0 <= i < |logs| ==> logs[i].lastSeen <= t
    decreases |logs|
  {
    if |logs| == 1 then logs[0].lastSeen
    else
      var prev := MaxLastSeen(logs[..|logs| - 1]);
      assert forall i :: 0 <= i < |logs| - 1 ==> logs[..|logs| - 1][i] == logs[i];
      if logs[|logs| - 1].lastSeen > prev then logs[|logs| - 1].lastSeen else prev
  }

  /** The first and last seen times of the metadata are those of actual rows. */
  lemma {:induction false} SeenAttained(logs: seq<Consolidation.CleanRow>)
    requires logs != []
    ensures exists i :: 0 <= i < |logs| && logs[i].firstSeen == MinFirstSeen(logs)
    ensures exists i :: 0 <= i < |logs| && logs[i].lastSeen == MaxLastSeen(logs)
    decreases |logs|
  {
    if |logs| == 1 {
      assert logs[0].firstSeen == MinFirstSeen(logs) && logs[0].lastSeen == MaxLastSeen(logs);
    } else {
      var init := logs[..|logs| - 1];
      var n := |logs| - 1;
      SeenAttained(init);
      var i :| 0 <= i < |init| && init[i].firstSeen == MinFirstSeen(init);
      var j :| 0 <= j < |init| && init[j].lastSeen == MaxLastSeen(init);
      assert logs[i] == init[i] && logs[j] == init[j];
      if logs[n].firstSeen < MinFirstSeen(init) {
        assert logs[n].firstSeen == MinFirstSeen(logs);
      } else {
        assert logs[i].firstSeen == MinFirstSeen(logs);
      }
      if logs[n].lastSeen > MaxLastSeen(init) {
        assert logs[n].lastSeen == MaxLastSeen(logs);
      } else {
        assert logs[j].lastSeen == MaxLastSeen(logs);
      }
    }
  }

  /** `add_logs_to_batch(batch_id, logs)` on the store. */
  function AddSpec(s: Store, batchId: nat, logs: seq<Consolidation.CleanRow>, now: int): (r: Store)
    requires |s.batches| == NumBatches && 1 <= batchId <= NumBatches
    ensures |r.batches| == NumBatches
    ensures r.batches[batchId - 1] == s.batches[batchId - 1] + Rows(logs, now)
    ensures forall k :: 0 <= k < NumBatches && k != batchId - 1 ==> r.batches[k] == s.batches[k]
    ensures logs != [] ==> batchId in r.meta
    ensures |r.events| == |s.events| + (if logs == [] then 0 else 1) && r.events[..|s.events|] == s.events
  {
    if logs == [] then assert s.batches[batchId - 1] + Rows(logs, now) == s.batches[batchId - 1]; s
    else
      var n := |logs|;
      var meta :=
        if batchId in s.meta then
          s.meta[batchId := s.meta[batchId].(logCount := s.meta[batchId].logCount + n,
                                              lastSeen := MaxLastSeen(logs), updatedAt := now)]
        else s.meta[batchId := Meta(n, MinFirstSeen(logs), MaxLastSeen(logs), now, now)];
      Store(s.batches[batchId - 1 := s.batches[batchId - 1] + Rows(logs, now)], meta,
            s.events + [LoadedEvent(batchId, n, now)])
  }

  /**
   * Adding logs: nothing changes for an empty list; otherwise the batch
   * gains exactly the given rows at its end and no other batch changes; an
   * existing metadata row gains len(logs) in its count and takes the latest
   * last-seen of the new rows, keeping its first-seen and created-at, and a
   * missing one is created with count len(logs) and the earliest and latest
   * times of the new rows; exactly one LOADED event with count len(logs) is
   * appended.
   */
  lemma AddLogsEffect(s: Store, batchId: nat, logs: seq<Consolidation.CleanRow>, now: int)
    requires |s.batches| == NumBatches && 1 <= batchId <= NumBatches
    ensures logs == [] ==> AddSpec(s, batchId, logs, now) == s
    ensures logs != [] ==>
              var r := AddSpec(s, batchId, logs, now);
              && r.batches[batchId - 1][..|s.batches[batchId - 1]|] == s.batches[batchId - 1]
              && |r.batches[batchId - 1]| == |s.batches[batchId - 1]| + |logs|
              && (forall i :: 0 <= i < |logs| ==>
                    r.batches[batchId - 1][|s.batches[batchId - 1]| + i] == ToBatchRow(logs[i], now))
              && (forall k :: 0 <= k < NumBatches && k != batchId - 1 ==> r.batches[k] == s.batches[k])
              && r.meta.Keys == s.meta.Keys + {batchId}
              && (forall k :: k in s.meta && k != batchId ==> r.meta[k] == s.meta[k])
              && (batchId in s.meta ==>
                    && r.meta[batchId].logCount == s.meta[batchId].logCount + |logs|
                    && r.meta[batchId].firstSeen == s.meta[batchId].firstSeen
                    && r.meta[batchId].createdAt == s.meta[batchId].createdAt
                    && r.meta[batchId].lastSeen == MaxLastSeen(logs))
              && (batchId !in s.meta ==>
                    r.meta[batchId] == Meta(|logs|, MinFirstSeen(logs), MaxLastSeen(logs), now, now))
              && r.events == s.events + [Event(LOADED, batchId, |logs|, now, LoadedEvent(batchId, |logs|, now).details)]
  {
  }

  /** Adding logs keeps the store valid. */
  lemma AddKeepsValid(s: Store, batchId: nat, logs: seq<Consolidation.CleanRow>, now: int)
    requires ValidStore(s) && 1 <= batchId <= NumBatches
    ensures ValidStore(AddSpec(s, batchId, logs, now))
  {
    var r := AddSpec(s, batchId, logs, now);
    if logs != [] {
      forall k | k in r.meta ensures 1 <= k <= NumBatches && r.meta[k].logCount == |r.batches[k - 1]| {
        if k == batchId && batchId !in s.meta {
          assert s.batches[batchId - 1] == [];
        }
      }
    }
  }

  // ---------------------------------------------------------------------------
  // One cycle of batch_management_thread
  // ---------------------------------------------------------------------------

  /** `SELECT MAX(clean_id) FROM batch_1`, with `or 0` for an empty table. */
  function LastCleanId(rows: seq<BatchRow>): (r: int)
    ensures rows == [] ==> r == 0
    ensures forall i :: 0 <= i < |rows| ==> rows[i].cleanId <= r
    decreases |rows|
  {
    if rows == [] then 0
    else if |rows| == 1 then rows[0].cleanId
    else
      var prev := LastCleanId(rows[..|rows| - 1]);
      assert forall i :: 0 <= i < |rows| - 1 ==> rows[..|rows| - 1][i] == rows[i];
      var last := rows[|rows| - 1].cleanId;
      if last > prev then last else prev
  }

  /** For a non-empty table the cursor is the clean id of one of its rows. */
  lemma {:induction false} LastCleanIdAttained(rows: seq<BatchRow>) returns (i: nat)
    requires rows != []
    ensures i < |rows| && rows[i].cleanId == LastCleanId(rows)
    decreases |rows|
  {
    if |rows| == 1 {
      i := 0;
    } else {
      var init := rows[..|rows| - 1];
      var j := LastCleanIdAttained(init);
      assert rows[j] == init[j];
      i := if rows[|rows| - 1].cleanId > LastCleanId(init) then |rows| - 1 else j;
    }
  }

  /** `WHERE id > last_id` over the clean table, in table order. */
  function CleanAbove(clean: seq<Consolidation.CleanRow>, lastId: int): seq<Consolidation.CleanRow>
    decreases |clean|
  {
    if clean == [] then []
    else (if clean[0].id > lastId then [clean[0]] else []) + CleanAbove(clean[1..], lastId)
  }

  function CleanId(c: Consolidation.CleanRow): int {
    c.id
  }

  /** `SELECT ... FROM clean WHERE id > last_id ORDER BY id ASC`. */
  function NewLogs(clean: seq<Consolidation.CleanRow>, lastId: int): (r: seq<Consolidation.CleanRow>)
    ensures StableSort.SortedBy(r, CleanId)
    ensures multiset(r) == multiset(CleanAbove(clean, lastId))
  {
    StableSort.SortByCorrect(CleanAbove(clean, lastId), CleanId);
    StableSort.SortBy(CleanAbove(clean, lastId), CleanId)
  }

  lemma {:induction false} CleanAboveMembers(clean: seq<Consolidation.CleanRow>, lastId: int)
    ensures forall c :: c in CleanAbove(clean, lastId) <==> c in clean && c.id > lastId
    decreases |clean|
  {
    if clean != [] {
      CleanAboveMembers(clean[1..], lastId);
      assert clean == [clean[0]] + clean[1..];
    }
  }

  /** The new logs are exactly the clean rows above the cursor, in ascending id order. */
  lemma NewLogsSpec(clean: seq<Consolidation.CleanRow>, lastId: int)
    ensures forall c :: c in NewLogs(clean, lastId) <==> c in clean && c.id > lastId
    ensures StableSort.SortedBy(NewLogs(clean, lastId), CleanId)
    ensures multiset(NewLogs(clean, lastId)) == multiset(CleanAbove(clean, lastId))
  {
    CleanAboveMembers(clean, lastId);
    StableSort.SortByCorrect(CleanAbove(clean, lastId), CleanId);
    forall c ensures c in NewLogs(clean, lastId) <==> c in CleanAbove(clean, lastId) {
      assert c in NewLogs(clean, lastId) <==> c in multiset(NewLogs(clean, lastId));
    }
  }

  /**
   * The clean table hands out ids in increasing order, so the filtered rows
   * are already in `ORDER BY id` order and sorting them keeps table order.
   */
  lemma NewLogsInTableOrder(clean: seq<Consolidation.CleanRow>, lastId: int)
    requires forall i, j :: 0 <= i < j < |clean| ==> clean[i].id < clean[j].id
    ensures NewLogs(clean, lastId) == CleanAbove(clean, lastId)
  {
    CleanAboveAscending(clean, lastId);
    StableSort.SortBySorted(CleanAbove(clean, lastId), CleanId);
  }

  lemma {:induction false} CleanAboveAscending(clean: seq<Consolidation.CleanRow>, lastId: int)
    requires forall i, j :: 0 <= i < j < |clean| ==> clean[i].id < clean[j].id
    ensures StableSort.SortedBy(CleanAbove(clean, lastId), CleanId)
    decreases |clean|
  {
    if clean != [] {
      var tail := CleanAbove(clean[1..], lastId);
      CleanAboveAscending(clean[1..], lastId);
      TailAboveHead(clean, lastId);
      var head := if clean[0].id > lastId then [clean[0]] else [];
      var r := CleanAbove(clean, lastId);
      assert r == head + tail;
      forall i, j | 0 <= i < j < |r| ensures CleanId(r[i]) <= CleanId(r[j]) {
        if i >= |head| {
          assert r[i] == tail[i - |head|] && r[j] == tail[j - |head|];
        } else {
          assert r[i] == clean[0] && r[j] == tail[j - 1];
        }
      }
    }
  }

  /** With ascending ids, every row the filter keeps from the tail lies above the first row. */
  lemma TailAboveHead(clean: seq<Consolidation.CleanRow>, lastId: int)
    requires clean != []
    requires forall i, j :: 0 <= i < j < |clean| ==> clean[i].id < clean[j].id
    ensures forall k :: 0 <= k < |CleanAbove(clean[1..], lastId)| ==> clean[0].id < CleanAbove(clean[1..], lastId)[k].id
  {
    var tail := CleanAbove(clean[1..], lastId);
    CleanAboveMembers(clean[1..], lastId);
    forall k | 0 <= k < |tail| ensures clean[0].id < tail[k].id {
      assert tail[k] in clean[1..];
      var q :| 0 <= q < |clean[1..]| && clean[1..][q] == tail[k];
      assert clean[q + 1] == tail[k];
    }
  }

  /** `log_count` of batch 1's metadata row, or 0 without one. */
  function Batch1Count(meta: map<int, Meta>): int {
    if 1 in meta then meta[1].logCount else 0
  }

  /** The rotation decision: the live batch would grow beyond BATCH_SIZE. */
  predicate Overflows(s: Store, n: nat) {
    Batch1Count(s.meta) + n > BatchSize
  }

  /** One cycle: fetch the clean rows above batch 1's largest id, rotate on overflow, add them to batch 1. */
  function CycleSpec(s: Store, clean: seq<Consolidation.CleanRow>, now: int): (r: Store)
    requires |s.batches| == NumBatches
    ensures |r.batches| == NumBatches
    ensures var logs := NewLogs(clean, LastCleanId(s.batches[0]));
            && (logs == [] ==> r == s)
            && |logs| <= |r.batches[0]|
            && r.batches[0][|r.batches[0]| - |logs|..] == Rows(logs, now)
  {
    var logs := NewLogs(clean, LastCleanId(s.batches[0]));
    if logs == [] then s
    else if Overflows(s, |logs|) then AddSpec(Shift(s, now), 1, logs, now)
    else AddSpec(s, 1, logs, now)
  }

  /** In a valid store the recorded count of batch 1 is the size of batch 1. */
  lemma Batch1CountIsSize(s: Store)
    requires ValidStore(s)
    ensures Batch1Count(s.meta) == |s.batches[0]|
  {
  }

  /**
   * A cycle with new logs rotates exactly when they would overflow batch 1,
   * and then puts all of them into batch 1, however many there are: after a
   * rotation batch 1 holds exactly the new rows and the older batches move
   * down one place; otherwise batch 1 gains the new rows at its end and the
   * other batches are untouched.  A cycle without new logs changes nothing.
   */
  lemma CycleEffect(s: Store, clean: seq<Consolidation.CleanRow>, now: int)
    requires |s.batches| == NumBatches
    ensures var logs := NewLogs(clean, LastCleanId(s.batches[0]));
            var r := CycleSpec(s, clean, now);
            && (logs == [] ==> r == s)
            && (logs != [] && Overflows(s, |logs|) ==>
                  r.batches[0] == Rows(logs, now) && r.batches[1..] == s.batches[..4])
            && (logs != [] && !Overflows(s, |logs|) ==>
                  r.batches[0] == s.batches[0] + Rows(logs, now) && r.batches[1..] == s.batches[1..])
  {
    var logs := NewLogs(clean, LastCleanId(s.batches[0]));
    if logs != [] {
      if Overflows(s, |logs|) {
        ShiftRotates(s, now);
        AddToFirst(Shift(s, now), logs, now);
      } else {
        AddToFirst(s, logs, now);
      }
    }
  }

  /** Adding logs to batch 1 only extends batch 1. */
  lemma AddToFirst(s: Store, logs: seq<Consolidation.CleanRow>, now: int)
    requires |s.batches| == NumBatches && logs != []
    ensures AddSpec(s, 1, logs, now).batches[0] == s.batches[0] + Rows(logs, now)
    ensures AddSpec(s, 1, logs, now).batches[1..] == s.batches[1..]
  {
    var r := AddSpec(s, 1, logs, now);
    assert r.batches == s.batches[0 := s.batches[0] + Rows(logs, now)];
  }

  /**
   * A cycle never lets batch 1 outgrow BATCH_SIZE when each fetch is within
   * it: either the new rows fit after the rows already there, or batch 1 is
   * rotated away and holds only the new rows.
   */
  lemma CycleBoundsLiveBatch(s: Store, clean: seq<Consolidation.CleanRow>, now: int)
    requires ValidStore(s) && |s.batches[0]| <= BatchSize
    requires |NewLogs(clean, LastCleanId(s.batches[0]))| <= BatchSize
    ensures |CycleSpec(s, clean, now).batches[0]| <= BatchSize
  {
    Batch1CountIsSize(s);
    CycleEffect(s, clean, now);
  }

  /** A cycle keeps the store valid. */
  lemma CycleKeepsValid(s: Store, clean: seq<Consolidation.CleanRow>, now: int)
    requires ValidStore(s)
    ensures ValidStore(CycleSpec(s, clean, now))
  {
    var logs := NewLogs(clean, LastCleanId(s.batches[0]));
    if logs != [] {
      if Overflows(s, |logs|) {
        ShiftKeepsValid(s, now);
        AddKeepsValid(Shift(s, now), 1, logs, now);
      } else {
        AddKeepsValid(s, 1, logs, now);
      }
    }
  }

  // ---------------------------------------------------------------------------
  // The rotation as written: the stale batch-5 metadata row
  // ---------------------------------------------------------------------------

  /**
   * As written, a rotation fails exactly when batches 4 and 5 both have
   * metadata rows: relabelling 4 to 5 then violates the primary key.  The
   * failure leaves batch 5 dropped and refilled with batch 4's rows by the
   * rename, no `batch_4` table (shown empty), the metadata untouched and
   * only the DELETED event logged.
   */
  lemma ShiftAsWrittenConflicts(s: Store, now: int)
    requires |s.batches| == NumBatches
    ensures ShiftAsWritten(s, now).Conflict? <==> 4 in s.meta && 5 in s.meta
    ensures ShiftAsWritten(s, now).Conflict? ==>
              ShiftAsWritten(s, now).store
              == Store(s.batches[3 := []][4 := s.batches[3]], s.meta,
                       s.events + (if DeletedCount(s.meta) > 0 then [DroppedEvent(DeletedCount(s.meta), now)] else []))
  {
    var d := DropFifth(s, now);
    if !(4 in s.meta && 5 in s.meta) {
      var m1 := Relabel(d.meta, 4, now);
      RelabelMoves(d.meta, 4, now);
      var m2 := Relabel(m1, 3, now);
      RelabelMoves(m1, 3, now);
      var m3 := Relabel(m2, 2, now);
      RelabelMoves(m2, 2, now);
      var b := d.batches;
      var b1 := b[4 := b[3]][3 := []];
      var b2 := b1[3 := b1[2]][2 := []];
      var b3 := b2[2 := b2[1]][1 := []];
      var e1 := d.events + [MovedEvent(4, now)];
      var e2 := e1 + [MovedEvent(3, now)];
      var e3 := e2 + [MovedEvent(2, now)];
      assert MoveFrom(d, 4, now) == MoveFrom(Store(b1, m1, e1), 3, now);
      assert MoveFrom(Store(b1, m1, e1), 3, now) == MoveFrom(Store(b2, m2, e2), 2, now);
      assert MoveFrom(Store(b2, m2, e2), 2, now) == MoveFrom(Store(b3, m3, e3), 1, now);
    } else {
      assert d.batches[4 := d.batches[3]][3 := []] == s.batches[3 := []][4 := s.batches[3]];
    }
  }

  /** Without a batch-5 metadata row the code as written rotates like the corrected one. */
  lemma ShiftAsWrittenAgrees(s: Store, now: int)
    requires |s.batches| == NumBatches && 5 !in s.meta
    ensures ShiftAsWritten(s, now) == Shifted(Shift(s, now))
  {
    assert EvictFifth(s, now) == DropFifth(s, now);
    MoveFromUnrolled(DropFifth(s, now), now);
  }

  /** All five generations with one row each, every one with its metadata row. */
  function FullStore(): Store {
    var row := BatchRow(1, "t", 1, [], 1, 0, 0, "m", 0);
    var md := Meta(1, 0, 0, 0, 0);
    Store([[row], [row], [row], [row], [row]], map[1 := md, 2 := md, 3 := md, 4 := md, 5 := md], [])
  }

  /**
   * A valid store with all five generations in use, as after the fourth
   * rotation: the next rotation as written raises, while the corrected one
   * rotates and keeps the store valid.
   */
  lemma FifthRotationConflicts(now: int)
    ensures ValidStore(FullStore())
    ensures ShiftAsWritten(FullStore(), now).Conflict?
    ensures ValidStore(Shift(FullStore(), now))
  {
    ShiftAsWrittenConflicts(FullStore(), now);
    ShiftKeepsValid(FullStore(), now);
  }

  // ---------------------------------------------------------------------------
  // The batch database as a mutable object
  // ---------------------------------------------------------------------------

  class BatchStore {
    /** The tables batch_1 .. batch_5. */
    const batches: array<seq<BatchRow>>
    /** `batch_metadata`, keyed by batch id. */
    var meta: map<int, Meta>
    /** `batch_events`, oldest first. */
    var events: seq<Event>

    function State(): Store
      reads this, batches
    {
      Store(batches[..], meta, events)
    }

    ghost predicate Valid()
      reads this, batches
    {
      batches.Length == NumBatches && ValidStore(State())
    }

    /** The tables as `init_database` creates them: five empty batches, no metadata, no events. */
    constructor ()
      ensures Valid() && State() == Store([[], [], [], [], []], map[], [])
    {
      batches := new seq<BatchRow>[NumBatches](_ => []);
      meta := map[];
      events := [];
      new;
      assert batches[..] == [[], [], [], [], []];
    }

    /** `log_batch_event`: append one event. */
    method LogBatchEvent(kind: EventType, batchId: int, count: int, now: int, details: string)
      modifies this
      ensures meta == old(meta)
      ensures events == old(events) + [Event(kind, batchId, count, now, details)]
    {
      events := events + [Event(kind, batchId, count, now, details)];
    }

    /**
     * `shift_batches_down`, with batch 5's metadata row deleted together
     * with its table so that the 4 to 5 relabel cannot hit the primary key.
     */
    method ShiftBatchesDown(now: int)
      requires Valid()
      modifies this, batches
      ensures Valid()
      ensures State() == Shift(old(State()), now)
    {
      ghost var s0 := State();
      var deleted := if 5 in meta then meta[5].logCount else 0;
      batches[4] := [];
      meta := meta - {5};
      if deleted > 0 {
        LogBatchEvent(DELETED, 5, deleted, now, "Batch 5 dropped");
      }
      ghost var s1 := State();
      assert s1 == EvictFifth(s0, now);
      var from := 4;
      while from > 0
        invariant 0 <= from <= 4
        invariant from + 1 !in meta
        invariant MoveFrom(State(), from, now) == MoveFrom(s1, 4, now)
        decreases from
      {
        ghost var before := State();
        batches[from] := batches[from - 1];
        batches[from - 1] := [];
        if from in meta {
          meta := (meta - {from})[from + 1 := meta[from].(updatedAt := now)];
        }
        assert meta == Relabel(before.meta, from, now);
        LogBatchEvent(MOVED, from + 1, 0, now, MovedEvent(from, now).details);
        assert State() == Store(before.batches[from := before.batches[from - 1]][from - 1 := []],
                                Relabel(before.meta, from, now), before.events + [MovedEvent(from, now)]);
        from := from - 1;
      }
      ShiftKeepsValid(s0, now);
    }

    /** `add_logs_to_batch`. */
    method AddLogsToBatch(batchId: nat, logs: seq<Consolidation.CleanRow>, now: int)
      requires Valid() && 1 <= batchId <= NumBatches
      modifies this, batches
      ensures Valid()
      ensures State() == AddSpec(old(State()), batchId, logs, now)
    {
      ghost var s0 := State();
      AddKeepsValid(s0, batchId, logs, now);
      if logs == [] {
        return;
      }
      batches[batchId - 1] := batches[batchId - 1] + Rows(logs, now);
      var firstSeen := MinFirstSeen(logs);
      var lastSeen := MaxLastSeen(logs);
      if batchId in meta {
        meta := meta[batchId := meta[batchId].(logCount := meta[batchId].logCount + |logs|,
                                               lastSeen := lastSeen, updatedAt := now)];
      } else {
        meta := meta[batchId := Meta(|logs|, firstSeen, lastSeen, now, now)];
      }
      LogBatchEvent(LOADED, batchId, |logs|, now, LoadedEvent(batchId, |logs|, now).details);
    }

    /**
     * One cycle of `batch_management_thread`: the clean rows above batch 1's
     * largest clean id, in id order; a rotation exactly when they would
     * overflow batch 1; then all of them into batch 1.
     */
    method ManageCycle(clean: seq<Consolidation.CleanRow>, now: int)
      returns (newLogs: seq<Consolidation.CleanRow>, rotated: bool)
      requires Valid()
      modifies this, batches
      ensures Valid()
      ensures newLogs == NewLogs(clean, LastCleanId(old(batches[0])))
      ensures rotated <==> newLogs != [] && Batch1Count(old(meta)) + |newLogs| > BatchSize
      ensures State() == CycleSpec(old(State()), clean, now)
    {
      var lastId := LastCleanId(batches[0]);
      newLogs := NewLogs(clean, lastId);
      rotated := false;
      if newLogs != [] {
        var batch1Count := if 1 in meta then meta[1].logCount else 0;
        if batch1Count + |newLogs| > BatchSize {
          ShiftBatchesDown(now);
          rotated := true;
        }
        AddLogsToBatch(1, newLogs, now);
      }
    }
  }
}
