/**
  From the slab store to the LSM tree: no accepted chunk is given up before the slab that holds it
  has been handed over and put under the chunk's own series.
*/
module Handovers {
  import opened Words
  import opened Headers
  import opened Slabs
  import opened SlabSteps
  import opened SlabRuns
  import opened SlabQueues
  import opened FlushDb

  // Where copies come from /////////////////////////////////////////////////////////////////////

  // The copies are as they were, but for new ones on the slabs in q.
  predicate Copies(r: seq<Rec>, p: seq<Rec>, q: seq<nat>)
  {
    |r| <= |p| && forall i :: 0 <= i < |r| ==> p[i].copy == r[i].copy || (p[i].copy.Some? && p[i].copy.value in q)
  }

  lemma {:induction false} TransfersCopy(s: State, ms: seq<nat>, ds: seq<nat>, k: nat)
    requires k <= |ms| == |ds|
    ensures Copies(s.recs, Transfers(s, ms, ds, k).recs, ds[..k])
  {
    if k > 0 {
      TransfersCopy(s, ms, ds, k - 1);
      assert ds[..k] == ds[..k - 1] + [ds[k - 1]];
    }
  }

  lemma GivenUpCopies(r: seq<Rec>, p: seq<Rec>, gone: set<nat>)
    requires GivenUp(r, p, gone)
    ensures Copies(r, p, [])
  {
  }

  lemma CopiesThen(r: seq<Rec>, p: seq<Rec>, u: seq<Rec>, q: seq<nat>, q': seq<nat>)
    requires Copies(r, p, []) && Copies(p, u, q) && forall x :: x in q ==> x in q'
    ensures Copies(r, u, q')
  {
  }

  lemma FlushedCopies(s: State, cfg: Config, count: nat)
    requires RolesOk(s) && Mid(s, cfg) && Supplied(s, count)
    ensures Copies(s.recs, Flushed(s, count).recs, Flushed(s, count).usedD)
  {
    FlushedQueues(s, cfg, count);
    hide Inv, RolesOk, Mid, CountersOk, TakenOk, Transferred, Taken, Transfers, Copies, GivenUp, Elems, Ascending, CanTransfer, FromFree;
    TakenGivesUp(s, cfg, count);
    TakenSpec(s, cfg, count);
    var a, ms, ds := Taken(s, count), MemBatch(s, count), DiskBatch(s, count);
    BatchesReady(s, a, count);
    CoveredBound(ms);
    GivenUpCopies(s.recs, a.recs, Elems(s.evictD[..count - FromFree(s, count)]));
    TransfersCopy(a, ms, ds, Covered(ms));
    CopiesThen(s.recs, a.recs, Transfers(a, ms, ds, Covered(ms)).recs, ds[..Covered(ms)], Flushed(s, count).usedD);
  }

  // A flush makes copies only on slabs that it queues as used.
  lemma FlushCopies(s: State, cfg: Config)
    requires Good(s, cfg)
    ensures Copies(s.recs, Flush(s, cfg).0.recs, Flush(s, cfg).0.usedD)
  {
    if Flush(s, cfg).1 {
      GoodRoles(s, cfg);
      GoodMid(s, cfg);
      hide Good, Mid, RolesOk, Copies, Flush, Flushed;
      FlushIs(s, cfg);
      FlushedCopies(s, cfg, BatchCount(s, cfg));
    } else {
      hide Good, Flushed;
    }
  }

  lemma AcquireCopies(s: State, cfg: Config, c: (nat, nat))
    requires Good(s, cfg) && RolesOk(s) && Acquire(s, c).Some?
    ensures Copies(s.recs, Acquire(s, c).value.recs, [])
  {
    hide Queue, Pairs, Owners, Loose, Inv, ItemsOk, CountersOk, RoomOk, Repoint;
  }

  // A put makes none.
  lemma PutCopies(s: State, cfg: Config, source: nat, metric: nat, start: nat, end: nat, value: seq<byte>)
    requires Good(s, cfg) && Admissible(s, source, metric, start, end, value)
    ensures Copies(s.recs, Put(s, cfg, source, metric, start, end, value).0.recs, [])
  {
    var c, fs, fm := Class(source, metric), SourceQuotient(source), MetricQuotient(metric);
    GoodRoles(s, cfg);
    hide Good, Inv, RolesOk, Acquire, WriteAndList, Class, Admissible, SourceQuotient, MetricQuotient, Put, Copies;
    AcquireGood(s, cfg, c);
    if Acquire(s, c).Some? {
      var a := Acquire(s, c).value;
      AcquireCopies(s, cfg, c);
      RoomToWrite(a, cfg, c);
      PutRecs(s, cfg, source, metric, start, end, value, a);
      FilledRecs(a, c, fs, fm, start, end, value);
      CopiesAppend(s.recs, a.recs, WriteAndList(a, c, fs, fm, start, end, value).recs);
    } else {
      PutRefused(s, cfg, source, metric, start, end, value);
      CopiesSame(s.recs);
    }
  }

  lemma CopiesAppend(r: seq<Rec>, p: seq<Rec>, u: seq<Rec>)
    requires Copies(r, p, []) && p <= u
    ensures Copies(r, u, [])
  {
  }

  lemma CopiesSame(r: seq<Rec>)
    ensures Copies(r, r, [])
  {
  }

  // Handed over before given up //////////////////////////////////////////////////////////////

  // Call j is a migration that hands over the disk slab holding the intact copy of record i.
  ghost predicate HandedAt(s: State, cfg: Config, ops: seq<Op>, j: nat, i: nat)
    requires Good(s, cfg)
  {
    j < |ops| && ops[j].MigrateOp? && HandedBy(Exec(s, cfg, ops[..j]), cfg, i)
  }

  ghost predicate HandedBy(b: State, cfg: Config, i: nat)
  {
    && MigrateStep(b, cfg).1.Some?
    && i < |b.recs| && !b.recs[i].recycled && OnDiskCopy(b, b.recs[i])
    && b.recs[i].copy.value in MigrateStep(b, cfg).1.value
  }

  // Record i has been given up, or the disk slab of its copy waits to be taken back.
  predicate Leaving(t: State, i: nat)
  {
    i < |t.recs| && (t.recs[i].recycled || (t.recs[i].copy.Some? && t.recs[i].copy.value in t.evictD))
  }

  lemma UsedNotEvict(t: State, cfg: Config, d: nat)
    requires Good(t, cfg) && d in t.usedD
    ensures d !in t.evictD
  {
    hide Pairs, Owners, Loose, DescsOk, IndexOk, DiskOk, PairedOk, LostOk, DataOk, ItemsOk, CountersOk, RoomOk;
  }

  // What a call does to the records that leave: only a migration adds to them, those on the slabs
  // it hands over.
  lemma LeavesByMigration(s: State, cfg: Config, op: Op, i: nat)
    requires Good(s, cfg) && Leaving(Do(s, cfg, op), i) && !Leaving(s, i)
    ensures op.MigrateOp? && HandedBy(s, cfg, i)
  {
    hide Good, Put, Flush, MigrateStep, Admissible, Exec, OnDiskCopy;
    match op
    case PutOp(source, metric, start, end, value) =>
      if Admissible(s, source, metric, start, end, value) { PutLeavesNone(s, cfg, source, metric, start, end, value, i); }
    case FlushOp => FlushLeavesNone(s, cfg, i);
    case MigrateOp => MigrateHands(s, cfg, i);
  }

  lemma PutLeavesNone(s: State, cfg: Config, source: nat, metric: nat, start: nat, end: nat, value: seq<byte>, i: nat)
    requires Good(s, cfg) && Admissible(s, source, metric, start, end, value) && Leaving(Put(s, cfg, source, metric, start, end, value).0, i)
    ensures Leaving(s, i)
  {
    hide Good, Put, Admissible, SlabFor, Stores, Class, PutInto;
    PutKeeps(s, cfg, source, metric, start, end, value);
    PutCopies(s, cfg, source, metric, start, end, value);
    PutQueues(s, cfg, source, metric, start, end, value);
    var r := Put(s, cfg, source, metric, start, end, value);
    if r.1 == Stored { NewRecordIntact(s, cfg, source, metric, start, end, value); }
  }

  lemma FlushLeavesNone(s: State, cfg: Config, i: nat)
    requires Good(s, cfg) && Leaving(Flush(s, cfg).0, i)
    ensures Leaving(s, i)
  {
    FlushGood(s, cfg);
    hide Good, Flush, Reclaims;
    FlushKeeps(s, cfg);
    FlushCopies(s, cfg);
    FlushEvicts(s, cfg);
    FlushCounts(s, cfg);
    var t := Flush(s, cfg).0;
    if !t.recs[i].recycled && t.recs[i].copy != s.recs[i].copy { UsedNotEvict(t, cfg, t.recs[i].copy.value); }
  }

  lemma MigrateHands(s: State, cfg: Config, i: nat)
    requires Good(s, cfg) && Leaving(MigrateStep(s, cfg).0, i) && !Leaving(s, i)
    ensures HandedBy(s, cfg, i)
  {
    MigrateStepGood(s, cfg);
    MigrateKeeps(s, cfg);
    hide Good, Migrates, OnDiskCopy;
    CopyIntact(s, cfg, i);
  }

  lemma {:induction false} LeavingWasHanded(s: State, cfg: Config, ops: seq<Op>, i: nat)
    requires Good(s, cfg) && s.recs == [] && Leaving(Exec(s, cfg, ops), i)
    ensures exists j: nat :: HandedAt(s, cfg, ops, j, i)
  {
    hide Good, Do, HandedBy, Leaving;
    if ops == [] {
      NoRecordsNoneLeaves(s, i);
    } else {
      var n := |ops| - 1;
      var b := Exec(s, cfg, ops[..n]);
      if Leaving(b, i) {
        LeavingWasHanded(s, cfg, ops[..n], i);
        var j: nat :| HandedAt(s, cfg, ops[..n], j, i);
        assert ops[..n][..j] == ops[..j];
        assert HandedAt(s, cfg, ops, j, i);
      } else {
        LeavesByMigration(b, cfg, ops[n], i);
        assert HandedAt(s, cfg, ops, n, i);
      }
    }
  }

  lemma NoRecordsNoneLeaves(s: State, i: nat)
    requires s.recs == []
    ensures !Leaving(s, i)
  {
  }

  // Put under its own series //////////////////////////////////////////////////////////////////

  // The item is in a value under the series its header names.
  ghost predicate WrittenFor(puts: seq<(Key, seq<Item>)>, item: Item)
  {
    && |item.chunk| >= VALUE_HEADER_SIZE
    && exists x :: 0 <= x < |puts| && (puts[x].0.source, puts[x].0.metric) == HeaderSeries(item.chunk) && item in puts[x].1
  }

  lemma SlotWritten(d: Desc, slab: seq<Item>, capacity: nat, slot: nat)
    requires Filled(d, capacity) && Itemised(d, slab) && slot < d.nalloc
    ensures Headed(slab) && WrittenFor(SlabPuts(d, slab, |d.rows|), slab[slot])
  {
    SlabRegroups(d, slab, capacity);
    PutsAreValues(d, slab, |d.rows|);
    var vs, puts := Values(d, slab, |d.rows|), SlabPuts(d, slab, |d.rows|);
    hide Values, SlabPuts, HeaderSeries, Filled, Itemised;
    assert Delivered(vs, slot);
    var p: nat :| InValue(vs, p, slot);
    assert Tidy(d, slab, vs[p]);
    var k :| 0 <= k < |vs[p].slots| && vs[p].slots[k] == slot;
    assert puts[p].1[k] == slab[slot];
  }

  lemma HandedIsWritten(b: State, cfg: Config, i: nat, p: nat, slabs: seq<(nat, seq<Item>)>)
    requires Good(b, cfg) && HandedBy(b, cfg, i)
    requires var ids := MigrateStep(b, cfg).1.value; ReadAsAsked(ids, p, b.recs[i].copy.value) && HandsOver(b.disk, ids, slabs)
    ensures Writes(b, slabs, b.recs[i].item)
  {
    hide Good, ReadIds, AllPuts, WrittenFor, SlabPuts, MigrateStep, Filled, Itemised, Values, Regrouped, Headed;
    var ids, d := MigrateStep(b, cfg).1.value, b.recs[i].copy.value;
    RegroupsHanded(b, cfg, ids, slabs);
    MigrateStepGood(b, cfg);
    assert b.usedD[p] == d && d in b.usedD;
    UsedSlab(b, cfg, d);
    SlotWritten(b.dst[d], b.disk[d], cfg.capacity, b.recs[i].slot);
    WrittenAmongAll(b.dst, slabs, p, b.recs[i].item);
  }

  lemma WrittenAmongAll(dst: seq<Desc>, slabs: seq<(nat, seq<Item>)>, p: nat, item: Item)
    requires Fit(dst, slabs) && p < |slabs| && WrittenFor(SlabPuts(dst[slabs[p].0], slabs[p].1, |dst[slabs[p].0].rows|), item)
    ensures WrittenFor(AllPuts(dst, slabs, |slabs|), item)
  {
    hide SlabPuts, AllPuts, HeaderSeries, Headed;
    var puts, all := SlabPuts(dst[slabs[p].0], slabs[p].1, |dst[slabs[p].0].rows|), AllPuts(dst, slabs, |slabs|);
    var x :| 0 <= x < |puts| && (puts[x].0.source, puts[x].0.metric) == HeaderSeries(item.chunk) && item in puts[x].1;
    AllPutsHas(dst, slabs, |slabs|, p, puts[x]);
    var y :| 0 <= y < |all| && all[y] == puts[x];
  }

  // The p-th slab asked for is d, and it is the slab that was read for it.
  predicate ReadAsAsked(ids: seq<nat>, p: nat, d: nat) { p < |ids| == |ReadIds(ids)| && ids[p] == ReadIds(ids)[p] == d }

  ghost predicate Writes(b: State, slabs: seq<(nat, seq<Item>)>, item: Item)
  {
    Fit(b.dst, slabs) && WrittenFor(AllPuts(b.dst, slabs, |slabs|), item)
  }

  // If slab d was read as asked, what the migration hands over puts the item under its own series.
  ghost predicate WritesIfRead(b: State, cfg: Config, d: nat, item: Item)
  {
    && MigrateStep(b, cfg).1.Some?
    && var ids := MigrateStep(b, cfg).1.value;
       forall p: nat, slabs :: ReadAsAsked(ids, p, d) && HandsOver(b.disk, ids, slabs) ==> Writes(b, slabs, item)
  }

  // Call j hands over the slab of record i, and so puts the item under its own series.
  ghost predicate WrittenAt(s: State, cfg: Config, ops: seq<Op>, j: nat, i: nat, item: Item)
    requires Good(s, cfg)
  {
    && HandedAt(s, cfg, ops, j, i)
    && var b := Exec(s, cfg, ops[..j]); WritesIfRead(b, cfg, b.recs[i].copy.value, item)
  }

  // An accepted chunk is given up only after a migration handed over the slab with its intact copy,
  // and the LSM tree got the chunk under its own series if that slab was the one read for it.
  lemma GivenUpOnlyAfterWritten(s: State, cfg: Config, ops: seq<Op>, i: nat)
    requires Good(s, cfg) && s.recs == [] && i < |Exec(s, cfg, ops).recs| && Exec(s, cfg, ops).recs[i].recycled
    ensures exists j: nat :: WrittenAt(s, cfg, ops, j, i, Exec(s, cfg, ops).recs[i].item)
  {
    hide Good, Exec, HandedBy, WritesIfRead;
    LeavingWasHanded(s, cfg, ops, i);
    var j: nat :| HandedAt(s, cfg, ops, j, i);
    HandedWrites(Exec(s, cfg, ops[..j]), cfg, i);
    assert ops == ops[..j] + ops[j..];
    RecordsStay(s, cfg, ops[..j], ops[j..], i);
    assert WrittenAt(s, cfg, ops, j, i, Exec(s, cfg, ops).recs[i].item);
  }

  lemma HandedWrites(b: State, cfg: Config, i: nat)
    requires Good(b, cfg) && HandedBy(b, cfg, i)
    ensures i < |b.recs| && b.recs[i].copy.Some? && WritesIfRead(b, cfg, b.recs[i].copy.value, b.recs[i].item)
  {
    assert MigrateStep(b, cfg).1.Some? && i < |b.recs| && b.recs[i].copy.Some?;
    hide Good, HandedBy, ReadAsAsked, MigrateStep, HandsOver, Writes;
    var ids, d := MigrateStep(b, cfg).1.value, b.recs[i].copy.value;
    forall p: nat, slabs | ReadAsAsked(ids, p, d) && HandsOver(b.disk, ids, slabs) ensures Writes(b, slabs, b.recs[i].item) {
      HandedIsWritten(b, cfg, i, p, slabs);
    }
  }
}
