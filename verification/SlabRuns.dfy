/**
  Whole runs of the slab store: migration, the three calls as one step relation, and what holds
  in every state that any sequence of calls reaches from the start.
*/
module SlabRuns {
  import opened Words
  import opened Headers
  import opened Slabs
  import opened SlabSteps

  // Migration ///////////////////////////////////////////////////////////////////////////

  function Migrates(s: State, k: nat): State
  {
    if k == 0 then s
    else
      var t := Migrates(s, k - 1);
      if t.usedD != [] && t.usedD[0] < |t.drole| then Migrate(t) else t
  }

  // One call of the migrator: the slabs it hands over, oldest first, become evictable.
  function MigrateStep(s: State, cfg: Config): (State, Option<seq<nat>>)
  {
    if s.n.usedD < cfg.migrateBatch || |s.usedD| < cfg.nbuf then (s, None)
    else (Migrates(s, cfg.nbuf), Some(s.usedD[..cfg.nbuf]))
  }

  lemma MigrateOneGood(s: State, cfg: Config)
    requires Good(s, cfg) && s.usedD != []
    ensures s.usedD[0] < |s.drole| && Good(Migrate(s), cfg)
  {
    MigrateInv(s, cfg);
    hide Queue, Pairs, Owners, Loose, DescsOk, IndexOk, DiskOk, DataOk, Itemised;
  }

  predicate Migrated(s: State, t: State, k: nat)
  {
    && k <= |s.usedD| && t.usedD == s.usedD[k..] && t.evictD == s.evictD + s.usedD[..k]
    && t.mem == s.mem && t.mst == s.mst && t.disk == s.disk && t.dst == s.dst && t.index == s.index
    && t.recs == s.recs && t.clock == s.clock && t.owner == s.owner
    && t.freeM == s.freeM && t.fullM == s.fullM && t.evictM == s.evictM && t.freeD == s.freeD && t.looseM == s.looseM && t.looseD == s.looseD
  }

  lemma MigratedMore(s: State, t: State, u: State, k: nat)
    requires Migrated(s, t, k) && Migrated(t, u, 1)
    ensures Migrated(s, u, k + 1)
  {
    assert s.usedD[..k + 1] == s.usedD[..k] + s.usedD[k..][..1];
    assert s.usedD[k..][1..] == s.usedD[k + 1..];
  }

  lemma {:induction false} MigratesGood(s: State, cfg: Config, k: nat)
    requires Good(s, cfg) && k <= |s.usedD|
    ensures Good(Migrates(s, k), cfg) && Migrated(s, Migrates(s, k), k)
  {
    hide Good;
    if k > 0 {
      MigratesGood(s, cfg, k - 1);
      var t := Migrates(s, k - 1);
      MigrateOneGood(t, cfg);
      assert Migrated(t, Migrate(t), 1);
      MigratedMore(s, t, Migrate(t), k - 1);
    }
  }

  // A migration changes only queues: the contents stay where they are and stay indexed.
  lemma MigrateStepGood(s: State, cfg: Config)
    requires Good(s, cfg)
    ensures Good(MigrateStep(s, cfg).0, cfg)
    ensures MigrateStep(s, cfg).1.Some? <==> |s.usedD| + |s.looseD| >= cfg.migrateBatch && |s.usedD| >= cfg.nbuf
    ensures MigrateStep(s, cfg).1.Some? ==>
              Migrated(s, MigrateStep(s, cfg).0, cfg.nbuf) && MigrateStep(s, cfg).1.value == s.usedD[..cfg.nbuf]
  {
    hide Migrates;
    if |s.usedD| >= cfg.nbuf { MigratesGood(s, cfg, cfg.nbuf); }
    hide Inv, RoomOk, ItemsOk;
  }

  // The reading half of a migration: when first and last id are as far apart as the slabs are
  // many, one read of that many slabs from the first one on; otherwise one read per slab.
  predicate Spans(ids: seq<nat>)
  {
    ids != [] && ids[|ids| - 1] + 1 == ids[0] + |ids|
  }

  function ReadIds(ids: seq<nat>): (r: seq<nat>)
  {
    if Spans(ids) then seq(|ids|, i requires 0 <= i < |ids| => ids[0] + i) else ids
  }

  predicate Consecutive(ids: seq<nat>)
  {
    forall i :: 0 <= i < |ids| ==> ids[i] == ids[0] + i
  }

  // The slabs read are the slabs asked for exactly when the shortcut is taken only on
  // consecutive ids.
  lemma ReadsWhatWasAsked(ids: seq<nat>)
    ensures ReadIds(ids) == ids <==> (Spans(ids) ==> Consecutive(ids))
    ensures Ascending(ids) ==> ReadIds(ids) == ids
  {
    if Spans(ids) && ReadIds(ids) == ids {
      forall i | 0 <= i < |ids| ensures ids[i] == ids[0] + i { assert ReadIds(ids)[i] == ids[i]; }
    }
    if Ascending(ids) && Spans(ids) {
      forall i | 0 <= i < |ids| ensures ids[i] == ids[0] + i {
        AscendsAtLeast(ids, 0, i);
        AscendsAtLeast(ids, i, |ids| - 1);
      }
    }
  }

  lemma {:induction false} AscendsAtLeast(ids: seq<nat>, i: nat, j: nat)
    requires Ascending(ids) && i <= j < |ids|
    ensures ids[j] >= ids[i] + (j - i)
    decreases j
  {
    if i < j { AscendsAtLeast(ids, i, j - 1); }
  }

  // Each slab handed over comes with the contents of the slab that was read for it.
  predicate HandsOver(disk: seq<seq<Item>>, ids: seq<nat>, slabs: seq<(nat, seq<Item>)>)
  {
    && |slabs| == |ids| == |ReadIds(ids)|
    && (forall i :: 0 <= i < |ids| ==> slabs[i].0 == ids[i] && ReadIds(ids)[i] < |disk| && slabs[i].1 == disk[ReadIds(ids)[i]])
  }

  // What becomes of accepted chunks ////////////////////////////////////////////////////////

  // A record never changes what it is about; a copy, once made, is never redirected.
  predicate KeptRec(a: Rec, b: Rec)
  {
    && b.item == a.item && b.m == a.m && b.slot == a.slot
    && (a.copy.Some? ==> b.copy == a.copy) && (!a.inMem ==> !b.inMem) && (a.recycled ==> b.recycled)
  }

  // No record is lost; the copies given up are those on the disk slabs in `gone`.
  predicate Kept(r: seq<Rec>, q: seq<Rec>, gone: set<nat>)
  {
    && |r| <= |q|
    && (forall i :: 0 <= i < |r| ==> KeptRec(r[i], q[i]))
    && (forall i :: 0 <= i < |r| ==> (q[i].recycled <==> r[i].recycled || CopyIn(r[i], gone)))
  }

  predicate CopyIn(r: Rec, slabs: set<nat>) { r.copy.Some? && r.copy.value in slabs }

  lemma KeptThen(r: seq<Rec>, q: seq<Rec>, p: seq<Rec>, gone: set<nat>)
    requires Kept(r, q, gone) && Kept(q, p, {})
    ensures Kept(r, p, gone)
  {
    forall i | 0 <= i < |r| ensures KeptRec(r[i], p[i]) { assert KeptRec(r[i], q[i]) && KeptRec(q[i], p[i]); }
  }

  lemma {:induction false} PopsKeep(s: State, k: nat)
    ensures PopFulls(s, k).recs == s.recs && PopFrees(s, k).recs == s.recs
  {
    if k > 0 { PopsKeep(s, k - 1); }
  }

  // The records after recycling the disk slabs in `gone`.
  predicate GivenUp(r: seq<Rec>, q: seq<Rec>, gone: set<nat>)
  {
    && |q| == |r|
    && (forall i :: 0 <= i < |r| ==> q[i] == if CopyIn(r[i], gone) then r[i].(recycled := true) else r[i])
  }

  lemma GivenUpKeeps(r: seq<Rec>, q: seq<Rec>, gone: set<nat>)
    requires GivenUp(r, q, gone)
    ensures Kept(r, q, gone)
  {
  }

  lemma {:induction false} RecyclesGiveUp(s: State, cfg: Config, k: nat)
    requires Mid(s, cfg) && k <= |s.evictD|
    ensures GivenUp(s.recs, Recycles(s, k).recs, Elems(s.evictD[..k]))
  {
    hide Mid, Recycled, Recycle, GivenUp, MarkRecycled, Elems;
    if k == 0 {
      NoneGivenUp(s.recs, s.evictD);
    } else {
      RecyclesGiveUp(s, cfg, k - 1);
      RecyclesSpec(s, cfg, k - 1);
      var t := Recycles(s, k - 1);
      RecycledLeaves(s, t, k - 1);
      MidSizes(t, cfg);
      RecycleMid(t, cfg);
      RecycleRecs(t);
      GivenUpMore(s.recs, t.recs, s.evictD, k - 1);
    }
  }

  lemma RecycleRecs(t: State)
    requires t.evictD != [] && t.evictD[0] < |t.drole| == |t.dst|
    ensures Recycle(t).recs == MarkRecycled(t.recs, t.evictD[0])
  {
    hide MarkRecycled, Unindex;
  }

  lemma NoneGivenUp(r: seq<Rec>, evicted: seq<nat>)
    ensures GivenUp(r, r, Elems(evicted[..0]))
  {
  }

  lemma RecycledLeaves(s: State, t: State, k: nat)
    requires Recycled(s, t, k) && k < |s.evictD|
    ensures t.evictD == s.evictD[k..] && t.evictD != []
  {
    hide Untouched, Elems;
  }

  lemma GivenUpMore(r: seq<Rec>, q: seq<Rec>, evicted: seq<nat>, k: nat)
    requires k < |evicted| && GivenUp(r, q, Elems(evicted[..k]))
    ensures GivenUp(r, MarkRecycled(q, evicted[k..][0]), Elems(evicted[..k + 1]))
  {
    ElemsSplit(evicted, k);
    assert Elems(evicted[k..][..1]) == {evicted[k]};
  }

  lemma TransferKeeps(s: State, cfg: Config, m: nat, d: nat)
    requires Mid(s, cfg) && m in s.looseM && m < |s.mst| && d < |s.dst|
    ensures |s.mst| == |s.mem| == |s.mrole| && |s.dst| == |s.disk| == |s.drole| && Kept(s.recs, Transfer(s, m, d).recs, {})
  {
    hide Queue, Pairs, Owners, DescsOk, IndexOk, DiskOk, ItemsOk;
    forall i | 0 <= i < |s.recs| ensures KeptRec(s.recs[i], Transfer(s, m, d).recs[i]) { assert RecOk(s, s.recs[i]); }
  }

  lemma {:induction false} TransfersKeep(s: State, cfg: Config, ms: seq<nat>, ds: seq<nat>, k: nat)
    requires Mid(s, cfg) && |ms| == |ds| && CanTransfer(s, ms, ds) && k <= |ms|
    ensures Kept(s.recs, Transfers(s, ms, ds, k).recs, {})
  {
    hide Mid, CanTransfer, Transferred, Transfer;
    if k > 0 {
      TransfersKeep(s, cfg, ms, ds, k - 1);
      TransfersSpec(s, cfg, ms, ds, k - 1);
      var t, m, d := Transfers(s, ms, ds, k - 1), ms[k - 1], ds[k - 1];
      NextLoose(s, t, ms, ds, k - 1);
      TransferMid(t, cfg, m, d);
      TransferKeeps(t, cfg, m, d);
      KeptThen(s.recs, t.recs, Transfer(t, m, d).recs, {});
    }
  }

  lemma TakenGivesUp(s: State, cfg: Config, count: nat)
    requires Mid(s, cfg) && Supplied(s, count)
    ensures GivenUp(s.recs, Taken(s, count).recs, Elems(s.evictD[..count - FromFree(s, count)]))
  {
    var num := FromFree(s, count);
    hide Mid, PopFulls, PopFrees, Recycles, Elems, FullsPopped, FreesPopped, FromFree;
    var a := PopFulls(s, count);
    var b := PopFrees(a, num);
    PopFullsSpec(s, cfg, count);
    SuppliedAfter(s, a, b, count);
    PopFreesSpec(a, cfg, num);
    SameEvictQueue(s, a, b, count, num);
    PopsKeep(s, count);
    PopsKeep(a, num);
    RecyclesGiveUp(b, cfg, count - num);
  }

  lemma SameEvictQueue(s: State, a: State, b: State, i: nat, j: nat)
    requires FullsPopped(s, a, i) && FreesPopped(a, b, j)
    ensures b.evictD == s.evictD
  {
  }

  // How many evictable disk slabs a flush takes back: what the free ones leave over.
  ghost function Reclaims(s: State, cfg: Config): (k: nat)
    ensures k <= |s.evictD|
  {
    if Flush(s, cfg).1 && BatchCount(s, cfg) > |s.freeD| then BatchCount(s, cfg) - |s.freeD| else 0
  }

  lemma ReclaimsFrom(s: State, cfg: Config)
    requires Good(s, cfg)
    ensures var count := BatchCount(s, cfg); Flush(s, cfg).1 ==> Supplied(s, count) && Reclaims(s, cfg) == count - FromFree(s, count)
  {
    hide Inv, RoomOk, ItemsOk, Flushed, RotateFull;
  }

  // A flush gives up exactly the copies on the disk slabs it takes back.
  lemma FlushKeeps(s: State, cfg: Config)
    requires Good(s, cfg)
    ensures Kept(s.recs, Flush(s, cfg).0.recs, Elems(s.evictD[..Reclaims(s, cfg)]))
  {
    var count := BatchCount(s, cfg);
    ReclaimsFrom(s, cfg);
    if Flush(s, cfg).1 {
      assert Mid(s, cfg) && RolesOk(s);
      hide Inv, RolesOk, Mid, CountersOk, Taken, Transfers, CanTransfer, MemBatch, DiskBatch, Kept, GivenUp, TakenOk, Elems;
      TakenGivesUp(s, cfg, count);
      GivenUpKeeps(s.recs, Taken(s, count).recs, Elems(s.evictD[..Reclaims(s, cfg)]));
      TakenSpec(s, cfg, count);
      var t, ms, ds := Taken(s, count), MemBatch(s, count), DiskBatch(s, count);
      BatchesReady(s, t, count);
      CoveredBound(ms);
      TransfersKeep(t, cfg, ms, ds, Covered(ms));
      KeptThen(s.recs, t.recs, Transfers(t, ms, ds, Covered(ms)).recs, Elems(s.evictD[..Reclaims(s, cfg)]));
    } else {
      hide Inv, Flushed, Kept, Supplied, ItemsOk, RoomOk;
      assert Elems(s.evictD[..0]) == {};
      NothingGone(s.recs);
    }
  }

  lemma NothingGone(r: seq<Rec>)
    ensures Kept(r, r, {})
  {
  }

  lemma AcquireKeeps(s: State, cfg: Config, c: (nat, nat))
    requires Good(s, cfg) && Acquire(s, c).Some?
    ensures Kept(s.recs, Acquire(s, c).value.recs, {}) && |Acquire(s, c).value.recs| == |s.recs|
  {
    hide Queue, Pairs, Owners, Loose, DescsOk, IndexOk, DiskOk, DataOk, ItemsOk, Repoint;
  }

  lemma FilledRecs(s: State, c: (nat, nat), fs: nat, fm: nat, start: nat, end: nat, value: seq<byte>)
    requires RolesOk(s) && c in s.owner && s.mst[s.owner[c]].nalloc < |s.mem[s.owner[c]]|
    ensures var m := s.owner[c];
            var slot := s.mst[m].nalloc;
            WriteAndList(s, c, fs, fm, start, end, value).recs
              == s.recs + [Rec(Item(start, Overlay(s.mem[m][slot].chunk, value)), m, slot, true, None, false)]
  {
    hide RolesOk, Overlay, Listed, Reindexed;
  }

  // The chunk as stored: the value, then whatever the slot held beyond it.
  predicate Stores(chunk: seq<byte>, value: seq<byte>)
  {
    if |value| <= |chunk| then value <= chunk else chunk <= value
  }

  // Byte by byte: the value where it reaches, the bytes of the slot behind it.
  predicate Overlaid(slot: seq<byte>, chunk: seq<byte>, value: seq<byte>)
  {
    |chunk| == |slot| && forall i :: 0 <= i < |chunk| ==> chunk[i] == if i < |value| then value[i] else slot[i]
  }

  // The memory slab a put of this class goes to.
  function SlabFor(s: State, c: (nat, nat)): Option<nat>
  {
    if c in s.owner then Some(s.owner[c])
    else if s.freeM != [] then Some(s.freeM[0])
    else if s.evictM != [] then Some(s.evictM[0].0)
    else None
  }

  // A put is refused exactly when its class has no slab and none is free or evictable, and finds
  // no item exactly when the id of its slab is not an id on disk. A stored put adds one record,
  // holding the chunk; no put gives one up.
  lemma PutKeeps(s: State, cfg: Config, source: nat, metric: nat, start: nat, end: nat, value: seq<byte>)
    requires Good(s, cfg) && Admissible(s, source, metric, start, end, value)
    ensures var (t, o) := Put(s, cfg, source, metric, start, end, value);
            && (match SlabFor(s, Class(source, metric)) case None => o == Refused case Some(m) => o == if m < |s.disk| then Stored else NoItem)
            && (o == Refused ==> t == s)
            && Kept(s.recs, t.recs, {})
            && (o != Stored ==> |t.recs| == |s.recs|)
            && (o == Stored ==>
                  && |t.recs| == |s.recs| + 1
                  && var r := t.recs[|s.recs|];
                     && r.inMem && r.copy == None && r.item.ts == start && Stores(r.item.chunk, value)
                     && SlabFor(s, Class(source, metric)) == Some(r.m) && r.m < |s.mst| == |s.mem|
                     && r.slot == (if Class(source, metric) in s.owner then s.mst[r.m].nalloc else 0) && r.slot < |s.mem[r.m]|
                     && Overlaid(s.mem[r.m][r.slot].chunk, r.item.chunk, value))
  {
    var c, fs, fm := Class(source, metric), SourceQuotient(source), MetricQuotient(metric);
    GoodRoles(s, cfg);
    AcquiresSlabFor(s, cfg, c);
    hide Good, Inv, RolesOk, Acquire, WriteAndList, Class, Admissible, Kept, ItemsOk, CountersOk, SourceQuotient, MetricQuotient, Stores, Overlaid, Put, SlabFor;
    AcquireGood(s, cfg, c);
    if Acquire(s, c).Some? {
      var a := Acquire(s, c).value;
      AcquireKeeps(s, cfg, c);
      RoomToWrite(a, cfg, c);
      AcquiresSlot(s, cfg, c);
      FilledRecs(a, c, fs, fm, start, end, value);
      FillReady(a, cfg, source, metric, start, end, value);
      PutRecs(s, cfg, source, metric, start, end, value, a);
      AddedRecord(s.recs, a.recs, WriteAndList(a, c, fs, fm, start, end, value).recs);
      OverlayStores(a.mem[a.owner[c]][a.mst[a.owner[c]].nalloc].chunk, value);
    } else {
      PutRefused(s, cfg, source, metric, start, end, value);
      NothingGone(s.recs);
    }
  }

  lemma AcquiresSlabFor(s: State, cfg: Config, c: (nat, nat))
    requires Good(s, cfg)
    ensures RolesOk(s)
    ensures match SlabFor(s, c) case None => Acquire(s, c) == None
                                case Some(m) => Acquire(s, c).Some? && c in Acquire(s, c).value.owner && Acquire(s, c).value.owner[c] == m
    ensures Acquire(s, c).Some? ==> Acquire(s, c).value.disk == s.disk
  {
    hide Queue, Pairs, Owners, Loose, DescsOk, IndexOk, DiskOk, DataOk, ItemsOk, Repoint, MarkEvicted;
  }

  // The slot that comes next is that of the slab as it was.
  lemma AcquiresSlot(s: State, cfg: Config, c: (nat, nat))
    requires Good(s, cfg) && RolesOk(s) && Acquire(s, c).Some?
    ensures var a := Acquire(s, c).value;
            && c in a.owner && a.owner[c] < |a.mst| && a.mem == s.mem && |a.mst| == |s.mst| == |s.mem|
            && a.mst[a.owner[c]].nalloc == if c in s.owner then s.mst[a.owner[c]].nalloc else 0
  {
    if c !in s.owner && s.freeM != [] { QueuePop(s.freeM, s.mrole, MFree, MLoose); }
    hide Queue, Pairs, Loose, IndexOk, DiskOk, DataOk, ItemsOk, Repoint, MarkEvicted;
    assert c !in s.owner && s.freeM != [] ==> MDescOk(s.mst[s.freeM[0]], s.mrole[s.freeM[0]], cfg.capacity);
  }

  lemma PutRefused(s: State, cfg: Config, source: nat, metric: nat, start: nat, end: nat, value: seq<byte>)
    requires Good(s, cfg) && Admissible(s, source, metric, start, end, value) && RolesOk(s) && Acquire(s, Class(source, metric)) == None
    ensures Put(s, cfg, source, metric, start, end, value) == (s, Refused)
  {
    hide Good, Inv, RolesOk, Acquire, WriteAndList, Class, Admissible, SealIfFull;
  }

  lemma PutRecs(s: State, cfg: Config, source: nat, metric: nat, start: nat, end: nat, value: seq<byte>, a: State)
    requires Good(s, cfg) && Admissible(s, source, metric, start, end, value)
    requires RolesOk(s) && Acquire(s, Class(source, metric)) == Some(a)
    requires var c := Class(source, metric); RolesOk(a) && c in a.owner && a.mst[a.owner[c]].nalloc < |a.mem[a.owner[c]]|
    ensures var r, c := Put(s, cfg, source, metric, start, end, value), Class(source, metric);
            if a.owner[c] >= |a.disk| then r == (a, NoItem)
            else r.1 == Stored && r.0.recs == WriteAndList(a, c, SourceQuotient(source), MetricQuotient(metric), start, end, value).recs
  {
    hide Good, Inv, RolesOk, Acquire, WriteAndList, Class, Admissible;
  }

  lemma OverlayStores(chunk: seq<byte>, value: seq<byte>)
    ensures Stores(Overlay(chunk, value), value) && Overlaid(chunk, Overlay(chunk, value), value)
  {
  }

  lemma GoodRoles(s: State, cfg: Config)
    requires Good(s, cfg)
    ensures RolesOk(s)
  {
  }

  lemma AddedRecord(r: seq<Rec>, q: seq<Rec>, p: seq<Rec>)
    requires Kept(r, q, {}) && |q| == |r| && |p| == |q| + 1 && q <= p
    ensures Kept(r, p, {}) && p[|r|] == p[|q|]
  {
  }

  lemma RoomToWrite(s: State, cfg: Config, c: (nat, nat))
    requires Ready(s, cfg, c)
    ensures RolesOk(s) && s.mst[s.owner[c]].nalloc < |s.mem[s.owner[c]]|
  {
    hide Queue, Pairs, Loose, IndexOk, DiskOk, DataOk, ItemsOk;
  }

  // Runs /////////////////////////////////////////////////////////////////////////////////////

  datatype Op = PutOp(source: nat, metric: nat, start: nat, end: nat, value: seq<byte>) | FlushOp | MigrateOp

  // One call. A put that its caller may not issue is not issued.
  ghost function Do(s: State, cfg: Config, op: Op): (t: State)
    requires Good(s, cfg)
    ensures Good(t, cfg)
  {
    match op
    case PutOp(source, metric, start, end, value) =>
      if Admissible(s, source, metric, start, end, value) then Put(s, cfg, source, metric, start, end, value).0 else s
    case FlushOp => FlushGood(s, cfg); Flush(s, cfg).0
    case MigrateOp => MigrateStepGood(s, cfg); MigrateStep(s, cfg).0
  }

  ghost function Exec(s: State, cfg: Config, ops: seq<Op>): (t: State)
    requires Good(s, cfg)
    ensures Good(t, cfg)
  {
    if ops == [] then s else Do(Exec(s, cfg, ops[..|ops| - 1]), cfg, ops[|ops| - 1])
  }

  // The store at the start: every slab free, memory and disk holding anything of the right shape.
  predicate Blank(cfg: Config, slabs: seq<seq<Item>>)
  {
    forall m :: 0 <= m < |slabs| ==>
      |slabs[m]| == cfg.capacity && forall j :: 0 <= j < |slabs[m]| ==> |slabs[m][j].chunk| >= VALUE_HEADER_SIZE
  }

  function Ids(n: nat): (q: seq<nat>)
    ensures |q| == n && forall i :: 0 <= i < n ==> q[i] == i
  {
    seq(n, i => i)
  }

  function Init(mem: seq<seq<Item>>, disk: seq<seq<Item>>): State
  {
    var nm, nd := |mem|, |disk|;
    State(mem, seq(nm, _ => Desc(0, 0, [], 0)), disk, seq(nd, _ => Desc(0, 0, [], 0)),
          map[], Ids(nm), [], [], Ids(nd), [], [], Counters(nm, 0, 0, 0, nd, 0, 0), map[],
          seq(nm, _ => MFree), seq(nd, _ => DFree), {}, {}, map[], [])
  }

  lemma IdsQueue<T>(n: nat, roles: seq<T>, r: T)
    requires |roles| == n && forall i :: 0 <= i < n ==> roles[i] == r
    ensures Queue(Ids(n), roles, r)
  {
    forall m | 0 <= m < n ensures m in Ids(n) { assert Ids(n)[m] == m; }
  }

  lemma InitGood(cfg: Config, mem: seq<seq<Item>>, disk: seq<seq<Item>>)
    requires ConfigOk(cfg) && Blank(cfg, mem) && Blank(cfg, disk)
    ensures Good(Init(mem, disk), cfg)
  {
    var s := Init(mem, disk);
    IdsQueue(|mem|, s.mrole, MFree);
    IdsQueue(|disk|, s.drole, DFree);
  }

  // Every call keeps every record, and only a flush gives copies up, exactly those on the slabs
  // it takes back.
  lemma DoKeeps(s: State, cfg: Config, op: Op)
    requires Good(s, cfg)
    ensures Kept(s.recs, Do(s, cfg, op).recs, if op.FlushOp? then Elems(s.evictD[..Reclaims(s, cfg)]) else {})
  {
    hide Kept, Good, Flush, MigrateStep, Put, Admissible, Elems, Reclaims, SlabFor;
    NothingGone(s.recs);
    match op
    case PutOp(source, metric, start, end, value) =>
      if Admissible(s, source, metric, start, end, value) { PutKeeps(s, cfg, source, metric, start, end, value); }
    case FlushOp => FlushKeeps(s, cfg);
    case MigrateOp => MigrateKeeps(s, cfg);
  }

  lemma MigrateKeeps(s: State, cfg: Config)
    requires Good(s, cfg)
    ensures MigrateStep(s, cfg).0.recs == s.recs
  {
    MigrateStepGood(s, cfg);
  }

  // What holds in every reachable state //////////////////////////////////////////////////////

  // The chunk of record i is where the record says: in its memory slab, or on its disk slab.
  ghost predicate Retrievable(s: State, r: Rec)
  {
    || (r.inMem && r.m < |s.mem| && r.slot < |s.mem[r.m]| && s.mem[r.m][r.slot] == r.item)
    || OnDiskCopy(s, r)
  }

  ghost predicate OnDiskCopy(s: State, r: Rec)
  {
    && r.copy.Some? && r.copy.value < |s.disk| && r.slot < |s.disk[r.copy.value]|
    && s.disk[r.copy.value][r.slot] == r.item
  }

  // Call j is a flush that took back the slab holding the copy of record i, which waited among
  // the evictable slabs, and gave the copy up; until then the copy was intact.
  ghost predicate TookBack(s: State, cfg: Config, ops: seq<Op>, j: nat, i: nat)
    requires Good(s, cfg)
  {
    && j < |ops| && ops[j].FlushOp?
    && var before, after := Exec(s, cfg, ops[..j]), Exec(s, cfg, ops[..j + 1]);
       && i < |before.recs| && !before.recs[i].recycled && OnDiskCopy(before, before.recs[i])
       && before.recs[i].copy.value in before.evictD[..Reclaims(before, cfg)]
       && i < |after.recs| && after.recs[i].recycled && before.recs[i].copy.value !in after.evictD
  }

  lemma CopyIntact(s: State, cfg: Config, i: nat)
    requires Good(s, cfg) && i < |s.recs| && !s.recs[i].recycled
    ensures Retrievable(s, s.recs[i]) && (s.recs[i].copy.Some? ==> OnDiskCopy(s, s.recs[i]))
  {
    hide Queue, Pairs, Owners, Loose, DescsOk, IndexOk, DiskOk, ItemsOk, CountersOk, RoomOk;
    assert RecOk(s, s.recs[i]);
  }

  // An accepted chunk stays, byte for byte, in its memory slab or on its disk copy until a flush
  // takes back that disk slab; and it is given up only by such a flush.
  lemma {:induction false} NothingLost(s: State, cfg: Config, ops: seq<Op>, i: nat)
    requires Good(s, cfg) && s.recs == [] && i < |Exec(s, cfg, ops).recs|
    ensures var t := Exec(s, cfg, ops);
            && (!t.recs[i].recycled ==> Retrievable(t, t.recs[i]))
            && (t.recs[i].recycled <==> exists j: nat :: TookBack(s, cfg, ops, j, i))
  {
    hide Good, Retrievable, OnDiskCopy, Do;
    var n, t := |ops|, Exec(s, cfg, ops);
    if !t.recs[i].recycled {
      CopyIntact(t, cfg, i);
      forall j: nat ensures !TookBack(s, cfg, ops, j, i) {
        if TookBack(s, cfg, ops, j, i) { TookBackStays(s, cfg, ops, j, i); }
      }
    } else {
      var before := Exec(s, cfg, ops[..n - 1]);
      DoKeeps(before, cfg, ops[n - 1]);
      if i < |before.recs| && before.recs[i].recycled {
        NothingLost(s, cfg, ops[..n - 1], i);
        var j: nat :| TookBack(s, cfg, ops[..n - 1], j, i);
        assert ops[..n - 1][..j] == ops[..j] && ops[..n - 1][..j + 1] == ops[..j + 1];
        assert TookBack(s, cfg, ops, j, i);
      } else {
        NewIsFresh(before, cfg, ops[n - 1], i);
        CopyIntact(before, cfg, i);
        assert ops[..n] == ops;
        assert CopyIn(before.recs[i], Elems(before.evictD[..Reclaims(before, cfg)]));
        DoFlushes(before, cfg);
        TakenAway(before, cfg, before.recs[i].copy.value);
        assert TookBack(s, cfg, ops, n - 1, i);
      }
    }
  }

  lemma TookBackStays(s: State, cfg: Config, ops: seq<Op>, j: nat, i: nat)
    requires Good(s, cfg) && TookBack(s, cfg, ops, j, i)
    ensures i < |Exec(s, cfg, ops).recs| && Exec(s, cfg, ops).recs[i].recycled
  {
    hide Good, Exec, OnDiskCopy, Reclaims;
    assert ops[..j + 1] + ops[j + 1..] == ops;
    RecordsStay(s, cfg, ops[..j + 1], ops[j + 1..], i);
  }

  lemma DoFlushes(s: State, cfg: Config)
    requires Good(s, cfg)
    ensures Do(s, cfg, FlushOp) == Flush(s, cfg).0
  {
    hide Good, Flush;
  }

  // The evict queue after a flush: what was taken back is gone from its head.
  lemma FlushEvicts(s: State, cfg: Config)
    requires Good(s, cfg)
    ensures Flush(s, cfg).0.evictD == s.evictD[Reclaims(s, cfg)..]
  {
    var count := BatchCount(s, cfg);
    ReclaimsFrom(s, cfg);
    if Flush(s, cfg).1 {
      assert Mid(s, cfg) && RolesOk(s);
      hide Inv, RolesOk, Mid, CountersOk, Taken, Transfers, CanTransfer, MemBatch, DiskBatch, Elems;
      TakenSpec(s, cfg, count);
      var t, ms, ds := Taken(s, count), MemBatch(s, count), DiskBatch(s, count);
      BatchesReady(s, t, count);
      CoveredBound(ms);
      TransfersSpec(t, cfg, ms, ds, Covered(ms));
    } else {
      hide Inv, Flushed, Supplied, ItemsOk, RoomOk;
    }
  }

  lemma TakenAway(s: State, cfg: Config, d: nat)
    requires Good(s, cfg) && d in s.evictD[..Reclaims(s, cfg)]
    ensures d !in Flush(s, cfg).0.evictD
  {
    FlushEvicts(s, cfg);
    assert NoDup(s.evictD);
    hide Good, Flush, Reclaims;
    var k := Reclaims(s, cfg);
    var i :| 0 <= i < k && s.evictD[i] == d;
    assert forall j :: 0 <= j < |s.evictD[k..]| ==> s.evictD[k..][j] == s.evictD[k + j];
  }

  lemma NewIsFresh(s: State, cfg: Config, op: Op, i: nat)
    requires Good(s, cfg) && i < |Do(s, cfg, op).recs| && Do(s, cfg, op).recs[i].recycled
    ensures i < |s.recs|
  {
    hide Good, Put, Flush, MigrateStep, Admissible, Stores, SlabFor;
    match op
    case PutOp(source, metric, start, end, value) =>
      if Admissible(s, source, metric, start, end, value) {
        PutKeeps(s, cfg, source, metric, start, end, value);
        if Put(s, cfg, source, metric, start, end, value).1 == Stored { NewRecordIntact(s, cfg, source, metric, start, end, value); }
      }
    case FlushOp => FlushCounts(s, cfg);
    case MigrateOp => MigrateKeeps(s, cfg);
  }

  lemma NewRecordIntact(s: State, cfg: Config, source: nat, metric: nat, start: nat, end: nat, value: seq<byte>)
    requires Good(s, cfg) && Admissible(s, source, metric, start, end, value) && Put(s, cfg, source, metric, start, end, value).1 == Stored
    ensures var t := Put(s, cfg, source, metric, start, end, value).0; |t.recs| == |s.recs| + 1 && !t.recs[|s.recs|].recycled
  {
    PutKeeps(s, cfg, source, metric, start, end, value);
    var t := Put(s, cfg, source, metric, start, end, value).0;
    hide Queue, Pairs, Owners, Loose, DescsOk, IndexOk, DiskOk, ItemsOk, CountersOk, RoomOk, Put, Admissible;
    assert RecOk(t, t.recs[|s.recs|]);
  }

  lemma {:induction false} TransfersCount(s: State, ms: seq<nat>, ds: seq<nat>, k: nat)
    requires k <= |ms| == |ds|
    ensures |Transfers(s, ms, ds, k).recs| == |s.recs|
  {
    if k > 0 { TransfersCount(s, ms, ds, k - 1); }
  }

  lemma FlushCounts(s: State, cfg: Config)
    requires Good(s, cfg)
    ensures |Flush(s, cfg).0.recs| == |s.recs|
  {
    var count := BatchCount(s, cfg);
    if Supplied(s, count) {
      assert Mid(s, cfg);
      GoodRoles(s, cfg);
      hide Good, Mid, Inv, RolesOk, Taken, Transfers, MemBatch, DiskBatch, TakenOk, Elems;
      TakenCount(s, cfg, count);
      TakenSpec(s, cfg, count);
      BatchesReady(s, Taken(s, count), count);
      CoveredBound(MemBatch(s, count));
      TransfersCount(Taken(s, count), MemBatch(s, count), DiskBatch(s, count), Covered(MemBatch(s, count)));
    }
    hide Good, Flushed;
  }

  lemma TakenCount(s: State, cfg: Config, count: nat)
    requires Mid(s, cfg) && Supplied(s, count)
    ensures |Taken(s, count).recs| == |s.recs|
  {
    var num := FromFree(s, count);
    hide Mid, PopFulls, PopFrees, Recycles, FromFree;
    PopsKeep(s, count);
    PopsKeep(PopFulls(s, count), num);
    RecyclesCount(PopFrees(PopFulls(s, count), num), count - num);
  }

  lemma {:induction false} RecyclesCount(s: State, k: nat)
    ensures |Recycles(s, k).recs| == |s.recs|
  {
    hide Unindex;
    if k > 0 { RecyclesCount(s, k - 1); }
  }

  // Which chunk a record is about never changes along a run.
  lemma {:induction false} RecordsStay(s: State, cfg: Config, ops: seq<Op>, more: seq<Op>, i: nat)
    requires Good(s, cfg) && i < |Exec(s, cfg, ops).recs|
    ensures i < |Exec(s, cfg, ops + more).recs|
    ensures KeptRec(Exec(s, cfg, ops).recs[i], Exec(s, cfg, ops + more).recs[i])
  {
    hide Good, Do, Reclaims;
    if more == [] {
      assert ops + more == ops;
    } else {
      var n := |more|;
      RecordsStay(s, cfg, ops, more[..n - 1], i);
      assert (ops + more)[..|ops + more| - 1] == ops + more[..n - 1];
      DoKeeps(Exec(s, cfg, ops + more[..n - 1]), cfg, more[n - 1]);
    }
  }

  function One(b: bool): nat { if b then 1 else 0 }

  // In how many places a slab is.
  ghost function MemPlaces(s: State, m: nat): nat
  {
    One(m in s.freeM) + One(exists c :: c in s.owner && s.owner[c] == m) + One(m in s.fullM)
    + One(exists d :: (m, d) in s.evictM) + One(m in s.looseM)
  }

  ghost function DiskPlaces(s: State, d: nat): nat
  {
    One(d in s.freeD) + One(d in s.usedD) + One(d in s.evictD) + One(d in s.looseD)
  }

  // At most one class owns a slab, no queue holds a slab twice.
  ghost predicate NoRepeats(s: State)
  {
    && NoDup(s.freeM) && NoDup(s.fullM) && NoDup(s.freeD) && NoDup(s.usedD) && NoDup(s.evictD)
    && (forall c, c' :: c in s.owner && c' in s.owner && s.owner[c] == s.owner[c'] ==> c == c')
    && (forall i, j :: 0 <= i < j < |s.evictM| ==> s.evictM[i].0 != s.evictM[j].0)
  }

  lemma MemPlace(s: State, m: nat)
    requires RolesOk(s) && m < |s.mem|
    ensures MemPlaces(s, m) == 1
  {
    var r := s.mrole[m];
    assert r.MOwned? ==> s.owner[r.cls] == m;
    assert (exists c :: c in s.owner && s.owner[c] == m) <==> r.MOwned?;
    assert r.MEvict? ==> (m, r.d) in s.evictM;
    assert (exists d :: (m, d) in s.evictM) <==> r.MEvict?;
  }

  lemma DiskPlace(s: State, d: nat)
    requires RolesOk(s) && d < |s.disk|
    ensures DiskPlaces(s, d) == 1
  {
    hide Pairs, Owners;
    var r := s.drole[d];
    assert (d in s.freeD <==> r.DFree?) && (d in s.usedD <==> r.DUsed?) && (d in s.evictD <==> r.DEvict?) && (d in s.looseD <==> r.DLoose?);
  }

  // In every reachable state each memory slab and each disk slab is in exactly one place, once;
  // the counters are the lengths of the queues and add up to the number of slabs; and every
  // descriptor lists at most as many series as it has items, at most a slab full.
  lemma EverySlabHasOnePlace(s: State, cfg: Config, ops: seq<Op>)
    requires Good(s, cfg)
    ensures var t := Exec(s, cfg, ops);
            && NoRepeats(t) && CountersOk(t)
            && (forall m :: 0 <= m < |t.mem| ==> MemPlaces(t, m) == 1)
            && (forall d :: 0 <= d < |t.disk| ==> DiskPlaces(t, d) == 1)
            && (forall m :: 0 <= m < |t.mst| ==> |t.mst[m].rows| <= t.mst[m].nalloc <= cfg.capacity)
            && (forall c :: c in t.owner ==> t.owner[c] < |t.mst| && t.mst[t.owner[c]].nalloc < cfg.capacity)
  {
    var t := Exec(s, cfg, ops);
    PlacesGood(t, cfg);
  }

  lemma PlacesGood(t: State, cfg: Config)
    requires Good(t, cfg)
    ensures && NoRepeats(t) && CountersOk(t)
            && (forall m :: 0 <= m < |t.mem| ==> MemPlaces(t, m) == 1)
            && (forall d :: 0 <= d < |t.disk| ==> DiskPlaces(t, d) == 1)
            && (forall m :: 0 <= m < |t.mst| ==> |t.mst[m].rows| <= t.mst[m].nalloc <= cfg.capacity)
            && (forall c :: c in t.owner ==> t.owner[c] < |t.mst| && t.mst[t.owner[c]].nalloc < cfg.capacity)
  {
    hide IndexOk, DiskOk, DataOk, ItemsOk, MemPlaces, DiskPlaces;
    forall m | 0 <= m < |t.mem| ensures MemPlaces(t, m) == 1 { MemPlace(t, m); }
    forall d | 0 <= d < |t.disk| ensures DiskPlaces(t, d) == 1 { DiskPlace(t, d); }
    forall m | 0 <= m < |t.mst| ensures |t.mst[m].rows| <= t.mst[m].nalloc <= cfg.capacity {
      assert MDescOk(t.mst[m], t.mrole[m], cfg.capacity);
    }
  }

  ghost predicate LeadsTo(t: State, k: Key, r: Ref)
  {
    match r
    case Mem(m) => m < |t.mst| && m !in t.freeM && Lists(t.mst[m], k)
    case Disk(d) => d < |t.dst| && (d in t.usedD || d in t.evictD) && Lists(t.dst[d], k)
  }

  // Index and descriptors agree in every reachable state, both ways: an entry points to a slab
  // whose descriptor lists its key; the endpoints listed by a slab that is being filled or waits
  // to be flushed lead to it; those listed by a slab on disk lead to it, or to the memory slab
  // that still holds the same contents; and a lost start is in the index no more.
  ghost predicate IndexAgrees(t: State)
  {
    && (forall k :: k in t.index ==> LeadsTo(t, k, t.index[k]))
    && (forall c, k :: c in t.owner && t.owner[c] < |t.mst| && Lists(t.mst[t.owner[c]], k) ==> k in t.index && t.index[k] == Mem(t.owner[c]))
    && (forall m, k :: m in t.fullM && m < |t.mst| && Lists(t.mst[m], k) ==> k in t.index && t.index[k] == Mem(m))
    && (forall d, k :: (d in t.usedD || d in t.evictD) && d < |t.dst| && Lists(t.dst[d], k) ==>
          k in t.index && (t.index[k] == Disk(d) || (t.index[k].Mem? && (t.index[k].id, d) in t.evictM)))
    && (forall m, i :: 0 <= m < |t.mst| && 0 <= i < |t.mst[m].rows| && t.mst[m].rows[i].lost ==> StartKey(t.mst[m], i) !in t.index)
    && (forall d, i :: 0 <= d < |t.dst| && 0 <= i < |t.dst[d].rows| && t.dst[d].rows[i].lost ==> StartKey(t.dst[d], i) !in t.index)
  }

  lemma IndexMatchesDescriptors(s: State, cfg: Config, ops: seq<Op>)
    requires Good(s, cfg)
    ensures IndexAgrees(Exec(s, cfg, ops))
  {
    IndexGood(Exec(s, cfg, ops), cfg);
  }

  lemma IndexGood(t: State, cfg: Config)
    requires Good(t, cfg)
    ensures IndexAgrees(t)
  {
    hide Lists, Past, DataOk, ItemsOk, DescsOk, CountersOk, RoomOk;
    assert (forall m :: 0 <= m < |t.mst| ==> NoLost(t.index, t.mst[m])) && (forall d :: 0 <= d < |t.dst| ==> NoLost(t.index, t.dst[d]));
    forall k | k in t.index ensures LeadsTo(t, k, t.index[k]) {
      assert EntryOk(t, k, t.index[k]);
    }
    forall d, k | (d in t.usedD || d in t.evictD) && d < |t.dst| && Lists(t.dst[d], k) ensures
      k in t.index && (t.index[k] == Disk(d) || (t.index[k].Mem? && (t.index[k].id, d) in t.evictM))
    {
      assert OnDisk(t.drole[d]) && Serves(t.mrole, t.index[k], d);
    }
  }

  // The slab a reference leads to has the item at the slot.
  predicate HasItem(t: State, r: Ref, slot: nat, item: Item)
  {
    match r
    case Mem(m) => m < |t.mem| && slot < |t.mem[m]| && t.mem[m][slot] == item
    case Disk(d) => d < |t.disk| && slot < |t.disk[d]| && t.disk[d][slot] == item
  }

  // The index leads to the record's chunk from a start no later and an end no earlier than the
  // chunk's time, both under the series named in the chunk's header.
  ghost predicate Findable(t: State, r: Rec)
  {
    |r.item.chunk| >= VALUE_HEADER_SIZE && exists lo: nat, hi: nat :: lo <= r.item.ts <= hi && LeadTo(t, r, lo) && LeadTo(t, r, hi)
  }

  // The same from the end alone.
  ghost predicate FindableByEnd(t: State, r: Rec)
  {
    |r.item.chunk| >= VALUE_HEADER_SIZE && exists hi: nat :: r.item.ts <= hi && LeadTo(t, r, hi)
  }

  predicate LeadTo(t: State, r: Rec, time: nat)
    requires |r.item.chunk| >= VALUE_HEADER_SIZE
  {
    var (source, metric) := HeaderSeries(r.item.chunk);
    Key(source, metric, time) in t.index && HasItem(t, t.index[Key(source, metric, time)], r.slot, r.item)
  }

  // Every series listed in the slab started before it ended.
  predicate PlainDesc(d: Desc)
  {
    forall i :: 0 <= i < |d.rows| ==> d.rows[i].start < d.rows[i].end && !d.rows[i].lost
  }

  predicate PlainRows(s: State)
  {
    (forall m :: 0 <= m < |s.mst| ==> PlainDesc(s.mst[m])) && (forall d :: 0 <= d < |s.dst| ==> PlainDesc(s.dst[d]))
  }

  lemma MemoryFindable(t: State, cfg: Config, r: Rec)
    requires Good(t, cfg) && RecOk(t, r) && r.inMem && Live(t.mrole[r.m])
    ensures FindableByEnd(t, r) && (PlainDesc(t.mst[r.m]) ==> Findable(t, r))
  {
    hide Queue, Pairs, Owners, Loose, DescsOk, EntriesOk, WaitingOk, ApartOk, ClockOk, DiskOk, PairedOk, LostOk, DataOk, HeaderSeries;
    var d := t.mst[r.m];
    assert Itemised(d, t.mem[r.m]);
    assert Names(d, HeaderSeries(r.item.chunk), r.item.ts);
    var i :| 0 <= i < |d.rows| && (RowSource(d, i), RowMetric(d, i)) == HeaderSeries(r.item.chunk) && d.rows[i].start <= r.item.ts <= d.rows[i].end;
    ListsEnd(d, i);
    hide Lists;
    assert LeadTo(t, r, d.rows[i].end) && (PlainDesc(d) ==> LeadTo(t, r, d.rows[i].start));
  }

  // An entry for a key that a disk slab lists leads to the contents of that slab.
  lemma DiskServed(t: State, cfg: Config, d: nat, k: Key)
    requires Good(t, cfg) && d < |t.dst| && OnDisk(t.drole[d]) && Lists(t.dst[d], k)
    ensures k in t.index
    ensures forall slot: nat :: slot < |t.disk[d]| ==> HasItem(t, t.index[k], slot, t.disk[d][slot])
  {
    hide Queue, Pairs, Owners, Loose, DescsOk, LiveOk, WaitingOk, ApartOk, ClockOk, DataOk, ItemsOk, Lists;
    assert Serves(t.mrole, t.index[k], d) && EntryOk(t, k, t.index[k]);
    if t.index[k].Mem? {
      var m := t.index[k].id;
      assert Mirrored(t, m, d) || Unseen(t.index, t.mst[m]);
    }
  }

  lemma DiskFindable(t: State, cfg: Config, r: Rec)
    requires Good(t, cfg) && RecOk(t, r) && r.copy.Some? && !r.recycled
    ensures FindableByEnd(t, r) && (PlainDesc(t.dst[r.copy.value]) ==> Findable(t, r))
  {
    var c := r.copy.value;
    var d := t.dst[c];
    DiskSlabFull(t, cfg, c);
    assert Names(d, HeaderSeries(r.item.chunk), r.item.ts);
    var i :| 0 <= i < |d.rows| && (RowSource(d, i), RowMetric(d, i)) == HeaderSeries(r.item.chunk) && d.rows[i].start <= r.item.ts <= d.rows[i].end;
    ListsEnd(d, i);
    hide Good, RolesOk, Lists, HeaderSeries, HasItem;
    DiskServed(t, cfg, c, EndKey(d, i));
    assert LeadTo(t, r, d.rows[i].end);
    if PlainDesc(d) {
      DiskServed(t, cfg, c, StartKey(d, i));
      assert LeadTo(t, r, d.rows[i].start);
    }
  }

  lemma DiskSlabFull(t: State, cfg: Config, d: nat)
    requires Good(t, cfg) && d < |t.dst| && OnDisk(t.drole[d])
    ensures |t.disk| == |t.dst| && Itemised(t.dst[d], t.disk[d]) && t.dst[d].nalloc == |t.disk[d]|
  {
    hide Queue, Pairs, Owners, Loose, IndexOk, DiskOk, PairedOk, DataOk, Names;
    assert DDescOk(t.dst[d], t.drole[d], cfg.capacity);
  }

  lemma FindableGood(t: State, cfg: Config, i: nat)
    requires Good(t, cfg) && i < |t.recs|
    ensures !t.recs[i].recycled ==> FindableByEnd(t, t.recs[i]) && (PlainRows(t) ==> Findable(t, t.recs[i]))
  {
    var r := t.recs[i];
    assert RecOk(t, r);
    hide Good, RolesOk, Findable, FindableByEnd, PlainDesc;
    if !r.recycled {
      if r.inMem && Live(t.mrole[r.m]) {
        MemoryFindable(t, cfg, r);
      } else {
        DiskFindable(t, cfg, r);
      }
    }
  }

  // A run of which no put has a chunk that ends when it starts.
  predicate NoPoints(ops: seq<Op>) { forall j :: 0 <= j < |ops| && ops[j].PutOp? ==> ops[j].start != ops[j].end }

  lemma {:induction false} RecyclesPlain(s: State, k: nat)
    requires PlainRows(s)
    ensures PlainRows(Recycles(s, k))
  {
    hide Unindex, MarkRecycled, PlainDesc;
    if k > 0 {
      RecyclesPlain(s, k - 1);
      var t := Recycles(s, k - 1);
      if t.evictD != [] && t.evictD[0] < |t.drole| == |t.dst| { assert PlainDesc(Freed(t.dst[t.evictD[0]])) by { NoRowsPlain(Freed(t.dst[t.evictD[0]])); } }
    }
  }

  lemma NoRowsPlain(d: Desc)
    requires d.rows == []
    ensures PlainDesc(d)
  {
  }

  lemma {:induction false} TransfersPlain(s: State, ms: seq<nat>, ds: seq<nat>, k: nat)
    requires PlainRows(s) && k <= |ms| == |ds|
    ensures PlainRows(Transfers(s, ms, ds, k))
  {
    hide MarkCopied, PlainDesc;
    if k > 0 { TransfersPlain(s, ms, ds, k - 1); }
  }

  lemma {:induction false} PopsPlain(s: State, k: nat)
    requires PlainRows(s)
    ensures PlainRows(PopFulls(s, k)) && PlainRows(PopFrees(s, k))
  {
    hide PlainDesc;
    if k > 0 { PopsPlain(s, k - 1); }
  }

  lemma FlushedPlain(s: State, cfg: Config, count: nat)
    requires Mid(s, cfg) && RolesOk(s) && Supplied(s, count) && PlainRows(s)
    ensures PlainRows(Flushed(s, count))
  {
    hide Mid, RolesOk, PopFulls, PopFrees, Recycles, Transfers, PlainRows, MemBatch, DiskBatch, TakenOk, FromFree, Ascending, CanTransfer, Settle, Covered;
    var num, ms, ds := FromFree(s, count), MemBatch(s, count), DiskBatch(s, count);
    PopsPlain(s, count);
    PopsPlain(PopFulls(s, count), num);
    RecyclesPlain(PopFrees(PopFulls(s, count), num), count - num);
    TakenSpec(s, cfg, count);
    BatchesReady(s, Taken(s, count), count);
    CoveredBound(ms);
    TransfersPlain(Taken(s, count), ms, ds, Covered(ms));
    SettledPlain(Transfers(Taken(s, count), ms, ds, Covered(ms)), count);
  }

  lemma SettledPlain(s: State, count: nat)
    requires PlainRows(s)
    ensures PlainRows(Settle(s, count))
  {
    hide PlainDesc;
  }

  lemma FlushPlain(s: State, cfg: Config)
    requires Good(s, cfg) && PlainRows(s)
    ensures PlainRows(Flush(s, cfg).0)
  {
    var count := BatchCount(s, cfg);
    GoodMid(s, cfg);
    GoodRoles(s, cfg);
    if Supplied(s, count) { FlushedPlain(s, cfg, count); }
    hide Good, Mid, RolesOk, Flushed, PlainDesc;
  }

  lemma AcquirePlain(s: State, cfg: Config, c: (nat, nat))
    requires Good(s, cfg) && PlainRows(s) && RolesOk(s) && Acquire(s, c).Some?
    ensures PlainRows(Acquire(s, c).value)
  {
    hide Queue, Pairs, Owners, Loose, Inv, ItemsOk, CountersOk, RoomOk, Repoint, MarkEvicted, PlainDesc;
    if c !in s.owner && s.freeM == [] {
      PairsPop(s.evictM, s.mrole, MLoose);
      NoRowsPlain(Freed(s.mst[s.evictM[0].0]));
    }
  }

  lemma ListedPlain(d: Desc, d': Desc, fs: nat, fm: nat, start: nat, end: nat)
    requires PlainDesc(d) && Later(d, fs, fm, start) && start < end && d'.rows == Listed(d, fs, fm, start, end).rows
    ensures PlainDesc(d')
  {
  }

  lemma FilledPlain(s: State, cfg: Config, c: (nat, nat), fs: nat, fm: nat, start: nat, end: nat, value: seq<byte>)
    requires RolesOk(s) && PlainRows(s) && c in s.owner && s.owner[c] < |s.mst| == |s.mem| && s.mst[s.owner[c]].nalloc < |s.mem[s.owner[c]]|
    requires Later(s.mst[s.owner[c]], fs, fm, start) && start < end
    ensures PlainRows(WriteAndList(s, c, fs, fm, start, end, value))
  {
    hide RolesOk, WriteAndList, Listed, Later, PlainDesc;
    FillFields(s, cfg, c, fs, fm, start, end, value);
    ListedPlain(s.mst[s.owner[c]], WriteAndList(s, c, fs, fm, start, end, value).mst[s.owner[c]], fs, fm, start, end);
  }

  lemma SealedPlain(t: State, c: (nat, nat))
    requires PlainRows(t) && c in t.owner && t.owner[c] < |t.mrole|
    ensures PlainRows(Seal(t, c))
  {
    hide PlainDesc;
  }

  lemma PutPlain(s: State, cfg: Config, source: nat, metric: nat, start: nat, end: nat, value: seq<byte>)
    requires Good(s, cfg) && Admissible(s, source, metric, start, end, value) && PlainRows(s) && start != end
    ensures PlainRows(Put(s, cfg, source, metric, start, end, value).0)
  {
    var c, fs, fm := Class(source, metric), SourceQuotient(source), MetricQuotient(metric);
    assert start < end && InRange(source, metric) && Timely(s.clock, (source, metric), start, end);
    GoodRoles(s, cfg);
    hide Good, Inv, RolesOk, Acquire, WriteAndList, Class, Admissible, SourceQuotient, MetricQuotient, PlainRows, Listed, Later, Timely, Seal;
    AcquireGood(s, cfg, c);
    if Acquire(s, c).Some? {
      var a := Acquire(s, c).value;
      AcquirePlain(s, cfg, c);
      RoomToWrite(a, cfg, c);
      OwnLater(a, cfg, source, metric, start, end);
      OwnedBounds(a, c);
      FilledPlain(a, cfg, c, fs, fm, start, end, value);
      PutState(s, cfg, source, metric, start, end, value, a);
      if a.owner[c] < |a.disk| { SealedPlain(WriteAndList(a, c, fs, fm, start, end, value), c); }
    } else {
      PutRefused(s, cfg, source, metric, start, end, value);
    }
  }

  lemma OwnedBounds(s: State, c: (nat, nat))
    requires RolesOk(s) && c in s.owner
    ensures s.owner[c] < |s.mst| == |s.mem| == |s.mrole|
  {
  }

  lemma AdmissibleStill(s: State, a: State, source: nat, metric: nat, start: nat, end: nat, value: seq<byte>)
    requires Admissible(s, source, metric, start, end, value) && a.clock == s.clock
    ensures Admissible(a, source, metric, start, end, value)
  {
  }

  // What a put leaves behind, from the slab it has acquired.
  lemma PutState(s: State, cfg: Config, source: nat, metric: nat, start: nat, end: nat, value: seq<byte>, a: State)
    requires Good(s, cfg) && Admissible(s, source, metric, start, end, value)
    requires RolesOk(s) && Acquire(s, Class(source, metric)) == Some(a)
    requires var c := Class(source, metric); RolesOk(a) && c in a.owner && a.mst[a.owner[c]].nalloc < |a.mem[a.owner[c]]|
    ensures var r, c := Put(s, cfg, source, metric, start, end, value), Class(source, metric);
            if a.owner[c] >= |a.disk| then r == (a, NoItem)
            else
              var t := WriteAndList(a, c, SourceQuotient(source), MetricQuotient(metric), start, end, value);
              && RolesOk(t) && c in t.owner && t.owner[c] < |t.mst| == |t.mrole|
              && r == (if t.mst[t.owner[c]].nalloc == cfg.capacity then Seal(t, c) else t, Stored)
  {
    var c, fs, fm := Class(source, metric), SourceQuotient(source), MetricQuotient(metric);
    hide Good, Inv, RolesOk, Acquire, WriteAndList, Class, Admissible, Seal, SourceQuotient, MetricQuotient;
    if a.owner[c] < |a.disk| {
      AcquireGood(s, cfg, c);
      AdmissibleStill(s, a, source, metric, start, end, value);
      FillReady(a, cfg, source, metric, start, end, value);
      InvRoles(WriteAndList(a, c, fs, fm, start, end, value), cfg);
      FilledOwner(a, cfg, c, fs, fm, start, end, value);
      OwnedBounds(WriteAndList(a, c, fs, fm, start, end, value), c);
    }
  }

  lemma {:induction false} ExecPlain(s: State, cfg: Config, ops: seq<Op>)
    requires Good(s, cfg) && PlainRows(s) && NoPoints(ops)
    ensures PlainRows(Exec(s, cfg, ops))
  {
    hide Good, PlainRows, Put, Flush, MigrateStep, Admissible;
    if ops != [] {
      var n := |ops|;
      ExecPlain(s, cfg, ops[..n - 1]);
      var t := Exec(s, cfg, ops[..n - 1]);
      match ops[n - 1]
      case PutOp(source, metric, start, end, value) =>
        if Admissible(t, source, metric, start, end, value) { PutPlain(t, cfg, source, metric, start, end, value); }
      case FlushOp => FlushPlain(t, cfg);
      case MigrateOp => MigratePlain(t, cfg);
    }
  }

  lemma MigratePlain(s: State, cfg: Config)
    requires Good(s, cfg) && PlainRows(s)
    ensures PlainRows(MigrateStep(s, cfg).0)
  {
    MigrateStepGood(s, cfg);
    hide Good, PlainDesc, Migrates;
  }

  // In every reachable state, every accepted chunk whose disk slab has not been recycled is found
  // through the index, byte for byte: from an end no earlier, and in a run without chunks that
  // start and end at one time from a start no later as well.
  lemma EveryChunkFindable(s: State, cfg: Config, ops: seq<Op>, i: nat)
    requires Good(s, cfg) && i < |Exec(s, cfg, ops).recs|
    ensures var t := Exec(s, cfg, ops);
            !t.recs[i].recycled ==> FindableByEnd(t, t.recs[i]) && (PlainRows(s) && NoPoints(ops) ==> Findable(t, t.recs[i]))
  {
    FindableGood(Exec(s, cfg, ops), cfg, i);
    hide Good, Findable, FindableByEnd, PlainRows;
    if PlainRows(s) && NoPoints(ops) { ExecPlain(s, cfg, ops); }
  }

  // Extending a row that started and ended at the same time drops its first endpoint from the
  // index: its old end is removed under the very key of its start.
  lemma StartStaysIndexed(index: map<Key, Ref>, d: Desc, fs: nat, fm: nat, start: nat, end: nat, r: Ref)
    requires var i := FindRow(d.rows, fs, fm); i < |d.rows| && StartKey(d, i) in index && d.rows[i].start < end
    ensures var i := FindRow(d.rows, fs, fm);
            StartKey(d, i) in Reindexed(index, d, fs, fm, start, end, r) <==> d.rows[i].start != d.rows[i].end
  {
  }

  lemma StartLost()
    ensures var d := Desc(0, 0, [Row(0, 0, 5, 5, false)], 1);
            var index := map[Key(0, 0, 5) := Mem(0)];
            Key(0, 0, 5) !in Reindexed(index, d, 0, 0, 6, 9, Mem(0))
  {
  }

  // A series listed anew is found from its start exactly when no entry for that time was there: with
  // a start at the end of an earlier chunk in another slab, the entry goes on leading to that slab.
  lemma StartLeadsToNew(index: map<Key, Ref>, d: Desc, fs: nat, fm: nat, start: nat, end: nat, r: Ref)
    requires FindRow(d.rows, fs, fm) == |d.rows|
    ensures var (source, metric) := SeriesOf(d, fs, fm);
            var k, index' := Key(source, metric, start), Reindexed(index, d, fs, fm, start, end, r);
            k in index' && (index'[k] == r <==> k !in index || index[k] == r)
  {
  }

  // A flush leaves nothing behind exactly when the last id of the sorted batch continues the one
  // before it; otherwise it strands that memory slab and one disk slab outside every queue.
  lemma FlushStrands(s: State, cfg: Config)
    requires Good(s, cfg) && Flush(s, cfg).1
    ensures var ms, t := MemBatch(s, BatchCount(s, cfg)), Flush(s, cfg).0;
            && (t.looseM == s.looseM <==> !LastAlone(ms))
            && (LastAlone(ms) ==> t.looseM == s.looseM + {ms[|ms| - 1]} && |t.looseM| == |s.looseM| + 1 && |t.looseD| == |s.looseD| + 1)
            && (!LastAlone(ms) ==> t.looseM == s.looseM && t.looseD == s.looseD)
  {
    var count := BatchCount(s, cfg);
    hide Good, Flush, Flushed, BatchCount, Supplied, LastAlone, Elems, MemBatch;
    GoodRoles(s, cfg);
    GoodMid(s, cfg);
    hide Mid, RolesOk;
    FlushIs(s, cfg);
    FlushedStrands(s, cfg, count);
  }

  lemma FlushedStrands(s: State, cfg: Config, count: nat)
    requires RolesOk(s) && Mid(s, cfg) && Supplied(s, count)
    ensures var ms, t := MemBatch(s, count), Flushed(s, count);
            && t.looseM == (if LastAlone(ms) then s.looseM + {ms[|ms| - 1]} else s.looseM)
            && (LastAlone(ms) ==> ms[|ms| - 1] !in s.looseM && |t.looseD| == |s.looseD| + 1)
            && (!LastAlone(ms) ==> t.looseD == s.looseD)
  {
    assert count <= |s.fullM|;
    hide Inv, RolesOk, Mid, Supplied, CountersOk, TakenOk, Transferred, Taken, Transfers;
    hide MemBatch, DiskBatch, CanTransfer, Covered, LastAlone, Elems, Ascending, FromFree;
    FullNotLoose(s);
    TakenSpec(s, cfg, count);
    var a, ms, ds := Taken(s, count), MemBatch(s, count), DiskBatch(s, count);
    BatchesReady(s, a, count);
    BatchesSorted(s, count);
    CoveredBound(ms);
    TransfersSpec(a, cfg, ms, ds, Covered(ms));
    Stranded(s, a, Transfers(a, ms, ds, Covered(ms)), count, ms, ds);
  }

  lemma GoodMid(s: State, cfg: Config)
    requires Good(s, cfg)
    ensures Mid(s, cfg)
  {
  }

  lemma FlushIs(s: State, cfg: Config)
    requires Flush(s, cfg).1
    ensures var count := BatchCount(s, cfg); Supplied(s, count) && Flush(s, cfg).0 == Flushed(s, count)
  {
    hide Flushed, RotateFull;
  }

  lemma FullNotLoose(s: State)
    requires RolesOk(s)
    ensures Elems(s.fullM) !! s.looseM && Elems(s.freeD) !! s.looseD && Elems(s.evictD) !! s.looseD
  {
    hide Pairs, Owners;
  }

  // What is left of a set of loose slabs after q was added and all but its last taken away again.
  lemma LeftOver(loose: set<nat>, q: seq<nat>, k: nat)
    requires Ascending(q) && Elems(q) !! loose && k <= |q| <= k + 1
    ensures loose + Elems(q) - Elems(q[..k]) == if k == |q| then loose else loose + {q[k]}
    ensures k < |q| ==> q[k] !in loose
  {
    if k == |q| {
      assert q[..k] == q;
    } else {
      assert q == q[..k] + [q[k]];
      assert Elems(q) == Elems(q[..k]) + {q[k]};
      assert q[k] in Elems(q) && q[k] !in Elems(q[..k]);
    }
  }

  lemma SubDisjoint(q: seq<nat>, k: nat, loose: set<nat>)
    requires k <= |q| && Elems(q) !! loose
    ensures Elems(q[..k]) !! loose
  {
    forall x | x in Elems(q[..k]) ensures x in Elems(q) {}
  }

  lemma LooseAfter(s: State, a: State, u: State, count: nat, ms: seq<nat>, ds: seq<nat>)
    requires TakenOk(s, a, count) && Transferred(a, u, ms, ds)
    ensures Supplied(s, count)
    ensures u.looseM == s.looseM + Elems(s.fullM[..count]) - Elems(ms)
    ensures var num := FromFree(s, count);
            u.looseD == s.looseD + Elems(s.freeD[..num]) + Elems(s.evictD[..count - num]) - Elems(ds)
    ensures |u.looseD| == |s.looseD| + count - |ds|
  {
    hide Elems, Untouched, FromFree;
  }

  lemma Stranded(s: State, a: State, u: State, count: nat, ms: seq<nat>, ds: seq<nat>)
    requires Supplied(s, count) && |ms| == |ds| == count && Ascending(ms) && Ascending(ds)
    requires Covered(ms) <= |ms| && TakenOk(s, a, count) && Transferred(a, u, ms[..Covered(ms)], ds[..Covered(ms)])
    requires Elems(ms) == Elems(s.fullM[..count])
    requires var num := FromFree(s, count); Elems(ds) == Elems(s.freeD[..num]) + Elems(s.evictD[..count - num])
    requires Elems(s.fullM) !! s.looseM && Elems(s.freeD) !! s.looseD && Elems(s.evictD) !! s.looseD
    ensures u.looseM == (if LastAlone(ms) then s.looseM + {ms[|ms| - 1]} else s.looseM)
    ensures LastAlone(ms) ==> ms[|ms| - 1] !in s.looseM && |u.looseD| == |s.looseD| + 1
    ensures !LastAlone(ms) ==> u.looseD == s.looseD
  {
    var num, k := FromFree(s, count), Covered(ms);
    hide Elems, Ascending, TakenOk, Transferred, FromFree;
    LooseAfter(s, a, u, count, ms[..k], ds[..k]);
    SubDisjoint(s.fullM, count, s.looseM);
    SubDisjoint(s.freeD, num, s.looseD);
    SubDisjoint(s.evictD, count - num, s.looseD);
    assert s.looseD + Elems(s.freeD[..num]) + Elems(s.evictD[..count - num]) == s.looseD + Elems(ds);
    LeftOver(s.looseM, ms, k);
    LeftOver(s.looseD, ds, k);
  }
}
