/**
  The keys under which the LSM tree gets the contents of slabs: in a whole run no key is put twice,
  so what was put under it stays.
*/
module LsmKeys {
  import opened Words
  import opened Headers
  import opened Slabs
  import opened SlabSteps
  import opened SlabRuns
  import opened SlabQueues
  import opened FlushDb

  ghost predicate HasStart(d: Desc, k: Key) { exists i :: 0 <= i < |d.rows| && StartKey(d, i) == k }

  // k is the key of a series in a slab that has not been handed over yet.
  ghost predicate Awaits(t: State, r: Ref, k: Key)
  {
    match r
    case Mem(m) => m < |t.mst| == |t.mrole| && Live(t.mrole[m]) && HasStart(t.mst[m], k)
    case Disk(d) => d < |t.dst| == |t.drole| && t.drole[d].DUsed? && HasStart(t.dst[d], k)
  }

  // No two slabs that wait to be handed over share a key, and none has a key of `handed`, all of
  // which lie in the past.
  ghost predicate Apart(t: State, handed: iset<Key>)
  {
    && (forall r, r', k :: Awaits(t, r, k) && Awaits(t, r', k) ==> r == r')
    && (forall r, k :: Awaits(t, r, k) ==> k !in handed)
    && (forall k :: k in handed ==> Past(t.clock, k))
  }

  ghost predicate NoNewWaiting(s: State, t: State) { t.clock == s.clock && forall r, k :: Awaits(t, r, k) ==> Awaits(s, r, k) }

  lemma FewerApart(s: State, t: State, handed: iset<Key>)
    requires Apart(s, handed) && NoNewWaiting(s, t)
    ensures Apart(t, handed)
  {
    hide Awaits, Past;
  }

  lemma NoRowsNoStart(d: Desc, k: Key)
    requires d.rows == []
    ensures !HasStart(d, k)
  {
  }

  // The moves of a flush ///////////////////////////////////////////////////////////////////////

  lemma PopFullWaits(s: State, cfg: Config)
    requires Mid(s, cfg) && s.fullM != []
    ensures s.fullM[0] < |s.mrole| && NoNewWaiting(s, PopFull(s))
  {
    PopFullInv(s, cfg);
    hide Mid, HasStart;
    var t := PopFull(s);
    forall r, k | Awaits(t, r, k) ensures Awaits(s, r, k) {}
  }

  lemma {:induction false} PopFullsApart(s: State, cfg: Config, k: nat, handed: iset<Key>)
    requires Mid(s, cfg) && k <= |s.fullM| && Apart(s, handed)
    ensures Apart(PopFulls(s, k), handed)
  {
    hide Mid, PopFull, FullsPopped, Apart, NoNewWaiting;
    if k > 0 {
      PopFullsApart(s, cfg, k - 1, handed);
      PopFullsSpec(s, cfg, k - 1);
      var t := PopFulls(s, k - 1);
      FullsPoppedBounds(s, t, k - 1);
      PopFullWaits(t, cfg);
      FewerApart(t, PopFull(t), handed);
    }
  }

  lemma PopFreeWaits(s: State)
    requires s.freeD != [] && s.freeD[0] < |s.drole|
    ensures NoNewWaiting(s, PopFreeD(s))
  {
    hide HasStart;
    var t := PopFreeD(s);
    forall r, k | Awaits(t, r, k) ensures Awaits(s, r, k) {}
  }

  lemma {:induction false} PopFreesApart(s: State, k: nat, handed: iset<Key>)
    requires Apart(s, handed)
    ensures Apart(PopFrees(s, k), handed)
  {
    hide PopFreeD, Apart, NoNewWaiting;
    if k > 0 {
      PopFreesApart(s, k - 1, handed);
      var t := PopFrees(s, k - 1);
      if t.freeD != [] && t.freeD[0] < |t.drole| {
        PopFreeWaits(t);
        FewerApart(t, PopFreeD(t), handed);
      }
    }
  }

  lemma RecycleWaits(s: State)
    requires s.evictD != [] && s.evictD[0] < |s.drole| == |s.dst|
    ensures NoNewWaiting(s, Recycle(s))
  {
    hide HasStart, Unindex, MarkRecycled;
    var t := Recycle(s);
    forall r, k | Awaits(t, r, k) ensures Awaits(s, r, k) {}
  }

  lemma {:induction false} RecyclesApart(s: State, k: nat, handed: iset<Key>)
    requires Apart(s, handed)
    ensures Apart(Recycles(s, k), handed)
  {
    hide Recycle, Apart, NoNewWaiting;
    if k > 0 {
      RecyclesApart(s, k - 1, handed);
      var t := Recycles(s, k - 1);
      if t.evictD != [] && t.evictD[0] < |t.drole| == |t.dst| {
        RecycleWaits(t);
        FewerApart(t, Recycle(t), handed);
      }
    }
  }

  // The keys of the memory slab now wait with its copy.
  lemma TransferApart(s: State, cfg: Config, m: nat, d: nat, handed: iset<Key>)
    requires Mid(s, cfg) && m in s.looseM && d in s.looseD && m < |s.mst| && d < |s.dst| && Apart(s, handed)
    requires |s.mst| == |s.mem| == |s.mrole| && |s.dst| == |s.disk| == |s.drole|
    ensures Apart(Transfer(s, m, d), handed)
  {
    assert Live(s.mrole[m]);
    hide Mid, HasStart, MarkCopied, Past;
    var t := Transfer(s, m, d);
    forall r, k | Awaits(t, r, k) ensures Awaits(s, if r == Disk(d) then Mem(m) else r, k) && r != Mem(m) {}
  }

  lemma {:induction false} TransfersApart(s: State, cfg: Config, ms: seq<nat>, ds: seq<nat>, k: nat, handed: iset<Key>)
    requires Mid(s, cfg) && |ms| == |ds| && CanTransfer(s, ms, ds) && k <= |ms| && Apart(s, handed)
    ensures Apart(Transfers(s, ms, ds, k), handed)
  {
    hide Mid, CanTransfer, Transferred, Transfer, Apart;
    if k > 0 {
      TransfersApart(s, cfg, ms, ds, k - 1, handed);
      TransfersSpec(s, cfg, ms, ds, k - 1);
      var t, m, d := Transfers(s, ms, ds, k - 1), ms[k - 1], ds[k - 1];
      MidSizes(t, cfg);
      NextLoose(s, t, ms, ds, k - 1);
      TransferMid(t, cfg, m, d);
      TransferApart(t, cfg, m, d, handed);
    }
  }

  lemma SettleApart(s: State, count: nat, handed: iset<Key>)
    requires Apart(s, handed)
    ensures Apart(Settle(s, count), handed)
  {
    hide HasStart, Apart;
    var t := Settle(s, count);
    forall r, k | Awaits(t, r, k) ensures Awaits(s, r, k) {}
    FewerApart(s, t, handed);
  }

  lemma TakenApart(s: State, cfg: Config, count: nat, handed: iset<Key>)
    requires Mid(s, cfg) && Supplied(s, count) && Apart(s, handed)
    ensures Apart(Taken(s, count), handed)
  {
    hide Mid, PopFulls, PopFrees, Recycles, Apart, FromFree;
    var num := FromFree(s, count);
    PopFullsApart(s, cfg, count, handed);
    PopFreesApart(PopFulls(s, count), num, handed);
    RecyclesApart(PopFrees(PopFulls(s, count), num), count - num, handed);
  }

  lemma FlushedApart(s: State, cfg: Config, count: nat, handed: iset<Key>)
    requires RolesOk(s) && Mid(s, cfg) && Supplied(s, count) && Apart(s, handed)
    ensures Apart(Flushed(s, count), handed)
  {
    hide RolesOk, Mid, CountersOk, TakenOk, Transfers, Taken, Settle, Apart, MemBatch, DiskBatch, CanTransfer, Covered, Elems, Ascending, FromFree;
    var a, ms, ds := Taken(s, count), MemBatch(s, count), DiskBatch(s, count);
    TakenApart(s, cfg, count, handed);
    TakenSpec(s, cfg, count);
    BatchesReady(s, a, count);
    CoveredBound(ms);
    TransfersApart(a, cfg, ms, ds, Covered(ms), handed);
    SettleApart(Transfers(a, ms, ds, Covered(ms)), count, handed);
  }

  lemma IdleFlushApart(s: State, cfg: Config, handed: iset<Key>)
    requires !Flush(s, cfg).1 && Apart(s, handed)
    ensures Apart(Flush(s, cfg).0, handed)
  {
    hide HasStart, Apart, Flushed;
    var t := Flush(s, cfg).0;
    assert t.mst == s.mst && t.dst == s.dst && t.mrole == s.mrole && t.drole == s.drole && t.clock == s.clock;
    hide Flush;
    forall r, k | Awaits(t, r, k) ensures Awaits(s, r, k) {}
    FewerApart(s, t, handed);
  }

  lemma FlushApart(s: State, cfg: Config, handed: iset<Key>)
    requires Good(s, cfg) && Apart(s, handed)
    ensures Apart(Flush(s, cfg).0, handed)
  {
    hide Good, Mid, RolesOk, Apart, Flush, Flushed;
    if Flush(s, cfg).1 {
      GoodRoles(s, cfg);
      GoodMid(s, cfg);
      FlushIs(s, cfg);
      FlushedApart(s, cfg, BatchCount(s, cfg), handed);
    } else {
      IdleFlushApart(s, cfg, handed);
    }
  }

  // Put ////////////////////////////////////////////////////////////////////////////////////////

  lemma AcquireWaits(s: State, cfg: Config, c: (nat, nat))
    requires Good(s, cfg) && RolesOk(s) && Acquire(s, c).Some?
    ensures NoNewWaiting(s, Acquire(s, c).value)
  {
    var t := Acquire(s, c).value;
    if c !in s.owner {
      if s.freeM != [] {
        QueuePop(s.freeM, s.mrole, MFree, MLoose);
        DescAt(s, cfg, s.freeM[0]);
        forall k ensures !HasStart(t.mst[s.freeM[0]], k) { NoRowsNoStart(t.mst[s.freeM[0]], k); }
      } else {
        PairsPop(s.evictM, s.mrole, MLoose);
        forall k ensures !HasStart(t.mst[s.evictM[0].0], k) { NoRowsNoStart(t.mst[s.evictM[0].0], k); }
      }
    }
    hide Good, RolesOk, HasStart, Repoint, MarkEvicted;
    forall r, k | Awaits(t, r, k) ensures Awaits(s, r, k) {}
  }

  // A key that waits lies in the past.
  lemma WaitingPast(s: State, cfg: Config, r: Ref, k: Key)
    requires Good(s, cfg) && Awaits(s, r, k)
    ensures Past(s.clock, k)
  {
    hide Queue, Pairs, Owners, Loose, EntriesOk, LiveOk, WaitingOk, ApartOk, DiskOk, PairedOk, LostOk, DataOk, ItemsOk, CountersOk, RoomOk;
    var d := if r.Mem? then s.mst[r.id] else s.dst[r.id];
    if r.Mem? { DescAt(s, cfg, r.id); } else { assert DDescOk(s.dst[r.id], s.drole[r.id], cfg.capacity); }
    var i :| 0 <= i < |d.rows| && StartKey(d, i) == k;
    ListsEnd(d, i);
    hide Lists, Filled;
    StartPast(s.clock, d, cfg.capacity, i);
  }

  lemma ListedStarts(d: Desc, d': Desc, fs: nat, fm: nat, start: nat, end: nat, k: Key)
    requires d'.rows == Listed(d, fs, fm, start, end).rows && (d.rows != [] ==> (d'.cx, d'.cy) == (d.cx, d.cy)) && HasStart(d', k)
    ensures HasStart(d, k) || k == Key(SeriesOf(d', fs, fm).0, SeriesOf(d', fs, fm).1, start)
  {
    var i :| 0 <= i < |d'.rows| && StartKey(d', i) == k;
    assert i < |d.rows| ==> StartKey(d, i) == k;
  }

  // What listing does to the keys that wait: at most one comes, and it lies in the future.
  ghost predicate OneMore(s: State, t: State, m: nat, newKey: Key)
  {
    && !Past(s.clock, newKey)
    && (forall k :: Past(s.clock, k) ==> Past(t.clock, k))
    && (forall r, k :: Awaits(t, r, k) ==> Awaits(s, r, k) || (r == Mem(m) && k == newKey))
  }

  lemma OneMoreApart(s: State, t: State, m: nat, newKey: Key, handed: iset<Key>)
    requires Apart(s, handed) && OneMore(s, t, m, newKey) && forall r, k :: Awaits(s, r, k) ==> Past(s.clock, k)
    ensures Apart(t, handed)
  {
    hide Awaits, Past;
  }

  lemma ListedWaits(s: State, t: State, m: nat, fs: nat, fm: nat, start: nat, end: nat)
    requires t.mrole == s.mrole && t.drole == s.drole && t.dst == s.dst && m < |s.mst| == |t.mst| == |s.mrole| && t.mst == s.mst[m := t.mst[m]]
    requires Live(s.mrole[m]) && t.mst[m].rows == Listed(s.mst[m], fs, fm, start, end).rows
    requires s.mst[m].rows != [] ==> (t.mst[m].cx, t.mst[m].cy) == (s.mst[m].cx, s.mst[m].cy)
    ensures var (source, metric) := SeriesOf(t.mst[m], fs, fm);
            forall r, k :: Awaits(t, r, k) ==> Awaits(s, r, k) || (r == Mem(m) && k == Key(source, metric, start))
  {
    hide HasStart, Listed;
    forall r, k | Awaits(t, r, k)
      ensures Awaits(s, r, k) || (r == Mem(m) && k == Key(SeriesOf(t.mst[m], fs, fm).0, SeriesOf(t.mst[m], fs, fm).1, start))
    {
      if r == Mem(m) { ListedStarts(s.mst[m], t.mst[m], fs, fm, start, end, k); }
    }
  }

  lemma Advances(clock: map<(nat, nat), nat>, series: (nat, nat), start: nat, end: nat)
    requires Timely(clock, series, start, end)
    ensures !Past(clock, Key(series.0, series.1, start)) && forall k :: Past(clock, k) ==> Past(clock[series := end], k)
  {
  }

  lemma OwnedDesc(s: State, cfg: Config, c: (nat, nat))
    requires Good(s, cfg) && RolesOk(s) && c in s.owner
    ensures var m := s.owner[c];
            m < |s.mst| == |s.mrole| == |s.mem| && Live(s.mrole[m]) && (s.mst[m].rows != [] ==> (s.mst[m].cx, s.mst[m].cy) == c)
  {
    DescAt(s, cfg, s.owner[c]);
    hide Inv, ItemsOk, RoomOk, CountersOk;
  }

  lemma PutApart(s: State, cfg: Config, source: nat, metric: nat, start: nat, end: nat, value: seq<byte>, handed: iset<Key>)
    requires Good(s, cfg) && Admissible(s, source, metric, start, end, value) && Apart(s, handed)
    ensures Apart(Put(s, cfg, source, metric, start, end, value).0, handed)
  {
    var c, fs, fm := Class(source, metric), SourceQuotient(source), MetricQuotient(metric);
    assert InRange(source, metric) && Timely(s.clock, (source, metric), start, end);
    GoodRoles(s, cfg);
    hide Good, Inv, RolesOk, Acquire, WriteAndList, Class, Admissible, SourceQuotient, MetricQuotient, Put, Seal, Apart, Timely, NoNewWaiting, SameQueues;
    AcquireGood(s, cfg, c);
    if Acquire(s, c).Some? {
      var a := Acquire(s, c).value;
      AcquireWaits(s, cfg, c);
      FewerApart(s, a, handed);
      RoomToWrite(a, cfg, c);
      PutState(s, cfg, source, metric, start, end, value, a);
      if a.owner[c] < |a.disk| {
        FilledApart(a, cfg, source, metric, start, end, value, handed);
      }
    } else {
      PutRefused(s, cfg, source, metric, start, end, value);
    }
  }

  lemma FilledApart(a: State, cfg: Config, source: nat, metric: nat, start: nat, end: nat, value: seq<byte>, handed: iset<Key>)
    requires var c := Class(source, metric); Ready(a, cfg, c) && RolesOk(a) && a.mst[a.owner[c]].nalloc < |a.mem[a.owner[c]]|
    requires InRange(source, metric) && Timely(a.clock, (source, metric), start, end) && Apart(a, handed)
    ensures var c := Class(source, metric);
            var t := WriteAndList(a, c, SourceQuotient(source), MetricQuotient(metric), start, end, value);
            Apart(t, handed) && (c in t.owner && t.owner[c] < |t.mrole| ==> Apart(Seal(t, c), handed))
  {
    var c, fs, fm := Class(source, metric), SourceQuotient(source), MetricQuotient(metric);
    var m, t := a.owner[c], WriteAndList(a, c, fs, fm, start, end, value);
    hide Good, RolesOk, WriteAndList, Class, SourceQuotient, MetricQuotient, Seal, Apart, Timely, Listed, Past, Awaits;
    OwnedDesc(a, cfg, c);
    FilledQueues(a, cfg, c, fs, fm, start, end, value);
    FilledClock(a, cfg, source, metric, start, end, value);
    FillFields(a, cfg, c, fs, fm, start, end, value);
    IdRoundTrip(source, metric, t.mst[m]);
    ListedWaits(a, t, m, fs, fm, start, end);
    Advances(a.clock, (source, metric), start, end);
    forall r, k | Awaits(a, r, k) ensures Past(a.clock, k) { WaitingPast(a, cfg, r, k); }
    OneMoreApart(a, t, m, Key(source, metric, start), handed);
    if c in t.owner && t.owner[c] < |t.mrole| { SealApart(t, c, handed); }
  }

  lemma SealApart(t: State, c: (nat, nat), handed: iset<Key>)
    requires Apart(t, handed) && c in t.owner && t.owner[c] < |t.mrole| && Live(t.mrole[t.owner[c]])
    ensures Apart(Seal(t, c), handed)
  {
    hide HasStart, Apart;
    var u := Seal(t, c);
    forall r, k | Awaits(u, r, k) ensures Awaits(t, r, k) {}
    FewerApart(t, u, handed);
  }

  // Migrations /////////////////////////////////////////////////////////////////////////////////

  // k is a key of a slab that this migration hands over.
  ghost predicate HandsKey(b: State, cfg: Config, k: Key)
  {
    && MigrateStep(b, cfg).1.Some?
    && exists d :: d in MigrateStep(b, cfg).1.value && d < |b.dst| && HasStart(b.dst[d], k)
  }

  lemma LiveIs(s: State, m: nat)
    requires RolesOk(s) && m < |s.mrole|
    ensures Live(s.mrole[m]) <==> m in s.looseM || m in s.fullM || exists c :: c in s.owner && s.owner[c] == m
  {
    hide Pairs;
    assert s.mrole[m].MOwned? ==> s.owner[s.mrole[m].cls] == m;
  }

  lemma UsedIs(s: State, d: nat)
    requires RolesOk(s) && d < |s.drole|
    ensures s.drole[d].DUsed? <==> d in s.usedD
  {
    hide Pairs, Owners, Loose;
  }

  lemma MigratedWaits(s: State, t: State, k: nat, r: Ref, key: Key)
    requires RolesOk(s) && RolesOk(t) && Migrated(s, t, k) && Awaits(t, r, key)
    ensures Awaits(s, r, key) && (r.Disk? ==> r.id !in s.usedD[..k])
  {
    if r.Mem? {
      LiveIs(s, r.id);
      LiveIs(t, r.id);
    } else {
      UsedIs(s, r.id);
      UsedIs(t, r.id);
      assert NoDup(s.usedD);
      hide RolesOk, HasStart;
      var i :| 0 <= i < |t.usedD| && t.usedD[i] == r.id;
      assert s.usedD[k + i] == r.id;
      assert forall j :: 0 <= j < k ==> s.usedD[..k][j] == s.usedD[j];
    }
  }

  lemma UsedWaits(s: State, cfg: Config, d: nat, key: Key)
    requires Good(s, cfg) && d in s.usedD && d < |s.dst| && HasStart(s.dst[d], key)
    ensures Awaits(s, Disk(d), key)
  {
    GoodRoles(s, cfg);
    UsedInside(s, d);
    UsedIs(s, d);
    hide Good, HasStart;
  }

  lemma UsedInside(s: State, d: nat)
    requires RolesOk(s) && d in s.usedD
    ensures d < |s.drole| == |s.dst|
  {
    hide Pairs, Owners, Loose;
  }

  // What a migration hands over waited before it and does not wait after it.
  lemma MigrateApart(s: State, cfg: Config, handed: iset<Key>)
    requires Good(s, cfg) && Apart(s, handed)
    ensures Apart(MigrateStep(s, cfg).0, handed + iset k | HandsKey(s, cfg, k))
    ensures forall k :: HandsKey(s, cfg, k) ==> k !in handed
  {
    var t := MigrateStep(s, cfg).0;
    MigrateStepGood(s, cfg);
    GoodRoles(s, cfg);
    GoodRoles(t, cfg);
    if MigrateStep(s, cfg).1.Some? {
      var ids := MigrateStep(s, cfg).1.value;
      hide Good, RolesOk, MigrateStep, HasStart;
      forall d, k | d in ids && d < |s.dst| && HasStart(s.dst[d], k) ensures Awaits(s, Disk(d), k) {
        assert d in s.usedD;
        UsedWaits(s, cfg, d, k);
      }
      forall r, k | Awaits(t, r, k) ensures Awaits(s, r, k) && !HandsKey(s, cfg, k) {
        MigratedWaits(s, t, cfg.nbuf, r, k);
      }
      forall k | HandsKey(s, cfg, k) ensures Past(s.clock, k) {
        var d :| d in ids && d < |s.dst| && HasStart(s.dst[d], k);
        WaitingPast(s, cfg, Disk(d), k);
      }
      hide Awaits, Past, HandsKey;
    } else {
      hide Good, RolesOk, Migrates;
      assert forall k :: !HandsKey(s, cfg, k);
    }
  }

  // Whole runs /////////////////////////////////////////////////////////////////////////////////

  // The keys handed over in a run.
  ghost function HandedKeys(s: State, cfg: Config, ops: seq<Op>): iset<Key>
    requires Good(s, cfg)
  {
    if ops == [] then iset{}
    else
      var n := |ops| - 1;
      var b := Exec(s, cfg, ops[..n]);
      HandedKeys(s, cfg, ops[..n]) + if ops[n].MigrateOp? then iset k | HandsKey(b, cfg, k) else iset{}
  }

  lemma DoApart(s: State, cfg: Config, op: Op, handed: iset<Key>)
    requires Good(s, cfg) && Apart(s, handed)
    ensures Apart(Do(s, cfg, op), handed + if op.MigrateOp? then iset k | HandsKey(s, cfg, k) else iset{})
  {
    hide Good, Put, Flush, MigrateStep, Admissible, Apart, HandsKey;
    assert handed + iset{} == handed;
    match op
    case PutOp(source, metric, start, end, value) =>
      if Admissible(s, source, metric, start, end, value) { PutApart(s, cfg, source, metric, start, end, value, handed); }
    case FlushOp => FlushApart(s, cfg, handed);
    case MigrateOp => MigrateApart(s, cfg, handed);
  }

  lemma {:induction false} ExecApart(s: State, cfg: Config, ops: seq<Op>)
    requires Good(s, cfg) && Apart(s, iset{})
    ensures Apart(Exec(s, cfg, ops), HandedKeys(s, cfg, ops))
  {
    hide Good, Do, Apart, HandsKey;
    if ops != [] {
      var n := |ops| - 1;
      ExecApart(s, cfg, ops[..n]);
      DoApart(Exec(s, cfg, ops[..n]), cfg, ops[n], HandedKeys(s, cfg, ops[..n]));
    }
  }

  lemma InitApart(mem: seq<seq<Item>>, disk: seq<seq<Item>>)
    ensures Apart(Init(mem, disk), iset{})
  {
    var s := Init(mem, disk);
    forall r, k ensures !Awaits(s, r, k) {
      if r.Mem? && r.id < |mem| { NoRowsNoStart(s.mst[r.id], k); }
    }
  }

  // A key handed over by call j is in what was handed over by then and stays there.
  lemma {:induction false} HandedStays(s: State, cfg: Config, ops: seq<Op>, j: nat, k: Key)
    requires Good(s, cfg) && j < |ops| && ops[j].MigrateOp? && HandsKey(Exec(s, cfg, ops[..j]), cfg, k)
    ensures k in HandedKeys(s, cfg, ops)
  {
    hide Good, Exec, HandsKey;
    var n := |ops| - 1;
    if j < n {
      assert ops[..n][..j] == ops[..j];
      HandedStays(s, cfg, ops[..n], j, k);
    }
  }

  // No key is handed over by two calls of a run.
  lemma KeyHandedOnce(s: State, cfg: Config, ops: seq<Op>, i: nat, j: nat, k: Key)
    requires Good(s, cfg) && Apart(s, iset{}) && i < j < |ops| && ops[i].MigrateOp? && ops[j].MigrateOp?
    requires HandsKey(Exec(s, cfg, ops[..i]), cfg, k)
    ensures !HandsKey(Exec(s, cfg, ops[..j]), cfg, k)
  {
    hide Good, Exec, HandsKey, Apart;
    assert ops[..j][..i] == ops[..i];
    HandedStays(s, cfg, ops[..j], i, k);
    ExecApart(s, cfg, ops[..j]);
    MigrateApart(Exec(s, cfg, ops[..j]), cfg, HandedKeys(s, cfg, ops[..j]));
  }

  // Values /////////////////////////////////////////////////////////////////////////////////////

  predicate DistinctKeys(puts: seq<(Key, seq<Item>)>) { forall x, y :: 0 <= x < y < |puts| ==> puts[x].0 != puts[y].0 }

  lemma SlabKeys(d: Desc, slab: seq<Item>, capacity: nat)
    requires Filled(d, capacity) && d.nalloc <= |slab| && Headed(slab)
    ensures var puts := SlabPuts(d, slab, |d.rows|);
            DistinctKeys(puts) && forall x :: 0 <= x < |puts| ==> HasStart(d, puts[x].0)
  {
    hide SlabPuts, Values, SlotsOf, Filled;
    var vs, puts := Values(d, slab, |d.rows|), SlabPuts(d, slab, |d.rows|);
    ValuesAre(d, slab, |d.rows|);
    PutsAreValues(d, slab, |d.rows|);
    forall x | 0 <= x < |puts| ensures puts[x].0 == StartKey(d, vs[x].row) { assert ValueOk(d, slab, vs[x]); }
    forall x, y | 0 <= x < y < |puts| ensures puts[x].0 != puts[y].0 { RowsDiffer(d, vs[x].row, vs[y].row, capacity); }
  }

  // Slabs that share no key.
  ghost predicate SlabsApart(dst: seq<Desc>, slabs: seq<(nat, seq<Item>)>)
    requires Fit(dst, slabs)
  {
    forall p, q, k :: 0 <= p < q < |slabs| && HasStart(dst[slabs[p].0], k) ==> !HasStart(dst[slabs[q].0], k)
  }

  ghost predicate OfSlabs(dst: seq<Desc>, slabs: seq<(nat, seq<Item>)>, n: nat, k: Key)
    requires Fit(dst, slabs) && n <= |slabs|
  {
    exists p :: 0 <= p < n && HasStart(dst[slabs[p].0], k)
  }

  lemma {:induction false} AllKeys(dst: seq<Desc>, slabs: seq<(nat, seq<Item>)>, capacity: nat, n: nat)
    requires Fit(dst, slabs) && SlabsApart(dst, slabs) && n <= |slabs|
    requires forall p :: 0 <= p < |slabs| ==> Filled(dst[slabs[p].0], capacity)
    ensures var puts := AllPuts(dst, slabs, n);
            DistinctKeys(puts) && forall x :: 0 <= x < |puts| ==> OfSlabs(dst, slabs, n, puts[x].0)
  {
    hide SlabPuts, HasStart, Filled, Headed;
    if n > 0 {
      AllKeys(dst, slabs, capacity, n - 1);
      var (d, slab) := slabs[n - 1];
      SlabKeys(dst[d], slab, capacity);
      var before, more, puts := AllPuts(dst, slabs, n - 1), SlabPuts(dst[d], slab, |dst[d].rows|), AllPuts(dst, slabs, n);
      forall x | 0 <= x < |puts| ensures OfSlabs(dst, slabs, n, puts[x].0) {
        if x < |before| {
          assert OfSlabs(dst, slabs, n - 1, before[x].0);
        } else {
          assert HasStart(dst[slabs[n - 1].0], more[x - |before|].0);
        }
      }
      forall x, y | 0 <= x < y < |puts| ensures puts[x].0 != puts[y].0 {
        if x < |before| <= y {
          assert OfSlabs(dst, slabs, n - 1, before[x].0);
          assert HasStart(dst[slabs[n - 1].0], more[y - |before|].0);
        }
      }
    }
  }

  lemma UsedApart(b: State, cfg: Config, p: nat, q: nat, k: Key, handed: iset<Key>)
    requires Good(b, cfg) && Apart(b, handed) && p < q < |b.usedD| && b.usedD[p] < |b.dst| && HasStart(b.dst[b.usedD[p]], k)
    ensures b.usedD[q] < |b.dst| ==> !HasStart(b.dst[b.usedD[q]], k)
  {
    UsedOnce(b, cfg, p, q);
    hide Good, HasStart, Awaits;
    if b.usedD[q] < |b.dst| && HasStart(b.dst[b.usedD[q]], k) {
      UsedWaits(b, cfg, b.usedD[p], k);
      UsedWaits(b, cfg, b.usedD[q], k);
    }
  }

  lemma UsedOnce(b: State, cfg: Config, p: nat, q: nat)
    requires Good(b, cfg) && p < q < |b.usedD|
    ensures b.usedD[p] != b.usedD[q]
  {
    hide Pairs, Owners, Loose, DescsOk, IndexOk, DiskOk, PairedOk, LostOk, DataOk, ItemsOk, CountersOk, RoomOk;
  }

  lemma HandedApart(b: State, cfg: Config, ids: seq<nat>, slabs: seq<(nat, seq<Item>)>, handed: iset<Key>)
    requires Good(b, cfg) && MigrateStep(b, cfg).1 == Some(ids) && HandsOver(b.disk, ids, slabs) && Fit(b.dst, slabs) && Apart(b, handed)
    ensures SlabsApart(b.dst, slabs) && (forall p :: 0 <= p < |slabs| ==> Filled(b.dst[slabs[p].0], cfg.capacity))
    ensures forall k :: OfSlabs(b.dst, slabs, |slabs|, k) ==> HandsKey(b, cfg, k)
  {
    hide Good, Headed, ReadIds, HasStart, Filled, Awaits, MigrateStep, Itemised, Apart;
    MigrateStepGood(b, cfg);
    forall p | 0 <= p < |slabs| ensures slabs[p].0 == b.usedD[p] && Filled(b.dst[slabs[p].0], cfg.capacity) {
      assert b.usedD[p] in b.usedD;
      UsedSlab(b, cfg, b.usedD[p]);
    }
    forall p, q, k | 0 <= p < q < |slabs| && HasStart(b.dst[slabs[p].0], k) ensures !HasStart(b.dst[slabs[q].0], k) {
      UsedApart(b, cfg, p, q, k, handed);
    }
    forall k | OfSlabs(b.dst, slabs, |slabs|, k) ensures HandsKey(b, cfg, k) {
      var p :| 0 <= p < |slabs| && HasStart(b.dst[slabs[p].0], k);
      assert slabs[p].0 in ids;
    }
  }

  // The x-th value put for call j of the run has key k.
  ghost predicate PutsKey(s: State, cfg: Config, ops: seq<Op>, j: nat, x: nat, k: Key)
    requires Good(s, cfg)
  {
    j < |ops| && ops[j].MigrateOp? && exists slabs :: PutsKeyOf(Exec(s, cfg, ops[..j]), cfg, slabs, x, k)
  }

  ghost predicate PutsKeyOf(b: State, cfg: Config, slabs: seq<(nat, seq<Item>)>, x: nat, k: Key)
  {
    && MigrateStep(b, cfg).1.Some? && HandsOver(b.disk, MigrateStep(b, cfg).1.value, slabs) && Fit(b.dst, slabs)
    && var puts := AllPuts(b.dst, slabs, |slabs|); x < |puts| && puts[x].0 == k
  }

  lemma PutsKeyOnce(b: State, cfg: Config, handed: iset<Key>, slabs: seq<(nat, seq<Item>)>, x: nat, slabs': seq<(nat, seq<Item>)>, y: nat, k: Key)
    requires Good(b, cfg) && Apart(b, handed) && PutsKeyOf(b, cfg, slabs, x, k)
    ensures HandsKey(b, cfg, k) && (PutsKeyOf(b, cfg, slabs', y, k) ==> x == y)
  {
    hide Good, Apart, MigrateStep, HandsKey, OfSlabs, SlabsApart, AllPuts, Headed, ReadIds, Filled;
    var ids := MigrateStep(b, cfg).1.value;
    HandedApart(b, cfg, ids, slabs, handed);
    AllKeys(b.dst, slabs, cfg.capacity, |slabs|);
    if PutsKeyOf(b, cfg, slabs', y, k) {
      assert slabs' == slabs by {
        forall p | 0 <= p < |slabs| ensures slabs'[p] == slabs[p] {}
      }
    }
  }

  // In every run from the start, whatever each migration reads, no key is put twice: the value put
  // under a key is the only one, and stays.
  lemma NoKeyPutTwice(mem: seq<seq<Item>>, disk: seq<seq<Item>>, cfg: Config, ops: seq<Op>, i: nat, x: nat, j: nat, y: nat, k: Key)
    requires ConfigOk(cfg) && Blank(cfg, mem) && Blank(cfg, disk)
    ensures Good(Init(mem, disk), cfg)
    ensures PutsKey(Init(mem, disk), cfg, ops, i, x, k) && PutsKey(Init(mem, disk), cfg, ops, j, y, k) ==> (i, x) == (j, y)
  {
    InitGood(cfg, mem, disk);
    InitApart(mem, disk);
    var s := Init(mem, disk);
    hide Good, Init, Exec, Apart, PutsKeyOf, HandsKey, Blank, ConfigOk;
    if PutsKey(s, cfg, ops, i, x, k) && PutsKey(s, cfg, ops, j, y, k) {
      KeyOfCall(s, cfg, ops, i, x, j, y, k);
      KeyOfCall(s, cfg, ops, j, y, i, x, k);
      if i < j { KeyHandedOnce(s, cfg, ops, i, j, k); }
      if j < i { KeyHandedOnce(s, cfg, ops, j, i, k); }
    }
  }

  lemma KeyOfCall(s: State, cfg: Config, ops: seq<Op>, i: nat, x: nat, j: nat, y: nat, k: Key)
    requires Good(s, cfg) && Apart(s, iset{}) && PutsKey(s, cfg, ops, i, x, k) && PutsKey(s, cfg, ops, j, y, k)
    ensures HandsKey(Exec(s, cfg, ops[..i]), cfg, k) && (i == j ==> x == y)
  {
    hide Good, Exec, Apart, PutsKeyOf, HandsKey;
    var b, b' := Exec(s, cfg, ops[..i]), Exec(s, cfg, ops[..j]);
    var slabs :| PutsKeyOf(b, cfg, slabs, x, k);
    var slabs' :| PutsKeyOf(b', cfg, slabs', y, k);
    ExecApart(s, cfg, ops[..i]);
    PutsKeyOnce(b, cfg, HandedKeys(s, cfg, ops[..i]), slabs, x, slabs', y, k);
  }
}
