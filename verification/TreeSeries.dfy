/**
  The slab store's own operations: the loops that search for runs, keep the index in step and
  move slabs between queues, and the three calls built from them. Each is proved against the
  step functions of `SlabSteps` and `SlabRuns`.
*/
module TreeSeriesStore {
  import opened Words
  import opened Headers
  import opened Slabs
  import opened SlabSteps
  import opened SlabRuns

  // Runs of consecutive ids //////////////////////////////////////////////////////////////////

  // The runs cover the first n positions without gap or overlap, the ids of a run are
  // consecutive, and no run could be longer.
  ghost predicate Tiles(ids: seq<nat>, runs: seq<(nat, nat)>, n: nat)
  {
    && n <= |ids|
    && (if runs == [] then n == 0 else runs[0].0 == 0 && runs[|runs| - 1].1 + 1 == n)
    && (forall k :: 0 <= k < |runs| ==> RunIn(ids, runs[k], n))
    && (forall k, k' :: 0 <= k < k' < |runs| && k' == k + 1 ==> Follows(ids, runs[k], runs[k']))
  }

  predicate RunIn(ids: seq<nat>, run: (nat, nat), n: nat)
  {
    run.0 <= run.1 < n <= |ids| && Consecutive(ids[run.0..run.1 + 1])
  }

  // The next run starts right after this one, past a gap in the ids.
  predicate Follows(ids: seq<nat>, run: (nat, nat), next: (nat, nat))
  {
    next.0 == run.1 + 1 < |ids| && ids[run.1] + 1 != ids[next.0]
  }

  lemma ConsecutiveGrows(ids: seq<nat>, a: nat, b: nat)
    requires a <= b < |ids| - 1 && Consecutive(ids[a..b + 1]) && ids[b] + 1 == ids[b + 1]
    ensures Consecutive(ids[a..b + 2])
  {
    var x, y := ids[a..b + 2], ids[a..b + 1];
    assert forall i :: 0 <= i < |y| ==> x[i] == y[i];
    assert y[b - a] == ids[b];
  }

  lemma TilesMore(ids: seq<nat>, runs: seq<(nat, nat)>, a: nat, b: nat)
    requires Tiles(ids, runs, a) && a <= b < |ids| && Consecutive(ids[a..b + 1])
    requires a > 0 ==> ids[a - 1] + 1 != ids[a]
    ensures Tiles(ids, runs + [(a, b)], b + 1)
  {
    hide Consecutive;
    var r := runs + [(a, b)];
    forall k | 0 <= k < |r| ensures RunIn(ids, r[k], b + 1) {
      assert k < |runs| ==> RunIn(ids, runs[k], a);
    }
    forall k, k' | 0 <= k < k' < |r| && k' == k + 1 ensures Follows(ids, r[k], r[k']) {
      assert r[k] == runs[k];
    }
  }

  lemma TilesNone(ids: seq<nat>)
    ensures Tiles(ids, [], 0)
    ensures forall a, b :: 0 <= a < |ids| && b == a + 1 ==> Consecutive(ids[a..b])
  {
  }

  // The positions 0 to last, split into runs. The last position is in a run unless its id
  // follows a gap.
  method FindSinfoSubSequence(ids: seq<nat>, last: nat) returns (runs: seq<(nat, nat)>)
    requires last < |ids|
    ensures Tiles(ids[..last + 1], runs, Covered(ids[..last + 1]))
  {
    hide Tiles, Consecutive;
    ghost var q := ids[..last + 1];
    TilesNone(q);
    runs := [];
    var start, end := 0, 0;
    if start == last {
      TilesMore(q, [], 0, 0);
      assert [] + [(start, end)] == [(start, end)];
      return [(start, end)];
    }
    while start < last
      invariant start <= end <= last && (start < last ==> end < last)
      invariant Tiles(q, runs, start) && Consecutive(q[start..end + 1])
      invariant start > 0 ==> q[start - 1] + 1 != q[start]
      decreases last - end
    {
      if ids[end] + 1 == ids[end + 1] {
        ConsecutiveGrows(q, start, end);
        end := end + 1;
        if end == last {
          TilesMore(q, runs, start, end);
          return runs + [(start, end)];
        }
      } else {
        TilesMore(q, runs, start, end);
        runs := runs + [(start, end)];
        end := end + 1;
        start := end;
      }
    }
  }

  // The index loops //////////////////////////////////////////////////////////////////////////

  // d with only its first j rows.
  function FirstRows(d: Desc, j: nat): Desc
    requires j <= |d.rows|
  {
    d.(rows := d.rows[..j])
  }

  lemma FirstRowsLists(d: Desc, j: nat, k: Key)
    requires j < |d.rows|
    ensures Lists(FirstRows(d, j + 1), k) <==> Lists(FirstRows(d, j), k) || RowLists(d, j, k)
  {
    var e, e' := FirstRows(d, j), FirstRows(d, j + 1);
    assert forall i :: 0 <= i < j ==> RowLists(e', i, k) == RowLists(e, i, k);
    assert RowLists(e', j, k) == RowLists(d, j, k);
    if Lists(e, k) {
      var i :| 0 <= i < j && RowLists(e, i, k);
      assert RowLists(e', i, k);
    }
  }

  lemma NoRowsNoChange(index: map<Key, Ref>, d: Desc)
    requires d.rows == []
    ensures Unindex(index, d) == index && forall to :: Repoint(index, d, to) == index
  {
    hide Lists;
    forall k ensures !Lists(d, k) { NoRowsListNothing(d, k); }
  }

  lemma RepointRow(index: map<Key, Ref>, d: Desc, j: nat, to: Ref)
    requires j < |d.rows| && NoLost(index, d)
    ensures UpdateMT(UpdateMT(Repoint(index, FirstRows(d, j), to), StartKey(d, j), to), EndKey(d, j), to) == Repoint(index, FirstRows(d, j + 1), to)
  {
    assert d.rows[j].lost ==> StartKey(d, j) !in index;
    hide Lists, FirstRows, NoLost;
    forall k ensures Lists(FirstRows(d, j + 1), k) <==> Lists(FirstRows(d, j), k) || RowLists(d, j, k) {
      FirstRowsLists(d, j, k);
    }
  }

  lemma UnindexRow(index: map<Key, Ref>, d: Desc, j: nat)
    requires j < |d.rows| && NoLost(index, d)
    ensures RemoveMT(RemoveMT(Unindex(index, FirstRows(d, j)), StartKey(d, j)), EndKey(d, j)) == Unindex(index, FirstRows(d, j + 1))
  {
    assert d.rows[j].lost ==> StartKey(d, j) !in index;
    hide Lists, FirstRows, NoLost;
    forall k ensures Lists(FirstRows(d, j + 1), k) <==> Lists(FirstRows(d, j), k) || RowLists(d, j, k) {
      FirstRowsLists(d, j, k);
    }
    var x := RemoveMT(RemoveMT(Unindex(index, FirstRows(d, j)), StartKey(d, j)), EndKey(d, j));
    var y := Unindex(index, FirstRows(d, j + 1));
    forall k ensures k in x <==> k in y {
      assert k in x <==> k in index && !Lists(FirstRows(d, j), k) && k != StartKey(d, j) && k != EndKey(d, j);
      assert k in y <==> k in index && !Lists(FirstRows(d, j + 1), k);
    }
    assert forall k :: k in x ==> x[k] == y[k];
  }

  // Every endpoint the descriptor lists now leads to `to`, if it was in the index at all.
  method UpdateRows(index: map<Key, Ref>, d: Desc, to: Ref) returns (index': map<Key, Ref>)
    requires NoLost(index, d)
    ensures index' == Repoint(index, d, to)
  {
    hide Repoint, UpdateMT, NoLost;
    index' := index;
    var j := 0;
    NoRowsNoChange(index, FirstRows(d, 0));
    while j < |d.rows|
      invariant j <= |d.rows| && index' == Repoint(index, FirstRows(d, j), to)
    {
      RepointRow(index, d, j, to);
      index' := UpdateMT(index', StartKey(d, j), to);
      index' := UpdateMT(index', EndKey(d, j), to);
      j := j + 1;
    }
    assert FirstRows(d, |d.rows|) == d;
  }

  // No endpoint the descriptor lists is left in the index.
  method RemoveRows(index: map<Key, Ref>, d: Desc) returns (index': map<Key, Ref>)
    requires NoLost(index, d)
    ensures index' == Unindex(index, d)
  {
    hide Unindex, RemoveMT, NoLost;
    index' := index;
    var j := 0;
    NoRowsNoChange(index, FirstRows(d, 0));
    while j < |d.rows|
      invariant j <= |d.rows| && index' == Unindex(index, FirstRows(d, j))
    {
      UnindexRow(index, d, j);
      index' := RemoveMT(index', StartKey(d, j));
      index' := RemoveMT(index', EndKey(d, j));
      j := j + 1;
    }
    assert FirstRows(d, |d.rows|) == d;
  }

  method FindSeries(rows: seq<Row>, fs: nat, fm: nat) returns (i: nat)
    ensures i == FindRow(rows, fs, fm)
  {
    i := 0;
    while i < |rows| && (rows[i].fs != fs || rows[i].fm != fm)
      invariant i <= FindRow(rows, fs, fm)
    {
      i := i + 1;
    }
  }

  // A chunk of the series added to the slab's descriptor: a series already listed gets a new end,
  // a new one a new row, and the index follows.
  method AddSeries(index: map<Key, Ref>, d: Desc, source: nat, metric: nat, start: nat, end: nat, r: Ref)
    returns (index': map<Key, Ref>, d': Desc)
    requires InRange(source, metric) && (d.cx, d.cy) == Class(source, metric)
    ensures d' == Listed(d, SourceQuotient(source), MetricQuotient(metric), start, end)
    ensures index' == Reindexed(index, d, SourceQuotient(source), MetricQuotient(metric), start, end, r)
  {
    var fs, fm := SourceQuotient(source), MetricQuotient(metric);
    IdRoundTrip(source, metric, d);
    hide SourceQuotient, MetricQuotient, Class;
    var i := FindSeries(d.rows, fs, fm);
    if i < |d.rows| {
      index' := RemoveMT(index, Key(source, metric, d.rows[i].end));
      d' := d.(rows := d.rows[i := Extended(d.rows[i], end)]);
      index' := InsertMT(index', EndKey(d', i), r);
    } else {
      d' := d.(rows := d.rows + [Row(fs, fm, start, end, false)]);
      index' := InsertMT(index, StartKey(d', i), r);
      index' := InsertMT(index', EndKey(d', i), r);
    }
  }

  // Writing runs ///////////////////////////////////////////////////////////////////////////////

  // One write of k adjacent memory slabs onto k adjacent disk slabs.
  function WriteRun(disk: seq<seq<Item>>, mem: seq<seq<Item>>, m: nat, d: nat, k: nat): (r: seq<seq<Item>>)
    requires m + k <= |mem| && d + k <= |disk|
    ensures |r| == |disk|
  {
    disk[..d] + mem[m..m + k] + disk[d + k..]
  }

  lemma WriteRunMore(disk: seq<seq<Item>>, mem: seq<seq<Item>>, m: nat, d: nat, k: nat)
    requires m + k < |mem| && d + k < |disk|
    ensures WriteRun(disk, mem, m, d, k + 1) == WriteRun(disk, mem, m, d, k)[d + k := mem[m + k]]
  {
  }

  // The ids of positions a to b are consecutive.
  predicate Adjacent(ids: seq<nat>, a: nat, b: nat)
    requires b < |ids|
  {
    forall i :: a <= i <= b ==> ids[i] == ids[a] + (i - a)
  }

  lemma TransfersFields(s: State, cfg: Config, ms: seq<nat>, ds: seq<nat>, k: nat)
    requires Mid(s, cfg) && |ms| == |ds| && CanTransfer(s, ms, ds) && k < |ms|
    ensures var t := Transfers(s, ms, ds, k);
            && Mid(t, cfg) && t.mem == s.mem && |t.disk| == |t.dst| == |s.disk| == |t.drole|
            && ms[k] < |t.mst| == |t.mem| == |t.mrole| && ds[k] < |t.disk|
            && Transfers(s, ms, ds, k + 1) == Transfer(t, ms[k], ds[k])
  {
    TransfersSpec(s, cfg, ms, ds, k);
    var t := Transfers(s, ms, ds, k);
    MidSizes(s, cfg);
    MidSizes(t, cfg);
    SameMemory(s, t, ms[..k], ds[..k]);
    NextLoose(s, t, ms, ds, k);
    hide Mid, CanTransfer, Transferred, Transfer;
    TransferMid(t, cfg, ms[k], ds[k]);
  }

  lemma SameMemory(s: State, t: State, ms: seq<nat>, ds: seq<nat>)
    requires Transferred(s, t, ms, ds)
    ensures t.mem == s.mem && |t.dst| == |s.dst|
  {
  }

  // One write of a whole run leaves the disk as writing its slabs one by one does.
  lemma {:induction false} RunDisk(s: State, cfg: Config, ms: seq<nat>, ds: seq<nat>, a: nat, b: nat)
    requires Mid(s, cfg) && |ms| == |ds| && CanTransfer(s, ms, ds) && a <= b < |ms| && Adjacent(ms, a, b) && Adjacent(ds, a, b)
    ensures var disk, k := Transfers(s, ms, ds, a).disk, b - a + 1;
            && ms[a] + k <= |s.mem| && ds[a] + k <= |disk|
            && Transfers(s, ms, ds, b + 1).disk == WriteRun(disk, s.mem, ms[a], ds[a], k)
    decreases b
  {
    hide Mid, CanTransfer, Transfers;
    TransfersFields(s, cfg, ms, ds, a);
    TransfersFields(s, cfg, ms, ds, b);
    var disk := Transfers(s, ms, ds, a).disk;
    if a < b { RunDisk(s, cfg, ms, ds, a, b - 1); }
    WriteRunMore(disk, s.mem, ms[a], ds[a], b - a);
  }

  // A transfer without its write: descriptor copied, both slabs queued.
  function TransferInfo(s: State, m: nat, d: nat): State
    requires m < |s.mst| == |s.mrole| && d < |s.dst| == |s.drole|
  {
    s.(dst := s.dst[d := s.mst[m]], evictM := s.evictM + [(m, d)], usedD := s.usedD + [d],
       looseM := s.looseM - {m}, looseD := s.looseD - {d},
       mrole := s.mrole[m := MEvict(d)], drole := s.drole[d := DUsed], recs := MarkCopied(s.recs, m, d))
  }

  lemma InfoCommutes(s: State, disk: seq<seq<Item>>, m: nat, d: nat)
    requires m < |s.mst| == |s.mem| == |s.mrole| && d < |s.dst| == |s.disk| == |s.drole|
    ensures TransferInfo(s.(disk := disk), m, d) == Transfer(s, m, d).(disk := disk)
    ensures Transfer(s, m, d).disk == s.disk[d := s.mem[m]]
  {
    hide MarkCopied;
  }

  class TreeSeries {
    const cfg: Config

    var mem: seq<seq<Item>>
    var mst: seq<Desc>
    var disk: seq<seq<Item>>
    var dst: seq<Desc>
    var owner: map<(nat, nat), nat>
    var freeM: seq<nat>
    var fullM: seq<nat>
    var evictM: seq<(nat, nat)>
    var freeD: seq<nat>
    var usedD: seq<nat>
    var evictD: seq<nat>
    var n: Counters
    var index: map<Key, Ref>

    // The same state with the parts that only the proof needs.
    ghost var view: State

    ghost predicate Tied()
      reads this
    {
      && mem == view.mem && mst == view.mst && disk == view.disk && dst == view.dst && owner == view.owner
      && freeM == view.freeM && fullM == view.fullM && evictM == view.evictM
      && freeD == view.freeD && usedD == view.usedD && evictD == view.evictD
      && n == view.n && index == view.index
    }

    ghost predicate Valid()
      reads this
    {
      Tied() && Good(view, cfg)
    }

    constructor (cfg: Config, mem: seq<seq<Item>>, disk: seq<seq<Item>>)
      requires ConfigOk(cfg) && Blank(cfg, mem) && Blank(cfg, disk)
      ensures this.cfg == cfg && Valid() && view == Init(mem, disk)
    {
      var nm, nd := |mem|, |disk|;
      this.cfg, this.mem, this.disk := cfg, mem, disk;
      mst, dst := seq(nm, _ => Desc(0, 0, [], 0)), seq(nd, _ => Desc(0, 0, [], 0));
      owner, index := map[], map[];
      freeM, fullM, evictM, freeD, usedD, evictD := Ids(nm), [], [], Ids(nd), [], [];
      n := Counters(nm, 0, 0, 0, nd, 0, 0);
      view := Init(mem, disk);
      new;
      hide Good;
      InitGood(cfg, mem, disk);
    }

    // Put ////////////////////////////////////////////////////////////////////////////////////

    method TakeFreeSlab(c: (nat, nat))
      requires Tied() && freeM != [] && freeM[0] < |view.mrole|
      modifies this
      ensures Tied() && view == TakeFree(old(view), c)
    {
      view := TakeFree(view, c);
      var m := freeM[0];
      freeM, owner := freeM[1..], owner[c := m];
      n := n.(freeM := n.freeM - 1, usedM := n.usedM + 1);
    }

    method ReuseSlab(c: (nat, nat))
      requires Tied() && evictM != [] && evictM[0].0 < |view.mrole| == |mst| && LostOk(view)
      modifies this
      ensures Tied() && view == Reuse(old(view), c)
    {
      ReuseFields(view, c);
      assert NoLost(index, mst[evictM[0].0]);
      hide Reuse, Repoint, NoLost;
      view := Reuse(view, c);
      var m, d := evictM[0].0, evictM[0].1;
      index := UpdateRows(index, mst[m], Disk(d));
      evictM, owner, mst := evictM[1..], owner[c := m], mst[m := Freed(mst[m])];
      n := n.(evictM := n.evictM - 1, usedM := n.usedM + 1);
    }

    method WriteItem(m: nat, c: (nat, nat), start: nat, value: seq<byte>)
      requires Tied() && m < |mst| == |mem| && mst[m].nalloc < |mem[m]|
      modifies this
      ensures Tied() && view == Write(old(view), m, c, Item(start, Overlay(old(mem[m][mst[m].nalloc].chunk), value)))
    {
      var slot := mst[m].nalloc;
      var item := Item(start, Overlay(mem[m][slot].chunk, value));
      view := Write(view, m, c, item);
      mem := mem[m := mem[m][slot := item]];
      mst := mst[m := mst[m].(cx := c.0, cy := c.1, nalloc := slot + 1)];
    }

    // The search for the series, and the index entries of its endpoints.
    method ListSeries(m: nat, source: nat, metric: nat, start: nat, end: nat)
      requires Tied() && m < |mst| && InRange(source, metric) && (mst[m].cx, mst[m].cy) == Class(source, metric)
      modifies this
      ensures Tied() && view == List(old(view), m, SourceQuotient(source), MetricQuotient(metric), start, end)
    {
      hide Listed, Reindexed;
      view := List(view, m, SourceQuotient(source), MetricQuotient(metric), start, end);
      var index', d := AddSeries(index, mst[m], source, metric, start, end, Mem(m));
      index, mst := index', mst[m := d];
    }

    method SealSlab(c: (nat, nat))
      requires Tied() && c in owner && owner[c] < |view.mrole|
      modifies this
      ensures Tied() && view == Seal(old(view), c)
    {
      view := Seal(view, c);
      var m := owner[c];
      fullM, owner := fullM + [m], owner - {c};
      n := n.(fullM := n.fullM + 1, usedM := n.usedM - 1);
    }

    // The slab the class owns, a free one, or one whose contents are on disk.
    method AcquireSlab(c: (nat, nat)) returns (ok: bool)
      requires Tied() && RolesOk(view) && LostOk(view)
      modifies this
      ensures Tied() && ok == Acquire(old(view), c).Some?
      ensures view == if ok then Acquire(old(view), c).value else old(view)
    {
      AcquireSteps(view, c);
      hide RolesOk, LostOk, TakeFree, Reuse, Acquire;
      ok := true;
      if c !in owner {
        if freeM != [] {
          TakeFreeSlab(c);
        } else if evictM != [] {
          ReuseSlab(c);
        } else {
          ok := false;
        }
      }
    }

    // The item, the row and the index entries, then the full queue if that was the last slot.
    method FillSlab(sid: nat, source: nat, metric: nat, start: nat, end: nat, value: seq<byte>)
      requires Tied() && FillOk(view, cfg, source, metric, start, end, value) && sid == owner[Class(source, metric)]
      modifies this
      ensures Tied() && view == Filling(old(view), cfg, source, metric, start, end, value)
    {
      var c := Class(source, metric);
      ghost var a := view;
      ghost var item := Item(start, Overlay(a.mem[sid][a.mst[sid].nalloc].chunk, value));
      WriteClass(a, sid, c, item);
      FillingIs(a, cfg, source, metric, start, end, value);
      hide RolesOk, Write, List, Seal, Class, SourceQuotient, MetricQuotient, Overlay, Filling, FillOk;
      WriteItem(sid, c, start, value);
      ListSeries(sid, source, metric, start, end);
      if mst[sid].nalloc == cfg.capacity {
        SealSlab(c);
      }
    }

    // Stores one chunk of the series, if there is a slab for its class and an item in it.
    method ConPutKV(source: nat, metric: nat, start: nat, end: nat, value: seq<byte>) returns (sid: nat, outcome: Outcome)
      requires Valid() && Admissible(view, source, metric, start, end, value)
      modifies this
      ensures Valid() && (view, outcome) == Put(old(view), cfg, source, metric, start, end, value)
      ensures outcome == Stored ==> view.recs != [] && view.recs[|view.recs| - 1].m == sid
    {
      sid := 0;
      ghost var s := view;
      PutSteps(s, cfg, source, metric, start, end, value);
      hide Good, RolesOk, LostOk, Admissible, Acquire, Put, Class, Filling, FillOk;
      var ok := AcquireSlab(Class(source, metric));
      if !ok {
        return 0, Refused;
      }
      sid := owner[Class(source, metric)];
      if sid >= |disk| {
        return sid, NoItem;
      }
      FillSlab(sid, source, metric, start, end, value);
      return sid, Stored;
    }

    // Lazy flush /////////////////////////////////////////////////////////////////////////////

    method PopFullSlab() returns (m: nat)
      requires Tied() && fullM != [] && fullM[0] < |view.mrole|
      modifies this
      ensures Tied() && view == PopFull(old(view)) && m == old(fullM[0])
    {
      view := PopFull(view);
      m, fullM := fullM[0], fullM[1..];
    }

    method PopFreeDisk() returns (d: nat)
      requires Tied() && freeD != [] && freeD[0] < |view.drole|
      modifies this
      ensures Tied() && view == PopFreeD(old(view)) && d == old(freeD[0])
    {
      view := PopFreeD(view);
      d, freeD := freeD[0], freeD[1..];
      n := n.(freeD := n.freeD - 1);
    }

    // The oldest evictable disk slab, with its entries out of the index.
    method RecycleDisk() returns (d: nat)
      requires Tied() && evictD != [] && evictD[0] < |view.drole| == |dst| && NoLost(index, dst[evictD[0]])
      modifies this
      ensures Tied() && view == Recycle(old(view)) && d == old(evictD[0])
    {
      hide Unindex, MarkRecycled, NoLost;
      view := Recycle(view);
      d := evictD[0];
      index := RemoveRows(index, dst[d]);
      evictD, dst := evictD[1..], dst[d := Freed(dst[d])];
      n := n.(evictD := n.evictD - 1);
    }

    // At most one batch of full slabs.
    method PopFullBatch() returns (ms: seq<nat>)
      requires Tied() && Mid(view, cfg)
      modifies this
      ensures Tied() && view == PopFulls(old(view), |ms|)
      ensures |ms| == BatchCount(old(view), cfg) && ms == old(fullM)[..|ms|]
    {
      ghost var s := view;
      ms := [];
      hide Mid, PopFull, FullsPopped;
      FullsPoppedBounds(s, s, 0);
      while fullM != [] && |ms| < cfg.batch
        invariant Tied() && view == PopFulls(s, |ms|) && FullsPopped(s, view, |ms|) && Mid(view, cfg)
        invariant |ms| <= cfg.batch && |ms| <= |s.fullM| && fullM == s.fullM[|ms|..] && ms == s.fullM[..|ms|]
        decreases cfg.batch - |ms|
      {
        PopFullMid(view, cfg);
        assert s.fullM[|ms|..][1..] == s.fullM[|ms| + 1..];
        var m := PopFullSlab();
        ms := ms + [m];
        PopFullsSpec(s, cfg, |ms|);
        FullsPoppedQueue(s, view, |ms|);
      }
    }

    // No room on disk: the popped slabs go back to the end of the queue.
    method PushBack(ms: seq<nat>, ghost s: State)
      requires Tied() && |ms| <= |s.fullM| && ms == s.fullM[..|ms|] && view == PopFulls(s, |ms|)
      requires fullM == s.fullM[|ms|..]
      modifies this
      ensures Tied() && view == RotateFull(s, |ms|)
    {
      PopFullsReal(s, |ms|);
      var i := 0;
      while i < |ms|
        invariant i <= |ms| && fullM == s.fullM[|ms|..] + ms[..i]
        modifies `fullM
      {
        fullM := fullM + [ms[i]];
        i := i + 1;
      }
      view := RotateFull(s, |ms|);
    }

    method PopFreeDisks(num: nat) returns (ds: seq<nat>)
      requires Tied() && Mid(view, cfg) && num <= |freeD|
      modifies this
      ensures Tied() && Mid(view, cfg) && view == PopFrees(old(view), num) && evictD == old(evictD)
      ensures ds == old(freeD)[..num]
    {
      ghost var s := view;
      ds := [];
      hide Mid, PopFreeD, FreesPopped;
      FreesPoppedBounds(s, s, 0);
      while |ds| < num
        invariant Tied() && view == PopFrees(s, |ds|) && FreesPopped(s, view, |ds|) && Mid(view, cfg)
        invariant |ds| <= num && freeD == s.freeD[|ds|..] && evictD == s.evictD && ds == s.freeD[..|ds|]
      {
        PopFreeDMid(view, cfg);
        assert s.freeD[|ds|..][1..] == s.freeD[|ds| + 1..];
        var d := PopFreeDisk();
        ds := ds + [d];
        PopFreesSpec(s, cfg, |ds|);
        FreesPoppedQueues(s, view, |ds|);
      }
    }

    method RecycleDisks(num: nat) returns (ds: seq<nat>)
      requires Tied() && Mid(view, cfg) && num <= |evictD|
      modifies this
      ensures Tied() && Mid(view, cfg) && view == Recycles(old(view), num)
      ensures ds == old(evictD)[..num]
    {
      ghost var s := view;
      ds := [];
      hide Mid, Recycle, Recycled;
      RecycledBounds(s, s, 0);
      while |ds| < num
        invariant Tied() && view == Recycles(s, |ds|) && Recycled(s, view, |ds|) && Mid(view, cfg)
        invariant |ds| <= num && evictD == s.evictD[|ds|..] && ds == s.evictD[..|ds|]
      {
        RecycleMid(view, cfg);
        MidSizes(view, cfg);
        MidNoLost(view, cfg, evictD[0]);
        assert s.evictD[|ds|..][1..] == s.evictD[|ds| + 1..];
        var d := RecycleDisk();
        ds := ds + [d];
        RecyclesSpec(s, cfg, |ds|);
        RecycledQueue(s, view, |ds|);
      }
    }

    // A descriptor copied to disk, both slabs queued.
    method QueueCopied(m: nat, d: nat)
      requires Tied() && m < |mst| == |view.mrole| && d < |dst| == |view.drole|
      modifies this
      ensures Tied() && view == TransferInfo(old(view), m, d)
    {
      hide MarkCopied;
      view := TransferInfo(view, m, d);
      dst := dst[d := mst[m]];
      evictM, usedD := evictM + [(m, d)], usedD + [d];
    }

    // A run whose disk slabs are adjacent too, in one write.
    method WriteAdjacent(ms: seq<nat>, ds: seq<nat>, a: nat, b: nat, ghost s: State)
      requires Mid(s, cfg) && |ms| == |ds| && CanTransfer(s, ms, ds) && a <= b < |ms| && Adjacent(ms, a, b) && Adjacent(ds, a, b)
      requires Tied() && view == Transfers(s, ms, ds, a)
      modifies this
      ensures Tied() && view == Transfers(s, ms, ds, b + 1)
    {
      hide Mid, CanTransfer, Transfers, TransferInfo, Transfer;
      TransfersFields(s, cfg, ms, ds, a);
      RunDisk(s, cfg, ms, ds, a, b);
      disk := WriteRun(disk, mem, ms[a], ds[a], b - a + 1);
      ghost var all := disk;
      view := view.(disk := all);
      var j := a;
      while j <= b
        invariant a <= j <= b + 1 && Tied() && view == Transfers(s, ms, ds, j).(disk := all)
      {
        TransfersFields(s, cfg, ms, ds, j);
        InfoCommutes(Transfers(s, ms, ds, j), all, ms[j], ds[j]);
        QueueCopied(ms[j], ds[j]);
        j := j + 1;
      }
    }

    // A run slab by slab.
    method WriteScattered(ms: seq<nat>, ds: seq<nat>, a: nat, b: nat, ghost s: State)
      requires Mid(s, cfg) && |ms| == |ds| && CanTransfer(s, ms, ds) && a <= b < |ms|
      requires Tied() && view == Transfers(s, ms, ds, a)
      modifies this
      ensures Tied() && view == Transfers(s, ms, ds, b + 1)
    {
      hide Mid, CanTransfer, Transfers, TransferInfo, Transfer;
      var j := a;
      while j <= b
        invariant a <= j <= b + 1 && Tied() && view == Transfers(s, ms, ds, j)
      {
        TransfersFields(s, cfg, ms, ds, j);
        InfoCommutes(view, disk[ds[j] := mem[ms[j]]], ms[j], ds[j]);
        disk := disk[ds[j] := mem[ms[j]]];
        view := view.(disk := disk);
        QueueCopied(ms[j], ds[j]);
        j := j + 1;
      }
    }

    method WriteRuns(ms: seq<nat>, ds: seq<nat>, runs: seq<(nat, nat)>, ghost s: State)
      requires Mid(s, cfg) && |ms| == |ds| && CanTransfer(s, ms, ds) && Ascending(ds) && Tiles(ms, runs, Covered(ms))
      requires Tied() && view == s
      modifies this
      ensures Tied() && view == Transfers(s, ms, ds, Covered(ms))
    {
      hide Mid, CanTransfer, Transfers;
      TransfersNone(s, ms, ds);
      var k := 0;
      while k < |runs|
        invariant k <= |runs| && Tied()
        invariant view == Transfers(s, ms, ds, if k == 0 then 0 else runs[k - 1].1 + 1)
      {
        var (a, b) := runs[k];
        RunAdjacent(ms, runs, k);
        if b - a == ds[b] - ds[a] {
          AscendingAdjacent(ds, a, b);
          WriteAdjacent(ms, ds, a, b, s);
        } else {
          WriteScattered(ms, ds, a, b, s);
        }
        k := k + 1;
      }
    }

    // The disk slabs for a batch: free ones as far as they go, then recycled ones.
    method TakeDisks(count: nat, ghost s: State) returns (ds: seq<nat>)
      requires Supplied(s, count) && Tied() && view == PopFulls(s, count) && Mid(view, cfg)
      requires freeD == s.freeD && evictD == s.evictD && n == s.n
      modifies this
      ensures Tied() && view == Taken(s, count) && Sort(ds) == DiskBatch(s, count)
    {
      hide Mid, PopFulls, PopFrees, Recycles, Sort;
      var num := if count <= n.freeD then count else n.freeD;
      var free := PopFreeDisks(num);
      var evicted := RecycleDisks(count - num);
      ds := free + evicted;
    }

    // The batch written, run by run.
    method WriteBatch(ms: seq<nat>, ds: seq<nat>, ghost s: State, count: nat)
      requires Mid(view, cfg) && RolesOk(s) && TakenOk(s, view, count) && count >= 1
      requires ms == MemBatch(s, count) && ds == DiskBatch(s, count)
      requires Tied()
      modifies this
      ensures |ms| == |ds| && Covered(ms) <= |ms|
      ensures Tied() && view == Transfers(old(view), ms, ds, Covered(ms))
    {
      hide Mid, RolesOk, TakenOk, CanTransfer, Ascending, Tiles, Covered, MemBatch, DiskBatch, Transfers;
      BatchesReady(s, view, count);
      CoveredBound(ms);
      var runs := FindSinfoSubSequence(ms, count - 1);
      assert ms[..count] == ms;
      WriteRuns(ms, ds, runs, view);
    }

    method CountBatch(count: nat)
      requires Tied()
      modifies this
      ensures Tied() && view == Settle(old(view), count)
    {
      view := Settle(view, count);
      n := n.(fullM := n.fullM - count, usedD := n.usedD + count, evictM := n.evictM + count);
    }

    // A batch written, counted in.
    method FlushBatch(ms: seq<nat>, ghost s: State)
      requires Good(s, cfg) && Supplied(s, |ms|) && ms == s.fullM[..|ms|] && ms != []
      requires Tied() && view == PopFulls(s, |ms|)
      modifies this
      ensures Tied() && view == Flushed(s, |ms|)
    {
      var count := |ms|;
      hide Good, Mid, RolesOk, Taken, PopFulls, Transfers, Covered, TakenOk, DiskBatch, Sort, Settle;
      BatchSource(s, cfg, count);
      var ds := TakeDisks(count, s);
      TakenSpec(s, cfg, count);
      WriteBatch(Sort(ms), Sort(ds), s, count);
      CountBatch(count);
    }

    // One call of the lazy flusher. Reports whether it wrote a batch.
    method OptBatchWriteLazyFlush() returns (ok: bool)
      requires Valid()
      modifies this
      ensures Valid() && (view, ok) == Flush(old(view), cfg)
    {
      ghost var s := view;
      FlushGood(s, cfg);
      if n.fullM < cfg.batch && n.freeD + n.evictD < cfg.batch {
        return false;
      }
      if fullM == [] {
        return false;
      }
      GoodMid(s, cfg);
      EnoughDisks(s, cfg);
      hide Good, Mid, PopFulls, Flushed, RotateFull, Supplied;
      var ms := PopFullBatch();
      PopFullsReal(s, |ms|);
      PoppedQueue(s, cfg, |ms|);
      if |freeD| + |evictD| < |ms| {
        PushBack(ms, s);
        return false;
      }
      FlushBatch(ms, s);
      return true;
    }

    // Migration //////////////////////////////////////////////////////////////////////////////

    method MigrateSlab() returns (d: nat)
      requires Tied() && usedD != [] && usedD[0] < |view.drole|
      modifies this
      ensures Tied() && view == Migrate(old(view)) && d == old(usedD[0])
    {
      view := Migrate(view);
      d := usedD[0];
      usedD, evictD := usedD[1..], evictD + [d];
      n := n.(usedD := n.usedD - 1, evictD := n.evictD + 1);
    }

    method MigrateSlabs(num: nat) returns (ids: seq<nat>)
      requires Tied() && Good(view, cfg) && num <= |usedD|
      modifies this
      ensures Tied() && Good(view, cfg) && view == Migrates(old(view), num) && disk == old(disk)
      ensures ids == old(usedD)[..num]
    {
      ghost var s := view;
      hide Good, Migrate, Migrated;
      ids := [];
      MigratesGood(s, cfg, 0);
      while |ids| < num
        invariant |ids| <= num && Tied() && Good(view, cfg) && view == Migrates(s, |ids|)
        invariant usedD == s.usedD[|ids|..] && ids == s.usedD[..|ids|] && disk == s.disk
      {
        MigrateOneGood(view, cfg);
        assert s.usedD[|ids|..][1..] == s.usedD[|ids| + 1..];
        var d := MigrateSlab();
        ids := ids + [d];
        MigratesGood(s, cfg, |ids|);
        MigratedQueue(s, view, |ids|);
      }
    }

    // One call of the migrator: the oldest used slabs and their contents as read from disk.
    method MigrateReadLazyFlush() returns (slabs: seq<(nat, seq<Item>)>, isSeq: bool, ok: bool)
      requires Valid()
      modifies this
      ensures Valid()
      ensures view == MigrateStep(old(view), cfg).0 && ok == MigrateStep(old(view), cfg).1.Some?
      ensures ok ==> HandsOver(old(disk), MigrateStep(old(view), cfg).1.value, slabs) && isSeq == Spans(MigrateStep(old(view), cfg).1.value)
    {
      slabs, isSeq, ok := [], false, false;
      ghost var s := view;
      hide Good, Migrates;
      if n.usedD < cfg.migrateBatch || |usedD| < cfg.nbuf {
        return;
      }
      var ids := MigrateSlabs(cfg.nbuf);
      BufferNotEmpty(s, cfg);
      UsedInRange(s, cfg, ids);
      slabs, isSeq := ReadSlabs(disk, ids);
      ok := true;
    }
  }

  method ReadSlabs(disk: seq<seq<Item>>, ids: seq<nat>) returns (slabs: seq<(nat, seq<Item>)>, isSeq: bool)
    requires ids != [] && forall i :: 0 <= i < |ids| ==> ids[i] < |disk|
    ensures HandsOver(disk, ids, slabs) && isSeq == Spans(ids)
  {
    isSeq := ids[|ids| - 1] + 1 == ids[0] + |ids|;
    slabs := [];
    for i := 0 to |ids|
      invariant |slabs| == i
      invariant forall j :: 0 <= j < i ==> slabs[j].0 == ids[j] && ReadIds(ids)[j] < |disk| && slabs[j].1 == disk[ReadIds(ids)[j]]
    {
      slabs := slabs + [(ids[i], disk[if isSeq then ids[0] + i else ids[i]])];
    }
  }

  lemma MidNoLost(s: State, cfg: Config, d: nat)
    requires Mid(s, cfg) && d < |s.dst|
    ensures NoLost(s.index, s.dst[d])
  {
    hide RolesOk, DescsOk, IndexOk, DiskOk, PairedOk, DataOk, ItemsOk, RoomOk;
  }

  lemma BufferNotEmpty(s: State, cfg: Config)
    requires Good(s, cfg)
    ensures cfg.nbuf >= 1
  {
  }

  // The batch of a flush with enough disk slabs.
  lemma EnoughDisks(s: State, cfg: Config)
    requires Good(s, cfg)
    ensures var count := BatchCount(s, cfg);
            && s.n.freeD == |s.freeD| && (|s.freeD| + |s.evictD| >= count ==> Supplied(s, count)) && (s.fullM != [] ==> count > 0)
  {
    hide Inv, RoomOk, ItemsOk;
  }

  lemma PoppedQueue(s: State, cfg: Config, k: nat)
    requires Mid(s, cfg) && k <= |s.fullM|
    ensures PopFulls(s, k).fullM == s.fullM[k..]
  {
    PopFullsSpec(s, cfg, k);
    hide Mid;
  }

  lemma BatchSource(s: State, cfg: Config, count: nat)
    requires Good(s, cfg) && Supplied(s, count)
    ensures RolesOk(s) && Mid(s, cfg)
    ensures var a := PopFulls(s, count);
            Mid(a, cfg) && a.freeD == s.freeD && a.evictD == s.evictD && a.n == s.n
  {
    GoodRoles(s, cfg);
    GoodMid(s, cfg);
    hide Good, Mid;
    PopFullsSpec(s, cfg, count);
  }

  lemma MigratedQueue(s: State, t: State, k: nat)
    requires Migrated(s, t, k)
    ensures k <= |s.usedD| && t.usedD == s.usedD[k..] && t.disk == s.disk
  {
  }

  lemma UsedInRange(s: State, cfg: Config, q: seq<nat>)
    requires Good(s, cfg) && q <= s.usedD
    ensures forall i :: 0 <= i < |q| ==> q[i] < |s.disk|
  {
    hide Pairs, Owners, Loose, DescsOk, IndexOk, DiskOk, DataOk, ItemsOk, RoomOk, CountersOk;
    forall i | 0 <= i < |q| ensures q[i] < |s.disk| { assert q[i] == s.usedD[i] && s.usedD[i] in s.usedD; }
  }

  lemma TransfersNone(s: State, ms: seq<nat>, ds: seq<nat>)
    requires |ms| == |ds|
    ensures Transfers(s, ms, ds, 0) == s
  {
  }

  lemma RunAdjacent(ids: seq<nat>, runs: seq<(nat, nat)>, k: nat)
    requires Tiles(ids, runs, Covered(ids)) && k < |runs|
    ensures runs[k].0 <= runs[k].1 < |ids| && Adjacent(ids, runs[k].0, runs[k].1)
    ensures runs[k].0 == if k == 0 then 0 else runs[k - 1].1 + 1
    ensures k == |runs| - 1 ==> runs[k].1 + 1 == Covered(ids)
  {
    var (a, b) := runs[k];
    var run := ids[a..b + 1];
    assert RunIn(ids, runs[k], Covered(ids)) && Consecutive(run);
    assert k > 0 ==> Follows(ids, runs[k - 1], runs[k]);
    forall i | a <= i <= b ensures ids[i] == ids[a] + (i - a) { assert run[i - a] == ids[i]; }
  }

  lemma AscendingAdjacent(ids: seq<nat>, a: nat, b: nat)
    requires Ascending(ids) && a <= b < |ids| && b - a == ids[b] - ids[a]
    ensures Adjacent(ids, a, b)
  {
    forall i | a <= i <= b ensures ids[i] == ids[a] + (i - a) {
      AscendsAtLeast(ids, a, i);
      AscendsAtLeast(ids, i, b);
    }
  }

  lemma FullsPoppedQueue(s: State, t: State, k: nat)
    requires FullsPopped(s, t, k)
    ensures k <= |s.fullM| && t.fullM == s.fullM[k..]
  {
  }

  lemma FreesPoppedQueues(s: State, t: State, k: nat)
    requires FreesPopped(s, t, k)
    ensures k <= |s.freeD| && t.freeD == s.freeD[k..] && t.evictD == s.evictD
  {
  }

  lemma RecycledQueue(s: State, t: State, k: nat)
    requires Recycled(s, t, k)
    ensures k <= |s.evictD| && t.evictD == s.evictD[k..]
  {
  }

  // Popping full slabs changes, of what the store really holds, only their queue.
  lemma {:induction false} PopFullsReal(s: State, k: nat)
    ensures var t := PopFulls(s, k);
            && t.mem == s.mem && t.mst == s.mst && t.disk == s.disk && t.dst == s.dst && t.owner == s.owner
            && t.freeM == s.freeM && t.evictM == s.evictM && t.freeD == s.freeD && t.usedD == s.usedD && t.evictD == s.evictD
            && t.n == s.n && t.index == s.index
  {
    if k > 0 { PopFullsReal(s, k - 1); }
  }

  // A class with a slab to write into, and the put from there on.
  ghost predicate FillOk(s: State, cfg: Config, source: nat, metric: nat, start: nat, end: nat, value: seq<byte>)
  {
    var c := Class(source, metric);
    && InRange(source, metric)
    && RolesOk(s) && c in s.owner && s.owner[c] < |s.mst| == |s.mem| && s.mst[s.owner[c]].nalloc < |s.mem[s.owner[c]]|
    && var t := WriteAndList(s, c, SourceQuotient(source), MetricQuotient(metric), start, end, value);
       RolesOk(t) && t.owner == s.owner && t.owner[c] < |t.mrole| == |t.mst|
  }

  ghost function Filling(s: State, cfg: Config, source: nat, metric: nat, start: nat, end: nat, value: seq<byte>): State
    requires FillOk(s, cfg, source, metric, start, end, value)
  {
    var c := Class(source, metric);
    SealIfFull(WriteAndList(s, c, SourceQuotient(source), MetricQuotient(metric), start, end, value), cfg, c)
  }

  lemma FillingIs(s: State, cfg: Config, source: nat, metric: nat, start: nat, end: nat, value: seq<byte>)
    requires FillOk(s, cfg, source, metric, start, end, value)
    ensures var c := Class(source, metric);
            var m := s.owner[c];
            var w := Write(s, m, c, Item(start, Overlay(s.mem[m][s.mst[m].nalloc].chunk, value)));
            && m < |w.mst|
            && var t := List(w, m, SourceQuotient(source), MetricQuotient(metric), start, end);
               && c in t.owner && t.owner[c] == m < |t.mrole| == |t.mst|
               && Filling(s, cfg, source, metric, start, end, value) == if t.mst[m].nalloc == cfg.capacity then Seal(t, c) else t
  {
    hide RolesOk, List, Seal, Class, SourceQuotient, MetricQuotient, Overlay;
  }

  lemma ReuseFields(s: State, c: (nat, nat))
    requires s.evictM != [] && s.evictM[0].0 < |s.mrole| == |s.mst|
    ensures var t, m, d := Reuse(s, c), s.evictM[0].0, s.evictM[0].1;
            && t.evictM == s.evictM[1..] && t.owner == s.owner[c := m] && t.mst == s.mst[m := Freed(s.mst[m])]
            && t.n == s.n.(evictM := s.n.evictM - 1, usedM := s.n.usedM + 1) && t.index == Repoint(s.index, s.mst[m], Disk(d))
            && t.mem == s.mem && t.disk == s.disk && t.dst == s.dst && t.freeM == s.freeM && t.fullM == s.fullM
            && t.freeD == s.freeD && t.usedD == s.usedD && t.evictD == s.evictD
  {
    hide Repoint, MarkEvicted;
  }

  lemma AcquireSteps(s: State, c: (nat, nat))
    requires RolesOk(s)
    ensures c in s.owner ==> Acquire(s, c) == Some(s)
    ensures c !in s.owner && s.freeM != [] ==> s.freeM[0] < |s.mrole| && Acquire(s, c) == Some(TakeFree(s, c))
    ensures c !in s.owner && s.freeM == [] && s.evictM != [] ==>
              s.evictM[0].0 < |s.mrole| == |s.mst| && Acquire(s, c) == Some(Reuse(s, c))
    ensures c !in s.owner && s.freeM == [] && s.evictM == [] ==> Acquire(s, c) == None
  {
    hide TakeFree, Reuse, Owners, Loose;
    if s.freeM != [] { QueuePop(s.freeM, s.mrole, MFree, MLoose); }
    if s.evictM != [] { PairsPop(s.evictM, s.mrole, MLoose); }
  }

  lemma WriteClass(s: State, m: nat, c: (nat, nat), item: Item)
    requires m < |s.mst| == |s.mem| && s.mst[m].nalloc < |s.mem[m]|
    ensures var t := Write(s, m, c, item); |t.mst| == |s.mst| && (t.mst[m].cx, t.mst[m].cy) == c
  {
  }

  // What a put does, move by move.
  lemma PutSteps(s: State, cfg: Config, source: nat, metric: nat, start: nat, end: nat, value: seq<byte>)
    requires Good(s, cfg) && Admissible(s, source, metric, start, end, value)
    ensures RolesOk(s) && LostOk(s)
    ensures var c, r := Class(source, metric), Put(s, cfg, source, metric, start, end, value);
            && (Acquire(s, c) == None ==> r == (s, Refused))
            && (Acquire(s, c).Some? ==>
                  var a := Acquire(s, c).value;
                  && c in a.owner
                  && (a.owner[c] >= |a.disk| ==> r == (a, NoItem))
                  && (a.owner[c] < |a.disk| ==>
                        && FillOk(a, cfg, source, metric, start, end, value)
                        && r == (Filling(a, cfg, source, metric, start, end, value), Stored)
                        && r.0.recs != [] && r.0.recs[|r.0.recs| - 1].m == a.owner[c]))
    ensures Good(Put(s, cfg, source, metric, start, end, value).0, cfg)
  {
    GoodRoles(s, cfg);
    GoodLost(s, cfg);
    assert InRange(source, metric);
    var c, fs, fm := Class(source, metric), SourceQuotient(source), MetricQuotient(metric);
    hide Good, RolesOk, LostOk, Admissible, WriteAndList, Acquire, Class, SealIfFull, SourceQuotient, MetricQuotient;
    AcquireGood(s, cfg, c);
    if Acquire(s, c).Some? {
      var a := Acquire(s, c).value;
      RoomToWrite(a, cfg, c);
      AdmissibleStill(s, a, source, metric, start, end, value);
      FillReady(a, cfg, source, metric, start, end, value);
      FilledOwner(a, cfg, c, fs, fm, start, end, value);
      FilledRecs(a, c, fs, fm, start, end, value);
      OwnedBounds(a, c);
      var t := WriteAndList(a, c, fs, fm, start, end, value);
      InvRoles(t, cfg);
      OwnedBounds(t, c);
      SealedRecs(t, cfg, c);
    }
  }

  lemma GoodLost(s: State, cfg: Config)
    requires Good(s, cfg)
    ensures LostOk(s)
  {
    hide RolesOk, DescsOk, IndexOk, DiskOk, PairedOk, DataOk, ItemsOk, RoomOk;
  }

  lemma SealedRecs(s: State, cfg: Config, c: (nat, nat))
    requires RolesOk(s) && c in s.owner
    ensures SealIfFull(s, cfg, c).recs == s.recs
  {
    hide RolesOk;
    OwnedBounds(s, c);
  }
}
