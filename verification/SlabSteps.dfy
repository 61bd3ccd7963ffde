/**
  The calls of the slab store as steps over `Slabs.State`: put, lazy flush and migration, and
  what holds in every state that any sequence of them reaches.
*/
module SlabSteps {
  import opened Words
  import opened Headers
  import opened Slabs

  // Ids and classes ////////////////////////////////////////////////////////////////////

  function Class(source: nat, metric: nat): (nat, nat) { (metric % CX_NUM, source % CY_NUM) }

  // The quotients, kept in eight bits.
  function SourceQuotient(source: nat): nat { source / CY_NUM % 256 }

  function MetricQuotient(metric: nat): nat { metric / CX_NUM % 256 }

  const SOURCE_LIMIT := 256 * CY_NUM
  const METRIC_LIMIT := 256 * CX_NUM

  predicate InRange(source: nat, metric: nat) { source < SOURCE_LIMIT && metric < METRIC_LIMIT }

  // The ids are recovered from class and quotients exactly when they are in range.
  lemma IdRoundTrip(source: nat, metric: nat, d: Desc)
    requires (d.cx, d.cy) == Class(source, metric)
    ensures SeriesOf(d, SourceQuotient(source), MetricQuotient(metric)) == (source, metric) <==> InRange(source, metric)
  {
  }

  // Put ////////////////////////////////////////////////////////////////////////////////

  // The memory slab of the class: the one it owns, a free one, or one whose contents are on disk.
  ghost function Acquire(s: State, c: (nat, nat)): (o: Option<State>)
    requires RolesOk(s)
  {
    if c in s.owner then Some(s)
    else if s.freeM != [] then QueuePop(s.freeM, s.mrole, MFree, MLoose); Some(TakeFree(s, c))
    else if s.evictM != [] then PairsPop(s.evictM, s.mrole, MLoose); Some(Reuse(s, c))
    else None
  }

  // memcpy of the value over the slot's chunk.
  function Overlay(slot: seq<byte>, value: seq<byte>): seq<byte>
  {
    if |value| < |slot| then value + slot[|value|..] else value[..|slot|]
  }

  // A put into a ready class, before the slab is sealed.
  ghost function WriteAndList(s: State, c: (nat, nat), fs: nat, fm: nat, start: nat, end: nat, value: seq<byte>): State
    requires RolesOk(s) && c in s.owner && s.mst[s.owner[c]].nalloc < |s.mem[s.owner[c]]|
  {
    var m := s.owner[c];
    var item := Item(start, Overlay(s.mem[m][s.mst[m].nalloc].chunk, value));
    List(Write(s, m, c, item), m, fs, fm, start, end)
  }

  ghost function SealIfFull(t: State, cfg: Config, c: (nat, nat)): State
    requires RolesOk(t) && c in t.owner
  {
    if t.mst[t.owner[c]].nalloc == cfg.capacity then Seal(t, c) else t
  }

  // The conditions under which a put may be issued: ids that fit, times that move forward, and
  // a chunk whose header names its own series.
  ghost predicate Admissible(s: State, source: nat, metric: nat, start: nat, end: nat, value: seq<byte>)
  {
    && InRange(source, metric)
    && Timely(s.clock, (source, metric), start, end)
    && |value| >= VALUE_HEADER_SIZE && HeaderSeries(value) == (source, metric)
  }

  // The descriptor lists the series, with a time range that holds t.
  ghost predicate Names(d: Desc, series: (nat, nat), t: nat)
  {
    exists i :: 0 <= i < |d.rows| && (RowSource(d, i), RowMetric(d, i)) == series && d.rows[i].start <= t <= d.rows[i].end
  }

  // Some item of the slab is of the series of row i, and starts when the row does.
  ghost predicate StartsRow(d: Desc, slab: seq<Item>, i: nat)
    requires i < |d.rows| && d.nalloc <= |slab| && forall j :: 0 <= j < |slab| ==> |slab[j].chunk| >= VALUE_HEADER_SIZE
  {
    exists j :: 0 <= j < d.nalloc && HeaderSeries(slab[j].chunk) == (RowSource(d, i), RowMetric(d, i)) && slab[j].ts == d.rows[i].start
  }

  // A slab whose items all belong to series it lists, and fall into their listed range; every listed
  // range starts with an item.
  ghost predicate Itemised(d: Desc, slab: seq<Item>)
  {
    && d.nalloc <= |slab|
    && (forall j :: 0 <= j < |slab| ==> |slab[j].chunk| >= VALUE_HEADER_SIZE)
    && (forall j :: 0 <= j < d.nalloc ==> Names(d, HeaderSeries(slab[j].chunk), slab[j].ts))
    && (forall i :: 0 <= i < |d.rows| ==> StartsRow(d, slab, i))
  }

  ghost predicate ItemsOk(s: State)
    requires RolesOk(s)
  {
    && (forall m :: 0 <= m < |s.mst| ==> Itemised(s.mst[m], s.mem[m]))
    && (forall d :: 0 <= d < |s.dst| && OnDisk(s.drole[d]) ==> Itemised(s.dst[d], s.disk[d]))
    && (forall d :: 0 <= d < |s.dst| ==> forall j :: 0 <= j < |s.disk[d]| ==> |s.disk[d][j].chunk| >= VALUE_HEADER_SIZE)
  }

  predicate ConfigOk(cfg: Config)
  {
    1 <= cfg.capacity <= 16 && cfg.batch >= 1 && cfg.nbuf >= 1
  }

  // What holds between calls.
  ghost predicate Good(s: State, cfg: Config)
  {
    ConfigOk(cfg) && Inv(s, cfg) && RoomOk(s, cfg) && CountersOk(s) && ItemsOk(s)
  }

  // A class that owns a slab with room to write into.
  ghost predicate Ready(s: State, cfg: Config, c: (nat, nat))
  {
    Good(s, cfg) && c in s.owner
  }

  lemma AcquireGood(s: State, cfg: Config, c: (nat, nat))
    requires Good(s, cfg)
    ensures Acquire(s, c) == None <==> c !in s.owner && s.freeM == [] && s.evictM == []
    ensures Acquire(s, c).Some? ==> Ready(Acquire(s, c).value, cfg, c) && Acquire(s, c).value.clock == s.clock
  {
    if c !in s.owner {
      if s.freeM != [] {
        QueuePop(s.freeM, s.mrole, MFree, MLoose);
        TakeFreeInv(s, cfg, c);
        TakeFreeGood(s, cfg, c);
      } else if s.evictM != [] {
        PairsPop(s.evictM, s.mrole, MLoose);
        ReuseInv(s, cfg, c);
        ReuseGood(s, cfg, c);
      }
    }
  }

  lemma TakeFreeGood(s: State, cfg: Config, c: (nat, nat))
    requires Good(s, cfg) && s.freeM != [] && c !in s.owner
    requires s.freeM[0] < |s.mrole| && s.mrole[s.freeM[0]] == MFree && Inv(TakeFree(s, c), cfg)
    ensures Ready(TakeFree(s, c), cfg, c)
  {
    hide Queue, Pairs, IndexOk, DataOk, Itemised;
    var m := s.freeM[0];
    assert MDescOk(s.mst[m], s.mrole[m], cfg.capacity);
  }

  lemma ReuseGood(s: State, cfg: Config, c: (nat, nat))
    requires Good(s, cfg) && s.evictM != [] && c !in s.owner
    requires s.evictM[0].0 < |s.mrole| && s.mrole[s.evictM[0].0] == MEvict(s.evictM[0].1) && Inv(Reuse(s, c), cfg)
    ensures Ready(Reuse(s, c), cfg, c)
  {
    hide Queue, Pairs, IndexOk, DiskOk, PairedOk, DataOk, Itemised, Repoint, MarkEvicted;
    FreedItemised(s.mst[s.evictM[0].0], s.mem[s.evictM[0].0]);
  }

  lemma FreedItemised(d: Desc, slab: seq<Item>)
    requires Itemised(d, slab)
    ensures Itemised(Freed(d), slab)
  {
    hide HeaderSeries;
  }

  lemma OverlayHeader(chunk: seq<byte>, value: seq<byte>)
    requires |chunk| >= VALUE_HEADER_SIZE && |value| >= VALUE_HEADER_SIZE
    ensures |Overlay(chunk, value)| == |chunk| && HeaderSeries(Overlay(chunk, value)) == HeaderSeries(value)
  {
    hide FromBigEndian;
    assert Overlay(chunk, value)[3..11] == value[3..11];
  }

  // A series already listed ended before the new chunk starts.
  predicate Later(d: Desc, fs: nat, fm: nat, start: nat)
  {
    var i := FindRow(d.rows, fs, fm);
    i < |d.rows| ==> d.rows[i].start <= d.rows[i].end < start
  }

  // Listing a series names it, and keeps every name there was.
  lemma ListedNames(d: Desc, d': Desc, fs: nat, fm: nat, start: nat, end: nat, series: (nat, nat), t: nat)
    requires d'.rows == Listed(d, fs, fm, start, end).rows && (d.rows != [] ==> (d'.cx, d'.cy) == (d.cx, d.cy))
    requires Later(d, fs, fm, start) && start <= end
    ensures Names(d, series, t) ==> Names(d', series, t)
    ensures Names(d', SeriesOf(d', fs, fm), start)
  {
    var i := FindRow(d.rows, fs, fm);
    assert (RowSource(d', i), RowMetric(d', i)) == SeriesOf(d', fs, fm) && d'.rows[i].start <= start <= d'.rows[i].end;
    if Names(d, series, t) {
      var j :| 0 <= j < |d.rows| && (RowSource(d, j), RowMetric(d, j)) == series && d.rows[j].start <= t <= d.rows[j].end;
      assert (RowSource(d', j), RowMetric(d', j)) == series && d'.rows[j].start <= t <= d'.rows[j].end;
    }
  }

  lemma FillItems(d: Desc, d': Desc, slab: seq<Item>, fs: nat, fm: nat, start: nat, end: nat, value: seq<byte>)
    requires Itemised(d, slab) && d.nalloc < |slab| && |value| >= VALUE_HEADER_SIZE && Later(d, fs, fm, start) && start <= end
    requires d'.rows == Listed(d, fs, fm, start, end).rows && (d.rows != [] ==> (d'.cx, d'.cy) == (d.cx, d.cy))
    requires d'.nalloc == d.nalloc + 1 && SeriesOf(d', fs, fm) == HeaderSeries(value)
    ensures Itemised(d', slab[d.nalloc := Item(start, Overlay(slab[d.nalloc].chunk, value))])
  {
    hide Listed, Names, HeaderSeries, SeriesOf, Later, StartsRow;
    var k := d.nalloc;
    OverlayHeader(slab[k].chunk, value);
    var slab' := slab[k := Item(start, Overlay(slab[k].chunk, value))];
    forall j | 0 <= j < d'.nalloc ensures Names(d', HeaderSeries(slab'[j].chunk), slab'[j].ts) {
      ListedNames(d, d', fs, fm, start, end, HeaderSeries(slab'[j].chunk), slab'[j].ts);
    }
    forall i | 0 <= i < |d'.rows| ensures StartsRow(d', slab', i) { RowsStart(d, d', slab, slab', fs, fm, start, end, i); }
  }

  lemma RowsStart(d: Desc, d': Desc, slab: seq<Item>, slab': seq<Item>, fs: nat, fm: nat, start: nat, end: nat, i: nat)
    requires Itemised(d, slab) && d.nalloc < |slab| == |slab'| && d'.nalloc == d.nalloc + 1
    requires forall j :: 0 <= j < |slab'| ==> |slab'[j].chunk| >= VALUE_HEADER_SIZE
    requires d'.rows == Listed(d, fs, fm, start, end).rows && (d.rows != [] ==> (d'.cx, d'.cy) == (d.cx, d.cy))
    requires slab'[..d.nalloc] == slab[..d.nalloc] && slab'[d.nalloc].ts == start
    requires HeaderSeries(slab'[d.nalloc].chunk) == SeriesOf(d', fs, fm) && i < |d'.rows|
    ensures StartsRow(d', slab', i)
  {
    hide HeaderSeries, Names;
    if i < |d.rows| {
      assert StartsRow(d, slab, i);
      var j :| 0 <= j < d.nalloc && HeaderSeries(slab[j].chunk) == (RowSource(d, i), RowMetric(d, i)) && slab[j].ts == d.rows[i].start;
      assert slab'[j] == slab'[..d.nalloc][j] == slab[j];
    } else {
      assert slab'[d.nalloc].ts == d'.rows[i].start;
    }
  }

  // The clock of a series is not before the end of any row that lists it.
  lemma ClockLater(s: State, cfg: Config, m: nat, fs: nat, fm: nat, start: nat, end: nat)
    requires RolesOk(s) && IndexOk(s) && m < |s.mst| && Filled(s.mst[m], cfg.capacity)
    requires Timely(s.clock, SeriesOf(s.mst[m], fs, fm), start, end)
    ensures Later(s.mst[m], fs, fm, start)
  {
    hide RolesOk, IndexOk, EntriesOk;
    var d := s.mst[m];
    var i := FindRow(d.rows, fs, fm);
    if i < |d.rows| {
      ListsEnd(d, i);
      ClockAt(s, m, EndKey(d, i));
    }
  }

  lemma FillInv(s: State, cfg: Config, source: nat, metric: nat, start: nat, end: nat, value: seq<byte>)
    requires Ready(s, cfg, Class(source, metric)) && Admissible(s, source, metric, start, end, value)
    ensures var c := Class(source, metric);
            && s.mst[s.owner[c]].nalloc < |s.mem[s.owner[c]]|
            && Inv(WriteAndList(s, c, SourceQuotient(source), MetricQuotient(metric), start, end, value), cfg)
  {
    var c, fs, fm := Class(source, metric), SourceQuotient(source), MetricQuotient(metric);
    var m := s.owner[c];
    DescAt(s, cfg, m);
    hide IndexOk, DataOk, DescsOk, ItemsOk, List;
    var item := Item(start, Overlay(s.mem[m][s.mst[m].nalloc].chunk, value));
    WriteInv(s, cfg, c, item);
    var w := Write(s, m, c, item);
    IdRoundTrip(source, metric, w.mst[m]);
    ListInv(w, cfg, m, fs, fm, start, end);
  }

  predicate SameQueues(s: State, t: State)
  {
    && t.owner == s.owner && t.freeM == s.freeM && t.fullM == s.fullM && t.evictM == s.evictM && t.looseM == s.looseM
    && t.freeD == s.freeD && t.usedD == s.usedD && t.evictD == s.evictD && t.looseD == s.looseD
    && t.n == s.n && t.mrole == s.mrole && t.drole == s.drole && t.disk == s.disk && t.dst == s.dst
  }

  // The fields of that state.
  lemma FillFields(s: State, cfg: Config, c: (nat, nat), fs: nat, fm: nat, start: nat, end: nat, value: seq<byte>)
    requires RolesOk(s) && c in s.owner && s.mst[s.owner[c]].nalloc < |s.mem[s.owner[c]]|
    ensures var m, t := s.owner[c], WriteAndList(s, c, fs, fm, start, end, value);
            var d, d' := s.mst[m], t.mst[m];
            && SameQueues(s, t)
            && t.mst == s.mst[m := d'] && d'.nalloc == d.nalloc + 1 && (d'.cx, d'.cy) == c
            && d'.rows == Listed(d, fs, fm, start, end).rows
            && t.mem == s.mem[m := s.mem[m][d.nalloc := Item(start, Overlay(s.mem[m][d.nalloc].chunk, value))]]
  {
    hide Reindexed, Queue, Pairs, Loose;
  }

  lemma ItemsAfter(s: State, t: State, m: nat)
    requires RolesOk(s) && RolesOk(t) && ItemsOk(s) && SameQueues(s, t) && m < |s.mst|
    requires t.mst == s.mst[m := t.mst[m]] && t.mem == s.mem[m := t.mem[m]] && Itemised(t.mst[m], t.mem[m])
    ensures ItemsOk(t)
  {
    hide Queue, Pairs, Owners, Loose, Itemised;
  }

  lemma FillReady(s: State, cfg: Config, source: nat, metric: nat, start: nat, end: nat, value: seq<byte>)
    requires Ready(s, cfg, Class(source, metric)) && Admissible(s, source, metric, start, end, value)
    ensures var c := Class(source, metric);
            && s.mst[s.owner[c]].nalloc < |s.mem[s.owner[c]]|
            && var t := WriteAndList(s, c, SourceQuotient(source), MetricQuotient(metric), start, end, value);
               Inv(t, cfg) && CountersOk(t) && ItemsOk(t)
  {
    var c, fs, fm := Class(source, metric), SourceQuotient(source), MetricQuotient(metric);
    var m := s.owner[c];
    DescAt(s, cfg, m);
    assert Itemised(s.mst[m], s.mem[m]);
    OwnLater(s, cfg, source, metric, start, end);
    hide RolesOk, DescsOk, IndexOk, DataOk, ItemsOk, Itemised, Listed, Filled, Later;
    FillInv(s, cfg, source, metric, start, end, value);
    FillFields(s, cfg, c, fs, fm, start, end, value);
    var t := WriteAndList(s, c, fs, fm, start, end, value);
    hide WriteAndList;
    IdRoundTrip(source, metric, t.mst[m]);
    FillItems(s.mst[m], t.mst[m], s.mem[m], fs, fm, start, end, value);
    ItemsAfter(s, t, m);
  }

  lemma OwnLater(s: State, cfg: Config, source: nat, metric: nat, start: nat, end: nat)
    requires Ready(s, cfg, Class(source, metric)) && InRange(source, metric) && Timely(s.clock, (source, metric), start, end)
    ensures Later(s.mst[s.owner[Class(source, metric)]], SourceQuotient(source), MetricQuotient(metric), start)
  {
    var c, fs, fm := Class(source, metric), SourceQuotient(source), MetricQuotient(metric);
    var m := s.owner[c];
    DescAt(s, cfg, m);
    if s.mst[m].rows != [] {
      IdRoundTrip(source, metric, s.mst[m]);
      hide IndexOk, DataOk, DiskOk, PairedOk, DescsOk, ItemsOk;
      ClockLater(s, cfg, m, fs, fm, start, end);
    }
  }

  // Every class but c has room.
  ghost predicate RoomBut(t: State, cfg: Config, c: (nat, nat))
    requires RolesOk(t)
  {
    forall c' :: c' in t.owner && c' != c ==> t.mst[t.owner[c']].nalloc < cfg.capacity
  }

  lemma RoomElsewhere(s: State, t: State, cfg: Config, c: (nat, nat))
    requires RolesOk(s) && RolesOk(t) && RoomOk(s, cfg) && c in s.owner
    requires t.owner == s.owner && t.mst == s.mst[s.owner[c] := t.mst[s.owner[c]]]
    ensures RoomBut(t, cfg, c)
  {
    hide Queue, Pairs, Loose;
    forall c' | c' in t.owner && c' != c ensures t.mst[t.owner[c']].nalloc < cfg.capacity {
      assert s.mrole[s.owner[c']] == MOwned(c') && s.mrole[s.owner[c]] == MOwned(c);
    }
  }

  lemma SealedFields(t: State, c: (nat, nat))
    requires RolesOk(t) && c in t.owner
    ensures var u := Seal(t, c);
            && u.owner == t.owner - {c} && |u.owner| == |t.owner| - 1 && u.fullM == t.fullM + [t.owner[c]]
            && u.mst == t.mst && u.mem == t.mem && u.disk == t.disk && u.dst == t.dst && u.drole == t.drole
            && u.freeM == t.freeM && u.evictM == t.evictM && u.looseM == t.looseM
            && u.freeD == t.freeD && u.usedD == t.usedD && u.evictD == t.evictD && u.looseD == t.looseD
            && u.n == t.n.(fullM := t.n.fullM + 1, usedM := t.n.usedM - 1)
  {
    hide Queue, Pairs, Loose;
    MapRemoveSize(t.owner, c);
  }

  lemma InvRoles(s: State, cfg: Config)
    requires Inv(s, cfg)
    ensures RolesOk(s)
  {
  }

  lemma SealedGood(t: State, cfg: Config, c: (nat, nat))
    requires ConfigOk(cfg) && Inv(t, cfg) && CountersOk(t) && ItemsOk(t) && RoomBut(t, cfg, c)
    requires c in t.owner && Inv(Seal(t, c), cfg)
    ensures Good(Seal(t, c), cfg)
  {
    hide Inv, RolesOk, Itemised, Seal;
    InvRoles(t, cfg);
    SealedFields(t, c);
  }

  lemma MapRemoveSize(m: map<(nat, nat), nat>, c: (nat, nat))
    requires c in m
    ensures |m - {c}| == |m| - 1
  {
    assert (m - {c}).Keys == m.Keys - {c};
    assert |m| == |m.Keys| && |m - {c}| == |(m - {c}).Keys|;
  }

  lemma SealGood(s: State, t: State, cfg: Config, c: (nat, nat))
    requires Good(s, cfg) && Inv(t, cfg) && CountersOk(t) && ItemsOk(t) && c in s.owner
    requires t.owner == s.owner && t.mst == s.mst[s.owner[c] := t.mst[s.owner[c]]] && t.mst[t.owner[c]].nalloc <= cfg.capacity
    ensures Good(SealIfFull(t, cfg, c), cfg)
  {
    RoomElsewhere(s, t, cfg, c);
    hide RolesOk, IndexOk, DataOk, ItemsOk, DescsOk, CountersOk, Seal;
    if t.mst[t.owner[c]].nalloc == cfg.capacity {
      SealInv(t, cfg, c);
      SealedGood(t, cfg, c);
    }
  }

  // A put is refused when there is no slab for it. A slab whose id is not an id on disk too has no
  // item to write to: the store has then taken it, and goes no further.
  datatype Outcome = Refused | NoItem | Stored

  // One put: acquire, write, list, seal.
  ghost function Put(s: State, cfg: Config, source: nat, metric: nat, start: nat, end: nat, value: seq<byte>): (r: (State, Outcome))
    requires Good(s, cfg) && Admissible(s, source, metric, start, end, value)
    ensures Good(r.0, cfg)
  {
    var c := Class(source, metric);
    AcquireGood(s, cfg, c);
    match Acquire(s, c)
    case None => (s, Refused)
    case Some(a) =>
      if a.owner[c] >= |a.disk| then (a, NoItem) else
      FillReady(a, cfg, source, metric, start, end, value);
      var t := WriteAndList(a, c, SourceQuotient(source), MetricQuotient(metric), start, end, value);
      FilledOwner(a, cfg, c, SourceQuotient(source), MetricQuotient(metric), start, end, value);
      SealGood(a, t, cfg, c);
      (SealIfFull(t, cfg, c), Stored)
  }

  lemma FilledOwner(s: State, cfg: Config, c: (nat, nat), fs: nat, fm: nat, start: nat, end: nat, value: seq<byte>)
    requires Ready(s, cfg, c) && s.mst[s.owner[c]].nalloc < |s.mem[s.owner[c]]|
    ensures var t := WriteAndList(s, c, fs, fm, start, end, value);
            && t.owner == s.owner && |t.mst| == |s.mst|
            && t.mst == s.mst[s.owner[c] := t.mst[s.owner[c]]] && t.mst[s.owner[c]].nalloc <= cfg.capacity
  {
    hide IndexOk, DataOk, ItemsOk, Listed, WriteAndList;
    FillFields(s, cfg, c, fs, fm, start, end, value);
  }

  // Lazy flush ////////////////////////////////////////////////////////////////////////////

  // What holds inside a flush, where the counters lag behind the queues.
  ghost predicate Mid(s: State, cfg: Config)
  {
    ConfigOk(cfg) && Inv(s, cfg) && RoomOk(s, cfg) && ItemsOk(s)
  }

  lemma PopFullMid(s: State, cfg: Config)
    requires Mid(s, cfg) && s.fullM != []
    ensures s.fullM[0] < |s.mrole| && s.fullM[0] !in s.looseM && Mid(PopFull(s), cfg)
  {
    PopFullInv(s, cfg);
    hide Queue, Pairs, IndexOk, DataOk, Itemised, DescsOk;
  }

  lemma PopFreeDMid(s: State, cfg: Config)
    requires Mid(s, cfg) && s.freeD != []
    ensures s.freeD[0] < |s.drole| && s.freeD[0] !in s.looseD && Mid(PopFreeD(s), cfg)
  {
    PopFreeDInv(s, cfg);
    QueuePop(s.freeD, s.drole, DFree, DLoose);
    hide Queue, Pairs, IndexOk, DataOk, Itemised, DescsOk;
  }

  lemma RecycleMid(s: State, cfg: Config)
    requires Mid(s, cfg) && s.evictD != []
    ensures s.evictD[0] < |s.drole| && s.evictD[0] !in s.looseD && Mid(Recycle(s), cfg)
  {
    RecycleInv(s, cfg);
    QueuePop(s.evictD, s.drole, DEvict, DLoose);
    hide Queue, Pairs, IndexOk, DataOk, Itemised, DescsOk, Unindex, MarkRecycled;
  }

  lemma TransferMid(s: State, cfg: Config, m: nat, d: nat)
    requires Mid(s, cfg) && m in s.looseM && d in s.looseD
    ensures m < |s.mst| && d < |s.dst| && Mid(Transfer(s, m, d), cfg)
  {
    TransferInv(s, cfg, m, d);
    hide Queue, Pairs, IndexOk, DataOk, Itemised, DescsOk, MarkCopied;
  }

  function Elems(q: seq<nat>): set<nat> { set x | x in q }

  lemma ElemsSplit(q: seq<nat>, k: nat)
    requires k < |q|
    ensures Elems(q[..k + 1]) == Elems(q[..k]) + Elems(q[k..][..1]) && q[k..][1..] == q[k + 1..]
  {
    assert q[..k + 1] == q[..k] + q[k..][..1];
  }

  // Nothing in a flush touches the classes, the free memory slabs or the memory contents.
  predicate Untouched(s: State, t: State)
  {
    && t.owner == s.owner && t.freeM == s.freeM && t.mst == s.mst && t.mem == s.mem && t.clock == s.clock
    && |t.dst| == |s.dst| && |t.mrole| == |s.mrole| && |t.drole| == |s.drole|
    && t.n.freeM == s.n.freeM && t.n.usedM == s.n.usedM && t.n.fullM == s.n.fullM && t.n.evictM == s.n.evictM && t.n.usedD == s.n.usedD
  }

  // The first k full slabs, taken off the queue.
  function PopFulls(s: State, k: nat): State
  {
    if k == 0 then s
    else
      var t := PopFulls(s, k - 1);
      if t.fullM != [] && t.fullM[0] < |t.mrole| then PopFull(t) else t
  }

  predicate FullsPopped(s: State, t: State, k: nat)
  {
    && k <= |s.fullM| && t.fullM == s.fullM[k..]
    && t.looseM == s.looseM + Elems(s.fullM[..k]) && |t.looseM| == |s.looseM| + k
    && Untouched(s, t) && t.n == s.n
    && t.evictM == s.evictM && t.freeD == s.freeD && t.usedD == s.usedD && t.evictD == s.evictD && t.looseD == s.looseD
  }

  lemma PopFullPops(s: State)
    requires s.fullM != [] && s.fullM[0] < |s.mrole| && s.fullM[0] !in s.looseM
    ensures FullsPopped(s, PopFull(s), 1)
  {
    assert Elems(s.fullM[..1]) == {s.fullM[0]};
  }

  lemma FullsPoppedMore(s: State, t: State, u: State, k: nat)
    requires FullsPopped(s, t, k) && FullsPopped(t, u, 1)
    ensures FullsPopped(s, u, k + 1)
  {
    ElemsSplit(s.fullM, k);
  }

  lemma FullsPoppedBounds(s: State, t: State, k: nat)
    ensures FullsPopped(s, s, 0)
    ensures FullsPopped(s, t, k) && k < |s.fullM| ==> t.fullM != []
  {
    assert Elems(s.fullM[..0]) == {};
  }

  lemma {:induction false} PopFullsSpec(s: State, cfg: Config, k: nat)
    requires Mid(s, cfg) && k <= |s.fullM|
    ensures Mid(PopFulls(s, k), cfg) && FullsPopped(s, PopFulls(s, k), k)
  {
    hide Mid, PopFull, FullsPopped;
    if k == 0 {
      FullsPoppedBounds(s, s, 0);
    } else {
      PopFullsSpec(s, cfg, k - 1);
      var t := PopFulls(s, k - 1);
      FullsPoppedBounds(s, t, k - 1);
      PopFullMid(t, cfg);
      PopFullPops(t);
      FullsPoppedMore(s, t, PopFull(t), k - 1);
    }
  }

  function PopFrees(s: State, k: nat): State
  {
    if k == 0 then s
    else
      var t := PopFrees(s, k - 1);
      if t.freeD != [] && t.freeD[0] < |t.drole| then PopFreeD(t) else t
  }

  predicate FreesPopped(s: State, t: State, k: nat)
  {
    && k <= |s.freeD| && t.freeD == s.freeD[k..]
    && t.looseD == s.looseD + Elems(s.freeD[..k]) && |t.looseD| == |s.looseD| + k
    && Untouched(s, t) && t.n.freeD == s.n.freeD - k && t.n.evictD == s.n.evictD
    && t.evictM == s.evictM && t.fullM == s.fullM && t.usedD == s.usedD && t.evictD == s.evictD && t.looseM == s.looseM
  }

  lemma PopFreeDPops(s: State)
    requires s.freeD != [] && s.freeD[0] < |s.drole| && s.freeD[0] !in s.looseD
    ensures FreesPopped(s, PopFreeD(s), 1)
  {
    assert Elems(s.freeD[..1]) == {s.freeD[0]};
  }

  lemma FreesPoppedMore(s: State, t: State, u: State, k: nat)
    requires FreesPopped(s, t, k) && FreesPopped(t, u, 1)
    ensures FreesPopped(s, u, k + 1)
  {
    ElemsSplit(s.freeD, k);
  }

  lemma FreesPoppedBounds(s: State, t: State, k: nat)
    ensures FreesPopped(s, s, 0)
    ensures FreesPopped(s, t, k) && k < |s.freeD| ==> t.freeD != []
  {
    assert Elems(s.freeD[..0]) == {};
  }

  lemma {:induction false} PopFreesSpec(s: State, cfg: Config, k: nat)
    requires Mid(s, cfg) && k <= |s.freeD|
    ensures Mid(PopFrees(s, k), cfg) && FreesPopped(s, PopFrees(s, k), k)
  {
    hide Mid, PopFreeD, FreesPopped;
    if k == 0 {
      FreesPoppedBounds(s, s, 0);
    } else {
      PopFreesSpec(s, cfg, k - 1);
      var t := PopFrees(s, k - 1);
      FreesPoppedBounds(s, t, k - 1);
      PopFreeDMid(t, cfg);
      PopFreeDPops(t);
      FreesPoppedMore(s, t, PopFreeD(t), k - 1);
    }
  }

  ghost function Recycles(s: State, k: nat): State
  {
    if k == 0 then s
    else
      var t := Recycles(s, k - 1);
      if t.evictD != [] && t.evictD[0] < |t.drole| == |t.dst| then Recycle(t) else t
  }

  predicate Recycled(s: State, t: State, k: nat)
  {
    && k <= |s.evictD| && t.evictD == s.evictD[k..]
    && t.looseD == s.looseD + Elems(s.evictD[..k]) && |t.looseD| == |s.looseD| + k
    && Untouched(s, t) && t.n.evictD == s.n.evictD - k && t.n.freeD == s.n.freeD
    && t.evictM == s.evictM && t.fullM == s.fullM && t.usedD == s.usedD && t.freeD == s.freeD && t.looseM == s.looseM
  }

  lemma RecycleRecycles(s: State)
    requires s.evictD != [] && s.evictD[0] < |s.drole| == |s.dst| && s.evictD[0] !in s.looseD
    ensures Recycled(s, Recycle(s), 1)
  {
    hide Unindex, MarkRecycled;
    assert Elems(s.evictD[..1]) == {s.evictD[0]};
  }

  lemma RecycledMore(s: State, t: State, u: State, k: nat)
    requires Recycled(s, t, k) && Recycled(t, u, 1)
    ensures Recycled(s, u, k + 1)
  {
    ElemsSplit(s.evictD, k);
  }

  lemma RecycledBounds(s: State, t: State, k: nat)
    ensures Recycled(s, s, 0)
    ensures Recycled(s, t, k) && k < |s.evictD| ==> t.evictD != []
  {
    assert Elems(s.evictD[..0]) == {};
  }

  lemma {:induction false} RecyclesSpec(s: State, cfg: Config, k: nat)
    requires Mid(s, cfg) && k <= |s.evictD|
    ensures Mid(Recycles(s, k), cfg) && Recycled(s, Recycles(s, k), k)
  {
    hide Mid, Recycle, Recycled;
    if k == 0 {
      RecycledBounds(s, s, 0);
    } else {
      RecyclesSpec(s, cfg, k - 1);
      var t := Recycles(s, k - 1);
      RecycledBounds(s, t, k - 1);
      MidSizes(t, cfg);
      RecycleMid(t, cfg);
      RecycleRecycles(t);
      RecycledMore(s, t, Recycle(t), k - 1);
    }
  }

  // The first k pairs copied to disk and queued.
  function Transfers(s: State, ms: seq<nat>, ds: seq<nat>, k: nat): State
    requires k <= |ms| == |ds|
  {
    if k == 0 then s
    else
      var t, m, d := Transfers(s, ms, ds, k - 1), ms[k - 1], ds[k - 1];
      if m < |t.mst| == |t.mem| == |t.mrole| && d < |t.dst| == |t.disk| == |t.drole| then Transfer(t, m, d) else t
  }

  function Zip(ms: seq<nat>, ds: seq<nat>): seq<(nat, nat)>
    requires |ms| == |ds|
  {
    seq(|ms|, i requires 0 <= i < |ms| => (ms[i], ds[i]))
  }

  predicate Transferred(s: State, t: State, ms: seq<nat>, ds: seq<nat>)
  {
    && |ms| == |ds|
    && t.looseM == s.looseM - Elems(ms) && |t.looseM| == |s.looseM| - |ms|
    && t.looseD == s.looseD - Elems(ds) && |t.looseD| == |s.looseD| - |ds|
    && t.evictM == s.evictM + Zip(ms, ds) && t.usedD == s.usedD + ds
    && Untouched(s, t) && t.n == s.n
    && t.fullM == s.fullM && t.freeD == s.freeD && t.evictD == s.evictD
  }

  lemma TransferTransfers(s: State, m: nat, d: nat)
    requires m < |s.mst| == |s.mem| == |s.mrole| && d < |s.dst| == |s.disk| == |s.drole| && m in s.looseM && d in s.looseD
    ensures Transferred(s, Transfer(s, m, d), [m], [d])
  {
    hide MarkCopied;
    assert Elems([m]) == {m} && Elems([d]) == {d};
  }

  lemma TransferredMore(s: State, t: State, u: State, ms: seq<nat>, ds: seq<nat>, m: nat, d: nat)
    requires Transferred(s, t, ms, ds) && Transferred(t, u, [m], [d])
    ensures Transferred(s, u, ms + [m], ds + [d])
  {
    hide Elems;
    ElemsMinus(s.looseM, ms, m);
    ElemsMinus(s.looseD, ds, d);
    assert s.usedD + ds + [d] == s.usedD + (ds + [d]);
    assert s.evictM + Zip(ms, ds) + Zip([m], [d]) == s.evictM + Zip(ms + [m], ds + [d]);
  }

  lemma ElemsMinus(a: set<nat>, q: seq<nat>, x: nat)
    ensures a - Elems(q + [x]) == a - Elems(q) - Elems([x])
  {
    assert Elems(q + [x]) == Elems(q) + Elems([x]);
  }

  ghost predicate CanTransfer(s: State, ms: seq<nat>, ds: seq<nat>)
  {
    |ms| == |ds| && NoDup(ms) && NoDup(ds) && Elems(ms) <= s.looseM && Elems(ds) <= s.looseD
  }

  lemma {:induction false} TransfersSpec(s: State, cfg: Config, ms: seq<nat>, ds: seq<nat>, k: nat)
    requires Mid(s, cfg) && |ms| == |ds| && CanTransfer(s, ms, ds) && k <= |ms|
    ensures Mid(Transfers(s, ms, ds, k), cfg) && Transferred(s, Transfers(s, ms, ds, k), ms[..k], ds[..k])
  {
    hide Mid, Transfer, Transferred, CanTransfer;
    if k == 0 {
      TransferredNone(s, ms[..0], ds[..0]);
    } else {
      TransfersSpec(s, cfg, ms, ds, k - 1);
      var t, m, d := Transfers(s, ms, ds, k - 1), ms[k - 1], ds[k - 1];
      MidSizes(t, cfg);
      NextLoose(s, t, ms, ds, k - 1);
      TransferMid(t, cfg, m, d);
      TransferTransfers(t, m, d);
      TransferredMore(s, t, Transfer(t, m, d), ms[..k - 1], ds[..k - 1], m, d);
      assert ms[..k] == ms[..k - 1] + [m] && ds[..k] == ds[..k - 1] + [d];
    }
  }

  lemma TransferredNone(s: State, ms: seq<nat>, ds: seq<nat>)
    requires ms == [] && ds == []
    ensures Transferred(s, s, ms, ds)
  {
    assert Elems(ms) == {} && Elems(ds) == {};
  }

  lemma NextLoose(s: State, t: State, ms: seq<nat>, ds: seq<nat>, k: nat)
    requires CanTransfer(s, ms, ds) && k < |ms| && Transferred(s, t, ms[..k], ds[..k])
    ensures ms[k] in t.looseM && ds[k] in t.looseD
  {
    hide Untouched;
    TransferReady(ms, k, s.looseM);
    TransferReady(ds, k, s.looseD);
  }

  lemma MidSizes(s: State, cfg: Config)
    requires Mid(s, cfg)
    ensures |s.mst| == |s.mem| == |s.mrole| && |s.dst| == |s.disk| == |s.drole|
  {
  }

  lemma TransferReady(q: seq<nat>, k: nat, loose: set<nat>)
    requires k < |q| && NoDup(q) && Elems(q) <= loose
    ensures q[k] in loose - Elems(q[..k])
  {
    assert q[k] in Elems(q);
    assert forall i :: 0 <= i < k ==> q[..k][i] == q[i];
  }

  // Sorting by slab id.
  function Insert(x: nat, q: seq<nat>): (r: seq<nat>)
    ensures |r| == |q| + 1
  {
    if q == [] || x < q[0] then [x] + q else [q[0]] + Insert(x, q[1..])
  }

  function Sort(q: seq<nat>): (r: seq<nat>)
    ensures |r| == |q|
  {
    if q == [] then [] else Insert(q[0], Sort(q[1..]))
  }

  predicate Ascending(q: seq<nat>)
  {
    forall i, j :: 0 <= i < j < |q| ==> q[i] < q[j]
  }

  lemma {:induction false} InsertElems(x: nat, q: seq<nat>)
    ensures Elems(Insert(x, q)) == Elems(q) + {x}
  {
    if q == [] || x < q[0] {
      ElemsHead(x, q);
    } else {
      InsertElems(x, q[1..]);
      ElemsHead(q[0], q[1..]);
      ElemsHead(q[0], Insert(x, q[1..]));
      assert q == [q[0]] + q[1..];
    }
  }

  lemma ElemsHead(x: nat, q: seq<nat>)
    ensures Elems([x] + q) == Elems(q) + {x}
  {
    assert forall y :: y in [x] + q <==> y == x || y in q;
  }

  lemma AscendingHead(x: nat, q: seq<nat>)
    requires Ascending(q) && forall y :: y in Elems(q) ==> x < y
    ensures Ascending([x] + q)
  {
    forall i | 0 <= i < |q| ensures x < q[i] { assert q[i] in Elems(q); }
  }

  lemma {:induction false} InsertAscending(x: nat, q: seq<nat>)
    requires Ascending(q) && x !in q
    ensures Ascending(Insert(x, q))
  {
    if q == [] {
    } else if x < q[0] {
      AscendingHead(x, q);
    } else {
      InsertAscending(x, q[1..]);
      InsertElems(x, q[1..]);
      AscendingHead(q[0], Insert(x, q[1..]));
    }
  }

  lemma {:induction false} SortAscending(q: seq<nat>)
    requires NoDup(q)
    ensures Ascending(Sort(q)) && Elems(Sort(q)) == Elems(q)
  {
    if q != [] {
      SortAscending(q[1..]);
      assert q == [q[0]] + q[1..];
      assert q[0] !in Elems(Sort(q[1..]));
      InsertAscending(q[0], Sort(q[1..]));
      InsertElems(q[0], Sort(q[1..]));
      ElemsHead(q[0], q[1..]);
    }
  }

  // Runs of consecutive slab ids are written in one piece. A last id that does not continue the
  // id before it is in no run.
  predicate LastAlone(ids: seq<nat>)
  {
    |ids| >= 2 && ids[|ids| - 2] + 1 != ids[|ids| - 1]
  }

  function Covered(ids: seq<nat>): nat { if LastAlone(ids) then |ids| - 1 else |ids| }

  // The disk slabs a flush of `count` slabs takes: free ones first, then ones to recycle.
  function FromFree(s: State, count: nat): int { if count <= s.n.freeD then count else s.n.freeD }

  predicate Supplied(s: State, count: nat)
  {
    && count <= |s.fullM| && 0 <= FromFree(s, count) <= |s.freeD| && 0 <= count - FromFree(s, count) <= |s.evictD|
  }

  function MemBatch(s: State, count: nat): seq<nat>
    requires count <= |s.fullM|
  {
    Sort(s.fullM[..count])
  }

  function DiskBatch(s: State, count: nat): seq<nat>
    requires Supplied(s, count)
  {
    Sort(s.freeD[..FromFree(s, count)] + s.evictD[..count - FromFree(s, count)])
  }

  // The slabs of a batch taken out of their queues.
  ghost function Taken(s: State, count: nat): State
    requires Supplied(s, count)
  {
    Recycles(PopFrees(PopFulls(s, count), FromFree(s, count)), count - FromFree(s, count))
  }

  function Settle(s: State, count: nat): State
  {
    s.(n := s.n.(fullM := s.n.fullM - count, usedD := s.n.usedD + count, evictM := s.n.evictM + count))
  }

  ghost function Flushed(s: State, count: nat): State
    requires Supplied(s, count)
  {
    var ms := MemBatch(s, count);
    Settle(Transfers(Taken(s, count), ms, DiskBatch(s, count), Covered(ms)), count)
  }

  function BatchCount(s: State, cfg: Config): nat { if cfg.batch <= |s.fullM| then cfg.batch else |s.fullM| }

  // One call of the lazy flusher. The result says whether it wrote a batch.
  ghost function Flush(s: State, cfg: Config): (State, bool)
  {
    var count := BatchCount(s, cfg);
    if s.n.fullM < cfg.batch && s.n.freeD + s.n.evictD < cfg.batch then (s, false)
    else if s.fullM == [] then (s, false)
    else if |s.freeD| + |s.evictD| < count then (RotateFull(s, count), false)
    else if Supplied(s, count) then (Flushed(s, count), true)
    else (s, false)
  }

  lemma BatchesApart(s: State, i: nat, j: nat)
    requires RolesOk(s) && i <= |s.freeD| && j <= |s.evictD|
    ensures NoDup(s.freeD[..i] + s.evictD[..j])
  {
    hide Pairs, Owners, Loose;
    forall x, y | 0 <= x < i && 0 <= y < j ensures s.freeD[x] != s.evictD[y] {
      assert s.freeD[x] in s.freeD && s.evictD[y] in s.evictD;
    }
  }

  lemma AscendingNoDup(q: seq<nat>)
    requires Ascending(q)
    ensures NoDup(q)
  {
  }

  // The popped slabs are exactly the two batches.
  ghost predicate TakenOk(s: State, t: State, count: nat)
  {
    && Supplied(s, count) && Untouched(s, t)
    && t.fullM == s.fullM[count..] && t.looseM == s.looseM + Elems(s.fullM[..count]) && |t.looseM| == |s.looseM| + count
    && var num := FromFree(s, count);
       && t.freeD == s.freeD[num..] && t.evictD == s.evictD[count - num..]
       && t.looseD == s.looseD + Elems(s.freeD[..num]) + Elems(s.evictD[..count - num]) && |t.looseD| == |s.looseD| + count
       && t.evictM == s.evictM && t.usedD == s.usedD && t.n.freeD == s.n.freeD - num && t.n.evictD == s.n.evictD - (count - num)
  }

  lemma TakenCombines(s: State, a: State, b: State, t: State, count: nat)
    requires Supplied(s, count)
    requires FullsPopped(s, a, count) && FreesPopped(a, b, FromFree(s, count)) && Recycled(b, t, count - FromFree(s, count))
    ensures TakenOk(s, t, count)
  {
    hide Elems;
  }

  lemma SuppliedAfter(s: State, a: State, b: State, count: nat)
    requires Supplied(s, count) && FullsPopped(s, a, count)
    ensures FromFree(s, count) <= |a.freeD|
    ensures FreesPopped(a, b, FromFree(s, count)) ==> count - FromFree(s, count) <= |b.evictD|
  {
    hide Elems, Untouched;
  }

  lemma TakenSpec(s: State, cfg: Config, count: nat)
    requires Mid(s, cfg) && Supplied(s, count)
    ensures Mid(Taken(s, count), cfg) && TakenOk(s, Taken(s, count), count)
  {
    var num := FromFree(s, count);
    hide Mid, FullsPopped, FreesPopped, Recycled, TakenOk, PopFulls, PopFrees, Recycles, FromFree;
    var a := PopFulls(s, count);
    PopFullsSpec(s, cfg, count);
    var b := PopFrees(a, num);
    SuppliedAfter(s, a, b, count);
    PopFreesSpec(a, cfg, num);
    RecyclesSpec(b, cfg, count - num);
    TakenCombines(s, a, b, Recycles(b, count - num), count);
  }

  lemma BatchesSorted(s: State, count: nat)
    requires RolesOk(s) && Supplied(s, count)
    ensures Ascending(MemBatch(s, count)) && Ascending(DiskBatch(s, count)) && |MemBatch(s, count)| == |DiskBatch(s, count)| == count
    ensures Elems(MemBatch(s, count)) == Elems(s.fullM[..count])
    ensures var num := FromFree(s, count); Elems(DiskBatch(s, count)) == Elems(s.freeD[..num]) + Elems(s.evictD[..count - num])
  {
    var num := FromFree(s, count);
    BatchesApart(s, num, count - num);
    assert NoDup(s.fullM[..count]);
    hide RolesOk, Insert, Ascending, NoDup, Sort;
    SortAscending(s.fullM[..count]);
    SortAscending(s.freeD[..num] + s.evictD[..count - num]);
    assert Elems(s.freeD[..num] + s.evictD[..count - num]) == Elems(s.freeD[..num]) + Elems(s.evictD[..count - num]);
  }

  lemma BatchesReady(s: State, t: State, count: nat)
    requires RolesOk(s) && TakenOk(s, t, count)
    ensures Ascending(MemBatch(s, count)) && Ascending(DiskBatch(s, count)) && |MemBatch(s, count)| == |DiskBatch(s, count)| == count
    ensures CanTransfer(t, MemBatch(s, count), DiskBatch(s, count))
  {
    hide RolesOk, Elems, Untouched, MemBatch, DiskBatch, Ascending;
    BatchesSorted(s, count);
    AscendingNoDup(MemBatch(s, count));
    AscendingNoDup(DiskBatch(s, count));
  }

  lemma SettledCounters(s: State, t: State, u: State, count: nat, ms: seq<nat>, ds: seq<nat>)
    requires CountersOk(s) && TakenOk(s, t, count) && Transferred(t, u, ms, ds)
    ensures CountersOk(Settle(u, count))
  {
    hide Elems;
  }

  lemma SettleKeeps(s: State, cfg: Config, count: nat)
    requires Mid(s, cfg)
    ensures Mid(Settle(s, count), cfg)
  {
    hide Queue, Pairs, Owners, Loose, Filled, Itemised, Past;
    var t := Settle(s, count);
    assert SameSides(s, t);
    SameSidesInv(s, t, cfg);
    hide IndexOk, DataOk;
  }

  lemma FlushedGood(s: State, cfg: Config, count: nat)
    requires Good(s, cfg) && Supplied(s, count)
    ensures Good(Flushed(s, count), cfg)
  {
    assert Mid(s, cfg) && RolesOk(s) && CountersOk(s);
    hide Inv, RolesOk, Mid, CountersOk, TakenOk, Transferred, Taken, Transfers, Settle, MemBatch, DiskBatch, CanTransfer, Covered, Supplied;
    TakenSpec(s, cfg, count);
    var t, ms, ds := Taken(s, count), MemBatch(s, count), DiskBatch(s, count);
    BatchesReady(s, t, count);
    CoveredBound(ms);
    TransfersSpec(t, cfg, ms, ds, Covered(ms));
    var u := Transfers(t, ms, ds, Covered(ms));
    SettledCounters(s, t, u, count, ms[..Covered(ms)], ds[..Covered(ms)]);
    SettleKeeps(u, cfg, count);
    MidGood(Settle(u, count), cfg);
  }

  lemma CoveredBound(ids: seq<nat>)
    ensures Covered(ids) <= |ids|
  {
  }

  lemma MidGood(s: State, cfg: Config)
    requires Mid(s, cfg) && CountersOk(s)
    ensures Good(s, cfg)
  {
  }

  // A flush keeps everything that holds between calls, and it never lacks the slabs it asks for.
  lemma FlushGood(s: State, cfg: Config)
    requires Good(s, cfg)
    ensures Good(Flush(s, cfg).0, cfg)
    ensures Flush(s, cfg).1 <==>
            && s.fullM != [] && |s.freeD| + |s.evictD| >= BatchCount(s, cfg)
            && (|s.fullM| >= cfg.batch || |s.freeD| + |s.evictD| >= cfg.batch)
  {
    var count := BatchCount(s, cfg);
    assert count <= |s.freeD| + |s.evictD| ==> Supplied(s, count);
    if s.fullM != [] && |s.freeD| + |s.evictD| < count {
      RotateGood(s, cfg, count);
    }
    if Supplied(s, count) { FlushedGood(s, cfg, count); }
    hide Inv, Flushed, ItemsOk, RoomOk, RotateFull;
  }

  lemma RotateGood(s: State, cfg: Config, k: nat)
    requires Good(s, cfg) && k <= |s.fullM|
    ensures Good(RotateFull(s, k), cfg)
  {
    RotateFullInv(s, cfg, k);
    hide Queue, Pairs, Owners, Loose, DescsOk, IndexOk, DataOk, Itemised;
  }
}
