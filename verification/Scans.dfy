/**
  Range scans over the index: which slabs a scan of a series meets. The index has two entries per
  series and slab, so a scan sees the ends of what a slab lists, not its inside.
*/
module Scans {
  import opened Words
  import opened Headers
  import opened Slabs
  import opened SlabSteps
  import opened SlabRuns
  import opened TextOrder

  // Keys as text /////////////////////////////////////////////////////////////////////////////////

  predicate Encodable(k: Key) { k.source < U64 && k.metric < 0x1_0000 && k.t < U64 }

  // Source id and time most significant byte first, the metric id least significant byte first.
  function EncodeKey(k: Key): (e: seq<byte>)
    requires Encodable(k)
  {
    KeyFront(k.source, k.metric) + BigEndian(k.t, 8)
  }

  function KeyFront(source: nat, metric: nat): (e: seq<byte>)
    requires metric < 0x1_0000
    ensures |e| == 10
  {
    BigEndian(source, 8) + [metric % 256, metric / 256]
  }

  function DecodeKey(e: seq<byte>): (k: Key)
    requires |e| == 18
  {
    Key(FromBigEndian(e[..8]), e[8] + 256 * (e[9] as int), FromBigEndian(e[10..]))
  }

  // A key is read back from its text; so no two keys have one text.
  lemma KeyRoundTrip(k: Key)
    requires Encodable(k)
    ensures |EncodeKey(k)| == 18 && DecodeKey(EncodeKey(k)) == k
  {
    hide BigEndian, FromBigEndian;
    Pow2Word();
    BigEndianRoundTrip(k.source, 8);
    BigEndianRoundTrip(k.t, 8);
    var e := EncodeKey(k);
    assert e[..8] == BigEndian(k.source, 8) && e[10..] == BigEndian(k.t, 8);
  }

  // Numbers, most significant byte first, are in text order when they are in order.
  lemma {:induction false} BigEndianOrder(x: nat, y: nat, n: nat)
    requires x < y < Pow2(8 * n)
    ensures Less(BigEndian(x, n), BigEndian(y, n))
  {
    hide Less;
    if n > 0 {
      Pow2Byte();
      Pow2Add(8 * (n - 1), 8);
      if x / 256 < y / 256 { BigEndianOrder(x / 256, y / 256, n - 1); }
      LessLast(BigEndian(x / 256, n - 1), BigEndian(y / 256, n - 1), x % 256, y % 256);
    }
  }

  lemma TimesInOrder(t: nat, u: nat)
    requires t < U64 && u < U64
    ensures Less(BigEndian(t, 8), BigEndian(u, 8)) <==> t < u
  {
    hide BigEndian, Less;
    Pow2Word();
    LessTotal(BigEndian(t, 8), BigEndian(u, 8));
    if t < u {
      BigEndianOrder(t, u, 8);
    } else if u < t {
      BigEndianOrder(u, t, 8);
    }
  }

  // What lies in text order from the key of a series at time a up to, not including, its key at time b
  // is exactly the keys of that series with times from a up to, not including, b.
  lemma TextRange(k: Key, source: nat, metric: nat, a: nat, b: nat)
    requires Encodable(k) && Encodable(Key(source, metric, a)) && Encodable(Key(source, metric, b)) && a <= b
    ensures !Less(EncodeKey(k), EncodeKey(Key(source, metric, a))) && Less(EncodeKey(k), EncodeKey(Key(source, metric, b)))
            <==> (k.source, k.metric) == (source, metric) && a <= k.t < b
  {
    hide BigEndian, Less, KeyFront;
    var p, q := KeyFront(k.source, k.metric), KeyFront(source, metric);
    if p == q {
      FrontsSame(k, source, metric);
      RestDecides(q, BigEndian(k.t, 8), BigEndian(a, 8));
      RestDecides(q, BigEndian(k.t, 8), BigEndian(b, 8));
      TimesInOrder(k.t, a);
      TimesInOrder(k.t, b);
    } else {
      FrontDecides(p, q, BigEndian(k.t, 8), BigEndian(a, 8));
      FrontDecides(p, q, BigEndian(k.t, 8), BigEndian(b, 8));
    }
  }

  lemma FrontsSame(k: Key, source: nat, metric: nat)
    requires Encodable(k) && Encodable(Key(source, metric, 0)) && KeyFront(k.source, k.metric) == KeyFront(source, metric)
    ensures (k.source, k.metric) == (source, metric)
  {
    hide BigEndian, FromBigEndian;
    KeyRoundTrip(Key(k.source, k.metric, 0));
    KeyRoundTrip(Key(source, metric, 0));
  }

  // Across metrics the order is not that of the ids: 256 comes before 1.
  lemma MetricsOutOfOrder(source: nat, t: nat)
    requires source < U64 && t < U64
    ensures Less(EncodeKey(Key(source, 256, t)), EncodeKey(Key(source, 1, t)))
  {
    hide BigEndian;
    LessPrefix(BigEndian(source, 8), [0, 1] + BigEndian(t, 8), [1, 0] + BigEndian(t, 8));
    assert EncodeKey(Key(source, 256, t)) == BigEndian(source, 8) + ([0, 1] + BigEndian(t, 8));
    assert EncodeKey(Key(source, 1, t)) == BigEndian(source, 8) + ([1, 0] + BigEndian(t, 8));
  }

  // Scans ////////////////////////////////////////////////////////////////////////////////////////

  // A scan from a up to, not including, b visits this entry.
  predicate Visits(index: map<Key, Ref>, series: (nat, nat), a: nat, b: nat, time: nat)
  {
    a <= time < b && Key(series.0, series.1, time) in index
  }

  // The scan meets an entry that leads to memory slab m.
  ghost predicate MeetsMemory(t: State, series: (nat, nat), a: nat, b: nat, m: nat)
  {
    exists time: nat :: Visits(t.index, series, a, b, time) && t.index[Key(series.0, series.1, time)] == Mem(m)
  }

  // The entry leads to disk slab d, or to the memory slab that it was copied from and that still
  // waits for reuse.
  predicate LeadsToDisk(t: State, r: Ref, d: nat) { r == Disk(d) || (r.Mem? && (r.id, d) in t.evictM) }

  ghost predicate MeetsDisk(t: State, series: (nat, nat), a: nat, b: nat, d: nat)
  {
    exists time: nat :: Visits(t.index, series, a, b, time) && LeadsToDisk(t, t.index[Key(series.0, series.1, time)], d)
  }

  // An indexed end of the row lies in the scanned range.
  predicate EndInside(row: Row, a: nat, b: nat) { a <= row.end < b || (!row.lost && a <= row.start < b) }

  // The listed range and the scanned one overlap.
  predicate Overlaps(row: Row, a: nat, b: nat) { row.start < b && a <= row.end && a < b }

  function SeriesAt(d: Desc, i: nat): (nat, nat)
    requires i < |d.rows|
  {
    (RowSource(d, i), RowMetric(d, i))
  }

  // A key of the row's series that the descriptor lists is one of the row's ends.
  lemma ListsOwnEnds(d: Desc, capacity: nat, i: nat, time: nat)
    requires Filled(d, capacity) && i < |d.rows|
    ensures Lists(d, Key(RowSource(d, i), RowMetric(d, i), time)) <==> time == d.rows[i].end || (time == d.rows[i].start && !d.rows[i].lost)
  {
    var k := Key(RowSource(d, i), RowMetric(d, i), time);
    ListsEnd(d, i);
    if Lists(d, k) {
      var j :| 0 <= j < |d.rows| && RowLists(d, j, k);
      if j != i { OtherSeries(d, i, j); }
    }
  }

  lemma MemoryEntry(t: State, cfg: Config, m: nat, k: Key)
    requires Good(t, cfg) && m < |t.mst| && Live(t.mrole[m])
    ensures k in t.index && t.index[k] == Mem(m) <==> Lists(t.mst[m], k)
  {
    hide Queue, Pairs, Owners, Loose, DescsOk, WaitingOk, ApartOk, ClockOk, DiskOk, PairedOk, LostOk, DataOk, ItemsOk, CountersOk, RoomOk, Lists;
    if k in t.index { assert EntryOk(t, k, t.index[k]); }
  }

  lemma DiskEntry(t: State, cfg: Config, d: nat, k: Key)
    requires Good(t, cfg) && d < |t.dst| && OnDisk(t.drole[d])
    ensures k in t.index && LeadsToDisk(t, t.index[k], d) <==> Lists(t.dst[d], k)
  {
    hide Queue, Owners, Loose, DescsOk, LiveOk, ApartOk, ClockOk, PairedOk, LostOk, DataOk, ItemsOk, CountersOk, RoomOk, Lists;
    if k in t.index { assert EntryOk(t, k, t.index[k]); }
    if Lists(t.dst[d], k) { assert Serves(t.mrole, t.index[k], d); }
  }

  lemma MemoryScan(t: State, cfg: Config, m: nat, i: nat, a: nat, b: nat)
    requires Good(t, cfg) && m < |t.mst| && Live(t.mrole[m]) && Filled(t.mst[m], cfg.capacity) && i < |t.mst[m].rows|
    ensures MeetsMemory(t, SeriesAt(t.mst[m], i), a, b, m) <==> EndInside(t.mst[m].rows[i], a, b)
  {
    var d := t.mst[m];
    var row, series := d.rows[i], SeriesAt(d, i);
    hide Good, Lists, Filled;
    forall time: nat ensures Key(series.0, series.1, time) in t.index && t.index[Key(series.0, series.1, time)] == Mem(m)
                             <==> time == row.end || (time == row.start && !row.lost)
    {
      MemoryEntry(t, cfg, m, Key(series.0, series.1, time));
      ListsOwnEnds(d, cfg.capacity, i, time);
    }
    if EndInside(row, a, b) {
      assert Visits(t.index, series, a, b, if a <= row.end < b then row.end else row.start);
    }
  }

  lemma DiskScan(t: State, cfg: Config, d: nat, i: nat, a: nat, b: nat)
    requires Good(t, cfg) && d < |t.dst| && OnDisk(t.drole[d]) && Filled(t.dst[d], cfg.capacity) && i < |t.dst[d].rows|
    ensures MeetsDisk(t, SeriesAt(t.dst[d], i), a, b, d) <==> EndInside(t.dst[d].rows[i], a, b)
  {
    var row, series := t.dst[d].rows[i], SeriesAt(t.dst[d], i);
    hide Good, Lists, Filled, LeadsToDisk;
    forall time: nat ensures Key(series.0, series.1, time) in t.index && LeadsToDisk(t, t.index[Key(series.0, series.1, time)], d)
                             <==> time == row.end || (time == row.start && !row.lost)
    {
      DiskEntry(t, cfg, d, Key(series.0, series.1, time));
      ListsOwnEnds(t.dst[d], cfg.capacity, i, time);
    }
    if EndInside(row, a, b) {
      assert Visits(t.index, series, a, b, if a <= row.end < b then row.end else row.start);
    }
  }

  // A range that overlaps a listed one has an end of it inside, unless it lies inside itself.
  lemma OverlapSeen(row: Row, a: nat, b: nat)
    requires row.start <= row.end && !row.lost && Overlaps(row, a, b)
    ensures EndInside(row, a, b) <==> !(row.start < a && b <= row.end)
  {
  }

  // In every reachable state, a scan of a series over [a, b) meets a slab that is being filled, waits
  // to be flushed or is on disk exactly when an indexed end of what the slab lists for the series lies
  // in [a, b). So, of the slabs whose listed range overlaps [a, b), with both ends indexed, it misses
  // exactly those inside whose range [a, b) lies.
  lemma ScanMeets(s: State, cfg: Config, ops: seq<Op>, r: Ref, i: nat, a: nat, b: nat)
    requires Good(s, cfg)
    requires var t := Exec(s, cfg, ops);
             match r case Mem(m) => m < |t.mst| && (m in t.fullM || exists c :: c in t.owner && t.owner[c] == m) && i < |t.mst[m].rows|
                     case Disk(d) => d < |t.dst| && (d in t.usedD || d in t.evictD) && i < |t.dst[d].rows|
    ensures var t := Exec(s, cfg, ops);
            var d := if r.Mem? then t.mst[r.id] else t.dst[r.id];
            var row, met := d.rows[i], if r.Mem? then MeetsMemory(t, SeriesAt(d, i), a, b, r.id) else MeetsDisk(t, SeriesAt(d, i), a, b, r.id);
            && (met <==> EndInside(row, a, b))
            && (Overlaps(row, a, b) && !row.lost ==> (met <==> !(row.start < a && b <= row.end)))
  {
    var t := Exec(s, cfg, ops);
    hide Exec;
    if r.Mem? {
      InMemory(t, cfg, r.id);
      hide Good, MeetsMemory;
      MemoryScan(t, cfg, r.id, i, a, b);
      if Overlaps(t.mst[r.id].rows[i], a, b) && !t.mst[r.id].rows[i].lost { OverlapSeen(t.mst[r.id].rows[i], a, b); }
    } else {
      InDisk(t, cfg, r.id);
      hide Good, MeetsDisk;
      DiskScan(t, cfg, r.id, i, a, b);
      if Overlaps(t.dst[r.id].rows[i], a, b) && !t.dst[r.id].rows[i].lost { OverlapSeen(t.dst[r.id].rows[i], a, b); }
    }
  }

  lemma InMemory(t: State, cfg: Config, m: nat)
    requires Good(t, cfg) && m < |t.mst| && (m in t.fullM || exists c :: c in t.owner && t.owner[c] == m)
    ensures m < |t.mrole| && Live(t.mrole[m]) && Filled(t.mst[m], cfg.capacity)
  {
    hide Pairs, Loose, IndexOk, DiskOk, PairedOk, LostOk, DataOk, ItemsOk, CountersOk, RoomOk, Filled;
    DescAt(t, cfg, m);
  }

  lemma InDisk(t: State, cfg: Config, d: nat)
    requires Good(t, cfg) && d < |t.dst| && (d in t.usedD || d in t.evictD)
    ensures d < |t.drole| && OnDisk(t.drole[d]) && Filled(t.dst[d], cfg.capacity)
  {
    hide Pairs, Owners, Loose, IndexOk, DiskOk, PairedOk, LostOk, DataOk, ItemsOk, CountersOk, RoomOk, Filled;
    assert DDescOk(t.dst[d], t.drole[d], cfg.capacity);
  }
}
