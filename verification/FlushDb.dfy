/**
  Handing migrated slabs to the LSM tree: the items of a slab are regrouped by series, one value
  per series that has items, under the key of the series' first start time in that slab.
*/
module FlushDb {
  import opened Words
  import opened Headers
  import opened Slabs
  import opened SlabSteps
  import opened SlabRuns

  function RowSeries(d: Desc, i: nat): (nat, nat)
    requires i < |d.rows|
  {
    (RowSource(d, i), RowMetric(d, i))
  }

  predicate Headed(slab: seq<Item>)
  {
    forall j :: 0 <= j < |slab| ==> |slab[j].chunk| >= VALUE_HEADER_SIZE
  }

  // The slots below n whose item belongs to the series, in order.
  function SlotsOf(slab: seq<Item>, n: nat, series: (nat, nat)): (q: seq<nat>)
    requires n <= |slab| && Headed(slab)
    ensures |q| <= n
  {
    if n == 0 then []
    else SlotsOf(slab, n - 1, series) + if HeaderSeries(slab[n - 1].chunk) == series then [n - 1] else []
  }

  lemma {:induction false} SlotsAre(slab: seq<Item>, n: nat, series: (nat, nat))
    requires n <= |slab| && Headed(slab)
    ensures var q := SlotsOf(slab, n, series);
            && Ascending(q)
            && (forall j: nat :: j in q <==> j < n && HeaderSeries(slab[j].chunk) == series)
  {
    hide HeaderSeries;
    if n > 0 {
      SlotsAre(slab, n - 1, series);
      var q := SlotsOf(slab, n - 1, series);
      forall k | 0 <= k < |q| ensures q[k] < n - 1 { assert q[k] in q; }
    }
  }

  datatype Value = Value(key: Key, row: nat, slots: seq<nat>)

  // The values of the first k rows.
  function Values(d: Desc, slab: seq<Item>, k: nat): seq<Value>
    requires k <= |d.rows| && d.nalloc <= |slab| && Headed(slab)
  {
    if k == 0 then []
    else
      var q := SlotsOf(slab, d.nalloc, RowSeries(d, k - 1));
      Values(d, slab, k - 1) + if q == [] then [] else [Value(StartKey(d, k - 1), k - 1, q)]
  }

  predicate ValueOk(d: Desc, slab: seq<Item>, v: Value)
    requires d.nalloc <= |slab| && Headed(slab)
  {
    && v.row < |d.rows| && v.key == StartKey(d, v.row)
    && v.slots == SlotsOf(slab, d.nalloc, RowSeries(d, v.row)) && v.slots != []
  }

  lemma ValueIsOk(d: Desc, slab: seq<Item>, i: nat)
    requires d.nalloc <= |slab| && Headed(slab) && i < |d.rows| && SlotsOf(slab, d.nalloc, RowSeries(d, i)) != []
    ensures ValueOk(d, slab, Value(StartKey(d, i), i, SlotsOf(slab, d.nalloc, RowSeries(d, i))))
  {
    hide SlotsOf;
  }

  ghost predicate HasValue(vs: seq<Value>, i: nat) { exists p :: 0 <= p < |vs| && vs[p].row == i }

  // Every value belongs to one row, rows ascending, and every row with items has its value.
  lemma {:induction false} ValuesAre(d: Desc, slab: seq<Item>, k: nat)
    requires k <= |d.rows| && d.nalloc <= |slab| && Headed(slab)
    ensures var vs := Values(d, slab, k);
            && (forall p :: 0 <= p < |vs| ==> vs[p].row < k && ValueOk(d, slab, vs[p]))
            && (forall p, q :: 0 <= p < q < |vs| ==> vs[p].row < vs[q].row)
            && (forall i: nat :: i < k && SlotsOf(slab, d.nalloc, RowSeries(d, i)) != [] ==> HasValue(vs, i))
  {
    hide SlotsOf, RowSeries, ValueOk;
    if k > 0 {
      ValuesAre(d, slab, k - 1);
      var before, vs := Values(d, slab, k - 1), Values(d, slab, k);
      var q := SlotsOf(slab, d.nalloc, RowSeries(d, k - 1));
      if q != [] { ValueIsOk(d, slab, k - 1); }
      forall i: nat | i < k && SlotsOf(slab, d.nalloc, RowSeries(d, i)) != [] ensures HasValue(vs, i) {
        if i < k - 1 {
          assert HasValue(before, i);
          var p :| 0 <= p < |before| && before[p].row == i;
          assert vs[p].row == i;
        } else {
          assert vs[|before|].row == i;
        }
      }
    }
  }

  // Slot j is in value p.
  predicate InValue(vs: seq<Value>, p: nat, j: nat) { p < |vs| && j in vs[p].slots }

  ghost predicate Delivered(vs: seq<Value>, j: nat) { exists p: nat :: InValue(vs, p, j) }

  // Exactly the items of the slab are delivered, each in one value only.
  ghost predicate EachOnce(d: Desc, vs: seq<Value>)
  {
    && (forall j: nat :: j < d.nalloc <==> Delivered(vs, j))
    && (forall p: nat, q: nat, j: nat :: InValue(vs, p, j) && InValue(vs, q, j) ==> p == q)
  }

  // A value holds items of its own series only, in slot order, at most a slab of them. The time of its
  // key is the earliest of theirs.
  ghost predicate Tidy(d: Desc, slab: seq<Item>, v: Value)
    requires Headed(slab)
  {
    && 0 < |v.slots| <= d.nalloc && Ascending(v.slots)
    && (forall k :: 0 <= k < |v.slots| ==> v.slots[k] < |slab| && HeaderSeries(slab[v.slots[k]].chunk) == (v.key.source, v.key.metric))
    && (forall k :: 0 <= k < |v.slots| ==> v.key.t <= slab[v.slots[k]].ts)
    && (exists k :: 0 <= k < |v.slots| && v.key.t == slab[v.slots[k]].ts)
  }

  // Every item of the slab goes into exactly one value, under its own series and its earliest time, in
  // slot order; no value is longer than a slab, and no two have the same key. Every listed series has one.
  ghost predicate Regrouped(d: Desc, slab: seq<Item>, vs: seq<Value>)
    requires Headed(slab)
  {
    && EachOnce(d, vs)
    && (forall p :: 0 <= p < |vs| ==> Tidy(d, slab, vs[p]))
    && (forall p, q :: 0 <= p < q < |vs| ==> vs[p].key != vs[q].key)
    && (forall i: nat :: i < |d.rows| ==> HasValue(vs, i))
  }

  // An item in a value belongs to the value's series.
  lemma ItemBelongs(d: Desc, slab: seq<Item>, v: Value, j: nat)
    requires d.nalloc <= |slab| && Headed(slab) && ValueOk(d, slab, v)
    ensures j in v.slots <==> j < d.nalloc && HeaderSeries(slab[j].chunk) == RowSeries(d, v.row)
    ensures Ascending(v.slots) && 0 < |v.slots| <= d.nalloc && (v.key.source, v.key.metric) == RowSeries(d, v.row)
  {
    hide HeaderSeries;
    SlotsAre(slab, d.nalloc, RowSeries(d, v.row));
    hide SlotsOf;
  }

  lemma ItemDelivered(d: Desc, slab: seq<Item>, vs: seq<Value>, j: nat)
    requires Itemised(d, slab) && Headed(slab) && vs == Values(d, slab, |d.rows|) && j < d.nalloc
    ensures Delivered(vs, j)
  {
    ValuesAre(d, slab, |d.rows|);
    hide Values, HeaderSeries, SlotsOf;
    assert Names(d, HeaderSeries(slab[j].chunk), slab[j].ts);
    var i :| 0 <= i < |d.rows| && (RowSource(d, i), RowMetric(d, i)) == HeaderSeries(slab[j].chunk);
    SlotsAre(slab, d.nalloc, RowSeries(d, i));
    assert j in SlotsOf(slab, d.nalloc, RowSeries(d, i));
    assert HasValue(vs, i);
    var p :| 0 <= p < |vs| && vs[p].row == i;
    assert ValueOk(d, slab, vs[p]);
    assert InValue(vs, p, j);
  }

  // An item of the series of row i is not earlier than the row, which has but one row.
  lemma NotBeforeRow(d: Desc, slab: seq<Item>, capacity: nat, i: nat, j: nat)
    requires Filled(d, capacity) && Itemised(d, slab) && i < |d.rows| && j < d.nalloc && HeaderSeries(slab[j].chunk) == RowSeries(d, i)
    ensures d.rows[i].start <= slab[j].ts
  {
    hide HeaderSeries, StartsRow;
    assert Names(d, HeaderSeries(slab[j].chunk), slab[j].ts);
    var i' :| 0 <= i' < |d.rows| && (RowSource(d, i'), RowMetric(d, i')) == HeaderSeries(slab[j].chunk) && d.rows[i'].start <= slab[j].ts <= d.rows[i'].end;
    if i != i' { OtherSeries(d, i, i'); }
  }

  // Every row has an item, and it starts with one.
  lemma RowHasItem(d: Desc, slab: seq<Item>, i: nat)
    requires Itemised(d, slab) && Headed(slab) && i < |d.rows|
    ensures var q := SlotsOf(slab, d.nalloc, RowSeries(d, i));
            q != [] && exists k :: 0 <= k < |q| && q[k] < |slab| && slab[q[k]].ts == d.rows[i].start
  {
    hide HeaderSeries, Names;
    assert StartsRow(d, slab, i);
    var j :| 0 <= j < d.nalloc && HeaderSeries(slab[j].chunk) == (RowSource(d, i), RowMetric(d, i)) && slab[j].ts == d.rows[i].start;
    SlotsAre(slab, d.nalloc, RowSeries(d, i));
    hide SlotsOf;
    assert j in SlotsOf(slab, d.nalloc, RowSeries(d, i));
  }

  lemma ValueIsTidy(d: Desc, slab: seq<Item>, capacity: nat, v: Value)
    requires Filled(d, capacity) && Itemised(d, slab) && Headed(slab) && ValueOk(d, slab, v)
    ensures Tidy(d, slab, v) && (v.key.source, v.key.metric) == RowSeries(d, v.row)
  {
    ItemBelongs(d, slab, v, 0);
    RowHasItem(d, slab, v.row);
    assert v.key.t == d.rows[v.row].start;
    hide HeaderSeries, SlotsOf, RowSeries, Filled, Names, StartsRow;
    forall k | 0 <= k < |v.slots|
      ensures v.slots[k] < |slab| && HeaderSeries(slab[v.slots[k]].chunk) == (v.key.source, v.key.metric) && v.key.t <= slab[v.slots[k]].ts
    {
      ItemBelongs(d, slab, v, v.slots[k]);
      assert v.slots[k] in v.slots;
      NotBeforeRow(d, slab, capacity, v.row, v.slots[k]);
    }
  }

  lemma OneValueEach(d: Desc, slab: seq<Item>, v: Value, v': Value, j: nat, capacity: nat)
    requires d.nalloc <= |slab| && Headed(slab) && Filled(d, capacity) && ValueOk(d, slab, v) && ValueOk(d, slab, v')
    requires j in v.slots && j in v'.slots
    ensures v.row == v'.row
  {
    ItemBelongs(d, slab, v, j);
    ItemBelongs(d, slab, v', j);
    hide HeaderSeries, SlotsOf;
    if v.row != v'.row { OtherSeries(d, v.row, v'.row); }
  }

  lemma ItemsOnce(d: Desc, slab: seq<Item>, capacity: nat)
    requires Filled(d, capacity) && Itemised(d, slab) && Headed(slab)
    ensures EachOnce(d, Values(d, slab, |d.rows|))
  {
    var vs := Values(d, slab, |d.rows|);
    ValuesAre(d, slab, |d.rows|);
    assert d.nalloc <= |slab|;
    hide Values, HeaderSeries, SlotsOf, Filled, Itemised, RowSeries, ValueOk;
    forall j: nat ensures j < d.nalloc <==> Delivered(vs, j) {
      if j < d.nalloc {
        ItemDelivered(d, slab, vs, j);
      } else if Delivered(vs, j) {
        var p: nat :| InValue(vs, p, j);
        ItemBelongs(d, slab, vs[p], j);
      }
    }
    forall p: nat, q: nat, j: nat | InValue(vs, p, j) && InValue(vs, q, j) ensures p == q {
      OneValueEach(d, slab, vs[p], vs[q], j, capacity);
    }
  }

  lemma SlabRegroups(d: Desc, slab: seq<Item>, capacity: nat)
    requires Filled(d, capacity) && Itemised(d, slab)
    ensures Headed(slab) && Regrouped(d, slab, Values(d, slab, |d.rows|))
  {
    assert Headed(slab) && d.nalloc <= |slab|;
    var vs := Values(d, slab, |d.rows|);
    hide Values, HeaderSeries, SlotsOf, Filled, Itemised, RowSeries, ValueOk, Tidy, EachOnce, Headed;
    ItemsOnce(d, slab, capacity);
    ValuesAre(d, slab, |d.rows|);
    forall p | 0 <= p < |vs| ensures Tidy(d, slab, vs[p]) { ValueIsTidy(d, slab, capacity, vs[p]); }
    forall p, q | 0 <= p < q < |vs| ensures vs[p].key != vs[q].key {
      ValueIsTidy(d, slab, capacity, vs[p]);
      ValueIsTidy(d, slab, capacity, vs[q]);
      RowsDiffer(d, vs[p].row, vs[q].row, capacity);
    }
    forall i: nat | i < |d.rows| ensures HasValue(vs, i) { RowHasItem(d, slab, i); }
  }

  lemma RowsDiffer(d: Desc, i: nat, j: nat, capacity: nat)
    requires Filled(d, capacity) && i < j < |d.rows|
    ensures RowSeries(d, i) != RowSeries(d, j)
  {
    OtherSeries(d, i, j);
  }

  // The items of the slots, in order.
  function Pick(slab: seq<Item>, slots: seq<nat>): seq<Item>
    requires forall k :: 0 <= k < |slots| ==> slots[k] < |slab|
  {
    seq(|slots|, k requires 0 <= k < |slots| => slab[slots[k]])
  }

  predicate InSlab(slab: seq<Item>, slots: seq<nat>) { forall k :: 0 <= k < |slots| ==> slots[k] < |slab| }

  lemma {:induction false} SlotsInSlab(slab: seq<Item>, n: nat, series: (nat, nat))
    requires n <= |slab| && Headed(slab)
    ensures InSlab(slab, SlotsOf(slab, n, series))
  {
    hide HeaderSeries;
    if n > 0 { SlotsInSlab(slab, n - 1, series); }
  }

  // What is put for the first k rows.
  ghost function SlabPuts(d: Desc, slab: seq<Item>, k: nat): seq<(Key, seq<Item>)>
    requires k <= |d.rows| && d.nalloc <= |slab| && Headed(slab)
  {
    if k == 0 then []
    else
      var q := SlotsOf(slab, d.nalloc, RowSeries(d, k - 1));
      SlotsInSlab(slab, d.nalloc, RowSeries(d, k - 1));
      SlabPuts(d, slab, k - 1) + if q == [] then [] else [(StartKey(d, k - 1), Pick(slab, q))]
  }

  // The puts are the values.
  lemma {:induction false} PutsAreValues(d: Desc, slab: seq<Item>, k: nat)
    requires k <= |d.rows| && d.nalloc <= |slab| && Headed(slab)
    ensures var vs, puts := Values(d, slab, k), SlabPuts(d, slab, k);
            && |puts| == |vs|
            && (forall p :: 0 <= p < |vs| ==> puts[p].0 == vs[p].key && InSlab(slab, vs[p].slots) && puts[p].1 == Pick(slab, vs[p].slots))
  {
    hide HeaderSeries, SlotsOf, Pick;
    if k > 0 {
      PutsAreValues(d, slab, k - 1);
      SlotsInSlab(slab, d.nalloc, RowSeries(d, k - 1));
    }
  }

  lemma PickNext(slab: seq<Item>, j: nat, series: (nat, nat))
    requires j < |slab| && Headed(slab)
    ensures var q, q' := SlotsOf(slab, j, series), SlotsOf(slab, j + 1, series);
            && InSlab(slab, q) && InSlab(slab, q')
            && Pick(slab, q') == Pick(slab, q) + if HeaderSeries(slab[j].chunk) == series then [slab[j]] else []
  {
    hide HeaderSeries;
    SlotsInSlab(slab, j, series);
    SlotsInSlab(slab, j + 1, series);
  }

  // The values written for one slab, row by row.
  method FlushSlab(d: Desc, slab: seq<Item>) returns (puts: seq<(Key, seq<Item>)>)
    requires d.nalloc <= |slab| && Headed(slab)
    ensures puts == SlabPuts(d, slab, |d.rows|)
  {
    hide HeaderSeries, SlotsOf, Pick;
    puts := [];
    var i := 0;
    while i < |d.rows|
      invariant i <= |d.rows| && puts == SlabPuts(d, slab, i)
    {
      var buffer: seq<Item> := [];
      var j := 0;
      PickNone(slab, RowSeries(d, i));
      while j < d.nalloc
        invariant j <= d.nalloc && InSlab(slab, SlotsOf(slab, j, RowSeries(d, i))) && buffer == Pick(slab, SlotsOf(slab, j, RowSeries(d, i)))
      {
        PickNext(slab, j, RowSeries(d, i));
        if HeaderSeries(slab[j].chunk) == (RowSource(d, i), RowMetric(d, i)) {
          buffer := buffer + [slab[j]];
        }
        j := j + 1;
      }
      PickSize(slab, SlotsOf(slab, j, RowSeries(d, i)));
      if |buffer| != 0 {
        puts := puts + [(StartKey(d, i), buffer)];
      }
      i := i + 1;
    }
  }

  lemma PickNone(slab: seq<Item>, series: (nat, nat))
    requires Headed(slab)
    ensures InSlab(slab, SlotsOf(slab, 0, series)) && Pick(slab, SlotsOf(slab, 0, series)) == []
  {
  }

  lemma PickSize(slab: seq<Item>, slots: seq<nat>)
    requires InSlab(slab, slots)
    ensures |Pick(slab, slots)| == |slots|
  {
  }

  // Slabs handed over, each with the descriptor of its id.
  predicate Fit(dst: seq<Desc>, slabs: seq<(nat, seq<Item>)>)
  {
    forall p :: 0 <= p < |slabs| ==> slabs[p].0 < |dst| && dst[slabs[p].0].nalloc <= |slabs[p].1| && Headed(slabs[p].1)
  }

  ghost function AllPuts(dst: seq<Desc>, slabs: seq<(nat, seq<Item>)>, k: nat): seq<(Key, seq<Item>)>
    requires Fit(dst, slabs) && k <= |slabs|
  {
    if k == 0 then []
    else var (d, slab) := slabs[k - 1]; AllPuts(dst, slabs, k - 1) + SlabPuts(dst[d], slab, |dst[d].rows|)
  }

  // One pass over the slabs handed over by a migration.
  method FlushAll(dst: seq<Desc>, slabs: seq<(nat, seq<Item>)>) returns (puts: seq<(Key, seq<Item>)>)
    requires Fit(dst, slabs)
    ensures puts == AllPuts(dst, slabs, |slabs|)
  {
    hide Headed, SlabPuts;
    puts := [];
    for k := 0 to |slabs|
      invariant puts == AllPuts(dst, slabs, k)
    {
      var more := FlushSlab(dst[slabs[k].0], slabs[k].1);
      puts := puts + more;
    }
  }

  lemma {:induction false} AllPutsHas(dst: seq<Desc>, slabs: seq<(nat, seq<Item>)>, k: nat, p: nat, x: (Key, seq<Item>))
    requires Fit(dst, slabs) && p < k <= |slabs| && x in SlabPuts(dst[slabs[p].0], slabs[p].1, |dst[slabs[p].0].rows|)
    ensures x in AllPuts(dst, slabs, k)
  {
    hide SlabPuts, Headed;
    if p < k - 1 { AllPutsHas(dst, slabs, k - 1, p, x); }
  }

  lemma UsedSlab(t: State, cfg: Config, d: nat)
    requires Good(t, cfg) && d in t.usedD
    ensures d < |t.dst| == |t.disk| && Filled(t.dst[d], cfg.capacity) && Itemised(t.dst[d], t.disk[d])
    ensures t.dst[d].nalloc == |t.disk[d]| == cfg.capacity
  {
    hide Pairs, Owners, Loose, IndexOk, DiskOk, DataOk, Filled, Names;
    assert t.drole[d] == DUsed;
    assert DDescOk(t.dst[d], t.drole[d], cfg.capacity);
  }

  lemma DiskShaped(t: State, cfg: Config, d: nat)
    requires Good(t, cfg) && d < |t.disk|
    ensures |t.disk[d]| == cfg.capacity && Headed(t.disk[d])
  {
    hide Queue, Pairs, Owners, Loose, IndexOk, DiskOk, PairedOk, DataOk, Names;
  }

  // In every reachable state, every slab a migration hands over comes with a descriptor it can be
  // regrouped by; where the slab that was read for it is the one asked for, every item of it goes
  // into exactly one value, under its own series.
  lemma MigratedSlabsRegroup(s: State, cfg: Config, ops: seq<Op>, slabs: seq<(nat, seq<Item>)>)
    requires Good(s, cfg)
    requires var t := Exec(s, cfg, ops); MigrateStep(t, cfg).1.Some? && HandsOver(t.disk, MigrateStep(t, cfg).1.value, slabs)
    ensures var t := Exec(s, cfg, ops);
            var ids := MigrateStep(t, cfg).1.value;
            && Fit(t.dst, slabs)
            && (forall p :: 0 <= p < |slabs| ==> slabs[p].0 == ids[p] && slabs[p].1 == t.disk[ReadIds(ids)[p]])
            && (forall p :: 0 <= p < |slabs| && ReadIds(ids)[p] == ids[p] ==>
                  && slabs[p].1 == t.disk[ids[p]]
                  && Regrouped(t.dst[ids[p]], slabs[p].1, Values(t.dst[ids[p]], slabs[p].1, |t.dst[ids[p]].rows|)))
  {
    var t := Exec(s, cfg, ops);
    hide Exec;
    RegroupsHanded(t, cfg, MigrateStep(t, cfg).1.value, slabs);
  }

  lemma RegroupsHanded(t: State, cfg: Config, ids: seq<nat>, slabs: seq<(nat, seq<Item>)>)
    requires Good(t, cfg) && MigrateStep(t, cfg).1 == Some(ids) && HandsOver(t.disk, ids, slabs)
    ensures Fit(t.dst, slabs)
    ensures forall p :: 0 <= p < |slabs| ==> slabs[p].0 == ids[p] && slabs[p].1 == t.disk[ReadIds(ids)[p]]
    ensures forall p :: 0 <= p < |slabs| && ReadIds(ids)[p] == ids[p] ==>
              && slabs[p].1 == t.disk[ids[p]]
              && Regrouped(t.dst[ids[p]], slabs[p].1, Values(t.dst[ids[p]], slabs[p].1, |t.dst[ids[p]].rows|))
  {
    hide Good, Headed, Regrouped, Values, ReadIds, Filled, Itemised, Migrates;
    forall p | 0 <= p < |slabs| ensures slabs[p].0 < |t.dst| && t.dst[slabs[p].0].nalloc <= |slabs[p].1| && Headed(slabs[p].1) {
      assert t.usedD[p] == ids[p] && ids[p] in t.usedD;
      UsedSlab(t, cfg, ids[p]);
      DiskShaped(t, cfg, ReadIds(ids)[p]);
    }
    forall p | 0 <= p < |slabs| && ReadIds(ids)[p] == ids[p]
      ensures Regrouped(t.dst[ids[p]], slabs[p].1, Values(t.dst[ids[p]], slabs[p].1, |t.dst[ids[p]].rows|))
    {
      assert t.usedD[p] == ids[p] && ids[p] in t.usedD;
      UsedSlab(t, cfg, ids[p]);
      SlabRegroups(t.dst[ids[p]], t.disk[ids[p]], cfg.capacity);
    }
  }
}
