/**
  The slab store as a state machine: memory slabs, disk slabs, the queues between them and
  the ordered index over both.

  Every call of the store is one step. The steps are built from small moves, and each move is
  shown to keep the parts of the invariant: who has which slab (`RolesOk`), what the descriptors
  say (`DescsOk`), what the index says (`IndexOk`, `DiskOk`, `PairedOk`, `LostOk`) and where the
  accepted chunks are (`DataOk`). The fields after the blank line in `State` exist only for the
  proof.
*/
module Slabs {
  import opened Words

  // Sizes of the class table: a class is a pair of residues of metric id and source id.
  const CX_NUM := 100
  const CY_NUM := 10000

  datatype Item = Item(ts: nat, chunk: seq<byte>)

  // One series listed in a slab: quotients of the ids, first start time, last end time. The last
  // field stands for nothing in the store and nothing it does depends on it: it notes whether the
  // index has lost the start, which happens to a series whose first chunk here started and ended at
  // one time and was followed by another.
  datatype Row = Row(fs: nat, fm: nat, start: nat, end: nat, lost: bool)

  datatype Desc = Desc(cx: nat, cy: nat, rows: seq<Row>, nalloc: nat)

  datatype Key = Key(source: nat, metric: nat, t: nat)

  datatype Ref = Mem(id: nat) | Disk(id: nat)

  // Loose slabs are in no queue: in the hands of the flusher, or left behind by it.
  datatype MRole = MFree | MOwned(cls: (nat, nat)) | MFull | MEvict(d: nat) | MLoose
  datatype DRole = DFree | DUsed | DEvict | DLoose

  // An accepted chunk: where it was written, whether that memory slab still holds it, the disk
  // slab it was copied to, and whether that disk slab has been recycled.
  datatype Rec = Rec(item: Item, m: nat, slot: nat, inMem: bool, copy: Option<nat>, recycled: bool)

  datatype Config = Config(capacity: nat, batch: nat, migrateBatch: nat, nbuf: nat)

  datatype Counters = Counters(freeM: int, usedM: int, fullM: int, evictM: int, freeD: int, usedD: int, evictD: int)

  datatype State = State(
    mem: seq<seq<Item>>, mst: seq<Desc>,
    disk: seq<seq<Item>>, dst: seq<Desc>,
    owner: map<(nat, nat), nat>,
    freeM: seq<nat>, fullM: seq<nat>, evictM: seq<(nat, nat)>,
    freeD: seq<nat>, usedD: seq<nat>, evictD: seq<nat>,
    n: Counters,
    index: map<Key, Ref>,

    mrole: seq<MRole>, drole: seq<DRole>,
    looseM: set<nat>, looseD: set<nat>,
    clock: map<(nat, nat), nat>,
    recs: seq<Rec>)

  // Descriptors //////////////////////////////////////////////////////////////////////

  function RowSource(d: Desc, i: nat): nat
    requires i < |d.rows|
  {
    d.rows[i].fs * CY_NUM + d.cy
  }

  function RowMetric(d: Desc, i: nat): nat
    requires i < |d.rows|
  {
    d.rows[i].fm * CX_NUM + d.cx
  }

  function StartKey(d: Desc, i: nat): Key
    requires i < |d.rows|
  {
    Key(RowSource(d, i), RowMetric(d, i), d.rows[i].start)
  }

  function EndKey(d: Desc, i: nat): Key
    requires i < |d.rows|
  {
    Key(RowSource(d, i), RowMetric(d, i), d.rows[i].end)
  }

  // k is an endpoint of a series listed in d, and not a lost start.
  ghost predicate Lists(d: Desc, k: Key)
  {
    exists i :: 0 <= i < |d.rows| && RowLists(d, i, k)
  }

  predicate RowLists(d: Desc, i: nat, k: Key)
    requires i < |d.rows|
  {
    k == EndKey(d, i) || (k == StartKey(d, i) && !d.rows[i].lost)
  }

  // FreeSlab keeps the class residues; nothing reads them while no series is listed.
  function Freed(d: Desc): Desc { d.(rows := [], nalloc := 0) }

  // Queues ///////////////////////////////////////////////////////////////////////////

  predicate NoDup(q: seq<nat>)
  {
    forall i, j :: 0 <= i < j < |q| ==> q[i] != q[j]
  }

  // The queue holds exactly the slabs with role r, each once.
  ghost predicate Queue<T>(q: seq<nat>, roles: seq<T>, r: T)
  {
    && NoDup(q)
    && (forall m :: m in q ==> m < |roles| && roles[m] == r)
    && (forall m :: 0 <= m < |roles| && roles[m] == r ==> m in q)
  }

  lemma QueuePop<T>(q: seq<nat>, roles: seq<T>, r: T, r': T)
    requires Queue(q, roles, r) && q != [] && r' != r
    ensures q[0] < |roles| && roles[q[0]] == r
    ensures Queue(q[1..], roles[q[0] := r'], r)
  {
    assert q[0] in q;
    forall m | 0 <= m < |roles| && roles[q[0] := r'][m] == r ensures m in q[1..] {
      assert m in q;
      var i :| 0 <= i < |q| && q[i] == m;
      assert q[1..][i - 1] == m;
    }
    forall m | m in q[1..] ensures m in q && m != q[0] {
      var i :| 0 <= i < |q[1..]| && q[1..][i] == m;
      assert q[i + 1] == m;
    }
  }

  lemma QueuePush<T>(q: seq<nat>, roles: seq<T>, r: T, m: nat)
    requires Queue(q, roles, r) && m < |roles| && roles[m] != r
    ensures Queue(q + [m], roles[m := r], r)
  {
    forall k | 0 <= k < |roles| && roles[m := r][k] == r ensures k in q + [m] {
      if k == m { assert (q + [m])[|q|] == m; } else { assert k in q; }
    }
  }

  lemma QueueKeep<T>(q: seq<nat>, roles: seq<T>, r: T, m: nat, r': T)
    requires Queue(q, roles, r) && m < |roles| && roles[m] != r && r' != r
    ensures Queue(q, roles[m := r'], r)
  {
  }

  lemma QueueRotate<T>(q: seq<nat>, roles: seq<T>, r: T, k: nat)
    requires Queue(q, roles, r) && k <= |q|
    ensures Queue(q[k..] + q[..k], roles, r)
  {
    var p, n := q[k..] + q[..k], |q| - k;
    assert forall i :: 0 <= i < |q| ==> p[i] == q[if i < n then i + k else i - n];
    forall m | m in q ensures m in p {
      var i :| 0 <= i < |q| && q[i] == m;
      assert p[if i < k then n + i else i - k] == m;
    }
    forall m | m in p ensures m in q {
      var i :| 0 <= i < |p| && p[i] == m;
      assert q[if i < n then i + k else i - n] == m;
    }
  }

  ghost predicate Loose<T>(q: set<nat>, roles: seq<T>, r: T)
  {
    && (forall m :: m in q ==> m < |roles| && roles[m] == r)
    && (forall m :: 0 <= m < |roles| && roles[m] == r ==> m in q)
  }

  // The pairs waiting for their memory slab to be reused.
  ghost predicate Pairs(q: seq<(nat, nat)>, roles: seq<MRole>)
  {
    && (forall i, j :: 0 <= i < j < |q| ==> q[i].0 != q[j].0)
    && (forall p :: p in q ==> p.0 < |roles| && roles[p.0] == MEvict(p.1))
    && (forall m :: 0 <= m < |roles| && roles[m].MEvict? ==> (m, roles[m].d) in q)
  }

  lemma PairsPop(q: seq<(nat, nat)>, roles: seq<MRole>, r: MRole)
    requires Pairs(q, roles) && q != [] && !r.MEvict?
    ensures q[0].0 < |roles| && roles[q[0].0] == MEvict(q[0].1)
    ensures Pairs(q[1..], roles[q[0].0 := r])
  {
    assert q[0] in q;
    forall m | 0 <= m < |roles| && roles[q[0].0 := r][m].MEvict? ensures (m, roles[m].d) in q[1..] {
      assert (m, roles[m].d) in q;
      var i :| 0 <= i < |q| && q[i] == (m, roles[m].d);
      assert q[1..][i - 1] == q[i];
    }
    forall p | p in q[1..] ensures p in q && p.0 != q[0].0 {
      var i :| 0 <= i < |q[1..]| && q[1..][i] == p;
      assert q[i + 1] == p;
    }
  }

  lemma PairsPush(q: seq<(nat, nat)>, roles: seq<MRole>, m: nat, d: nat)
    requires Pairs(q, roles) && m < |roles| && !roles[m].MEvict?
    ensures Pairs(q + [(m, d)], roles[m := MEvict(d)])
  {
    var q', roles' := q + [(m, d)], roles[m := MEvict(d)];
    forall k | 0 <= k < |roles| && roles'[k].MEvict? ensures (k, roles'[k].d) in q' {
      if k == m { assert q'[|q|] == (m, d); } else { assert (k, roles[k].d) in q; }
    }
    forall i | 0 <= i < |q| ensures q[i].0 != m {
      assert q[i] in q;
    }
  }

  lemma PairsKeep(q: seq<(nat, nat)>, roles: seq<MRole>, m: nat, r: MRole)
    requires Pairs(q, roles) && m < |roles| && !roles[m].MEvict? && !r.MEvict?
    ensures Pairs(q, roles[m := r])
  {
  }

  // Class ownership: a class owns at most one slab, a slab has at most one class.
  ghost predicate Owners(owner: map<(nat, nat), nat>, roles: seq<MRole>)
  {
    && (forall c :: c in owner ==> owner[c] < |roles| && roles[owner[c]] == MOwned(c))
    && (forall m :: 0 <= m < |roles| && roles[m].MOwned? ==> roles[m].cls in owner && owner[roles[m].cls] == m)
  }

  lemma OwnersAdd(owner: map<(nat, nat), nat>, roles: seq<MRole>, c: (nat, nat), m: nat)
    requires Owners(owner, roles) && c !in owner && m < |roles| && !roles[m].MOwned?
    ensures Owners(owner[c := m], roles[m := MOwned(c)])
  {
  }

  lemma OwnersRemove(owner: map<(nat, nat), nat>, roles: seq<MRole>, c: (nat, nat), r: MRole)
    requires Owners(owner, roles) && c in owner && !r.MOwned?
    ensures Owners(owner - {c}, roles[owner[c] := r])
  {
  }

  lemma OwnersKeep(owner: map<(nat, nat), nat>, roles: seq<MRole>, m: nat, r: MRole)
    requires Owners(owner, roles) && m < |roles| && !roles[m].MOwned? && !r.MOwned?
    ensures Owners(owner, roles[m := r])
  {
  }

  // The invariant /////////////////////////////////////////////////////////////////////

  ghost predicate RolesOk(s: State)
  {
    && |s.mem| == |s.mst| == |s.mrole| && |s.disk| == |s.dst| == |s.drole|
    && Queue(s.freeM, s.mrole, MFree)
    && Queue(s.fullM, s.mrole, MFull)
    && Loose(s.looseM, s.mrole, MLoose)
    && Pairs(s.evictM, s.mrole)
    && Owners(s.owner, s.mrole)
    && (forall m :: 0 <= m < |s.mrole| && s.mrole[m].MEvict? ==> s.mrole[m].d < |s.dst|)
    && Queue(s.freeD, s.drole, DFree)
    && Queue(s.usedD, s.drole, DUsed)
    && Queue(s.evictD, s.drole, DEvict)
    && Loose(s.looseD, s.drole, DLoose)
  }

  // The slabs whose every listed endpoint the index maps to them.
  predicate Live(r: MRole) { r.MOwned? || r.MFull? || r.MLoose? }

  predicate OnDisk(r: DRole) { r.DUsed? || r.DEvict? }

  // A descriptor with at least one item.
  predicate Filled(d: Desc, capacity: nat)
  {
    && |d.rows| <= d.nalloc <= capacity
    && (forall i :: 0 <= i < |d.rows| ==> d.rows[i].fs < 256 && d.rows[i].fm < 256 && d.rows[i].start <= d.rows[i].end)
    && (forall i, j :: 0 <= i < j < |d.rows| ==> (d.rows[i].fs, d.rows[i].fm) != (d.rows[j].fs, d.rows[j].fm))
  }

  predicate MDescOk(d: Desc, r: MRole, capacity: nat)
  {
    match r
    case MFree => d.rows == [] && d.nalloc == 0
    case MOwned(c) => Filled(d, capacity) && (d.rows != [] ==> c == (d.cx, d.cy))
    case _ => Filled(d, capacity) && d.nalloc == capacity
  }

  predicate DDescOk(d: Desc, r: DRole, capacity: nat)
  {
    if OnDisk(r) then Filled(d, capacity) && d.nalloc == capacity else d.rows == []
  }

  ghost predicate DescsOk(s: State, cfg: Config)
    requires RolesOk(s)
  {
    && (forall m :: 0 <= m < |s.mst| ==> MDescOk(s.mst[m], s.mrole[m], cfg.capacity) && |s.mem[m]| == cfg.capacity)
    && (forall d :: 0 <= d < |s.dst| ==> DDescOk(s.dst[d], s.drole[d], cfg.capacity) && |s.disk[d]| == cfg.capacity)
  }

  predicate Past(clock: map<(nat, nat), nat>, k: Key)
  {
    (k.source, k.metric) in clock && k.t <= clock[(k.source, k.metric)]
  }

  // What one index entry may say.
  ghost predicate EntryOk(s: State, k: Key, r: Ref)
    requires RolesOk(s)
  {
    match r
    case Mem(m) => m < |s.mst| && s.mrole[m] != MFree && Lists(s.mst[m], k)
    case Disk(d) => d < |s.dst| && OnDisk(s.drole[d]) && Lists(s.dst[d], k)
  }

  // Every entry points to a descriptor that lists its key.
  ghost predicate EntriesOk(s: State)
    requires RolesOk(s)
  {
    forall k :: k in s.index ==> EntryOk(s, k, s.index[k])
  }

  // The endpoints listed in a live slab map to it.
  ghost predicate LiveOk(s: State)
    requires RolesOk(s)
  {
    forall m, k :: 0 <= m < |s.mst| && Live(s.mrole[m]) && Lists(s.mst[m], k) ==> k in s.index && s.index[k] == Mem(m)
  }

  // A slab that waits for reuse: its entries, as long as they exist, can move to its copy.
  ghost predicate WaitingOk(s: State)
    requires RolesOk(s)
  {
    forall m, k :: 0 <= m < |s.mst| && s.mrole[m].MEvict? && Lists(s.mst[m], k) && k in s.index ==>
      s.index[k] == Mem(m) && OnDisk(s.drole[s.mrole[m].d]) && Lists(s.dst[s.mrole[m].d], k)
  }

  // No live slab shares a key with a slab on disk.
  ghost predicate ApartOk(s: State)
    requires RolesOk(s)
  {
    forall m, d, k :: 0 <= m < |s.mst| && 0 <= d < |s.dst| && Live(s.mrole[m]) && Lists(s.dst[d], k) ==> !Lists(s.mst[m], k)
  }

  // No listed key lies in the future of its series.
  ghost predicate ClockOk(s: State)
  {
    && (forall m, k :: 0 <= m < |s.mst| && Lists(s.mst[m], k) ==> Past(s.clock, k))
    && (forall d, k :: 0 <= d < |s.dst| && Lists(s.dst[d], k) ==> Past(s.clock, k))
  }

  ghost predicate IndexOk(s: State)
    requires RolesOk(s)
  {
    EntriesOk(s) && LiveOk(s) && WaitingOk(s) && ApartOk(s) && ClockOk(s)
  }

  // The endpoints listed in a slab on disk map to it, or still to the memory slab it was copied from.
  ghost predicate DiskOk(s: State)
    requires RolesOk(s)
  {
    forall d, k :: 0 <= d < |s.dst| && OnDisk(s.drole[d]) && Lists(s.dst[d], k) ==>
      k in s.index && Serves(s.mrole, s.index[k], d)
  }

  predicate Serves(roles: seq<MRole>, r: Ref, d: nat)
  {
    match r
    case Mem(m) => m < |roles| && roles[m] == MEvict(d)
    case Disk(d') => d' == d
  }

  // A memory slab that waits for reuse and its disk slab still hold the same, or no entry is left
  // that leads to the memory slab.
  ghost predicate PairedOk(s: State)
    requires RolesOk(s)
  {
    forall m :: 0 <= m < |s.mst| && s.mrole[m].MEvict? ==> Mirrored(s, m, s.mrole[m].d) || Unseen(s.index, s.mst[m])
  }

  predicate Mirrored(s: State, m: nat, d: nat)
    requires m < |s.mst| == |s.mem| && d < |s.dst| == |s.disk| == |s.drole|
  {
    OnDisk(s.drole[d]) && s.dst[d] == s.mst[m] && s.disk[d] == s.mem[m]
  }

  ghost predicate Unseen(index: map<Key, Ref>, d: Desc)
  {
    forall k :: Lists(d, k) ==> k !in index
  }

  // A lost start is in the index no more.
  ghost predicate NoLost(index: map<Key, Ref>, d: Desc)
  {
    forall i :: 0 <= i < |d.rows| && d.rows[i].lost ==> StartKey(d, i) !in index
  }

  ghost predicate LostOk(s: State)
  {
    && (forall m :: 0 <= m < |s.mst| ==> NoLost(s.index, s.mst[m]))
    && (forall d :: 0 <= d < |s.dst| ==> NoLost(s.index, s.dst[d]))
  }

  ghost predicate RecOk(s: State, r: Rec)
    requires RolesOk(s)
  {
    && (r.inMem ==>
          && r.m < |s.mst| && s.mrole[r.m] != MFree && r.slot < s.mst[r.m].nalloc
          && r.slot < |s.mem[r.m]| && s.mem[r.m][r.slot] == r.item
          && (Live(s.mrole[r.m]) ==> r.copy == None)
          && (s.mrole[r.m].MEvict? ==> r.copy == Some(s.mrole[r.m].d)))
    && (r.copy.Some? && !r.recycled ==>
          && r.copy.value < |s.dst| && OnDisk(s.drole[r.copy.value])
          && r.slot < |s.disk[r.copy.value]| && s.disk[r.copy.value][r.slot] == r.item)
    && (!r.inMem ==> r.copy.Some?)
    && (r.copy == None ==> !r.recycled)
  }

  ghost predicate DataOk(s: State)
    requires RolesOk(s)
  {
    forall i :: 0 <= i < |s.recs| ==> RecOk(s, s.recs[i])
  }

  ghost predicate Inv(s: State, cfg: Config)
  {
    RolesOk(s) && DescsOk(s, cfg) && IndexOk(s) && DiskOk(s) && PairedOk(s) && LostOk(s) && DataOk(s)
  }

  // The counters follow the queues; slabs left behind stay counted as evictable and as used.
  predicate CountersOk(s: State)
  {
    && s.n.freeM == |s.freeM| && s.n.usedM == |s.owner| && s.n.fullM == |s.fullM|
    && s.n.evictM == |s.evictM| + |s.looseM|
    && s.n.freeD == |s.freeD| && s.n.evictD == |s.evictD|
    && s.n.usedD == |s.usedD| + |s.looseD|
    && s.n.freeM + s.n.usedM + s.n.fullM + s.n.evictM == |s.mst|
    && s.n.freeD + s.n.usedD + s.n.evictD == |s.dst|
  }

  // An owned slab always has room for the next item and the next series.
  ghost predicate RoomOk(s: State, cfg: Config)
    requires RolesOk(s)
  {
    forall c :: c in s.owner ==> s.mst[s.owner[c]].nalloc < cfg.capacity
  }

  // A move that only passes slabs between queues, without changing whether they are free, live,
  // waiting or on disk, keeps what the index and the records say.
  ghost predicate SameSides(s: State, t: State)
  {
    && t.mem == s.mem && t.mst == s.mst && t.disk == s.disk && t.dst == s.dst
    && t.index == s.index && t.clock == s.clock && t.recs == s.recs
    && |t.mrole| == |s.mrole| && |t.drole| == |s.drole|
    && (forall m :: 0 <= m < |s.mrole| ==>
          Live(t.mrole[m]) == Live(s.mrole[m]) && t.mrole[m].MFree? == s.mrole[m].MFree? && (s.mrole[m].MEvict? ==> t.mrole[m] == s.mrole[m]))
    && (forall d :: 0 <= d < |s.drole| ==> OnDisk(t.drole[d]) == OnDisk(s.drole[d]))
  }

  // The index gained no key, and no descriptor lists more than it did.
  ghost predicate NothingNew(s: State, t: State)
  {
    && (forall k :: k in t.index ==> k in s.index)
    && |t.mst| == |s.mst| && |t.dst| == |s.dst|
    && (forall m :: 0 <= m < |t.mst| ==> NoMore(s.mst[m], t.mst[m]))
    && (forall d :: 0 <= d < |t.dst| ==> NoMore(s.dst[d], t.dst[d]))
  }

  predicate NoMore(d: Desc, d': Desc) { d'.rows == [] || (d'.rows == d.rows && (d'.cx, d'.cy) == (d.cx, d.cy)) }

  lemma KeepsLost(s: State, t: State)
    requires LostOk(s) && NothingNew(s, t)
    ensures LostOk(t)
  {
    forall m | 0 <= m < |t.mst| ensures NoLost(t.index, t.mst[m]) { assert NoLost(s.index, s.mst[m]) && NoMore(s.mst[m], t.mst[m]); }
    forall d | 0 <= d < |t.dst| ensures NoLost(t.index, t.dst[d]) { assert NoLost(s.index, s.dst[d]) && NoMore(s.dst[d], t.dst[d]); }
  }

  lemma SameSidesIndex(s: State, t: State)
    requires RolesOk(s) && RolesOk(t) && IndexOk(s) && SameSides(s, t)
    ensures IndexOk(t)
  {
    hide Queue, Pairs, Owners, Loose, Lists, Past;
    assert EntriesOk(t) by {
      forall k | k in t.index ensures EntryOk(t, k, t.index[k]) { assert EntryOk(s, k, s.index[k]); }
    }
  }

  lemma SameSidesDisk(s: State, t: State)
    requires RolesOk(s) && RolesOk(t) && DiskOk(s) && SameSides(s, t)
    ensures DiskOk(t)
  {
    hide Queue, Pairs, Owners, Loose, Lists;
  }

  lemma SameSidesPaired(s: State, t: State)
    requires RolesOk(s) && RolesOk(t) && PairedOk(s) && SameSides(s, t)
    ensures PairedOk(t)
  {
    hide Queue, Pairs, Owners, Loose, Unseen;
  }

  lemma SameSidesData(s: State, t: State)
    requires RolesOk(s) && RolesOk(t) && DataOk(s) && SameSides(s, t)
    ensures DataOk(t)
  {
    hide Queue, Pairs, Owners, Loose;
    forall i | 0 <= i < |t.recs| ensures RecOk(t, t.recs[i]) { assert RecOk(s, s.recs[i]); }
  }

  lemma SameSidesInv(s: State, t: State, cfg: Config)
    requires Inv(s, cfg) && RolesOk(t) && DescsOk(t, cfg) && SameSides(s, t)
    ensures Inv(t, cfg)
  {
    hide RolesOk, DescsOk, IndexOk, DiskOk, PairedOk, DataOk;
    assert LostOk(t);
    hide LostOk, SameSides;
    SameSidesIndex(s, t);
    SameSidesDisk(s, t);
    SameSidesPaired(s, t);
    SameSidesData(s, t);
  }

  // Moves of the flusher ////////////////////////////////////////////////////////////////

  function PopFull(s: State): State
    requires s.fullM != [] && s.fullM[0] < |s.mrole|
  {
    var m := s.fullM[0];
    s.(fullM := s.fullM[1..], looseM := s.looseM + {m}, mrole := s.mrole[m := MLoose])
  }

  lemma PopFullInv(s: State, cfg: Config)
    requires Inv(s, cfg) && s.fullM != []
    ensures s.fullM[0] < |s.mrole| && s.mrole[s.fullM[0]] == MFull && Inv(PopFull(s), cfg)
  {
    hide Queue, Pairs, Owners, Lists, Filled;
    QueuePop(s.fullM, s.mrole, MFull, MLoose);
    var m, t := s.fullM[0], PopFull(s);
    QueueKeep(s.freeM, s.mrole, MFree, m, MLoose);
    PairsKeep(s.evictM, s.mrole, m, MLoose);
    OwnersKeep(s.owner, s.mrole, m, MLoose);
    hide IndexOk, DiskOk, PairedOk, LostOk, DataOk;
    SameSidesInv(s, t, cfg);
  }

  function PopFreeD(s: State): State
    requires s.freeD != [] && s.freeD[0] < |s.drole|
  {
    var d := s.freeD[0];
    s.(freeD := s.freeD[1..], looseD := s.looseD + {d}, drole := s.drole[d := DLoose], n := s.n.(freeD := s.n.freeD - 1))
  }

  lemma PopFreeDInv(s: State, cfg: Config)
    requires Inv(s, cfg) && s.freeD != []
    ensures s.freeD[0] < |s.drole| && Inv(PopFreeD(s), cfg)
  {
    hide Queue, Pairs, Owners, Lists, Filled;
    QueuePop(s.freeD, s.drole, DFree, DLoose);
    var d, t := s.freeD[0], PopFreeD(s);
    QueueKeep(s.usedD, s.drole, DUsed, d, DLoose);
    QueueKeep(s.evictD, s.drole, DEvict, d, DLoose);
    hide IndexOk, DiskOk, PairedOk, LostOk, DataOk;
    SameSidesInv(s, t, cfg);
  }

  // Index entries of the keys that d lists, removed or redirected.
  ghost function Unindex(index: map<Key, Ref>, d: Desc): map<Key, Ref>
  {
    map k | k in index && !Lists(d, k) :: index[k]
  }

  ghost function Repoint(index: map<Key, Ref>, d: Desc, to: Ref): map<Key, Ref>
  {
    map k | k in index :: if Lists(d, k) then to else index[k]
  }

  function MarkRecycled(recs: seq<Rec>, d: nat): (r: seq<Rec>)
    ensures |r| == |recs|
    ensures forall i :: 0 <= i < |recs| ==> r[i] == if recs[i].copy == Some(d) then recs[i].(recycled := true) else recs[i]
  {
    seq(|recs|, i requires 0 <= i < |recs| => if recs[i].copy == Some(d) then recs[i].(recycled := true) else recs[i])
  }

  // Taking a disk slab back from the evict queue: this is where its contents are given up.
  ghost function Recycle(s: State): State
    requires s.evictD != [] && s.evictD[0] < |s.drole| == |s.dst|
  {
    var d := s.evictD[0];
    s.(evictD := s.evictD[1..], looseD := s.looseD + {d}, drole := s.drole[d := DLoose], n := s.n.(evictD := s.n.evictD - 1),
       index := Unindex(s.index, s.dst[d]), dst := s.dst[d := Freed(s.dst[d])], recs := MarkRecycled(s.recs, d))
  }

  lemma NoRowsListNothing(d: Desc, k: Key)
    requires d.rows == []
    ensures !Lists(d, k)
  {
  }

  lemma RecycleRoles(s: State, cfg: Config)
    requires Inv(s, cfg) && s.evictD != []
    ensures s.evictD[0] < |s.drole| && s.drole[s.evictD[0]] == DEvict
    ensures RolesOk(Recycle(s)) && DescsOk(Recycle(s), cfg)
  {
    hide Queue, Pairs, Owners, Lists, Filled, Unindex;
    QueuePop(s.evictD, s.drole, DEvict, DLoose);
    var d := s.evictD[0];
    QueueKeep(s.usedD, s.drole, DUsed, d, DLoose);
    QueueKeep(s.freeD, s.drole, DFree, d, DLoose);
  }

  lemma RecycleEntries(s: State, t: State)
    requires RolesOk(s) && RolesOk(t) && EntriesOk(s) && s.evictD != [] && s.evictD[0] < |s.drole| && t == Recycle(s)
    ensures EntriesOk(t)
  {
    hide Queue, Pairs, Owners, Loose, Lists, MarkRecycled;
    forall k | k in t.index ensures EntryOk(t, k, t.index[k]) { assert EntryOk(s, k, s.index[k]); }
  }

  lemma RecycleIndex(s: State, cfg: Config)
    requires Inv(s, cfg) && s.evictD != []
    requires s.evictD[0] < |s.drole| && RolesOk(Recycle(s))
    ensures IndexOk(Recycle(s))
  {
    hide Queue, Pairs, Owners, Loose, Lists, Past, DescsOk, DiskOk, PairedOk, DataOk, MarkRecycled;
    var d, t := s.evictD[0], Recycle(s);
    RecycleEntries(s, t);
    hide EntriesOk;
    forall k ensures !Lists(t.dst[d], k) { NoRowsListNothing(t.dst[d], k); }
  }

  lemma RecycleDisk(s: State, t: State)
    requires RolesOk(s) && RolesOk(t) && DiskOk(s) && s.evictD != [] && s.evictD[0] < |s.drole| && t == Recycle(s)
    requires OnDisk(s.drole[s.evictD[0]])
    ensures DiskOk(t)
  {
    hide Queue, Pairs, Owners, Loose, Lists, MarkRecycled;
    var d := s.evictD[0];
    forall d', k | 0 <= d' < |t.dst| && OnDisk(t.drole[d']) && Lists(t.dst[d'], k)
      ensures k in t.index && Serves(t.mrole, t.index[k], d')
    {
      assert Serves(s.mrole, s.index[k], d');
      assert Lists(s.dst[d], k) ==> Serves(s.mrole, s.index[k], d);
    }
  }

  lemma RecyclePaired(s: State, t: State)
    requires RolesOk(s) && RolesOk(t) && PairedOk(s) && s.evictD != [] && s.evictD[0] < |s.drole| && t == Recycle(s)
    ensures PairedOk(t)
  {
    hide Queue, Pairs, Owners, Loose, Lists, MarkRecycled;
    forall m | 0 <= m < |t.mst| && t.mrole[m].MEvict? ensures Mirrored(t, m, t.mrole[m].d) || Unseen(t.index, t.mst[m]) {
      assert Mirrored(s, m, s.mrole[m].d) || Unseen(s.index, s.mst[m]);
    }
  }

  lemma RecycleData(s: State, cfg: Config)
    requires Inv(s, cfg) && s.evictD != []
    requires s.evictD[0] < |s.drole| && RolesOk(Recycle(s))
    ensures DataOk(Recycle(s))
  {
    hide Queue, Pairs, Owners, Lists, Filled, Unindex;
    var t := Recycle(s);
    forall i | 0 <= i < |t.recs| ensures RecOk(t, t.recs[i]) { assert RecOk(s, s.recs[i]); }
  }

  lemma RecycleInv(s: State, cfg: Config)
    requires Inv(s, cfg) && s.evictD != []
    ensures s.evictD[0] < |s.drole| && Inv(Recycle(s), cfg)
  {
    RecycleRoles(s, cfg);
    assert |s.drole| == |s.dst|;
    hide RolesOk, DescsOk, IndexOk, DiskOk, PairedOk, LostOk, DataOk;
    KeepsLost(s, Recycle(s));
    hide Recycle;
    RecycleIndex(s, cfg);
    RecycleDisk(s, Recycle(s));
    RecyclePaired(s, Recycle(s));
    RecycleData(s, cfg);
  }

  function MarkCopied(recs: seq<Rec>, m: nat, d: nat): (r: seq<Rec>)
    ensures |r| == |recs|
    ensures forall i :: 0 <= i < |recs| ==> r[i] == if recs[i].inMem && recs[i].m == m then recs[i].(copy := Some(d)) else recs[i]
  {
    seq(|recs|, i requires 0 <= i < |recs| => if recs[i].inMem && recs[i].m == m then recs[i].(copy := Some(d)) else recs[i])
  }

  // Copying memory slab m to disk slab d and queueing both.
  function Transfer(s: State, m: nat, d: nat): State
    requires m < |s.mst| == |s.mem| == |s.mrole| && d < |s.dst| == |s.disk| == |s.drole|
  {
    s.(disk := s.disk[d := s.mem[m]], dst := s.dst[d := s.mst[m]],
       evictM := s.evictM + [(m, d)], usedD := s.usedD + [d],
       looseM := s.looseM - {m}, looseD := s.looseD - {d},
       mrole := s.mrole[m := MEvict(d)], drole := s.drole[d := DUsed],
       recs := MarkCopied(s.recs, m, d))
  }

  lemma TransferRoles(s: State, cfg: Config, m: nat, d: nat)
    requires Inv(s, cfg) && m in s.looseM && d in s.looseD
    ensures m < |s.mst| && d < |s.dst|
    ensures RolesOk(Transfer(s, m, d)) && DescsOk(Transfer(s, m, d), cfg)
  {
    hide Queue, Pairs, Owners, Lists, Filled;
    QueueKeep(s.freeM, s.mrole, MFree, m, MEvict(d));
    QueueKeep(s.fullM, s.mrole, MFull, m, MEvict(d));
    OwnersKeep(s.owner, s.mrole, m, MEvict(d));
    PairsPush(s.evictM, s.mrole, m, d);
    QueueKeep(s.freeD, s.drole, DFree, d, DUsed);
    QueueKeep(s.evictD, s.drole, DEvict, d, DUsed);
    QueuePush(s.usedD, s.drole, DUsed, d);
  }

  lemma TransferEntries(s: State, t: State, m: nat, d: nat)
    requires RolesOk(s) && RolesOk(t) && EntriesOk(s) && LiveOk(s) && ApartOk(s) && m in s.looseM && d in s.looseD && m < |s.mst| && d < |s.dst|
    requires t == Transfer(s, m, d)
    ensures EntriesOk(t) && ApartOk(t)
  {
    hide Queue, Pairs, Owners, Lists, MarkCopied;
    forall k | k in t.index ensures EntryOk(t, k, t.index[k]) { assert EntryOk(s, k, s.index[k]); }
    forall m', d', k | 0 <= m' < |t.mst| && 0 <= d' < |t.dst| && Live(t.mrole[m']) && Lists(t.dst[d'], k)
      ensures !Lists(t.mst[m'], k)
    {
      assert d' == d ==> k in s.index && s.index[k] == Mem(m);
    }
  }

  lemma TransferIndex(s: State, cfg: Config, m: nat, d: nat)
    requires Inv(s, cfg) && m in s.looseM && d in s.looseD && m < |s.mst| && d < |s.dst|
    requires RolesOk(Transfer(s, m, d))
    ensures IndexOk(Transfer(s, m, d))
  {
    hide Queue, Pairs, Owners, Lists, Past, DescsOk, DiskOk, PairedOk, DataOk, MarkCopied;
    var t := Transfer(s, m, d);
    TransferEntries(s, t, m, d);
    hide EntriesOk, ApartOk;
    assert WaitingOk(t) by {
      forall m', k | 0 <= m' < |t.mst| && t.mrole[m'].MEvict? && Lists(t.mst[m'], k) && k in t.index
        ensures t.index[k] == Mem(m') && OnDisk(t.drole[t.mrole[m'].d]) && Lists(t.dst[t.mrole[m'].d], k)
      {
        assert m' != m ==> s.mrole[m'].d != d;
      }
    }
  }

  lemma TransferDisk(s: State, t: State, m: nat, d: nat)
    requires RolesOk(s) && RolesOk(t) && LiveOk(s) && DiskOk(s) && m in s.looseM && d in s.looseD && m < |s.mst| && d < |s.dst|
    requires t == Transfer(s, m, d)
    ensures DiskOk(t)
  {
    hide Queue, Pairs, Owners, Lists, MarkCopied;
    forall d', k | 0 <= d' < |t.dst| && OnDisk(t.drole[d']) && Lists(t.dst[d'], k)
      ensures k in t.index && Serves(t.mrole, t.index[k], d')
    {
      assert d' == d ==> s.index[k] == Mem(m);
      assert d' != d ==> Serves(s.mrole, s.index[k], d');
    }
  }

  lemma TransferPaired(s: State, t: State, m: nat, d: nat)
    requires RolesOk(s) && RolesOk(t) && PairedOk(s) && m in s.looseM && d in s.looseD && m < |s.mst| && d < |s.dst|
    requires t == Transfer(s, m, d)
    ensures PairedOk(t)
  {
    hide Queue, Pairs, Owners, Unseen, MarkCopied;
    forall m' | 0 <= m' < |t.mst| && t.mrole[m'].MEvict? ensures Mirrored(t, m', t.mrole[m'].d) || Unseen(t.index, t.mst[m']) {
      assert m' != m ==> Mirrored(s, m', s.mrole[m'].d) || Unseen(s.index, s.mst[m']);
    }
  }

  lemma TransferData(s: State, cfg: Config, m: nat, d: nat)
    requires Inv(s, cfg) && m in s.looseM && d in s.looseD && m < |s.mst| && d < |s.dst|
    requires RolesOk(Transfer(s, m, d))
    ensures DataOk(Transfer(s, m, d))
  {
    hide Queue, Pairs, Owners, Lists, Filled;
    var t := Transfer(s, m, d);
    forall i | 0 <= i < |t.recs| ensures RecOk(t, t.recs[i]) { assert RecOk(s, s.recs[i]); }
  }

  lemma TransferInv(s: State, cfg: Config, m: nat, d: nat)
    requires Inv(s, cfg) && m in s.looseM && d in s.looseD
    ensures m < |s.mst| && d < |s.dst| && Inv(Transfer(s, m, d), cfg)
  {
    TransferRoles(s, cfg, m, d);
    assert LiveOk(s);
    hide RolesOk, DescsOk, IndexOk, DiskOk, PairedOk, DataOk;
    assert LostOk(Transfer(s, m, d)) by { hide NoLost; }
    hide LostOk, Transfer;
    TransferIndex(s, cfg, m, d);
    TransferDisk(s, Transfer(s, m, d), m, d);
    TransferPaired(s, Transfer(s, m, d), m, d);
    TransferData(s, cfg, m, d);
  }

  // Giving the popped full slabs back to the queue when the disk has no room.
  function RotateFull(s: State, k: nat): State
    requires k <= |s.fullM|
  {
    s.(fullM := s.fullM[k..] + s.fullM[..k])
  }

  lemma RotateFullInv(s: State, cfg: Config, k: nat)
    requires Inv(s, cfg) && k <= |s.fullM|
    ensures Inv(RotateFull(s, k), cfg)
  {
    hide Queue, Pairs, Owners, Lists, Filled;
    var t := RotateFull(s, k);
    QueueRotate(s.fullM, s.mrole, MFull, k);
    hide IndexOk, DiskOk, PairedOk, LostOk, DataOk;
    SameSidesInv(s, t, cfg);
  }

  // The move of the migrator: a used disk slab becomes evictable, its contents stay.
  function Migrate(s: State): State
    requires s.usedD != [] && s.usedD[0] < |s.drole|
  {
    var d := s.usedD[0];
    s.(usedD := s.usedD[1..], evictD := s.evictD + [d], drole := s.drole[d := DEvict],
       n := s.n.(usedD := s.n.usedD - 1, evictD := s.n.evictD + 1))
  }

  lemma MigrateInv(s: State, cfg: Config)
    requires Inv(s, cfg) && s.usedD != []
    ensures s.usedD[0] < |s.drole| && s.drole[s.usedD[0]] == DUsed && Inv(Migrate(s), cfg)
  {
    hide Queue, Pairs, Owners, Lists, Filled;
    QueuePop(s.usedD, s.drole, DUsed, DEvict);
    var d, t := s.usedD[0], Migrate(s);
    QueuePush(s.evictD, s.drole, DEvict, d);
    QueueKeep(s.freeD, s.drole, DFree, d, DEvict);
    hide IndexOk, DiskOk, PairedOk, LostOk, DataOk;
    SameSidesInv(s, t, cfg);
  }

  // Moves of a put //////////////////////////////////////////////////////////////////////

  function TakeFree(s: State, c: (nat, nat)): State
    requires s.freeM != [] && s.freeM[0] < |s.mrole|
  {
    var m := s.freeM[0];
    s.(freeM := s.freeM[1..], owner := s.owner[c := m], mrole := s.mrole[m := MOwned(c)],
       n := s.n.(freeM := s.n.freeM - 1, usedM := s.n.usedM + 1))
  }

  lemma TakeFreeRoles(s: State, cfg: Config, c: (nat, nat))
    requires Inv(s, cfg) && s.freeM != [] && c !in s.owner
    ensures s.freeM[0] < |s.mrole| && s.mrole[s.freeM[0]] == MFree
    ensures RolesOk(TakeFree(s, c)) && DescsOk(TakeFree(s, c), cfg)
  {
    hide Queue, Pairs, Owners, IndexOk, DataOk;
    QueuePop(s.freeM, s.mrole, MFree, MOwned(c));
    var m := s.freeM[0];
    QueueKeep(s.fullM, s.mrole, MFull, m, MOwned(c));
    PairsKeep(s.evictM, s.mrole, m, MOwned(c));
    OwnersAdd(s.owner, s.mrole, c, m);
  }

  lemma TakeFreeIndex(s: State, t: State, cfg: Config, c: (nat, nat))
    requires RolesOk(s) && RolesOk(t) && DescsOk(s, cfg) && IndexOk(s) && DiskOk(s) && PairedOk(s)
    requires s.freeM != [] && s.freeM[0] < |s.mrole| && s.mrole[s.freeM[0]] == MFree && t == TakeFree(s, c)
    ensures IndexOk(t) && DiskOk(t) && PairedOk(t)
  {
    hide Queue, Pairs, Owners, Loose, Lists, Past;
    var m := s.freeM[0];
    assert MDescOk(s.mst[m], s.mrole[m], cfg.capacity);
    forall k ensures !Lists(s.mst[m], k) { NoRowsListNothing(s.mst[m], k); }
    hide DescsOk, Unseen;
    assert EntriesOk(t) by {
      forall k | k in t.index ensures EntryOk(t, k, t.index[k]) { assert EntryOk(s, k, s.index[k]); }
    }
  }

  lemma TakeFreeInv(s: State, cfg: Config, c: (nat, nat))
    requires Inv(s, cfg) && s.freeM != [] && c !in s.owner
    ensures s.freeM[0] < |s.mrole| && s.mrole[s.freeM[0]] == MFree && Inv(TakeFree(s, c), cfg)
  {
    hide Queue, Pairs, Owners, Loose, DescsOk, IndexOk, DiskOk, PairedOk, LostOk;
    TakeFreeRoles(s, cfg, c);
    var t := TakeFree(s, c);
    TakeFreeIndex(s, t, cfg, c);
    KeepsLost(s, t);
    assert DataOk(t) by {
      forall i | 0 <= i < |t.recs| ensures RecOk(t, t.recs[i]) { assert RecOk(s, s.recs[i]); }
    }
  }

  function MarkEvicted(recs: seq<Rec>, m: nat): (r: seq<Rec>)
    ensures |r| == |recs|
    ensures forall i :: 0 <= i < |recs| ==> r[i] == if recs[i].m == m then recs[i].(inMem := false) else recs[i]
  {
    seq(|recs|, i requires 0 <= i < |recs| => if recs[i].m == m then recs[i].(inMem := false) else recs[i])
  }

  // Reusing a memory slab whose contents are on disk: its index entries move to the copy.
  ghost function Reuse(s: State, c: (nat, nat)): State
    requires s.evictM != [] && s.evictM[0].0 < |s.mrole| == |s.mst|
  {
    var (m, d) := s.evictM[0];
    s.(evictM := s.evictM[1..], owner := s.owner[c := m], mrole := s.mrole[m := MOwned(c)],
       n := s.n.(evictM := s.n.evictM - 1, usedM := s.n.usedM + 1),
       index := Repoint(s.index, s.mst[m], Disk(d)), mst := s.mst[m := Freed(s.mst[m])],
       recs := MarkEvicted(s.recs, m))
  }

  lemma ReuseRoles(s: State, cfg: Config, c: (nat, nat))
    requires Inv(s, cfg) && s.evictM != [] && c !in s.owner
    ensures s.evictM[0].0 < |s.mrole| && s.mrole[s.evictM[0].0] == MEvict(s.evictM[0].1)
    ensures RolesOk(Reuse(s, c)) && DescsOk(Reuse(s, c), cfg)
  {
    hide Queue, Pairs, Owners, Lists, Repoint;
    PairsPop(s.evictM, s.mrole, MOwned(c));
    var m := s.evictM[0].0;
    QueueKeep(s.freeM, s.mrole, MFree, m, MOwned(c));
    QueueKeep(s.fullM, s.mrole, MFull, m, MOwned(c));
    OwnersAdd(s.owner, s.mrole, c, m);
  }

  lemma ReuseEntries(s: State, cfg: Config, c: (nat, nat))
    requires Inv(s, cfg) && s.evictM != [] && s.evictM[0].0 < |s.mrole| && s.mrole[s.evictM[0].0] == MEvict(s.evictM[0].1)
    requires RolesOk(Reuse(s, c))
    ensures EntriesOk(Reuse(s, c))
  {
    hide Queue, Pairs, Owners, Loose, Lists, Past, DescsOk, DiskOk, PairedOk, DataOk, LiveOk, ApartOk, ClockOk, MarkEvicted;
    var (m, d) := s.evictM[0];
    var t := Reuse(s, c);
    forall k | k in t.index ensures EntryOk(t, k, t.index[k]) {
      assert EntryOk(s, k, s.index[k]);
    }
  }

  lemma ReuseIndex(s: State, cfg: Config, c: (nat, nat))
    requires Inv(s, cfg) && s.evictM != [] && s.evictM[0].0 < |s.mrole| && s.mrole[s.evictM[0].0] == MEvict(s.evictM[0].1)
    requires RolesOk(Reuse(s, c))
    ensures IndexOk(Reuse(s, c))
  {
    hide Queue, Pairs, Owners, Lists, Filled, EntriesOk;
    ReuseEntries(s, cfg, c);
    var (m, d) := s.evictM[0];
    var t := Reuse(s, c);
    forall k ensures !Lists(t.mst[m], k) { NoRowsListNothing(t.mst[m], k); }
  }

  lemma ReuseDisk(s: State, t: State, c: (nat, nat))
    requires RolesOk(s) && RolesOk(t) && IndexOk(s) && DiskOk(s)
    requires s.evictM != [] && s.evictM[0].0 < |s.mrole| && s.mrole[s.evictM[0].0] == MEvict(s.evictM[0].1)
    requires t == Reuse(s, c)
    ensures DiskOk(t)
  {
    hide Queue, Pairs, Owners, Loose, Lists, Past, MarkEvicted;
    var (m, d) := s.evictM[0];
    forall d', k | 0 <= d' < |t.dst| && OnDisk(t.drole[d']) && Lists(t.dst[d'], k)
      ensures k in t.index && Serves(t.mrole, t.index[k], d')
    {
      assert Serves(s.mrole, s.index[k], d') && EntryOk(s, k, s.index[k]);
      assert Lists(s.mst[m], k) ==> s.index[k] == Mem(m);
    }
  }

  lemma ReusePaired(s: State, t: State, c: (nat, nat))
    requires RolesOk(s) && RolesOk(t) && PairedOk(s)
    requires s.evictM != [] && s.evictM[0].0 < |s.mrole| && t == Reuse(s, c)
    ensures PairedOk(t)
  {
    hide Queue, Pairs, Owners, Loose, Lists, MarkEvicted;
    forall m | 0 <= m < |t.mst| && t.mrole[m].MEvict? ensures Mirrored(t, m, t.mrole[m].d) || Unseen(t.index, t.mst[m]) {
      assert Mirrored(s, m, s.mrole[m].d) || Unseen(s.index, s.mst[m]);
    }
  }

  lemma ReuseData(s: State, cfg: Config, c: (nat, nat))
    requires Inv(s, cfg) && s.evictM != [] && s.evictM[0].0 < |s.mrole| && s.mrole[s.evictM[0].0] == MEvict(s.evictM[0].1)
    requires RolesOk(Reuse(s, c))
    ensures DataOk(Reuse(s, c))
  {
    hide Queue, Pairs, Owners, Lists, Filled, Repoint;
    var t := Reuse(s, c);
    forall i | 0 <= i < |t.recs| ensures RecOk(t, t.recs[i]) { assert RecOk(s, s.recs[i]); }
  }

  lemma ReuseInv(s: State, cfg: Config, c: (nat, nat))
    requires Inv(s, cfg) && s.evictM != [] && c !in s.owner
    ensures s.evictM[0].0 < |s.mrole| && Inv(Reuse(s, c), cfg)
  {
    ReuseRoles(s, cfg, c);
    assert |s.mrole| == |s.mst|;
    hide RolesOk, DescsOk, IndexOk, DiskOk, PairedOk, LostOk, DataOk;
    KeepsLost(s, Reuse(s, c));
    hide Reuse;
    ReuseIndex(s, cfg, c);
    ReuseDisk(s, Reuse(s, c), c);
    ReusePaired(s, Reuse(s, c), c);
    ReuseData(s, cfg, c);
  }

  // Writing the item into the next slot of an owned slab.
  function Write(s: State, m: nat, c: (nat, nat), item: Item): State
    requires m < |s.mst| == |s.mem| && s.mst[m].nalloc < |s.mem[m]|
  {
    var slot := s.mst[m].nalloc;
    s.(mem := s.mem[m := s.mem[m][slot := item]],
       mst := s.mst[m := s.mst[m].(cx := c.0, cy := c.1, nalloc := slot + 1)],
       recs := s.recs + [Rec(item, m, slot, true, None, false)])
  }

  lemma SameRowsSameKeys(d: Desc, d': Desc, k: Key)
    requires d.rows == d'.rows && (d.rows != [] ==> (d.cx, d.cy) == (d'.cx, d'.cy))
    ensures Lists(d, k) == Lists(d', k)
  {
    assert forall i :: 0 <= i < |d.rows| ==> RowLists(d, i, k) == RowLists(d', i, k);
  }

  lemma WriteRoles(s: State, cfg: Config, c: (nat, nat), item: Item)
    requires Inv(s, cfg) && c in s.owner && s.mst[s.owner[c]].nalloc < cfg.capacity
    ensures var m := s.owner[c];
            && m < |s.mst| && s.mst[m].nalloc < |s.mem[m]|
            && RolesOk(Write(s, m, c, item)) && DescsOk(Write(s, m, c, item), cfg)
  {
    hide Queue, Pairs, IndexOk, DataOk;
  }

  lemma WriteIndex(s: State, t: State, m: nat)
    requires RolesOk(s) && RolesOk(t) && IndexOk(s) && m < |s.mst| == |t.mst|
    requires t.mrole == s.mrole && t.drole == s.drole && t.dst == s.dst && t.index == s.index && t.clock == s.clock
    requires forall j :: 0 <= j < |s.mst| && j != m ==> t.mst[j] == s.mst[j]
    requires forall k :: Lists(t.mst[m], k) == Lists(s.mst[m], k)
    ensures IndexOk(t)
  {
    hide Queue, Pairs, Owners, Loose, Lists, Past;
    assert forall j, k :: 0 <= j < |s.mst| ==> Lists(t.mst[j], k) == Lists(s.mst[j], k);
    assert EntriesOk(t) by {
      forall k | k in t.index ensures EntryOk(t, k, t.index[k]) { assert EntryOk(s, k, s.index[k]); }
    }
  }

  lemma WriteData(s: State, t: State, m: nat, c: (nat, nat), item: Item)
    requires RolesOk(s) && RolesOk(t) && DataOk(s) && m < |s.mst| && s.mst[m].nalloc < |s.mem[m]| && s.mrole[m].MOwned?
    requires t == Write(s, m, c, item)
    ensures DataOk(t)
  {
    hide Queue, Pairs, Owners, Loose;
    forall i | 0 <= i < |t.recs| ensures RecOk(t, t.recs[i]) {
      assert i < |s.recs| ==> RecOk(s, s.recs[i]);
    }
  }

  lemma WriteInv(s: State, cfg: Config, c: (nat, nat), item: Item)
    requires Inv(s, cfg) && c in s.owner && s.mst[s.owner[c]].nalloc < cfg.capacity
    ensures var m := s.owner[c]; m < |s.mst| && s.mst[m].nalloc < |s.mem[m]| && Inv(Write(s, m, c, item), cfg)
  {
    WriteRoles(s, cfg, c, item);
    hide Queue, Pairs, Lists, IndexOk, LostOk, DataOk;
    var m := s.owner[c];
    var t := Write(s, m, c, item);
    WriteData(s, t, m, c, item);
    assert MDescOk(s.mst[m], s.mrole[m], cfg.capacity);
    forall k ensures Lists(t.mst[m], k) == Lists(s.mst[m], k) { SameRowsSameKeys(s.mst[m], t.mst[m], k); }
    WriteIndex(s, t, m);
    KeepsLost(s, t);
  }

  // Handing a filled slab to the full queue.
  function Seal(s: State, c: (nat, nat)): State
    requires c in s.owner && s.owner[c] < |s.mrole|
  {
    var m := s.owner[c];
    s.(fullM := s.fullM + [m], owner := s.owner - {c}, mrole := s.mrole[m := MFull],
       n := s.n.(fullM := s.n.fullM + 1, usedM := s.n.usedM - 1))
  }

  lemma SealInv(s: State, cfg: Config, c: (nat, nat))
    requires Inv(s, cfg) && c in s.owner && s.mst[s.owner[c]].nalloc == cfg.capacity
    ensures s.owner[c] < |s.mrole| && Inv(Seal(s, c), cfg)
  {
    var m := s.owner[c];
    hide Queue, Pairs, Owners, Lists, Filled;
    var t := Seal(s, c);
    QueuePush(s.fullM, s.mrole, MFull, m);
    QueueKeep(s.freeM, s.mrole, MFree, m, MFull);
    PairsKeep(s.evictM, s.mrole, m, MFull);
    OwnersRemove(s.owner, s.mrole, c, MFull);
    hide IndexOk, DiskOk, PairedOk, LostOk, DataOk;
    SameSidesInv(s, t, cfg);
  }

  // Listing the series in the slab's descriptor ///////////////////////////////////////////

  // The first row of this series, or the number of rows.
  function FindRow(rows: seq<Row>, fs: nat, fm: nat): (i: nat)
    ensures i <= |rows|
    ensures i < |rows| ==> rows[i].fs == fs && rows[i].fm == fm
    ensures forall j :: 0 <= j < i ==> (rows[j].fs, rows[j].fm) != (fs, fm)
  {
    if rows == [] || (rows[0].fs == fs && rows[0].fm == fm) then 0 else 1 + FindRow(rows[1..], fs, fm)
  }

  // The index operations: insert if absent, remove, update if present.
  function InsertMT(index: map<Key, Ref>, k: Key, r: Ref): map<Key, Ref>
  {
    if k in index then index else index[k := r]
  }

  function RemoveMT(index: map<Key, Ref>, k: Key): map<Key, Ref> { index - {k} }

  function UpdateMT(index: map<Key, Ref>, k: Key, r: Ref): map<Key, Ref>
  {
    if k in index then index[k := r] else index
  }

  // A row with a new end. The old end is removed from the index, under the key of the start too
  // if they are the same.
  function Extended(r: Row, end: nat): Row { r.(end := end, lost := r.lost || r.start == r.end) }

  // The descriptor after a chunk of the series fs, fm was added.
  function Listed(d: Desc, fs: nat, fm: nat, start: nat, end: nat): (d': Desc)
  {
    var i := FindRow(d.rows, fs, fm);
    if i < |d.rows| then d.(rows := d.rows[i := Extended(d.rows[i], end)])
    else d.(rows := d.rows + [Row(fs, fm, start, end, false)])
  }

  // The index after it: the endpoints of the series follow.
  function Reindexed(index: map<Key, Ref>, d: Desc, fs: nat, fm: nat, start: nat, end: nat, r: Ref): map<Key, Ref>
  {
    var i, d' := FindRow(d.rows, fs, fm), Listed(d, fs, fm, start, end);
    var index' := if i < |d.rows| then RemoveMT(index, EndKey(d, i)) else InsertMT(index, StartKey(d', i), r);
    InsertMT(index', EndKey(d', i), r)
  }

  function List(s: State, m: nat, fs: nat, fm: nat, start: nat, end: nat): State
    requires m < |s.mst|
  {
    var d := s.mst[m];
    s.(mst := s.mst[m := Listed(d, fs, fm, start, end)],
       index := Reindexed(s.index, d, fs, fm, start, end, Mem(m)),
       clock := s.clock[SeriesOf(d, fs, fm) := end])
  }

  // The keys that listing adds, and the one it drops.
  function ListNews(d: Desc, fs: nat, fm: nat, start: nat, end: nat): set<Key>
  {
    var (source, metric) := SeriesOf(d, fs, fm);
    if FindRow(d.rows, fs, fm) < |d.rows| then {Key(source, metric, end)} else {Key(source, metric, start), Key(source, metric, end)}
  }

  function ListGone(d: Desc, fs: nat, fm: nat): set<Key>
  {
    var i := FindRow(d.rows, fs, fm);
    if i < |d.rows| then {EndKey(d, i)} else {}
  }

  // Times of a series only move forward, and a chunk does not end before it starts.
  predicate Timely(clock: map<(nat, nat), nat>, series: (nat, nat), start: nat, end: nat)
  {
    start <= end && (series in clock ==> clock[series] < start)
  }

  lemma ListedOld(d: Desc, fs: nat, fm: nat, start: nat, end: nat, capacity: nat, k: Key)
    requires Filled(d, capacity) && FindRow(d.rows, fs, fm) < |d.rows|
    ensures var i, d' := FindRow(d.rows, fs, fm), Listed(d, fs, fm, start, end);
            Lists(d', k) <==> (Lists(d, k) && k != EndKey(d, i)) || k == EndKey(d', i)
  {
    var i, d' := FindRow(d.rows, fs, fm), Listed(d, fs, fm, start, end);
    forall j | 0 <= j < |d.rows| && j != i ensures RowLists(d', j, k) == RowLists(d, j, k) && !RowLists(d, j, EndKey(d, i)) {
      OtherSeries(d, i, j);
    }
    assert RowLists(d', i, k) <==> (RowLists(d, i, k) && k != EndKey(d, i)) || k == EndKey(d', i);
    if Lists(d, k) && k != EndKey(d, i) {
      var j :| 0 <= j < |d.rows| && RowLists(d, j, k);
      assert RowLists(d', j, k);
    }
    if k == EndKey(d', i) { assert RowLists(d', i, k); }
    if Lists(d', k) {
      var j :| 0 <= j < |d'.rows| && RowLists(d', j, k);
      assert j != i ==> RowLists(d, j, k);
    }
  }

  lemma OtherSeries(d: Desc, i: nat, j: nat)
    requires i < |d.rows| && j < |d.rows| && i != j
    requires forall i, j :: 0 <= i < j < |d.rows| ==> (d.rows[i].fs, d.rows[i].fm) != (d.rows[j].fs, d.rows[j].fm)
    ensures (RowSource(d, i), RowMetric(d, i)) != (RowSource(d, j), RowMetric(d, j))
  {
    assert (d.rows[i].fs, d.rows[i].fm) != (d.rows[j].fs, d.rows[j].fm) by {
      if i < j { } else { assert (d.rows[j].fs, d.rows[j].fm) != (d.rows[i].fs, d.rows[i].fm); }
    }
  }

  lemma ListedNew(d: Desc, fs: nat, fm: nat, start: nat, end: nat, k: Key)
    requires FindRow(d.rows, fs, fm) == |d.rows|
    ensures var i, d' := |d.rows|, Listed(d, fs, fm, start, end);
            Lists(d', k) <==> Lists(d, k) || k == StartKey(d', i) || k == EndKey(d', i)
  {
    var i, d' := |d.rows|, Listed(d, fs, fm, start, end);
    assert forall j :: 0 <= j < |d.rows| ==> RowLists(d', j, k) == RowLists(d, j, k);
    if Lists(d, k) {
      var j :| 0 <= j < |d.rows| && RowLists(d, j, k);
      assert RowLists(d', j, k);
    }
    if k == StartKey(d', i) || k == EndKey(d', i) { assert RowLists(d', i, k); }
  }

  lemma ListedFilled(d: Desc, fs: nat, fm: nat, start: nat, end: nat, capacity: nat)
    requires Filled(d, capacity) && |d.rows| < d.nalloc && fs < 256 && fm < 256
    requires forall i :: 0 <= i < |d.rows| && d.rows[i].fs == fs && d.rows[i].fm == fm ==> d.rows[i].start <= end
    requires start <= end
    ensures Filled(Listed(d, fs, fm, start, end), capacity)
  {
  }

  // The series of fs, fm in a descriptor of this class.
  function SeriesOf(d: Desc, fs: nat, fm: nat): (nat, nat)
  {
    (fs * CY_NUM + d.cy, fm * CX_NUM + d.cx)
  }

  // A key that is not past is listed nowhere and indexed nowhere.
  lemma FreshKey(s: State, k: Key)
    requires RolesOk(s) && IndexOk(s) && !Past(s.clock, k)
    ensures k !in s.index
    ensures forall m :: 0 <= m < |s.mst| ==> !Lists(s.mst[m], k)
    ensures forall d :: 0 <= d < |s.dst| ==> !Lists(s.dst[d], k)
  {
    assert k in s.index ==> EntryOk(s, k, s.index[k]);
  }

  // A step that changes only what owned slab m lists: fresh keys come, some of its own keys go.
  ghost predicate Relisted(s: State, t: State, m: nat, news: set<Key>, gone: set<Key>)
  {
    && t.mrole == s.mrole && t.drole == s.drole && t.dst == s.dst
    && m < |s.mst| == |t.mst| == |s.mrole|
    && (forall j :: 0 <= j < |s.mst| && j != m ==> t.mst[j] == s.mst[j])
    && (forall k :: k in news ==> !Past(s.clock, k) && Past(t.clock, k) && k in t.index && t.index[k] == Mem(m))
    && (forall k :: k in gone ==> Lists(s.mst[m], k) && k !in t.index)
    && (forall k :: k !in news && k !in gone ==> (k in t.index <==> k in s.index) && (k in s.index ==> t.index[k] == s.index[k]))
    && (forall k :: Lists(t.mst[m], k) <==> (Lists(s.mst[m], k) && k !in gone) || k in news)
    && (forall k :: Past(s.clock, k) ==> Past(t.clock, k))
  }

  lemma RelistedEntries(s: State, t: State, m: nat, news: set<Key>, gone: set<Key>)
    requires RolesOk(s) && RolesOk(t) && EntriesOk(s) && Relisted(s, t, m, news, gone) && s.mrole[m].MOwned?
    ensures EntriesOk(t)
  {
    hide Lists, Past, Queue, Pairs, Owners;
    forall k | k in t.index ensures EntryOk(t, k, t.index[k]) {
      if k !in news { assert EntryOk(s, k, s.index[k]); }
    }
  }

  lemma RelistedLive(s: State, t: State, m: nat, news: set<Key>, gone: set<Key>)
    requires RolesOk(s) && RolesOk(t) && LiveOk(s) && ClockOk(s) && Relisted(s, t, m, news, gone) && s.mrole[m].MOwned?
    ensures LiveOk(t)
  {
    hide Lists, Past, RolesOk;
    assert |s.mrole| == |s.mst|;
    assert forall k :: k in gone ==> k in s.index && s.index[k] == Mem(m);
    forall j, k | 0 <= j < |t.mst| && Live(t.mrole[j]) && Lists(t.mst[j], k) ensures k in t.index && t.index[k] == Mem(j) {
      assert j != m ==> Lists(s.mst[j], k) && Past(s.clock, k);
      assert k !in news ==> Lists(s.mst[j], k) && k in s.index && s.index[k] == Mem(j);
    }
  }

  lemma RelistedRest(s: State, t: State, m: nat, news: set<Key>, gone: set<Key>)
    requires RolesOk(s) && RolesOk(t) && IndexOk(s) && Relisted(s, t, m, news, gone) && s.mrole[m].MOwned?
    ensures WaitingOk(t) && ApartOk(t) && ClockOk(t)
  {
    hide Lists, Past, Queue, Pairs, Owners, EntriesOk, LiveOk;
    forall j, d, k | 0 <= j < |t.mst| && 0 <= d < |t.dst| && Live(t.mrole[j]) && Lists(t.dst[d], k) ensures !Lists(t.mst[j], k) {
      assert Past(s.clock, k);
      assert !Lists(s.mst[j], k);
    }
    forall j, k | 0 <= j < |t.mst| && Lists(t.mst[j], k) ensures Past(t.clock, k) {
      if k !in news { assert Lists(s.mst[j], k); }
    }
    forall j, k | 0 <= j < |t.mst| && t.mrole[j].MEvict? && Lists(t.mst[j], k) && k in t.index
      ensures t.index[k] == Mem(j) && OnDisk(t.drole[t.mrole[j].d]) && Lists(t.dst[t.mrole[j].d], k)
    {
      assert Lists(s.mst[j], k) && Past(s.clock, k);
    }
  }

  lemma RelistedDisk(s: State, t: State, m: nat, news: set<Key>, gone: set<Key>)
    requires RolesOk(s) && RolesOk(t) && DiskOk(s) && ApartOk(s) && ClockOk(s) && Relisted(s, t, m, news, gone) && s.mrole[m].MOwned?
    ensures DiskOk(t)
  {
    hide Lists, Past, Queue, Pairs, Owners, Loose;
    forall d, k | 0 <= d < |t.dst| && OnDisk(t.drole[d]) && Lists(t.dst[d], k)
      ensures k in t.index && Serves(t.mrole, t.index[k], d)
    {
      assert Past(s.clock, k) && !Lists(s.mst[m], k);
    }
  }

  lemma RelistedPaired(s: State, t: State, m: nat, news: set<Key>, gone: set<Key>)
    requires RolesOk(s) && RolesOk(t) && PairedOk(s) && ClockOk(s) && Relisted(s, t, m, news, gone) && s.mrole[m].MOwned?
    requires t.mem == s.mem && t.disk == s.disk
    ensures PairedOk(t)
  {
    hide Lists, Past, Queue, Pairs, Owners, Loose;
    forall j | 0 <= j < |t.mst| && t.mrole[j].MEvict? ensures Mirrored(t, j, t.mrole[j].d) || Unseen(t.index, t.mst[j]) {
      assert Mirrored(s, j, s.mrole[j].d) || Unseen(s.index, s.mst[j]);
      if !Mirrored(s, j, s.mrole[j].d) {
        forall k | Lists(t.mst[j], k) ensures k !in t.index { assert Lists(s.mst[j], k) && Past(s.clock, k); }
      }
    }
  }

  // The index gains the new keys, all for r, and loses the gone ones; the descriptor lists with it.
  ghost predicate KeysMove(index: map<Key, Ref>, index': map<Key, Ref>, d: Desc, d': Desc, news: set<Key>, gone: set<Key>, r: Ref)
  {
    && (forall k :: k in news ==> k in index' && index'[k] == r)
    && (forall k :: k in gone ==> Lists(d, k) && k !in index')
    && (forall k :: k !in news && k !in gone ==> (k in index' <==> k in index) && (k in index ==> index'[k] == index[k]))
    && (forall k :: Lists(d', k) <==> (Lists(d, k) && k !in gone) || k in news)
  }

  // The effect of listing on the keys of the descriptor and on the index.
  lemma ListedKeys(index: map<Key, Ref>, d: Desc, fs: nat, fm: nat, start: nat, end: nat, capacity: nat, r: Ref)
    requires Filled(d, capacity) && start <= end
    requires forall k :: k in ListNews(d, fs, fm, start, end) ==> k !in index && !Lists(d, k)
    ensures KeysMove(index, Reindexed(index, d, fs, fm, start, end, r), d, Listed(d, fs, fm, start, end),
                     ListNews(d, fs, fm, start, end), ListGone(d, fs, fm), r)
  {
    hide Lists, Filled;
    var i, d' := FindRow(d.rows, fs, fm), Listed(d, fs, fm, start, end);
    if i < |d.rows| {
      forall k ensures Lists(d', k) <==> (Lists(d, k) && k != EndKey(d, i)) || k == EndKey(d', i) {
        ListedOld(d, fs, fm, start, end, capacity, k);
      }
      ListsEnd(d, i);
    } else {
      forall k ensures Lists(d', k) <==> Lists(d, k) || k == StartKey(d', i) || k == EndKey(d', i) {
        ListedNew(d, fs, fm, start, end, k);
      }
    }
  }

  // New keys are in the future before the step and past after it; nothing else changes sides.
  lemma NewsAdvance(clock: map<(nat, nat), nat>, d: Desc, fs: nat, fm: nat, start: nat, end: nat)
    requires Timely(clock, SeriesOf(d, fs, fm), start, end)
    ensures var clock' := clock[SeriesOf(d, fs, fm) := end];
            && (forall k :: k in ListNews(d, fs, fm, start, end) ==> !Past(clock, k) && Past(clock', k))
            && (forall k :: Past(clock, k) ==> Past(clock', k))
  {
  }

  lemma ListFields(s: State, m: nat, fs: nat, fm: nat, start: nat, end: nat)
    requires m < |s.mst|
    ensures var d, t := s.mst[m], List(s, m, fs, fm, start, end);
            && t.mrole == s.mrole && t.drole == s.drole && t.dst == s.dst
            && t.mst == s.mst[m := Listed(d, fs, fm, start, end)]
            && t.index == Reindexed(s.index, d, fs, fm, start, end, Mem(m))
            && t.clock == s.clock[SeriesOf(d, fs, fm) := end]
  {
    hide Reindexed, Listed;
  }

  lemma NewsUnlisted(s: State, m: nat, news: set<Key>)
    requires RolesOk(s) && IndexOk(s) && m < |s.mst| && forall k :: k in news ==> !Past(s.clock, k)
    ensures forall k :: k in news ==> k !in s.index && !Lists(s.mst[m], k)
  {
    hide RolesOk, IndexOk, Lists, Past;
    forall k | k in news ensures k !in s.index && !Lists(s.mst[m], k) { FreshKey(s, k); }
  }

  lemma MovedRelists(s: State, t: State, m: nat, news: set<Key>, gone: set<Key>)
    requires t.mrole == s.mrole && t.drole == s.drole && t.dst == s.dst && m < |s.mst| == |t.mst| == |s.mrole| && t.mst == s.mst[m := t.mst[m]]
    requires KeysMove(s.index, t.index, s.mst[m], t.mst[m], news, gone, Mem(m))
    requires forall k :: k in news ==> !Past(s.clock, k) && Past(t.clock, k)
    requires forall k :: Past(s.clock, k) ==> Past(t.clock, k)
    ensures Relisted(s, t, m, news, gone)
  {
    hide Lists, Past;
  }

  lemma ListRelists(s: State, cfg: Config, m: nat, fs: nat, fm: nat, start: nat, end: nat)
    requires RolesOk(s) && IndexOk(s) && m < |s.mst| && Filled(s.mst[m], cfg.capacity)
    requires Timely(s.clock, SeriesOf(s.mst[m], fs, fm), start, end)
    ensures Relisted(s, List(s, m, fs, fm, start, end), m, ListNews(s.mst[m], fs, fm, start, end), ListGone(s.mst[m], fs, fm))
  {
    assert |s.mst| == |s.mrole|;
    hide RolesOk, IndexOk, Lists, Past, Filled, Reindexed, Listed, ListNews, ListGone, SeriesOf, KeysMove, Relisted;
    var d, t := s.mst[m], List(s, m, fs, fm, start, end);
    ListFields(s, m, fs, fm, start, end);
    hide List;
    NewsAdvance(s.clock, d, fs, fm, start, end);
    NewsUnlisted(s, m, ListNews(d, fs, fm, start, end));
    ListedKeys(s.index, d, fs, fm, start, end, cfg.capacity, Mem(m));
    MovedRelists(s, t, m, ListNews(d, fs, fm, start, end), ListGone(d, fs, fm));
  }

  lemma DescAt(s: State, cfg: Config, m: nat)
    requires RolesOk(s) && DescsOk(s, cfg) && m < |s.mst|
    ensures MDescOk(s.mst[m], s.mrole[m], cfg.capacity) && |s.mem[m]| == cfg.capacity
  {
  }

  lemma ListsEnd(d: Desc, i: nat)
    requires i < |d.rows|
    ensures Lists(d, EndKey(d, i)) && (!d.rows[i].lost ==> Lists(d, StartKey(d, i)))
  {
    assert RowLists(d, i, EndKey(d, i));
    assert !d.rows[i].lost ==> RowLists(d, i, StartKey(d, i));
  }

  lemma ClockAt(s: State, m: nat, k: Key)
    requires RolesOk(s) && IndexOk(s) && m < |s.mst| && Lists(s.mst[m], k)
    ensures Past(s.clock, k)
  {
  }

  lemma ListRoles(s: State, m: nat, fs: nat, fm: nat, start: nat, end: nat)
    requires RolesOk(s) && DataOk(s) && m < |s.mst|
    ensures RolesOk(List(s, m, fs, fm, start, end)) && DataOk(List(s, m, fs, fm, start, end))
  {
    hide Queue, Pairs, Owners, Reindexed;
    var t := List(s, m, fs, fm, start, end);
    ListedKeeps(s.mst[m], fs, fm, start, end);
    assert RolesOk(t);
    assert DataOk(t) by { assert forall i :: 0 <= i < |s.recs| ==> RecOk(s, s.recs[i]); }
  }

  lemma ListDesc(s: State, cfg: Config, m: nat, fs: nat, fm: nat, start: nat, end: nat)
    requires Inv(s, cfg) && m < |s.mst| && s.mrole[m].MOwned? && |s.mst[m].rows| < s.mst[m].nalloc
    requires s.mrole[m].cls == (s.mst[m].cx, s.mst[m].cy) && fs < 256 && fm < 256
    requires Timely(s.clock, SeriesOf(s.mst[m], fs, fm), start, end)
    ensures MDescOk(Listed(s.mst[m], fs, fm, start, end), s.mrole[m], cfg.capacity)
  {
    DescAt(s, cfg, m);
    hide RolesOk, DescsOk, DataOk, IndexOk, Lists, Listed;
    var d := s.mst[m];
    forall i | 0 <= i < |d.rows| && d.rows[i].fs == fs && d.rows[i].fm == fm ensures d.rows[i].start <= end {
      ListsEnd(d, i);
      ClockAt(s, m, EndKey(d, i));
    }
    ListedFilled(d, fs, fm, start, end, cfg.capacity);
    ListedKeeps(d, fs, fm, start, end);
  }

  lemma ListDescs(s: State, t: State, cfg: Config, m: nat)
    requires RolesOk(s) && RolesOk(t) && DescsOk(s, cfg) && m < |s.mst| && t.mem == s.mem && t.disk == s.disk && t.dst == s.dst
    requires t.mrole == s.mrole && t.drole == s.drole && |t.mst| == |s.mst| && MDescOk(t.mst[m], s.mrole[m], cfg.capacity)
    requires forall j :: 0 <= j < |s.mst| && j != m ==> t.mst[j] == s.mst[j]
    ensures DescsOk(t, cfg)
  {
    hide Queue, Pairs, Owners, MDescOk, DDescOk;
  }

  lemma ListedKeeps(d: Desc, fs: nat, fm: nat, start: nat, end: nat)
    ensures var d' := Listed(d, fs, fm, start, end);
            d'.cx == d.cx && d'.cy == d.cy && d'.nalloc == d.nalloc && d'.rows != []
  {
  }

  // A series listed with its end in the past is listed with its start in the past.
  lemma StartPast(clock: map<(nat, nat), nat>, d: Desc, capacity: nat, i: nat)
    requires d.rows == [] || Filled(d, capacity)
    requires i < |d.rows| && Past(clock, EndKey(d, i))
    ensures Past(clock, StartKey(d, i))
  {
  }

  lemma RelistedLost(s: State, t: State, d: Desc, capacity: nat, news: set<Key>, gone: set<Key>)
    requires d.rows == [] || Filled(d, capacity)
    requires NoLost(s.index, d) && forall k :: Lists(d, k) ==> Past(s.clock, k)
    requires forall k :: k in news ==> !Past(s.clock, k)
    requires forall k :: k !in s.index && k !in news ==> k !in t.index
    ensures NoLost(t.index, d)
  {
    hide Lists, Past, Filled;
    forall i | 0 <= i < |d.rows| && d.rows[i].lost ensures StartKey(d, i) !in t.index {
      ListsEnd(d, i);
      StartPast(s.clock, d, capacity, i);
    }
  }

  lemma ListLost(s: State, t: State, cfg: Config, m: nat, fs: nat, fm: nat, start: nat, end: nat)
    requires RolesOk(s) && DescsOk(s, cfg) && ClockOk(s) && LostOk(s) && m < |s.mst|
    requires t.mst == s.mst[m := Listed(s.mst[m], fs, fm, start, end)]
    requires Relisted(s, t, m, ListNews(s.mst[m], fs, fm, start, end), ListGone(s.mst[m], fs, fm))
    ensures LostOk(t)
  {
    var news, gone := ListNews(s.mst[m], fs, fm, start, end), ListGone(s.mst[m], fs, fm);
    hide ListNews, ListGone, Lists, Past, Queue, Pairs, Owners, Loose, Filled, NoLost;
    forall j | 0 <= j < |s.mst| ensures NoLost(t.index, s.mst[j]) {
      RelistedLost(s, t, s.mst[j], cfg.capacity, news, gone);
    }
    forall d | 0 <= d < |t.dst| ensures NoLost(t.index, t.dst[d]) {
      RelistedLost(s, t, s.dst[d], cfg.capacity, news, gone);
    }
    ListedLost(t.index, s.mst[m], fs, fm, start, end);
  }

  lemma ListedLost(index: map<Key, Ref>, d: Desc, fs: nat, fm: nat, start: nat, end: nat)
    requires NoLost(index, d) && forall k :: k in ListGone(d, fs, fm) ==> k !in index
    ensures NoLost(index, Listed(d, fs, fm, start, end))
  {
    var i, d' := FindRow(d.rows, fs, fm), Listed(d, fs, fm, start, end);
    forall j | 0 <= j < |d'.rows| && d'.rows[j].lost ensures StartKey(d', j) !in index {
      assert j < |d.rows| && StartKey(d', j) == StartKey(d, j);
      assert j == i && !d.rows[i].lost ==> StartKey(d, i) == EndKey(d, i);
    }
  }

  lemma ListInv(s: State, cfg: Config, m: nat, fs: nat, fm: nat, start: nat, end: nat)
    requires Inv(s, cfg) && m < |s.mst| && s.mrole[m].MOwned? && |s.mst[m].rows| < s.mst[m].nalloc
    requires s.mrole[m].cls == (s.mst[m].cx, s.mst[m].cy) && fs < 256 && fm < 256
    requires Timely(s.clock, SeriesOf(s.mst[m], fs, fm), start, end)
    ensures Inv(List(s, m, fs, fm, start, end), cfg)
  {
    var t := List(s, m, fs, fm, start, end);
    ListRoles(s, m, fs, fm, start, end);
    ListDesc(s, cfg, m, fs, fm, start, end);
    assert DescsOk(t, cfg) by { ListDescs(s, t, cfg, m); }
    DescAt(s, cfg, m);
    ListRelists(s, cfg, m, fs, fm, start, end);
    var news, gone := ListNews(s.mst[m], fs, fm, start, end), ListGone(s.mst[m], fs, fm);
    assert t.mem == s.mem && t.disk == s.disk;
    hide LostOk, Relisted;
    ListLost(s, t, cfg, m, fs, fm, start, end);
    hide List, RolesOk, DescsOk, DiskOk, PairedOk, DataOk, EntriesOk, LiveOk, WaitingOk, ApartOk, ClockOk;
    RelistedEntries(s, t, m, news, gone);
    RelistedLive(s, t, m, news, gone);
    RelistedRest(s, t, m, news, gone);
    RelistedDisk(s, t, m, news, gone);
    RelistedPaired(s, t, m, news, gone);
  }
}
