/**
  The forward index from metric and source ids to series: one map per metric, and a flat table,
  row by row, for the ids that have been migrated. Series are known by their address; 0 is none.
*/
module ForwardIndexes {

  function Get(m: map<nat, nat>, source: nat): nat { if source in m then m[source] else 0 }

  // The place of metric i and source j, both counted from 1, in a table with rows of width w.
  function Cell(i: nat, j: nat, w: nat): nat
    requires 1 <= i && 1 <= j
  {
    (i - 1) * w + (j - 1)
  }

  lemma CellInside(i: nat, j: nat, w: nat, h: nat)
    requires 1 <= i <= h && 1 <= j <= w
    ensures Cell(i, j, w) < h * w
  {
    assert (i - 1) * w + w == i * w;
    assert i * w <= h * w;
  }

  lemma CellDistinct(i: nat, j: nat, i': nat, j': nat, w: nat)
    requires 1 <= i && 1 <= i' && 1 <= j <= w && 1 <= j' <= w && (i, j) != (i', j')
    ensures Cell(i, j, w) != Cell(i', j', w)
  {
    if i < i' {
      assert (i' - 1) * w >= i * w == (i - 1) * w + w;
    } else if i' < i {
      assert (i - 1) * w >= i' * w == (i' - 1) * w + w;
    }
  }

  // The cell of row i and column j.
  function At(flat: seq<nat>, w: nat, i: nat, j: nat): nat
    requires 1 <= i && 1 <= j
  {
    if Cell(i, j, w) < |flat| then flat[Cell(i, j, w)] else 0
  }

  lemma WroteOne(flat: seq<nat>, w: nat, h: nat, i: nat, j: nat, x: nat)
    requires |flat| == h * w && 1 <= i <= h && 1 <= j <= w
    ensures Cell(i, j, w) < |flat|
    ensures forall i': nat, j': nat :: 1 <= i' <= h && 1 <= j' <= w ==>
              At(flat[Cell(i, j, w) := x], w, i', j') == if (i', j') == (i, j) then x else At(flat, w, i', j')
  {
    CellInside(i, j, w, h);
    hide Cell;
    forall i': nat, j': nat | 1 <= i' <= h && 1 <= j' <= w
      ensures At(flat[Cell(i, j, w) := x], w, i', j') == if (i', j') == (i, j) then x else At(flat, w, i', j')
    {
      if (i', j') != (i, j) { CellDistinct(i', j', i, j, w); }
    }
  }

  // Columns lo to hi of row i, each from `row`; every other cell is kept.
  method FillRow(flat: array<nat>, w: nat, h: nat, i: nat, lo: nat, hi: nat, row: map<nat, nat>)
    requires flat.Length == h * w && 1 <= i <= h && 1 <= lo <= hi + 1 && hi <= w
    modifies flat
    ensures forall i': nat, j': nat :: 1 <= i' <= h && 1 <= j' <= w ==>
              At(flat[..], w, i', j') == if i' == i && lo <= j' <= hi then Get(row, j') else At(old(flat[..]), w, i', j')
  {
    hide Cell, At;
    var j := lo;
    while j <= hi
      invariant lo <= j <= hi + 1
      invariant forall i': nat, j': nat :: 1 <= i' <= h && 1 <= j' <= w ==>
                  At(flat[..], w, i', j') == if i' == i && lo <= j' < j then Get(row, j') else At(old(flat[..]), w, i', j')
    {
      ghost var before := flat[..];
      WroteOne(before, w, h, i, j, Get(row, j));
      flat[Cell(i, j, w)] := Get(row, j);
      ghost var after := flat[..];
      assert after == before[Cell(i, j, w) := Get(row, j)];
      forall i': nat, j': nat | 1 <= i' <= h && 1 <= j' <= w
        ensures At(flat[..], w, i', j') == if i' == i && lo <= j' < j + 1 then Get(row, j') else At(old(flat[..]), w, i', j')
      {
        assert At(after, w, i', j') == if (i', j') == (i, j) then Get(row, j) else At(before, w, i', j');
      }
      j := j + 1;
    }
  }

  // Row i of an old, narrower table copied into a new one.
  method CopyRow(flat: array<nat>, w: nat, h: nat, i: nat, prev: array<nat>, w': nat, h': nat)
    requires flat != prev && flat.Length == h * w && prev.Length == h' * w' && 1 <= i <= h' <= h && w' <= w
    modifies flat
    ensures forall i': nat, j': nat :: 1 <= i' <= h && 1 <= j' <= w ==>
              At(flat[..], w, i', j') == if i' == i && j' <= w' then At(prev[..], w', i, j') else At(old(flat[..]), w, i', j')
  {
    hide Cell;
    var j := 1;
    while j <= w'
      invariant 1 <= j <= w' + 1
      invariant forall i': nat, j': nat :: 1 <= i' <= h && 1 <= j' <= w ==>
                  At(flat[..], w, i', j') == if i' == i && j' < j then At(prev[..], w', i, j') else At(old(flat[..]), w, i', j')
    {
      ghost var before := flat[..];
      CellInside(i, j, w', h');
      ghost var x: nat := At(prev[..], w', i, j);
      WroteOne(before, w, h, i, j, x);
      flat[Cell(i, j, w)] := prev[Cell(i, j, w')];
      ghost var after := flat[..];
      assert after == before[Cell(i, j, w) := x];
      forall i': nat, j': nat | 1 <= i' <= h && 1 <= j' <= w
        ensures At(flat[..], w, i', j') == if i' == i && j' < j + 1 then At(prev[..], w', i, j') else At(old(flat[..]), w, i', j')
      {
        assert At(after, w, i', j') == if (i', j') == (i, j) then x else At(before, w, i', j');
      }
      j := j + 1;
    }
  }

  predicate Within(m: map<nat, nat>, n: map<nat, nat>) { forall j :: j in m ==> j in n && m[j] == n[j] }

  // The map without the sources 1 to sgid.
  method DelRow(m: map<nat, nat>, sgid: nat) returns (m': map<nat, nat>)
    ensures Within(m', m) && forall j: nat :: Get(m', j) == if 1 <= j <= sgid then 0 else Get(m, j)
  {
    m' := m;
    var j := 1;
    while j <= sgid
      invariant 1 <= j <= sgid + 1 && Within(m', m)
      invariant forall k: nat :: Get(m', k) == if 1 <= k < j then 0 else Get(m, k)
    {
      ghost var before := m';
      m' := m' - {j};
      assert forall k: nat :: Get(m', k) == if k == j then 0 else Get(before, k);
      j := j + 1;
    }
  }

  method DelRows(maps: seq<map<nat, nat>>, mid: nat, sgid: nat) returns (maps': seq<map<nat, nat>>)
    requires mid < |maps|
    ensures |maps'| == |maps| && forall i :: 0 <= i < |maps| ==> Within(maps'[i], maps[i])
    ensures forall i: nat, j: nat :: i < |maps| ==> Get(maps'[i], j) == if 1 <= i <= mid && 1 <= j <= sgid then 0 else Get(maps[i], j)
  {
    hide Get;
    maps' := maps;
    var i := 1;
    while i <= mid
      invariant 1 <= i <= mid + 1 && |maps'| == |maps| && forall k :: 0 <= k < |maps| ==> Within(maps'[k], maps[k])
      invariant forall k: nat, j: nat :: k < |maps| ==> Get(maps'[k], j) == if 1 <= k < i && 1 <= j <= sgid then 0 else Get(maps[k], j)
    {
      var row := DelRow(maps'[i], sgid);
      maps' := maps'[i := row];
      i := i + 1;
    }
  }

  // A table of rows 1 to mid and columns 1 to sgid, all from the maps.
  method FlatFromMaps(maps: seq<map<nat, nat>>, mid: nat, sgid: nat) returns (flat: array<nat>)
    requires mid < |maps|
    ensures fresh(flat) && flat.Length == mid * sgid
    ensures forall i: nat, j: nat :: 1 <= i <= mid && 1 <= j <= sgid ==> At(flat[..], sgid, i, j) == Get(maps[i], j)
  {
    hide At, Get;
    flat := new nat[mid * sgid];
    var i := 1;
    while i <= mid
      invariant 1 <= i <= mid + 1
      invariant forall k: nat, j: nat :: 1 <= k < i && 1 <= j <= sgid ==> At(flat[..], sgid, k, j) == Get(maps[k], j)
    {
      FillRow(flat, sgid, mid, i, 1, sgid, maps[i]);
      i := i + 1;
    }
  }

  // A larger table: the cells of the old one, the rest from the maps.
  method FlatGrown(prev: array<nat>, mid': nat, sgid': nat, maps: seq<map<nat, nat>>, mid: nat, sgid: nat) returns (flat: array<nat>)
    requires prev.Length == mid' * sgid' && mid' <= mid < |maps| && sgid' <= sgid
    ensures fresh(flat) && flat.Length == mid * sgid
    ensures forall i: nat, j: nat :: 1 <= i <= mid && 1 <= j <= sgid ==>
              At(flat[..], sgid, i, j) == if i <= mid' && j <= sgid' then At(prev[..], sgid', i, j) else Get(maps[i], j)
  {
    hide At, Get;
    flat := new nat[mid * sgid];
    var i := 1;
    while i <= mid'
      invariant 1 <= i <= mid' + 1
      invariant forall k: nat, j: nat :: 1 <= k < i && 1 <= j <= sgid' ==> At(flat[..], sgid, k, j) == At(prev[..], sgid', k, j)
    {
      CopyRow(flat, sgid, mid, i, prev, sgid', mid');
      i := i + 1;
    }
    if sgid > sgid' {
      i := 1;
      while i <= mid'
        invariant 1 <= i <= mid' + 1
        invariant forall k: nat, j: nat :: 1 <= k <= mid' && 1 <= j <= sgid' ==> At(flat[..], sgid, k, j) == At(prev[..], sgid', k, j)
        invariant forall k: nat, j: nat :: 1 <= k < i && sgid' < j <= sgid ==> At(flat[..], sgid, k, j) == Get(maps[k], j)
      {
        FillRow(flat, sgid, mid, i, sgid' + 1, sgid, maps[i]);
        i := i + 1;
      }
    }
    i := mid' + 1;
    while i <= mid
      invariant mid' < i <= mid + 1
      invariant forall k: nat, j: nat :: 1 <= k < i && 1 <= j <= sgid ==>
                  At(flat[..], sgid, k, j) == if k <= mid' && j <= sgid' then At(prev[..], sgid', k, j) else Get(maps[k], j)
    {
      FillRow(flat, sgid, mid, i, 1, sgid, maps[i]);
      i := i + 1;
    }
  }

  class ForwardIndex {
    var maps: seq<map<nat, nat>>
    var flat: array?<nat>
    var mid: nat
    var sgid: nat

    ghost predicate Valid()
      reads this
    {
      flat != null ==> flat.Length == mid * sgid
    }

    predicate InFlat(s: nat, m: nat)
      reads this
    {
      flat != null && m <= mid && s <= sgid
    }

    // What a reader finds for ids counted from 1.
    function Read(s: nat, m: nat): nat
      requires Valid() && 1 <= s && 1 <= m
      reads this, flat
    {
      if InFlat(s, m) then CellInside(m, s, sgid, mid); flat[Cell(m, s, sgid)]
      else if m >= |maps| then 0
      else Get(maps[m], s)
    }

    constructor ()
      ensures Valid() && NoNull() && maps == [] && flat == null
    {
      maps, flat, mid, sgid := [], null, 0, 0;
    }

    // No map holds a null series.
    ghost predicate NoNull()
      reads this
    {
      forall i, j :: 0 <= i < |maps| && j in maps[i] ==> maps[i][j] != 0
    }

    // An entry that the maps have is kept: a reader finds the new one when it lies outside the flat
    // table and there was none before, and only then. No other entry changes for a reader.
    method Set(s: nat, m: nat, ms: nat)
      requires Valid() && 1 <= s && 1 <= m
      modifies this`maps
      ensures Valid()
      ensures InFlat(s, m) ==> Read(s, m) == old(Read(s, m))
      ensures !InFlat(s, m) ==> Read(s, m) == if old(m < |maps| && s in maps[m]) then old(Read(s, m)) else ms
      ensures !InFlat(s, m) && old(NoNull()) ==> Read(s, m) == if old(Read(s, m)) == 0 then ms else old(Read(s, m))
      ensures old(NoNull()) && ms != 0 ==> NoNull()
      ensures forall s': nat, m': nat :: 1 <= s' && 1 <= m' && (s', m') != (s, m) ==> Read(s', m') == old(Read(s', m'))
    {
      while |maps| <= m
        invariant |maps| >= old(|maps|) && maps[..old(|maps|)] == old(maps)
        invariant forall i :: old(|maps|) <= i < |maps| ==> maps[i] == map[]
        decreases m + 1 - |maps|
      {
        maps := maps + [map[]];
      }
      assert forall i :: 0 <= i < old(|maps|) ==> maps[i] == maps[..old(|maps|)][i];
      if s !in maps[m] {
        var row: map<nat, nat> := maps[m][s := ms];
        maps := maps[m := row];
      }
    }

    // Moves the ids up to m and s out of the maps and into the flat table, the first time or growing
    // it. No reader sees a difference, whatever the ids.
    method Migrate(s: nat, m: nat) returns (ok: bool)
      requires Valid()
      modifies this
      ensures Valid()
      ensures ok <==> old(InFlat(s, m)) || (m < old(|maps|) && (old(flat) == null || (m >= old(mid) && s >= old(sgid))))
      ensures ok ==> InFlat(s, m)
      ensures !ok || old(InFlat(s, m)) ==> unchanged(this)
      ensures ok && !old(InFlat(s, m)) ==>
                && mid == m && sgid == s && |maps| == old(|maps|)
                && forall i: nat, j: nat :: i < |maps| ==> Get(maps[i], j) == if 1 <= i <= m && 1 <= j <= s then 0 else Get(old(maps)[i], j)
      ensures old(NoNull()) ==> NoNull()
      ensures forall s': nat, m': nat :: 1 <= s' && 1 <= m' ==> Read(s', m') == old(Read(s', m'))
    {
      if flat != null && m <= mid && s <= sgid {
        return true;
      }
      if m >= |maps| {
        return false;
      }
      if flat != null && (m < mid || s < sgid) {
        return false;
      }
      var table: array<nat>;
      if flat == null {
        table := FlatFromMaps(maps, m, s);
      } else {
        table := FlatGrown(flat, mid, sgid, maps, m, s);
      }
      maps := DelRows(maps, m, s);
      flat, mid, sgid := table, m, s;
      hide Get;
      forall s': nat, m': nat | 1 <= s' && 1 <= m' ensures Read(s', m') == old(Read(s', m')) {
        if m' <= m && s' <= s {
          CellInside(m', s', s, m);
          assert Read(s', m') == At(table[..], s, m', s');
          if old(flat) != null && m' <= old(mid) && s' <= old(sgid) {
            CellInside(m', s', old(sgid), old(mid));
          }
        }
      }
      return true;
    }
  }
}
