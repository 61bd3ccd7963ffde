/**
  The striped series table: series by label hash and by id, each stripe behind a spin lock kept in
  one word. Any number of calls run at once; every atomic operation on a lock word and every access
  made under a lock is one step.
*/
module StripeSeries {
  import opened Words

  type Labels = seq<(string, string)>

  datatype Series = Series(ref: nat, labels: Labels)

  datatype Call = GetOrSet(hash: nat, s: Series) | GetByHash(hash: nat, labels: Labels) | GetById(ref: nat)

  datatype PC =
    | ToLock(phase: nat)                // about to read the lock word
    | Try(phase: nat, seen: int)        // about to swap it
    | In(phase: nat)                    // holds the lock
    | Missed                            // holds the lock, found no such series
    | Leave(phase: nat)                 // about to release the lock
    | Finished

  datatype Thread = Thread(call: Call, pc: PC, result: Option<Series>, created: bool)

  // A lock word is -1 for a writer, else the number of readers.
  datatype Table = Table(locks: seq<int>, hashes: map<nat, seq<Series>>, byId: map<nat, Series>, threads: seq<Thread>)

  // The hash map ////////////////////////////////////////////////////////////////////////////////

  function FindLabels(list: seq<Series>, labels: Labels): (i: nat)
    ensures i <= |list| && (i < |list| ==> list[i].labels == labels)
    ensures forall j :: 0 <= j < i ==> list[j].labels != labels
  {
    if list == [] || list[0].labels == labels then 0 else 1 + FindLabels(list[1..], labels)
  }

  function Lookup(hashes: map<nat, seq<Series>>, hash: nat, labels: Labels): Option<Series>
  {
    if hash !in hashes then None
    else
      var i := FindLabels(hashes[hash], labels);
      if i < |hashes[hash]| then Some(hashes[hash][i]) else None
  }

  function Put(hashes: map<nat, seq<Series>>, hash: nat, s: Series): map<nat, seq<Series>>
  {
    if hash !in hashes then hashes[hash := [s]]
    else
      var i := FindLabels(hashes[hash], s.labels);
      if i < |hashes[hash]| then hashes[hash := hashes[hash][i := s]] else hashes[hash := hashes[hash] + [s]]
  }

  lemma FindLabelsIs(list: seq<Series>, labels: Labels, i: nat)
    requires i <= |list| && (i < |list| ==> list[i].labels == labels)
    requires forall j :: 0 <= j < i ==> list[j].labels != labels
    ensures FindLabels(list, labels) == i
  {
  }

  // After a put the series is found under its hash and labels, and nothing else has changed.
  lemma PutThenLookup(hashes: map<nat, seq<Series>>, hash: nat, s: Series, h: nat, l: Labels)
    ensures Lookup(Put(hashes, hash, s), h, l) == if (h, l) == (hash, s.labels) then Some(s) else Lookup(hashes, h, l)
  {
    if h == hash && h in hashes {
      var list, i := hashes[h], FindLabels(hashes[h], s.labels);
      var list' := if i < |list| then list[i := s] else list + [s];
      if l == s.labels {
        FindLabelsIs(list', l, i);
      } else {
        var j := FindLabels(list, l);
        FindLabelsIs(list', l, if j < |list| then j else |list'|);
      }
    }
  }

  // Steps /////////////////////////////////////////////////////////////////////////////////////////

  predicate Writes(c: Call) { c.GetOrSet? }

  // The stripe a call locks in each phase.
  function Stripe(c: Call, phase: nat, stripes: nat): nat
    requires stripes > 0
  {
    match c
    case GetOrSet(hash, s) => if phase == 1 then hash % stripes else s.ref % stripes
    case GetByHash(hash, _) => hash % stripes
    case GetById(ref) => ref % stripes
  }

  function Phase(t: Thread): nat
  {
    match t.pc
    case ToLock(k) => k
    case Try(k, _) => k
    case In(k) => k
    case Missed => 1
    case Leave(k) => k
    case Finished => 0
  }

  predicate Holds(t: Thread) { t.pc.In? || t.pc.Missed? || t.pc.Leave? }

  predicate HoldsAt(t: Thread, pos: nat, stripes: nat)
    requires stripes > 0
  {
    Holds(t) && Stripe(t.call, Phase(t), stripes) == pos
  }

  datatype Action = Begin(call: Call) | Load(i: nat) | Swap(i: nat) | Fail(i: nat) | Access(i: nat) | Insert(i: nat) | Release(i: nat)

  predicate Enabled(t: Table, a: Action)
  {
    match a
    case Begin(_) => true
    case Load(i) => i < |t.threads| && t.threads[i].pc.ToLock?
    case Swap(i) => i < |t.threads| && t.threads[i].pc.Try?
    case Fail(i) => i < |t.threads| && t.threads[i].pc.Try?
    case Access(i) => i < |t.threads| && t.threads[i].pc.In?
    case Insert(i) => i < |t.threads| && t.threads[i].pc.Missed?
    case Release(i) => i < |t.threads| && t.threads[i].pc.Leave?
  }

  // The word a swap leaves: a reader adds one, a writer claims it.
  function Locked(c: Call, seen: int): int { if Writes(c) then -1 else seen + 1 }

  predicate MayTry(c: Call, seen: int) { if Writes(c) then seen == 0 else seen != -1 }

  function Moved(t: Table, i: nat, th: Thread): Table
    requires i < |t.threads|
  {
    t.(threads := t.threads[i := th])
  }

  function Next(t: Table, a: Action): Table
    requires |t.locks| > 0 && Enabled(t, a)
  {
    match a
    case Begin(c) => t.(threads := t.threads + [Thread(c, ToLock(1), None, false)])
    case Load(i) =>
      var th := t.threads[i];
      var x := t.locks[Stripe(th.call, Phase(th), |t.locks|)];
      if MayTry(th.call, x) then Moved(t, i, th.(pc := Try(Phase(th), x))) else t
    case Swap(i) =>
      var th := t.threads[i];
      var pos := Stripe(th.call, Phase(th), |t.locks|);
      if t.locks[pos] == th.pc.seen
      then Moved(t, i, th.(pc := In(Phase(th)))).(locks := t.locks[pos := Locked(th.call, th.pc.seen)])
      else Moved(t, i, th.(pc := ToLock(Phase(th))))
    case Fail(i) => Moved(t, i, t.threads[i].(pc := ToLock(Phase(t.threads[i]))))
    case Access(i) => Accessed(t, i)
    case Insert(i) =>
      var th := t.threads[i];
      if th.call.GetOrSet?
      then Moved(t, i, th.(pc := Leave(1), result := Some(th.call.s), created := true)).(hashes := Put(t.hashes, th.call.hash, th.call.s))
      else t
    case Release(i) =>
      var th := t.threads[i];
      var pos := Stripe(th.call, Phase(th), |t.locks|);
      Moved(t, i, th.(pc := if Phase(th) == 1 && th.created then ToLock(2) else Finished))
        .(locks := t.locks[pos := if Writes(th.call) then t.locks[pos] + 1 else t.locks[pos] - 1])
  }

  // The access made under the lock.
  function Accessed(t: Table, i: nat): Table
    requires i < |t.threads| && t.threads[i].pc.In?
  {
    var th := t.threads[i];
    match th.call
    case GetByHash(hash, labels) => Moved(t, i, th.(pc := Leave(1), result := Lookup(t.hashes, hash, labels)))
    case GetById(ref) => Moved(t, i, th.(pc := Leave(1), result := if ref in t.byId then Some(t.byId[ref]) else None))
    case GetOrSet(hash, s) =>
      if Phase(th) != 1 then Moved(t, i, th.(pc := Leave(2))).(byId := t.byId[s.ref := s])
      else
        var r := Lookup(t.hashes, hash, s.labels);
        if r.Some? then Moved(t, i, th.(pc := Leave(1), result := r)) else Moved(t, i, th.(pc := Missed))
  }

  // The invariant /////////////////////////////////////////////////////////////////////////////////

  // What the fields of a thread say at each point of its call.
  predicate ThreadOk(th: Thread)
  {
    && (th.pc.Finished? || Phase(th) == 1 || (Phase(th) == 2 && th.created))
    && (th.pc.Try? ==> MayTry(th.call, th.pc.seen))
    && (th.pc.Missed? ==> th.call.GetOrSet? && !th.created)
    && (th.created ==> th.call.GetOrSet? && th.result == Some(th.call.s))
    && (th.call.GetOrSet? && (th.pc.Leave? || th.pc.Finished? || Phase(th) == 2) ==> th.result.Some?)
    && ((th.pc.ToLock? || th.pc.Try? || th.pc.In?) && Phase(th) == 1 ==> !th.created && th.result == None)
    && (th.pc.Missed? ==> th.result == None)
  }

  function Holders(t: Table, pos: nat, writers: bool): set<nat>
    requires |t.locks| > 0
  {
    set i | 0 <= i < |t.threads| && HoldsAt(t.threads[i], pos, |t.locks|) && Writes(t.threads[i].call) == writers
  }

  // -1: one writer and no reader. n: n readers and no writer.
  predicate LockMeans(t: Table, pos: nat)
    requires pos < |t.locks|
  {
    if t.locks[pos] == -1 then |Holders(t, pos, true)| == 1 && Holders(t, pos, false) == {}
    else t.locks[pos] == |Holders(t, pos, false)| && Holders(t, pos, true) == {}
  }

  ghost predicate LocksOk(t: Table)
  {
    && |t.locks| > 0
    && (forall i :: 0 <= i < |t.threads| ==> ThreadOk(t.threads[i]))
    && (forall pos :: 0 <= pos < |t.locks| ==> LockMeans(t, pos))
  }

  // A step of thread i alone.
  predicate Moves(t: Table, u: Table, i: nat)
  {
    && i < |t.threads| == |u.threads| && |u.locks| == |t.locks| > 0
    && u.threads[i].call == t.threads[i].call
    && (forall j :: 0 <= j < |t.threads| && j != i ==> u.threads[j] == t.threads[j])
  }

  lemma HoldersAfter(t: Table, u: Table, i: nat, pos: nat, writers: bool)
    requires Moves(t, u, i)
    ensures Holders(u, pos, writers)
            == if HoldsAt(u.threads[i], pos, |t.locks|) && Writes(u.threads[i].call) == writers then Holders(t, pos, writers) + {i}
               else Holders(t, pos, writers) - {i}
    ensures i in Holders(t, pos, writers) <==> HoldsAt(t.threads[i], pos, |t.locks|) && Writes(t.threads[i].call) == writers
  {
    hide HoldsAt;
  }

  lemma KeptMeans(t: Table, u: Table, i: nat, pos: nat)
    requires Moves(t, u, i) && pos < |t.locks| && LockMeans(t, pos) && u.locks[pos] == t.locks[pos]
    requires HoldsAt(u.threads[i], pos, |t.locks|) == HoldsAt(t.threads[i], pos, |t.locks|)
    ensures LockMeans(u, pos)
  {
    HoldersAfter(t, u, i, pos, true);
    HoldersAfter(t, u, i, pos, false);
    hide Holders, HoldsAt, Moves;
    assert Holders(u, pos, true) == Holders(t, pos, true) && Holders(u, pos, false) == Holders(t, pos, false);
  }

  lemma AcquiredMeans(t: Table, u: Table, i: nat, pos: nat)
    requires Moves(t, u, i) && pos < |t.locks| && LockMeans(t, pos) && MayTry(t.threads[i].call, t.locks[pos])
    requires !HoldsAt(t.threads[i], pos, |t.locks|) && HoldsAt(u.threads[i], pos, |t.locks|)
    requires u.locks[pos] == Locked(t.threads[i].call, t.locks[pos])
    ensures LockMeans(u, pos)
  {
    HoldersAfter(t, u, i, pos, true);
    HoldersAfter(t, u, i, pos, false);
    hide Holders, HoldsAt;
    assert |Holders(t, pos, false) + {i}| == |Holders(t, pos, false)| + 1;
    assert Holders(t, pos, true) == {} ==> |Holders(t, pos, true) + {i}| == 1 by { assert |{i}| == 1; }
  }

  lemma ReleasedMeans(t: Table, u: Table, i: nat, pos: nat)
    requires Moves(t, u, i) && pos < |t.locks| && LockMeans(t, pos)
    requires HoldsAt(t.threads[i], pos, |t.locks|) && !HoldsAt(u.threads[i], pos, |t.locks|)
    requires u.locks[pos] == if Writes(t.threads[i].call) then t.locks[pos] + 1 else t.locks[pos] - 1
    ensures LockMeans(u, pos)
  {
    HoldersAfter(t, u, i, pos, true);
    HoldersAfter(t, u, i, pos, false);
    hide Holders, HoldsAt;
    if Writes(t.threads[i].call) { OneWriter(Holders(t, pos, true), i); }
  }

  lemma OneWriter(s: set<nat>, i: nat)
    requires |s| <= 1 && i in s
    ensures s - {i} == {}
  {
    assert |s - {i}| == |s| - 1;
  }

  // Every step keeps the meaning of every lock word.
  lemma NextLocks(t: Table, a: Action)
    requires LocksOk(t) && Enabled(t, a)
    ensures LocksOk(Next(t, a))
  {
    var u := Next(t, a);
    if a.Begin? {
      BeginLocks(t, a.call);
    } else {
      var i := a.i;
      var th := t.threads[i];
      assert ThreadOk(th);
      forall pos | 0 <= pos < |u.locks| ensures LockMeans(u, pos) { StepMeans(t, a, pos); }
      StepThread(t, a);
      hide Next, LockMeans;
      forall j | 0 <= j < |u.threads| ensures ThreadOk(u.threads[j]) { assert j != i ==> u.threads[j] == t.threads[j]; }
    }
  }

  lemma BeginLocks(t: Table, c: Call)
    requires LocksOk(t)
    ensures LocksOk(Next(t, Begin(c)))
  {
    var u := Next(t, Begin(c));
    forall pos | 0 <= pos < |u.locks| ensures LockMeans(u, pos) {
      assert LockMeans(t, pos);
      assert Holders(u, pos, true) == Holders(t, pos, true) && Holders(u, pos, false) == Holders(t, pos, false);
    }
  }

  lemma StepThread(t: Table, a: Action)
    requires |t.locks| > 0 && Enabled(t, a) && !a.Begin? && ThreadOk(t.threads[a.i])
    ensures Moves(t, Next(t, a), a.i) && ThreadOk(Next(t, a).threads[a.i])
  {
  }

  lemma StepMeans(t: Table, a: Action, pos: nat)
    requires |t.locks| > 0 && Enabled(t, a) && !a.Begin? && ThreadOk(t.threads[a.i]) && pos < |t.locks| && LockMeans(t, pos)
    ensures pos < |Next(t, a).locks| && LockMeans(Next(t, a), pos)
  {
    var u, i := Next(t, a), a.i;
    var th := t.threads[i];
    StepThread(t, a);
    hide LockMeans, Moves, ThreadOk;
    if pos == Stripe(th.call, Phase(th), |t.locks|) && a.Swap? && t.locks[pos] == th.pc.seen {
      assert MayTry(th.call, th.pc.seen) by { TryOk(th); }
      AcquiredMeans(t, u, i, pos);
    } else if pos == Stripe(th.call, Phase(th), |t.locks|) && a.Release? {
      ReleasedMeans(t, u, i, pos);
    } else {
      StepHolds(t, a, pos);
      KeptMeans(t, u, i, pos);
    }
  }

  lemma TryOk(th: Thread)
    requires ThreadOk(th) && th.pc.Try?
    ensures MayTry(th.call, th.pc.seen)
  {
  }

  lemma StepHolds(t: Table, a: Action, pos: nat)
    requires |t.locks| > 0 && Enabled(t, a) && !a.Begin? && ThreadOk(t.threads[a.i]) && pos < |t.locks|
    requires var th := t.threads[a.i];
             pos == Stripe(th.call, Phase(th), |t.locks|) ==> !a.Release? && !(a.Swap? && t.locks[pos] == th.pc.seen)
    ensures var u := Next(t, a);
            && a.i < |u.threads| && |u.locks| == |t.locks| && u.locks[pos] == t.locks[pos]
            && HoldsAt(u.threads[a.i], pos, |t.locks|) == HoldsAt(t.threads[a.i], pos, |t.locks|)
  {
  }

  // What the table holds //////////////////////////////////////////////////////////////////////////

  function Found(t: Table, c: Call): Option<Series>
    requires c.GetOrSet?
  {
    Lookup(t.hashes, c.hash, c.s.labels)
  }

  // A call that missed still misses; one that has a result has the series in the table.
  predicate SeenOk(t: Table, th: Thread)
  {
    && (th.call.GetOrSet? ==>
          && (th.pc.Missed? ==> Found(t, th.call) == None)
          && (th.result.Some? ==> Found(t, th.call) == th.result))
    && (th.call.GetByHash? && th.result.Some? ==> Lookup(t.hashes, th.call.hash, th.call.labels) == th.result)
  }

  predicate SameKey(c: Call, d: Call)
  {
    c.GetOrSet? && d.GetOrSet? && c.hash == d.hash && c.s.labels == d.s.labels
  }

  predicate CreatorOf(th: Thread, hash: nat, labels: Labels)
  {
    th.created && th.call.GetOrSet? && th.call.hash == hash && th.call.s.labels == labels
  }

  ghost predicate DataOk(t: Table)
  {
    && (forall i :: 0 <= i < |t.threads| ==> SeenOk(t, t.threads[i]))
    && (forall i, j :: 0 <= i < j < |t.threads| && t.threads[i].created && t.threads[j].created ==> !SameKey(t.threads[i].call, t.threads[j].call))
    && (forall h: nat, l :: Lookup(t.hashes, h, l).Some? ==> HasCreator(t, h, l))
    && (forall ref :: ref in t.byId ==> InHashes(t, t.byId[ref]))
  }

  ghost predicate HasCreator(t: Table, hash: nat, labels: Labels)
  {
    exists i :: 0 <= i < |t.threads| && CreatorOf(t.threads[i], hash, labels)
  }

  // The series is in the hash map, under some hash.
  ghost predicate InHashes(t: Table, s: Series)
  {
    exists h: nat :: Lookup(t.hashes, h, s.labels) == Some(s)
  }

  ghost predicate Inv(t: Table) { LocksOk(t) && DataOk(t) }

  // Two calls cannot both stand in the write section of one stripe.
  lemma WriterAlone(t: Table, i: nat, j: nat)
    requires LocksOk(t) && i < |t.threads| && j < |t.threads| && i != j
    requires Writes(t.threads[i].call) && Holds(t.threads[i]) && Holds(t.threads[j])
    ensures !SameStripe(t.threads[i], t.threads[j], |t.locks|)
  {
    var pos := Stripe(t.threads[i].call, Phase(t.threads[i]), |t.locks|);
    assert LockMeans(t, pos);
    assert i in Holders(t, pos, true);
    OneWriter(Holders(t, pos, true), i);
    assert j !in Holders(t, pos, true) - {i};
    var others := Holders(t, pos, Writes(t.threads[j].call));
    assert SameStripe(t.threads[i], t.threads[j], |t.locks|) ==> j in others;
  }

  predicate SameStripe(th: Thread, th': Thread, stripes: nat)
    requires stripes > 0
  {
    Stripe(th.call, Phase(th), stripes) == Stripe(th'.call, Phase(th'), stripes)
  }

  // A step that leaves the hash map alone.
  lemma QuietData(t: Table, u: Table, i: nat)
    requires DataOk(t) && Moves(t, u, i) && u.hashes == t.hashes && u.threads[i].created == t.threads[i].created
    requires SeenOk(u, u.threads[i]) && (forall ref :: ref in u.byId ==> InHashes(t, u.byId[ref]))
    ensures DataOk(u)
  {
    hide Lookup;
    forall j | 0 <= j < |u.threads| ensures SeenOk(u, u.threads[j]) { assert j != i ==> SeenOk(t, t.threads[j]); }
    forall h: nat, l | Lookup(u.hashes, h, l).Some? ensures HasCreator(u, h, l) {
      assert HasCreator(t, h, l);
      var k :| 0 <= k < |t.threads| && CreatorOf(t.threads[k], h, l);
      assert CreatorOf(u.threads[k], h, l);
    }
    forall ref | ref in u.byId ensures InHashes(u, u.byId[ref]) {
      assert InHashes(t, u.byId[ref]);
    }
  }

  lemma InsertData(t: Table, i: nat)
    requires Inv(t) && Enabled(t, Insert(i))
    ensures DataOk(Next(t, Insert(i)))
  {
    var u, th := Next(t, Insert(i)), t.threads[i];
    assert ThreadOk(th) && SeenOk(t, th);
    var h, sr := th.call.hash, th.call.s;
    forall h': nat, l ensures Lookup(u.hashes, h', l) == if (h', l) == (h, sr.labels) then Some(sr) else Lookup(t.hashes, h', l) {
      PutThenLookup(t.hashes, h, sr, h', l);
    }
    hide Lookup, Put;
    assert Lookup(t.hashes, h, sr.labels) == None;
    forall j | 0 <= j < |u.threads| ensures SeenOk(u, u.threads[j]) {
      assert SeenOk(t, t.threads[j]);
      if j != i { MissedElsewhere(t, i, j); }
    }
    forall j, k | 0 <= j < k < |u.threads| && u.threads[j].created && u.threads[k].created ensures !SameKey(u.threads[j].call, u.threads[k].call) {
      CreatedElsewhere(t, i, if j == i then k else j);
    }
    forall h': nat, l | Lookup(u.hashes, h', l).Some? ensures HasCreator(u, h', l) {
      if (h', l) == (h, sr.labels) {
        assert CreatorOf(u.threads[i], h', l);
      } else {
        assert HasCreator(t, h', l);
        var k :| 0 <= k < |t.threads| && CreatorOf(t.threads[k], h', l);
        assert k != i ==> CreatorOf(u.threads[k], h', l);
      }
    }
    forall ref | ref in u.byId ensures InHashes(u, u.byId[ref]) {
      assert InHashes(t, t.byId[ref]);
      var h': nat :| Lookup(t.hashes, h', t.byId[ref].labels) == Some(t.byId[ref]);
      assert Lookup(u.hashes, h', u.byId[ref].labels) == Some(u.byId[ref]);
    }
  }

  // No other call stands at a miss for the same key, because both would hold the stripe.
  lemma MissedElsewhere(t: Table, i: nat, j: nat)
    requires Inv(t) && i < |t.threads| && j < |t.threads| && i != j && t.threads[i].pc.Missed?
    ensures t.threads[j].pc.Missed? ==> !SameKey(t.threads[i].call, t.threads[j].call)
    ensures t.threads[j].result.Some? ==> !SameKey(t.threads[i].call, t.threads[j].call)
  {
    assert ThreadOk(t.threads[i]) && SeenOk(t, t.threads[i]) && SeenOk(t, t.threads[j]);
    hide LockMeans, Lookup;
    if t.threads[j].pc.Missed? { WriterAlone(t, i, j); }
  }

  lemma CreatedElsewhere(t: Table, i: nat, j: nat)
    requires Inv(t) && i < |t.threads| && j < |t.threads| && i != j && t.threads[i].pc.Missed? && t.threads[j].created
    ensures !SameKey(t.threads[i].call, t.threads[j].call)
  {
    assert ThreadOk(t.threads[j]);
    hide LockMeans, Lookup;
    MissedElsewhere(t, i, j);
  }

  lemma BeginData(t: Table, c: Call)
    requires Inv(t)
    ensures DataOk(Next(t, Begin(c)))
  {
    var u := Next(t, Begin(c));
    hide Lookup, LockMeans;
    forall h: nat, l | Lookup(u.hashes, h, l).Some? ensures HasCreator(u, h, l) {
      assert HasCreator(t, h, l);
      var k :| 0 <= k < |t.threads| && CreatorOf(t.threads[k], h, l);
      assert u.threads[k] == t.threads[k];
    }
    forall ref | ref in u.byId ensures InHashes(u, u.byId[ref]) { assert InHashes(t, t.byId[ref]); }
    forall j | 0 <= j < |u.threads| ensures SeenOk(u, u.threads[j]) { assert j < |t.threads| ==> SeenOk(t, t.threads[j]); }
  }

  lemma OtherData(t: Table, a: Action)
    requires Inv(t) && Enabled(t, a) && !a.Begin? && !a.Insert?
    ensures DataOk(Next(t, a))
  {
    var u, i := Next(t, a), a.i;
    assert ThreadOk(t.threads[i]) && SeenOk(t, t.threads[i]);
    StepThread(t, a);
    hide Lookup, LockMeans;
    forall ref | ref in u.byId ensures InHashes(t, u.byId[ref]) {
      if ref in t.byId && t.byId[ref] == u.byId[ref] {
        assert InHashes(t, t.byId[ref]);
      } else {
        assert Lookup(t.hashes, t.threads[i].call.hash, u.byId[ref].labels) == Some(u.byId[ref]);
      }
    }
    QuietData(t, u, i);
  }

  lemma NextKeeps(t: Table, a: Action)
    requires Inv(t) && Enabled(t, a)
    ensures Inv(Next(t, a))
  {
    NextLocks(t, a);
    hide LocksOk, DataOk, Next;
    if a.Begin? {
      BeginData(t, a.call);
    } else if a.Insert? {
      InsertData(t, a.i);
    } else {
      OtherData(t, a);
    }
  }

  // The part of the tables that a call inside its lock works on: one of the hash maps, or one of the
  // id maps.
  function Shard(th: Thread, stripes: nat): (bool, nat)
    requires stripes > 0
  {
    match th.call
    case GetOrSet(hash, s) => if Phase(th) == 2 then (true, s.ref % stripes) else (false, hash % stripes)
    case GetByHash(hash, _) => (false, hash % stripes)
    case GetById(ref) => (true, ref % stripes)
  }

  // No call reads or writes a map while another writes it.
  lemma NoRace(t: Table, i: nat, j: nat)
    requires Inv(t) && i < |t.threads| && j < |t.threads| && i != j
    requires Holds(t.threads[i]) && Holds(t.threads[j]) && Shard(t.threads[i], |t.locks|) == Shard(t.threads[j], |t.locks|)
    ensures !Writes(t.threads[i].call) && !Writes(t.threads[j].call)
  {
    assert ThreadOk(t.threads[i]) && ThreadOk(t.threads[j]);
    hide LockMeans, DataOk;
    if Writes(t.threads[i].call) { WriterAlone(t, i, j); }
    if Writes(t.threads[j].call) { WriterAlone(t, j, i); }
  }

  // Runs //////////////////////////////////////////////////////////////////////////////////////////

  ghost predicate Legal(t: Table, actions: seq<Action>)
    requires Inv(t)
    decreases |actions|
  {
    actions == [] || (Enabled(t, actions[0]) && (NextKeeps(t, actions[0]); Legal(Next(t, actions[0]), actions[1..])))
  }

  ghost function Exec(t: Table, actions: seq<Action>): (u: Table)
    requires Inv(t) && Legal(t, actions)
    ensures Inv(u)
    decreases |actions|
  {
    if actions == [] then t else NextKeeps(t, actions[0]); Exec(Next(t, actions[0]), actions[1..])
  }

  lemma NobodyOk(t: Table)
    requires t.locks != [] && (forall pos :: 0 <= pos < |t.locks| ==> t.locks[pos] == 0) && t.hashes == map[] && t.byId == map[] && t.threads == []
    ensures Inv(t)
  {
    forall pos | 0 <= pos < |t.locks| ensures LockMeans(t, pos) {
      assert Holders(t, pos, true) == {} && Holders(t, pos, false) == {};
    }
  }

  function Empty(stripes: nat): (t: Table)
    requires stripes > 0
    ensures Inv(t)
  {
    var t := Table(seq(stripes, _ => 0), map[], map[], []);
    NobodyOk(t);
    t
  }

  // In every interleaving a lock word of -1 means exactly one writer and no reader, and n means
  // exactly n readers and no writer.
  lemma LockWordsMean(stripes: nat, actions: seq<Action>, pos: nat)
    requires stripes > 0 && Legal(Empty(stripes), actions)
    requires pos < |Exec(Empty(stripes), actions).locks|
    ensures LockMeans(Exec(Empty(stripes), actions), pos)
  {
  }

  // Call k, and no other, created the series of this key.
  ghost predicate OnlyCreator(t: Table, k: nat, c: Call)
  {
    && k < |t.threads| && t.threads[k].created && SameKey(t.threads[k].call, c)
    && (forall j :: 0 <= j < |t.threads| && t.threads[j].created && SameKey(t.threads[j].call, c) ==> j == k)
  }

  // All calls that get or set the same labels under the same hash return one series; exactly one
  // of the calls created it; and the id table never names a series the hash map does not hold.
  lemma OneSeriesPerLabels(t: Table, i: nat, j: nat)
    requires Inv(t) && i < |t.threads| && j < |t.threads| && SameKey(t.threads[i].call, t.threads[j].call)
    requires t.threads[i].pc.Finished? && t.threads[j].pc.Finished?
    ensures t.threads[i].result.Some? && t.threads[i].result == t.threads[j].result
    ensures exists k: nat :: OnlyCreator(t, k, t.threads[i].call)
    ensures forall ref :: ref in t.byId ==> InHashes(t, t.byId[ref])
  {
    hide LockMeans, Lookup;
    var c := t.threads[i].call;
    assert SeenOk(t, t.threads[i]) && SeenOk(t, t.threads[j]) && ThreadOk(t.threads[i]) && ThreadOk(t.threads[j]);
    assert HasCreator(t, c.hash, c.s.labels);
    var k :| 0 <= k < |t.threads| && CreatorOf(t.threads[k], c.hash, c.s.labels);
    assert SameKey(t.threads[k].call, c);
    assert OnlyCreator(t, k, c);
  }

  lemma OneSeriesInEveryRun(stripes: nat, actions: seq<Action>, i: nat, j: nat)
    requires stripes > 0 && Legal(Empty(stripes), actions)
    requires var t := Exec(Empty(stripes), actions);
             && i < |t.threads| && j < |t.threads| && SameKey(t.threads[i].call, t.threads[j].call)
             && t.threads[i].pc.Finished? && t.threads[j].pc.Finished?
    ensures var t := Exec(Empty(stripes), actions);
            && t.threads[i].result == t.threads[j].result && t.threads[i].result.Some?
            && (exists k: nat :: OnlyCreator(t, k, t.threads[i].call))
            && (forall ref :: ref in t.byId ==> InHashes(t, t.byId[ref]))
  {
    hide LocksOk, DataOk;
    OneSeriesPerLabels(Exec(Empty(stripes), actions), i, j);
  }

  // A lookup by hash that finds a series finds the one that the getting and setting calls return.
  lemma LookupsAgree(stripes: nat, actions: seq<Action>, i: nat, j: nat)
    requires stripes > 0 && Legal(Empty(stripes), actions)
    requires var t := Exec(Empty(stripes), actions);
             && i < |t.threads| && j < |t.threads| && t.threads[i].call.GetOrSet? && t.threads[j].call.GetByHash?
             && t.threads[j].call.hash == t.threads[i].call.hash && t.threads[j].call.labels == t.threads[i].call.s.labels
             && t.threads[i].pc.Finished? && t.threads[j].result.Some?
    ensures var t := Exec(Empty(stripes), actions); t.threads[i].result == t.threads[j].result
  {
    var t := Exec(Empty(stripes), actions);
    hide LockMeans, Lookup;
    assert SeenOk(t, t.threads[i]) && SeenOk(t, t.threads[j]) && ThreadOk(t.threads[i]);
  }

  // Lookups by id /////////////////////////////////////////////////////////////////////////////////

  predicate Makes(th: Thread, s: Series) { th.created && th.call.GetOrSet? && th.call.s == s }

  ghost predicate Made(t: Table, s: Series) { exists i :: 0 <= i < |t.threads| && Makes(t.threads[i], s) }

  // The call has put the series it created into the id table.
  predicate PutById(th: Thread) { th.created && th.call.GetOrSet? && (th.pc.Finished? || (th.pc.Leave? && th.pc.phase == 2)) }

  // The id table has, under its id, a series that some call created, and has one for every call that
  // got that far.
  ghost predicate IdsOk(t: Table)
  {
    && (forall ref :: ref in t.byId ==> t.byId[ref].ref == ref && Made(t, t.byId[ref]))
    && (forall k :: 0 <= k < |t.threads| && PutById(t.threads[k]) ==> t.threads[k].call.s.ref in t.byId)
    && (forall k :: 0 <= k < |t.threads| ==> GivesOwn(t, t.threads[k]))
  }

  // What a lookup by id returns has that id, and some call created it.
  ghost predicate GivesOwn(t: Table, th: Thread)
  {
    th.call.GetById? && th.result.Some? ==> th.result.value.ref == th.call.ref && Made(t, th.result.value)
  }

  // What a step does to a call other than moving it on.
  lemma StepKeeps(t: Table, a: Action, k: nat)
    requires |t.locks| > 0 && Enabled(t, a) && k < |t.threads|
    ensures var u := Next(t, a);
            && k < |u.threads| && u.threads[k].call == t.threads[k].call && (t.threads[k].created ==> u.threads[k].created)
            && (t.threads[k].pc.Finished? ==> u.threads[k] == t.threads[k])
            && (forall ref :: ref in t.byId ==> ref in u.byId)
  {
  }

  lemma MadeStays(t: Table, a: Action, s: Series)
    requires |t.locks| > 0 && Enabled(t, a) && Made(t, s)
    ensures Made(Next(t, a), s)
  {
    var i :| 0 <= i < |t.threads| && Makes(t.threads[i], s);
    StepKeeps(t, a, i);
    assert Makes(Next(t, a).threads[i], s);
  }

  lemma PutsOwn(t: Table, a: Action, k: nat)
    requires LocksOk(t) && Enabled(t, a) && k < |Next(t, a).threads| && PutById(Next(t, a).threads[k])
    requires k < |t.threads| && PutById(t.threads[k]) ==> t.threads[k].call.s.ref in t.byId
    ensures Next(t, a).threads[k].call.s.ref in Next(t, a).byId
  {
    assert k < |t.threads| ==> ThreadOk(t.threads[k]);
    hide LockMeans, Lookup, Put;
  }

  lemma ByIdAfter(t: Table, a: Action, ref: nat)
    requires LocksOk(t) && Enabled(t, a) && ref in Next(t, a).byId
    ensures var u := Next(t, a); (ref in t.byId && u.byId[ref] == t.byId[ref]) || (u.byId[ref].ref == ref && Made(t, u.byId[ref]))
  {
    var u := Next(t, a);
    if a.Access? && t.threads[a.i].call.GetOrSet? {
      assert ThreadOk(t.threads[a.i]);
      assert Phase(t.threads[a.i]) != 1 ==> Makes(t.threads[a.i], t.threads[a.i].call.s);
    }
    hide LockMeans, Lookup, Put;
  }

  lemma NextIds(t: Table, a: Action)
    requires LocksOk(t) && IdsOk(t) && Enabled(t, a)
    ensures IdsOk(Next(t, a))
  {
    hide LocksOk, Next, Enabled, Made;
    assert |t.locks| > 0 by { HasLocks(t); }
    var u := Next(t, a);
    forall ref | ref in u.byId ensures u.byId[ref].ref == ref && Made(u, u.byId[ref]) {
      ByIdAfter(t, a, ref);
      MadeStays(t, a, u.byId[ref]);
    }
    forall k | 0 <= k < |u.threads| && PutById(u.threads[k]) ensures u.threads[k].call.s.ref in u.byId {
      PutsOwn(t, a, k);
    }
    forall k | 0 <= k < |u.threads| ensures GivesOwn(u, u.threads[k]) {
      GivesOwnStays(t, a, k);
    }
  }

  lemma GivesOwnStays(t: Table, a: Action, k: nat)
    requires LocksOk(t) && IdsOk(t) && Enabled(t, a) && k < |Next(t, a).threads|
    ensures GivesOwn(Next(t, a), Next(t, a).threads[k])
  {
    hide LockMeans, Lookup, Put, Made, Makes;
    var u := Next(t, a);
    if k < |t.threads| && u.threads[k].call.GetById? && u.threads[k].result.Some? {
      assert ThreadOk(t.threads[k]) && GivesOwn(t, t.threads[k]);
      MadeStays(t, a, u.threads[k].result.value);
    }
  }

  lemma HasLocks(t: Table)
    requires LocksOk(t)
    ensures |t.locks| > 0
  {
  }

  lemma {:induction false} ExecIds(t: Table, actions: seq<Action>)
    requires Inv(t) && IdsOk(t) && Legal(t, actions)
    ensures IdsOk(Exec(t, actions))
    decreases |actions|
  {
    hide LocksOk, DataOk, Next, Enabled, IdsOk;
    if actions != [] {
      HasLocks(t);
      NextKeeps(t, actions[0]);
      NextIds(t, actions[0]);
      ExecIds(Next(t, actions[0]), actions[1..]);
    }
  }

  // The lookups of this id among the calls from the n-th on have found a series that was created
  // under it.
  ghost predicate FoundSince(t: Table, ref: nat, n: nat)
  {
    forall j :: n <= j < |t.threads| ==> FoundOne(t, t.threads[j], ref)
  }

  ghost predicate FoundOne(t: Table, th: Thread, ref: nat)
  {
    th.call == GetById(ref) && (th.pc.Leave? || th.pc.Finished?) ==> th.result.Some? && th.result.value.ref == ref && Made(t, th.result.value)
  }

  lemma NextFound(t: Table, a: Action, ref: nat, n: nat)
    requires LocksOk(t) && IdsOk(t) && Enabled(t, a) && ref in t.byId && FoundSince(t, ref, n) && n <= |t.threads|
    ensures FoundSince(Next(t, a), ref, n) && ref in Next(t, a).byId && n <= |Next(t, a).threads|
  {
    var u := Next(t, a);
    forall j | n <= j < |u.threads| ensures FoundOne(u, u.threads[j], ref) {
      assert j < |t.threads| ==> ThreadOk(t.threads[j]) && FoundOne(t, t.threads[j], ref);
      FoundStays(t, a, ref, j);
    }
    hide LockMeans, Lookup, Put, Made, FoundOne;
  }

  lemma FoundStays(t: Table, a: Action, ref: nat, j: nat)
    requires |t.locks| > 0 && IdsOk(t) && Enabled(t, a) && ref in t.byId && j < |Next(t, a).threads|
    requires j < |t.threads| ==> ThreadOk(t.threads[j]) && FoundOne(t, t.threads[j], ref)
    ensures FoundOne(Next(t, a), Next(t, a).threads[j], ref)
  {
    var u := Next(t, a);
    hide Lookup, Put, Made, Makes;
    if j < |t.threads| && u.threads[j].call == GetById(ref) && (u.threads[j].pc.Leave? || u.threads[j].pc.Finished?) {
      assert u.threads[j].result == t.threads[j].result || u.threads[j].result == Some(t.byId[ref]);
      MadeStays(t, a, u.threads[j].result.value);
    }
  }

  lemma {:induction false} ExecFound(t: Table, actions: seq<Action>, ref: nat, n: nat)
    requires Inv(t) && IdsOk(t) && Legal(t, actions) && ref in t.byId && FoundSince(t, ref, n) && n <= |t.threads|
    ensures FoundSince(Exec(t, actions), ref, n)
    decreases |actions|
  {
    hide LocksOk, DataOk, Next, Enabled, IdsOk, FoundSince;
    if actions != [] {
      HasLocks(t);
      NextKeeps(t, actions[0]);
      NextIds(t, actions[0]);
      NextFound(t, actions[0], ref, n);
      ExecFound(Next(t, actions[0]), actions[1..], ref, n);
    }
  }

  // A finished call stays as it is.
  lemma {:induction false} FinishedStays(t: Table, actions: seq<Action>, k: nat)
    requires Inv(t) && Legal(t, actions) && k < |t.threads| && t.threads[k].pc.Finished?
    ensures k < |Exec(t, actions).threads| && Exec(t, actions).threads[k] == t.threads[k]
    decreases |actions|
  {
    hide LocksOk, DataOk, Next, Enabled;
    if actions != [] {
      NextKeeps(t, actions[0]);
      HasLocks(t);
      StepKeeps(t, actions[0], k);
      FinishedStays(Next(t, actions[0]), actions[1..], k);
    }
  }

  // No other call created a series with this id.
  predicate OwnId(t: Table, k: nat)
    requires k < |t.threads| && t.threads[k].call.GetOrSet?
  {
    forall j :: 0 <= j < |t.threads| && j != k && t.threads[j].created && t.threads[j].call.GetOrSet? ==>
      t.threads[j].call.s.ref != t.threads[k].call.s.ref
  }

  // A lookup by id that begins after the creating call has ended finds the created series, in every
  // interleaving in which no other call creates one with that id.
  lemma LookupByIdFinds(stripes: nat, before: seq<Action>, more: seq<Action>, k: nat, j: nat)
    requires stripes > 0 && Legal(Empty(stripes), before) && Legal(Exec(Empty(stripes), before), more)
    requires var t := Exec(Empty(stripes), before); k < |t.threads| && t.threads[k].created && t.threads[k].call.GetOrSet? && t.threads[k].pc.Finished?
    requires var t, u := Exec(Empty(stripes), before), Exec(Exec(Empty(stripes), before), more);
             && |t.threads| <= j < |u.threads| && u.threads[j].call == GetById(t.threads[k].call.s.ref) && u.threads[j].pc.Finished?
             && k < |u.threads| && u.threads[k].call.GetOrSet? && OwnId(u, k)
    ensures var t, u := Exec(Empty(stripes), before), Exec(Exec(Empty(stripes), before), more);
            u.threads[j].result == Some(t.threads[k].call.s)
  {
    var e := Empty(stripes);
    assert IdsOk(e);
    hide LocksOk, DataOk, Exec, Empty, IdsOk, FoundSince;
    ExecIds(e, before);
    var t := Exec(e, before);
    var s := t.threads[k].call.s;
    EndedIsListed(t, k);
    FoundSinceNow(t, s.ref);
    ExecFound(t, more, s.ref, |t.threads|);
    FinishedStays(t, more, k);
    FoundIsOwn(Exec(t, more), k, j, |t.threads|);
  }

  lemma EndedIsListed(t: Table, k: nat)
    requires IdsOk(t) && k < |t.threads| && t.threads[k].created && t.threads[k].call.GetOrSet? && t.threads[k].pc.Finished?
    ensures t.threads[k].call.s.ref in t.byId
  {
  }

  lemma FoundSinceNow(t: Table, ref: nat)
    ensures FoundSince(t, ref, |t.threads|)
  {
  }

  lemma FoundIsOwn(u: Table, k: nat, j: nat, n: nat)
    requires k < |u.threads| && u.threads[k].created && u.threads[k].call.GetOrSet? && OwnId(u, k)
    requires n <= j < |u.threads| && u.threads[j].call == GetById(u.threads[k].call.s.ref) && u.threads[j].pc.Finished?
    requires FoundSince(u, u.threads[k].call.s.ref, n)
    ensures u.threads[j].result == Some(u.threads[k].call.s)
  {
    assert FoundOne(u, u.threads[j], u.threads[k].call.s.ref);
    var i :| 0 <= i < |u.threads| && Makes(u.threads[i], u.threads[j].result.value);
  }

  // A lookup by id returns nothing but a series that some call created with that id.
  lemma LookupByIdSound(stripes: nat, actions: seq<Action>, j: nat)
    requires stripes > 0 && Legal(Empty(stripes), actions)
    requires var t := Exec(Empty(stripes), actions); j < |t.threads| && t.threads[j].call.GetById? && t.threads[j].result.Some?
    ensures var t := Exec(Empty(stripes), actions);
            t.threads[j].result.value.ref == t.threads[j].call.ref && Made(t, t.threads[j].result.value)
  {
    var e := Empty(stripes);
    assert IdsOk(e);
    hide LocksOk, DataOk, Exec, Empty;
    ExecIds(e, actions);
    assert GivesOwn(Exec(e, actions), Exec(e, actions).threads[j]);
  }

  // Lookups by hash /////////////////////////////////////////////////////////////////////////////

  // A series in the hash map stays there, and no other takes its place.
  lemma LookupStays(t: Table, a: Action, hash: nat, labels: Labels)
    requires Inv(t) && Enabled(t, a) && Lookup(t.hashes, hash, labels).Some?
    ensures Lookup(Next(t, a).hashes, hash, labels) == Lookup(t.hashes, hash, labels)
  {
    hide LockMeans, Lookup, Put;
    if a.Insert? {
      var th := t.threads[a.i];
      assert ThreadOk(th) && SeenOk(t, th);
      PutThenLookup(t.hashes, th.call.hash, th.call.s, hash, labels);
    }
  }

  // The lookups of this key among the calls from the n-th on have found this series.
  predicate HitsSince(t: Table, hash: nat, labels: Labels, s: Series, n: nat)
  {
    forall j :: n <= j < |t.threads| && t.threads[j].call == GetByHash(hash, labels) && (t.threads[j].pc.Leave? || t.threads[j].pc.Finished?)
      ==> t.threads[j].result == Some(s)
  }

  lemma NextHits(t: Table, a: Action, hash: nat, labels: Labels, s: Series, n: nat)
    requires LocksOk(t) && Enabled(t, a) && n <= |t.threads|
    requires Lookup(t.hashes, hash, labels) == Some(s) && HitsSince(t, hash, labels, s, n)
    ensures HitsSince(Next(t, a), hash, labels, s, n) && n <= |Next(t, a).threads|
  {
    hide LockMeans, Lookup, Put;
    var u := Next(t, a);
    forall j | n <= j < |u.threads| && u.threads[j].call == GetByHash(hash, labels) && (u.threads[j].pc.Leave? || u.threads[j].pc.Finished?)
      ensures u.threads[j].result == Some(s)
    {
      assert j < |t.threads| ==> ThreadOk(t.threads[j]);
    }
  }

  lemma {:induction false} ExecHits(t: Table, actions: seq<Action>, hash: nat, labels: Labels, s: Series, n: nat)
    requires Inv(t) && Legal(t, actions) && n <= |t.threads|
    requires Lookup(t.hashes, hash, labels) == Some(s) && HitsSince(t, hash, labels, s, n)
    ensures HitsSince(Exec(t, actions), hash, labels, s, n)
    decreases |actions|
  {
    hide LocksOk, DataOk, Next, Enabled, HitsSince, Lookup;
    if actions != [] {
      HasLocks(t);
      NextKeeps(t, actions[0]);
      LookupStays(t, actions[0], hash, labels);
      NextHits(t, actions[0], hash, labels, s, n);
      ExecHits(Next(t, actions[0]), actions[1..], hash, labels, s, n);
    }
  }

  // In every interleaving, a lookup by hash that begins after a getting or setting call for the same
  // hash and labels has ended finishes with the series that call returned.
  lemma LookupByHashFinds(stripes: nat, before: seq<Action>, more: seq<Action>, k: nat, j: nat)
    requires stripes > 0 && Legal(Empty(stripes), before) && Legal(Exec(Empty(stripes), before), more)
    requires var t := Exec(Empty(stripes), before); k < |t.threads| && t.threads[k].call.GetOrSet? && t.threads[k].pc.Finished?
    requires var t, u := Exec(Empty(stripes), before), Exec(Exec(Empty(stripes), before), more);
             && |t.threads| <= j < |u.threads| && u.threads[j].pc.Finished?
             && u.threads[j].call == GetByHash(t.threads[k].call.hash, t.threads[k].call.s.labels)
    ensures var t, u := Exec(Empty(stripes), before), Exec(Exec(Empty(stripes), before), more);
            u.threads[j].result == t.threads[k].result && t.threads[k].result.Some?
  {
    hide Exec, Empty, Lookup, LockMeans;
    var t := Exec(Empty(stripes), before);
    var c := t.threads[k].call;
    assert SeenOk(t, t.threads[k]) && ThreadOk(t.threads[k]);
    var s := t.threads[k].result.value;
    ExecHits(t, more, c.hash, c.s.labels, s, |t.threads|);
    assert HitsSince(Exec(t, more), c.hash, c.s.labels, s, |t.threads|);
  }

  // Progress //////////////////////////////////////////////////////////////////////////////////////

  // Call j is inside a stripe that call i has to lock, and one of the two is a writer.
  predicate InTheWay(t: Table, i: nat, j: nat)
    requires |t.locks| > 0 && i < |t.threads| && j < |t.threads|
  {
    var c, d := t.threads[i].call, t.threads[j].call;
    && Holds(t.threads[j]) && (Writes(c) || Writes(d))
    && var pos := Stripe(d, Phase(t.threads[j]), |t.locks|);
       Stripe(c, 1, |t.locks|) == pos || Stripe(c, 2, |t.locks|) == pos
  }

  predicate Unhindered(t: Table, i: nat)
  {
    |t.locks| > 0 && i < |t.threads| && forall j :: 0 <= j < |t.threads| && j != i ==> !InTheWay(t, i, j)
  }

  // What call i does next.
  function OwnStep(t: Table, i: nat): Action
    requires i < |t.threads|
  {
    match t.threads[i].pc
    case ToLock(_) => Load(i)
    case Try(_, _) => Swap(i)
    case In(_) => Access(i)
    case Missed => Insert(i)
    case Leave(_) => Release(i)
    case Finished => Load(i)
  }

  // The number of steps that call i still needs.
  function StepsLeft(t: Table, i: nat): nat
    requires |t.locks| > 0 && i < |t.threads|
  {
    var th := t.threads[i];
    var later := if Phase(th) == 1 then 5 else 0;
    match th.pc
    case Finished => 0
    case Leave(_) => 1 + later
    case Missed => 2 + later
    case In(_) => 3 + later
    case Try(_, seen) => if t.locks[Stripe(th.call, Phase(th), |t.locks|)] == seen then 4 + later else 6 + later
    case ToLock(_) => 5 + later
  }

  // An unhindered call that waits for a lock reads a word that lets it in.
  lemma WordLetsIn(t: Table, i: nat)
    requires LocksOk(t) && Unhindered(t, i) && t.threads[i].pc.ToLock?
    ensures var th := t.threads[i]; MayTry(th.call, t.locks[Stripe(th.call, Phase(th), |t.locks|)])
  {
    var th := t.threads[i];
    var pos := Stripe(th.call, Phase(th), |t.locks|);
    assert ThreadOk(th) && LockMeans(t, pos);
    assert pos == Stripe(th.call, 1, |t.locks|) || pos == Stripe(th.call, 2, |t.locks|);
    var writers, readers := Holders(t, pos, true), Holders(t, pos, false);
    assert writers == {} by { forall j | j in writers ensures false { assert InTheWay(t, i, j); } }
    assert Writes(th.call) ==> readers == {} by {
      if Writes(th.call) { forall j | j in readers ensures false { assert InTheWay(t, i, j); } }
    }
  }

  lemma OwnStepGoesOn(t: Table, i: nat)
    requires LocksOk(t) && Unhindered(t, i) && !t.threads[i].pc.Finished?
    ensures Enabled(t, OwnStep(t, i))
    ensures var u := Next(t, OwnStep(t, i)); Unhindered(u, i) && StepsLeft(u, i) < StepsLeft(t, i)
  {
    assert ThreadOk(t.threads[i]);
    if t.threads[i].pc.ToLock? { WordLetsIn(t, i); }
    hide LockMeans, Lookup, Put;
    StepThread(t, OwnStep(t, i));
    assert Moves(t, Next(t, OwnStep(t, i)), i);
    forall j | 0 <= j < |t.threads| && j != i ensures !InTheWay(Next(t, OwnStep(t, i)), i, j) {
      assert !InTheWay(t, i, j);
    }
  }

  // No call waits for one that is not in its way: a reader for readers, anyone for calls in other
  // stripes or outside the locks. Its own steps then end it.
  lemma {:induction false} UnhinderedFinishes(t: Table, i: nat) returns (actions: seq<Action>)
    requires Inv(t) && Unhindered(t, i)
    ensures Legal(t, actions) && (forall a :: a in actions ==> !a.Begin? && a.i == i)
    ensures i < |Exec(t, actions).threads| && Exec(t, actions).threads[i].pc.Finished?
    decreases StepsLeft(t, i)
  {
    hide LocksOk, DataOk, Next, Unhindered, StepsLeft;
    IsThere(t, i);
    if t.threads[i].pc.Finished? {
      actions := [];
    } else {
      var a := OwnStep(t, i);
      OwnStepGoesOn(t, i);
      NextKeeps(t, a);
      var rest := UnhinderedFinishes(Next(t, a), i);
      actions := [a] + rest;
      assert actions[0] == a && actions[1..] == rest;
    }
  }

  lemma IsThere(t: Table, i: nat)
    requires Unhindered(t, i)
    ensures |t.locks| > 0 && i < |t.threads|
  {
  }
}
