/**
  The thread pool as a state machine. Every stretch that runs under the queue lock is one step,
  and so is the end of a task; any thread may take any step that is open to it.
*/
module ThreadPools {

  // What a task does is up to the caller.
  type Task = nat

  // A task and, for the proof, when it was accepted: the n-th one.
  datatype Job = Job(n: nat, task: Task)

  // The fields after the blank line exist only for the proof.
  datatype Pool = Pool(
    workers: seq<bool>,       // whether the thread with this number is running
    size: nat,                // the pool size asked for
    tasks: seq<Task>,
    limit: nat,               // queue length at which producers wait
    stop: bool,
    inFlight: int,
    busy: map<nat, Job>,      // what each busy worker runs
    destroyed: bool,

    accepted: seq<Task>,      // tasks accepted so far
    started: seq<Task>,       // tasks handed to workers so far
    finished: set<nat>)       // which accepted ones have run

  datatype Action =
    | Accept(task: Task)        // run: the task is queued
    | Refuse                    // run on a stopped pool
    | Exit(w: nat)              // a worker leaves
    | Take(w: nat)              // a worker takes the oldest task
    | Done(w: nat)              // a worker's task has run
    | SetLimit(l: nat)
    | SetSize(l: nat)
    | Stop                      // the destructor begins
    | End                       // the destructor ends

  predicate Idle(p: Pool, w: nat) { w < |p.workers| && p.workers[w] && w !in p.busy }

  predicate MustLeave(p: Pool, w: nat)
  {
    if p.stop then p.tasks == [] else p.size < w + 1
  }

  predicate Enabled(p: Pool, a: Action)
  {
    match a
    case Accept(_) => !p.destroyed && !p.stop && |p.tasks| < p.limit
    case Refuse => !p.destroyed && p.stop
    case Exit(w) => Idle(p, w) && MustLeave(p, w)
    case Take(w) => Idle(p, w) && !MustLeave(p, w) && p.tasks != []
    case Done(w) => w in p.busy
    case SetLimit(_) => !p.destroyed
    case SetSize(_) => !p.destroyed
    case Stop => !p.destroyed && !p.stop
    case End => !p.destroyed && p.stop && p.workers == []
  }

  // Threads that have left are dropped from the end, down to the pool size.
  function DropLeft(workers: seq<bool>, size: nat): (r: seq<bool>)
    ensures r <= workers && (|workers| >= size ==> |r| >= size)
    ensures |r| > size ==> r[|r| - 1]
    ensures forall i :: |r| <= i < |workers| ==> !workers[i]
  {
    if |workers| > size && !workers[|workers| - 1] then DropLeft(workers[..|workers| - 1], size) else workers
  }

  // Starting worker i: a number below the vector's length is started again if it has left.
  function StartWorker(workers: seq<bool>, i: nat): seq<bool>
    requires i <= |workers|
  {
    if i < |workers| then workers[i := true] else workers + [true]
  }

  // Starting workers lo up to, not including, hi.
  function StartWorkers(workers: seq<bool>, lo: nat, hi: nat): (r: seq<bool>)
    requires lo <= hi && lo <= |workers|
    ensures |r| == if hi > |workers| then hi else |workers|
    ensures forall i :: lo <= i < hi ==> r[i]
    ensures forall i :: 0 <= i < |workers| && !(lo <= i < hi) ==> r[i] == workers[i]
    decreases hi
  {
    if lo == hi then workers else StartWorker(StartWorkers(workers, lo, hi - 1), hi - 1)
  }

  function Next(p: Pool, a: Action): Pool
    requires Enabled(p, a) && (a.SetSize? && !p.stop ==> p.size <= |p.workers|)
  {
    match a
    case Accept(task) => p.(tasks := p.tasks + [task], inFlight := p.inFlight + 1, accepted := p.accepted + [task])
    case Refuse => p
    case Exit(w) => p.(workers := DropLeft(p.workers[w := false], p.size))
    case Take(w) =>
      p.(tasks := p.tasks[1..], busy := p.busy[w := Job(|p.started|, p.tasks[0])], started := p.started + [p.tasks[0]])
    case Done(w) => p.(busy := p.busy - {w}, inFlight := p.inFlight - 1, finished := p.finished + {p.busy[w].n})
    case SetLimit(l) => if p.stop then p else p.(limit := if l < 1 then 1 else l)
    case SetSize(l) =>
      var size := if l < 1 then 1 else l;
      if p.stop then p
      else if size > p.size then p.(size := size, workers := StartWorkers(p.workers, p.size, size))
      else p.(size := size)
    case Stop => p.(stop := true, size := 0)
    case End => p.(destroyed := true)
  }

  function Start(threads: nat): (p: Pool)
    ensures Inv(p)
  {
    Pool(StartWorkers([], 0, threads), threads, [], 100000, false, 0, map[], false, [], [], {})
  }

  // The invariant //////////////////////////////////////////////////////////////////////////////

  // What was accepted is what was handed out, then what is queued. The tasks handed out are the
  // running and the finished ones, each running in one worker only.
  ghost predicate TasksOk(p: Pool)
  {
    && p.accepted == p.started + p.tasks
    && (forall w :: w in p.busy ==> JobOk(p, p.busy[w]))
    && (forall v, w :: v in p.busy && w in p.busy && p.busy[v].n == p.busy[w].n ==> v == w)
    && (forall i :: i in p.finished ==> i < |p.started|)
    && |p.finished| + |p.busy| == |p.started|
    && p.inFlight == |p.tasks| + |p.busy|
  }

  predicate JobOk(p: Pool, j: Job) { j.n < |p.started| && p.started[j.n] == j.task && j.n !in p.finished }

  // A pool with threads. Busy workers are running. Before the stop, all workers below the pool size
  // are. The last thread number beyond the pool size is in use. While tasks wait, worker 0 is there.
  ghost predicate WorkersOk(p: Pool)
  {
    && (forall w :: w in p.busy ==> w < |p.workers| && p.workers[w])
    && (!p.stop ==> 1 <= p.size <= |p.workers| && forall i :: 0 <= i < p.size ==> p.workers[i])
    && (|p.workers| > p.size ==> p.workers[|p.workers| - 1])
    && (p.stop ==> p.size == 0)
    && (p.tasks != [] ==> |p.workers| > 0 && p.workers[0])
    && (p.destroyed ==> p.stop && p.workers == [])
    && p.limit >= 1
  }

  // A pool that never had a thread.
  ghost predicate Unmanned(p: Pool)
  {
    p.workers == [] && p.size == 0 && p.busy == map[] && p.started == [] && (p.destroyed ==> p.stop) && p.limit >= 1
  }

  ghost predicate Inv(p: Pool) { TasksOk(p) && (WorkersOk(p) || Unmanned(p)) }

  lemma MapDropSize(m: map<nat, Job>, w: nat)
    requires w in m
    ensures |m - {w}| == |m| - 1
  {
    assert (m - {w}).Keys == m.Keys - {w};
    assert |m| == |m.Keys| && |m - {w}| == |(m - {w}).Keys|;
  }

  lemma TakeTasks(p: Pool, w: nat)
    requires TasksOk(p) && Enabled(p, Take(w))
    ensures TasksOk(Next(p, Take(w)))
  {
    var q := Next(p, Take(w));
    assert |q.busy| == |p.busy| + 1;
    assert forall v :: v in q.busy && v != w ==> JobOk(p, p.busy[v]);
  }

  lemma DoneTasks(p: Pool, w: nat)
    requires TasksOk(p) && Enabled(p, Done(w))
    ensures TasksOk(Next(p, Done(w)))
  {
    MapDropSize(p.busy, w);
    assert JobOk(p, p.busy[w]);
    assert forall v :: v in p.busy ==> JobOk(p, p.busy[v]);
  }

  lemma OtherTasks(p: Pool, a: Action)
    requires TasksOk(p) && Enabled(p, a) && !a.Take? && !a.Done? && (a.SetSize? && !p.stop ==> p.size <= |p.workers|)
    ensures TasksOk(Next(p, a))
  {
    hide DropLeft, StartWorkers;
    var q := Next(p, a);
    assert q.busy == p.busy && q.finished == p.finished && q.started == p.started;
    assert q.inFlight - |q.tasks| == p.inFlight - |p.tasks|;
    assert a.Accept? ==> p.started + p.tasks + [a.task] == p.started + (p.tasks + [a.task]);
    assert forall w :: w in p.busy ==> JobOk(p, p.busy[w]);
  }

  lemma ExitWorkers(p: Pool, w: nat)
    requires WorkersOk(p) && Enabled(p, Exit(w))
    ensures WorkersOk(Next(p, Exit(w)))
  {
  }

  lemma SizeWorkers(p: Pool, l: nat)
    requires WorkersOk(p) && Enabled(p, SetSize(l))
    ensures (!p.stop ==> p.size <= |p.workers|) && WorkersOk(Next(p, SetSize(l)))
  {
  }

  lemma OtherWorkers(p: Pool, a: Action)
    requires WorkersOk(p) && Enabled(p, a) && !a.Exit? && !a.SetSize?
    ensures WorkersOk(Next(p, a))
  {
    hide DropLeft, StartWorkers;
  }

  // A pool with threads stays one.
  lemma NextManned(p: Pool, a: Action)
    requires WorkersOk(p) && Enabled(p, a)
    ensures (a.SetSize? && !p.stop ==> p.size <= |p.workers|) && WorkersOk(Next(p, a))
  {
    hide WorkersOk, Enabled, Next, DropLeft, StartWorkers;
    match a
    case Exit(w) => ExitWorkers(p, w);
    case SetSize(l) => SizeWorkers(p, l);
    case _ => OtherWorkers(p, a);
  }

  // A pool without threads gets them only by a new size, and only before the stop.
  lemma NextUnmanned(p: Pool, a: Action)
    requires Unmanned(p) && Enabled(p, a)
    ensures a.SetSize? && !p.stop ==> p.size <= |p.workers|
    ensures if a.SetSize? && !p.stop then WorkersOk(Next(p, a)) else Unmanned(Next(p, a))
  {
  }

  // Every step keeps the invariant; in particular the sizes the code asserts when it starts
  // workers are as asserted.
  lemma NextKeeps(p: Pool, a: Action)
    requires Inv(p) && Enabled(p, a)
    ensures (a.SetSize? && !p.stop ==> p.size <= |p.workers|) && Inv(Next(p, a))
  {
    hide WorkersOk, Unmanned, TasksOk, DropLeft, StartWorkers, Next, Enabled;
    if WorkersOk(p) { NextManned(p, a); } else { NextUnmanned(p, a); }
    match a
    case Take(w) => TakeTasks(p, w);
    case Done(w) => DoneTasks(p, w);
    case _ => OtherTasks(p, a);
  }

  // Runs ///////////////////////////////////////////////////////////////////////////////////////

  // The actions can be taken one after the other from p.
  ghost predicate Legal(p: Pool, actions: seq<Action>)
    requires Inv(p)
    decreases |actions|
  {
    actions == [] || (Enabled(p, actions[0]) && (NextKeeps(p, actions[0]); Legal(Next(p, actions[0]), actions[1..])))
  }

  ghost function Exec(p: Pool, actions: seq<Action>): (q: Pool)
    requires Inv(p) && Legal(p, actions)
    ensures Inv(q)
    decreases |actions|
  {
    if actions == [] then p else NextKeeps(p, actions[0]); Exec(Next(p, actions[0]), actions[1..])
  }

  lemma StartOk(threads: nat)
    ensures if threads >= 1 then WorkersOk(Start(threads)) else Unmanned(Start(threads))
  {
  }

  // A new size is set before the pool is stopped.
  predicate Sized(actions: seq<Action>)
  {
    actions != [] && (actions[0].SetSize? || (!actions[0].Stop? && Sized(actions[1..])))
  }

  lemma {:induction false} MannedRun(p: Pool, actions: seq<Action>)
    requires Inv(p) && Legal(p, actions)
    ensures WorkersOk(p) ==> WorkersOk(Exec(p, actions))
    ensures Unmanned(p) && !p.stop && Sized(actions) ==> WorkersOk(Exec(p, actions))
    ensures Unmanned(p) && (p.stop || !Sized(actions)) ==> Unmanned(Exec(p, actions))
    decreases |actions|
  {
    if actions != [] {
      var a := actions[0];
      NextKeeps(p, a);
      StopStays(p, a);
      hide Next, WorkersOk, Unmanned, TasksOk, Enabled;
      if WorkersOk(p) { NextManned(p, a); }
      if Unmanned(p) { NextUnmanned(p, a); }
      MannedRun(Next(p, a), actions[1..]);
    }
  }

  lemma StopStays(p: Pool, a: Action)
    requires Enabled(p, a) && (a.SetSize? && !p.stop ==> p.size <= |p.workers|)
    ensures Next(p, a).stop == (p.stop || a.Stop?)
  {
    hide DropLeft, StartWorkers;
  }

  // In every interleaving, from every number of threads: the tasks in flight are the queued and the
  // running ones. When the destructor can end, none is in flight, and then every accepted task has
  // run, exactly if the pool had threads from the start, or got them before the stop, or nothing
  // was ever accepted.
  lemma NoTaskLeftBehind(threads: nat, actions: seq<Action>)
    requires Legal(Start(threads), actions)
    ensures var p := Exec(Start(threads), actions);
            && p.inFlight == |p.tasks| + |p.busy|
            && (p.stop && p.workers == [] ==>
                  && (p.inFlight == 0 <==> threads >= 1 || Sized(actions) || p.accepted == [])
                  && (p.inFlight == 0 ==> p.started == p.accepted && forall i :: 0 <= i < |p.accepted| ==> i in p.finished))
  {
    var p := Exec(Start(threads), actions);
    StartOk(threads);
    MannedRun(Start(threads), actions);
    if p.stop && p.workers == [] { EndState(p); }
  }

  lemma EndState(p: Pool)
    requires Inv(p) && p.stop && p.workers == []
    ensures WorkersOk(p) ==> p.inFlight == 0
    ensures Unmanned(p) ==> p.inFlight == |p.accepted|
    ensures p.accepted == [] ==> p.inFlight == 0
    ensures p.inFlight == 0 ==> p.started == p.accepted && forall i :: 0 <= i < |p.accepted| ==> i in p.finished
  {
    assert WorkersOk(p) ==> p.busy == map[];
    if p.inFlight == 0 { AllFinished(p.finished, |p.started|); }
  }

  lemma {:induction false} AllFinished(s: set<nat>, n: nat)
    requires |s| == n && forall i :: i in s ==> i < n
    ensures forall i :: 0 <= i < n ==> i in s
  {
    if n > 0 {
      if n - 1 in s {
        AllFinished(s - {n - 1}, n - 1);
      } else {
        Crowded(s, n - 1);
      }
    }
  }

  lemma {:induction false} Crowded(s: set<nat>, n: nat)
    requires forall i :: i in s ==> i < n
    ensures |s| <= n
  {
    if n == 0 {
      assert s == {};
    } else {
      Crowded(s - {n - 1}, n - 1);
    }
  }

  // The tasks of a run, in the order in which they are accepted.
  function Accepts(actions: seq<Action>): seq<Task>
  {
    if actions == [] then [] else (if actions[0].Accept? then [actions[0].task] else []) + Accepts(actions[1..])
  }

  // The tasks that workers take in a run, in the order in which they take them.
  ghost function Starts(p: Pool, actions: seq<Action>): seq<Task>
    requires Inv(p) && Legal(p, actions)
    decreases |actions|
  {
    if actions == [] then []
    else NextKeeps(p, actions[0]); (if actions[0].Take? then [p.tasks[0]] else []) + Starts(Next(p, actions[0]), actions[1..])
  }

  // Which accepted tasks end in a run, in the order in which they end.
  ghost function Ends(p: Pool, actions: seq<Action>): seq<nat>
    requires Inv(p) && Legal(p, actions)
    decreases |actions|
  {
    if actions == [] then []
    else NextKeeps(p, actions[0]); (if actions[0].Done? then [p.busy[actions[0].w].n] else []) + Ends(Next(p, actions[0]), actions[1..])
  }

  lemma StepOrder(p: Pool, a: Action)
    requires Enabled(p, a) && (a.SetSize? && !p.stop ==> p.size <= |p.workers|)
    ensures Next(p, a).accepted == p.accepted + if a.Accept? then [a.task] else []
    ensures Next(p, a).started == p.started + if a.Take? then [p.tasks[0]] else []
    ensures Next(p, a).finished == p.finished + if a.Done? then {p.busy[a.w].n} else {}
  {
    hide DropLeft, StartWorkers;
  }

  lemma DoneOnce(p: Pool, w: nat)
    requires Inv(p) && w in p.busy
    ensures p.busy[w].n !in p.finished
  {
    assert JobOk(p, p.busy[w]);
  }

  lemma {:induction false} RunOrder(p: Pool, actions: seq<Action>)
    requires Inv(p) && Legal(p, actions)
    ensures Exec(p, actions).accepted == p.accepted + Accepts(actions)
    ensures Exec(p, actions).started == p.started + Starts(p, actions)
    decreases |actions|
  {
    hide Inv, Next;
    if actions != [] {
      var a := actions[0];
      NextKeeps(p, a);
      StepOrder(p, a);
      RunOrder(Next(p, a), actions[1..]);
      assert Accepts(actions) == (if a.Accept? then [a.task] else []) + Accepts(actions[1..]);
      assert Starts(p, actions) == (if a.Take? then [p.tasks[0]] else []) + Starts(Next(p, a), actions[1..]);
    }
  }

  // The ends are those of accepted tasks that had not ended before, each once.
  ghost predicate EndsOnce(before: set<nat>, ends: seq<nat>, after: set<nat>)
  {
    && (forall i, j :: 0 <= i < j < |ends| ==> ends[i] != ends[j])
    && (forall i :: 0 <= i < |ends| ==> ends[i] !in before)
    && (forall n :: n in after <==> n in before || n in ends)
  }

  lemma OneMoreEnd(before: set<nat>, n: nat, ends: seq<nat>, after: set<nat>)
    requires n !in before && EndsOnce(before + {n}, ends, after)
    ensures EndsOnce(before, [n] + ends, after)
  {
  }

  lemma {:induction false} RunEnds(p: Pool, actions: seq<Action>)
    requires Inv(p) && Legal(p, actions)
    ensures EndsOnce(p.finished, Ends(p, actions), Exec(p, actions).finished)
    decreases |actions|
  {
    hide Inv, Next;
    if actions != [] {
      var a := actions[0];
      NextKeeps(p, a);
      StepOrder(p, a);
      hide EndsOnce;
      RunEnds(Next(p, a), actions[1..]);
      if a.Done? {
        DoneOnce(p, a.w);
        OneMoreEnd(p.finished, p.busy[a.w].n, Ends(Next(p, a), actions[1..]), Exec(p, actions).finished);
      } else {
        assert [] + Ends(Next(p, a), actions[1..]) == Ends(Next(p, a), actions[1..]);
      }
    }
  }

  // Tasks start in the order of acceptance: what workers take in a run is, in this order, the
  // beginning of what was accepted. No task ends twice, and none that has not been taken ends. When
  // the destructor of a pool that had threads can end, all accepted ones were taken and have ended.
  lemma TasksRunOnce(threads: nat, actions: seq<Action>)
    requires Legal(Start(threads), actions)
    ensures var p, taken, ends := Exec(Start(threads), actions), Starts(Start(threads), actions), Ends(Start(threads), actions);
            && taken + p.tasks == Accepts(actions)
            && (forall i, j :: 0 <= i < j < |ends| ==> ends[i] != ends[j])
            && (forall i :: 0 <= i < |ends| ==> ends[i] < |taken|)
            && (p.stop && p.workers == [] && (threads >= 1 || Sized(actions)) ==>
                  taken == Accepts(actions) && forall n :: 0 <= n < |taken| ==> n in ends)
  {
    var s := Start(threads);
    assert s.accepted == [] && s.started == [] && s.finished == {};
    hide Inv, Start, Exec, Starts, Ends, Accepts, Sized;
    RunOrder(s, actions);
    RunEnds(s, actions);
    NoTaskLeftBehind(threads, actions);
    var p, taken, ends := Exec(s, actions), Starts(s, actions), Ends(s, actions);
    FinishedTaken(p);
    assert p.accepted == Accepts(actions) && p.started == taken;
    forall i | 0 <= i < |ends| ensures ends[i] < |taken| { assert ends[i] in ends && ends[i] in p.finished; }
    assert taken == p.accepted ==> taken + p.tasks == taken;
  }

  lemma FinishedTaken(p: Pool)
    requires Inv(p)
    ensures p.accepted == p.started + p.tasks && forall i :: i in p.finished ==> i < |p.started|
  {
  }

  // How many threads, how long a queue //////////////////////////////////////////////////////////

  function AtLeastOne(l: nat): nat { if l < 1 then 1 else l }

  function Max(a: nat, b: nat): nat { if a < b then b else a }

  predicate Stopped(actions: seq<Action>)
  {
    exists i :: 0 <= i < |actions| && actions[i].Stop?
  }

  // The pool size last asked for before the stop, `size` if none was. None is left after the stop.
  function SizeAsked(size: nat, actions: seq<Action>): nat
    decreases actions
  {
    if actions == [] then size
    else match actions[0]
      case SetSize(l) => SizeAsked(AtLeastOne(l), actions[1..])
      case Stop => 0
      case _ => SizeAsked(size, actions[1..])
  }

  // The largest pool size asked for before the stop.
  function MostAsked(size: nat, actions: seq<Action>): (m: nat)
    ensures m >= size
    decreases actions
  {
    if actions == [] || actions[0].Stop? then size
    else MostAsked(if actions[0].SetSize? then Max(size, AtLeastOne(actions[0].l)) else size, actions[1..])
  }

  // The queue limit last asked for before the stop, and the largest one.
  function LimitAsked(limit: nat, actions: seq<Action>): nat
    decreases actions
  {
    if actions == [] || actions[0].Stop? then limit
    else LimitAsked(if actions[0].SetLimit? then AtLeastOne(actions[0].l) else limit, actions[1..])
  }

  function MostLimit(limit: nat, actions: seq<Action>): (m: nat)
    ensures m >= limit
    decreases actions
  {
    if actions == [] || actions[0].Stop? then limit
    else MostLimit(if actions[0].SetLimit? then Max(limit, AtLeastOne(actions[0].l)) else limit, actions[1..])
  }

  lemma StoppedTail(actions: seq<Action>)
    requires actions != []
    ensures Stopped(actions) <==> actions[0].Stop? || Stopped(actions[1..])
  {
    if Stopped(actions[1..]) {
      var i :| 0 <= i < |actions[1..]| && actions[1..][i].Stop?;
      assert actions[i + 1].Stop?;
    }
    if Stopped(actions) {
      var i :| 0 <= i < |actions| && actions[i].Stop?;
      assert i > 0 ==> actions[1..][i - 1].Stop?;
    }
  }

  // What one step does to the sizes.
  lemma StepSizes(p: Pool, a: Action)
    requires Enabled(p, a) && (a.SetSize? && !p.stop ==> p.size <= |p.workers|)
    ensures var q := Next(p, a);
            && q.size == (if a.Stop? then 0 else if a.SetSize? && !p.stop then AtLeastOne(a.l) else p.size)
            && q.limit == (if a.SetLimit? && !p.stop then AtLeastOne(a.l) else p.limit)
            && |q.workers| <= (if a.SetSize? && !p.stop then Max(|p.workers|, AtLeastOne(a.l)) else |p.workers|)
            && |q.tasks| <= Max(|p.tasks|, p.limit)
  {
    if a.Exit? { assert DropLeft(p.workers[a.w := false], p.size) <= p.workers[a.w := false]; }
    hide DropLeft, StartWorkers;
  }

  lemma {:induction false} StoppedRun(p: Pool, actions: seq<Action>)
    requires Inv(p) && Legal(p, actions)
    ensures Exec(p, actions).stop == (p.stop || Stopped(actions))
    ensures p.stop ==> Exec(p, actions).size == p.size && Exec(p, actions).limit == p.limit
    ensures p.stop ==> |Exec(p, actions).workers| <= |p.workers| && |Exec(p, actions).tasks| <= |p.tasks|
    decreases |actions|
  {
    hide Inv, Next;
    if actions != [] {
      var a := actions[0];
      NextKeeps(p, a);
      StopStays(p, a);
      StepSizes(p, a);
      StoppedTail(actions);
      if p.stop { QuietQueue(p, a); }
      hide Enabled, Stopped;
      StoppedRun(Next(p, a), actions[1..]);
    }
  }

  lemma QuietQueue(p: Pool, a: Action)
    requires p.stop && Enabled(p, a)
    ensures |Next(p, a).tasks| <= |p.tasks| && !a.Stop?
  {
  }

  lemma {:induction false} SizesRun(p: Pool, actions: seq<Action>, most: nat, mostLimit: nat)
    requires Inv(p) && Legal(p, actions) && !p.stop
    requires |p.workers| <= most && |p.tasks| <= mostLimit && p.limit <= mostLimit
    ensures var q := Exec(p, actions);
            && q.size == SizeAsked(p.size, actions) && |q.workers| <= MostAsked(most, actions)
            && q.limit == LimitAsked(p.limit, actions) && |q.tasks| <= MostLimit(mostLimit, actions)
    decreases |actions|
  {
    hide Inv, Next, Enabled;
    if actions != [] {
      var a := actions[0];
      NextKeeps(p, a);
      StopStays(p, a);
      StepSizes(p, a);
      var q := Next(p, a);
      if a.Stop? {
        StoppedRun(q, actions[1..]);
      } else {
        SizesRun(q, actions[1..], if a.SetSize? then Max(most, AtLeastOne(a.l)) else most,
                 if a.SetLimit? then Max(mostLimit, AtLeastOne(a.l)) else mostLimit);
      }
    }
  }

  // In every interleaving before the stop: the threads below the size last asked for are running,
  // each of them free to take a waiting task; and a thread is to leave exactly when its number is
  // not below that size. There never are more threads than the largest size asked for.
  lemma ThreadsFollowSize(threads: nat, actions: seq<Action>)
    requires Legal(Start(threads), actions)
    ensures var p, n := Exec(Start(threads), actions), SizeAsked(threads, actions);
            && |p.workers| <= MostAsked(threads, actions)
            && (!Stopped(actions) ==>
                  && n <= |p.workers|
                  && (forall w :: 0 <= w < n ==> p.workers[w] && (w !in p.busy && p.tasks != [] ==> Enabled(p, Take(w))))
                  && (forall w: nat :: Idle(p, w) ==> (Enabled(p, Exit(w)) <==> w >= n)))
  {
    var s := Start(threads);
    assert !s.stop && |s.workers| == threads && s.size == threads && s.limit == 100000 && s.tasks == [];
    hide Start, Exec, Stopped, TasksOk;
    SizesRun(s, actions, threads, 100000);
    StoppedRun(s, actions);
  }

  // The workers from `done` on are idle, the others are not, and nothing waits.
  predicate Ready(p: Pool, done: nat)
  {
    && !p.stop && !p.destroyed && p.tasks == [] && p.limit >= 1 && p.size <= |p.workers|
    && (forall w :: done <= w < p.size ==> p.workers[w] && w !in p.busy)
    && (forall w :: w in p.busy ==> w < done)
  }

  // In q the workers from `done` on have started on these tasks; the others go on as in p.
  ghost predicate TookEach(p: Pool, q: Pool, tasks: seq<Task>, done: nat)
  {
    && q.tasks == []
    && (forall w :: w in q.busy <==> w in p.busy || done <= w < done + |tasks|)
    && (forall w :: w in p.busy && w < done ==> q.busy[w] == p.busy[w])
    && (forall w :: done <= w < done + |tasks| ==> q.busy[w].task == tasks[w - done])
  }

  lemma AcceptAndTake(p: Pool, task: Task, w: nat)
    requires Ready(p, w) && w < p.size
    ensures Enabled(p, Accept(task)) && Enabled(Next(p, Accept(task)), Take(w))
    ensures var r := Next(Next(p, Accept(task)), Take(w));
            Ready(r, w + 1) && r.size == p.size && exists n :: r.busy == p.busy[w := Job(n, task)]
  {
    var q := Next(p, Accept(task));
    assert q.tasks == [task];
    assert Next(q, Take(w)).busy == p.busy[w := Job(|p.started|, task)];
  }

  lemma OneMoreTook(p: Pool, r: Pool, end: Pool, tasks: seq<Task>, w: nat)
    requires tasks != [] && (exists n :: r.busy == p.busy[w := Job(n, tasks[0])])
    requires (forall v :: v in p.busy ==> v < w) && TookEach(r, end, tasks[1..], w + 1)
    ensures TookEach(p, end, tasks, w)
  {
    forall v | w <= v < w + |tasks| ensures end.busy[v].task == tasks[v - w] {
      if v == w { assert v in r.busy; } else { assert end.busy[v].task == tasks[1..][v - (w + 1)]; }
    }
  }

  // A pool of n threads starts with the threads 0 to n - 1 running, and can run n tasks at once.
  lemma AllAtOnce(threads: nat, tasks: seq<Task>) returns (actions: seq<Action>)
    requires |tasks| <= threads
    ensures |Start(threads).workers| == threads && forall w :: 0 <= w < threads ==> Start(threads).workers[w]
    ensures Legal(Start(threads), actions) && Accepts(actions) == tasks
    ensures var p := Exec(Start(threads), actions);
            && p.tasks == [] && (forall w :: w in p.busy <==> 0 <= w < |tasks|)
            && forall w :: 0 <= w < |tasks| ==> p.busy[w].task == tasks[w]
  {
    hide Inv;
    actions := TakeEach(Start(threads), tasks, 0);
  }

  // Accepting and taking one task after the other, from worker `done` on.
  lemma {:induction false} TakeEach(p: Pool, tasks: seq<Task>, done: nat) returns (actions: seq<Action>)
    requires Inv(p) && Ready(p, done) && done + |tasks| <= p.size
    ensures Legal(p, actions) && Accepts(actions) == tasks && TookEach(p, Exec(p, actions), tasks, done)
    decreases |tasks|
  {
    hide Inv, Next, Enabled;
    if tasks == [] {
      actions := [];
    } else {
      var a, b := Accept(tasks[0]), Take(done);
      AcceptAndTake(p, tasks[0], done);
      NextKeeps(p, a);
      NextKeeps(Next(p, a), b);
      var r := Next(Next(p, a), b);
      var rest := TakeEach(r, tasks[1..], done + 1);
      actions := [a, b] + rest;
      TwoSteps(p, a, b, rest);
      OneMoreTook(p, r, Exec(p, actions), tasks, done);
      AcceptsTwo(a, b, rest);
    }
  }

  lemma AcceptsTwo(a: Action, b: Action, rest: seq<Action>)
    ensures Accepts([a, b] + rest) == (if a.Accept? then [a.task] else []) + (if b.Accept? then [b.task] else []) + Accepts(rest)
  {
    assert ([a, b] + rest)[1..] == [b] + rest && ([b] + rest)[1..] == rest;
  }

  lemma TwoSteps(p: Pool, a: Action, b: Action, rest: seq<Action>)
    requires Inv(p) && Enabled(p, a) && (a.SetSize? && !p.stop ==> p.size <= |p.workers|)
    requires var q := Next(p, a); Inv(q) && Enabled(q, b) && (b.SetSize? && !q.stop ==> q.size <= |q.workers|)
    requires var r := Next(Next(p, a), b); Inv(r) && Legal(r, rest)
    ensures Legal(p, [a, b] + rest) && Exec(p, [a, b] + rest) == Exec(Next(Next(p, a), b), rest)
  {
    hide Inv, Next, Enabled;
    var all := [a, b] + rest;
    assert all[1..] == [b] + rest && ([b] + rest)[1..] == rest;
    assert Legal(Next(p, a), [b] + rest) && Exec(Next(p, a), [b] + rest) == Exec(Next(Next(p, a), b), rest);
  }

  // A task is accepted exactly while fewer are waiting than the limit last asked for, 100000 if
  // none was, and the pool is not stopped; so never more wait than the largest limit asked for.
  lemma QueueFollowsLimit(threads: nat, actions: seq<Action>, task: Task)
    requires Legal(Start(threads), actions)
    ensures var p := Exec(Start(threads), actions);
            && |p.tasks| <= MostLimit(100000, actions)
            && (Enabled(p, Accept(task)) <==> !Stopped(actions) && |p.tasks| < LimitAsked(100000, actions))
  {
    var s := Start(threads);
    assert !s.stop && |s.workers| == threads && s.size == threads && s.limit == 100000 && s.tasks == [];
    hide Start, Exec, Stopped, TasksOk;
    SizesRun(s, actions, threads, 100000);
    StoppedRun(s, actions);
  }

  // Shutting down //////////////////////////////////////////////////////////////////////////////

  function Running(workers: seq<bool>): nat
  {
    if workers == [] then 0 else Running(workers[..|workers| - 1]) + if workers[|workers| - 1] then 1 else 0
  }

  // What the workers still have to do once the pool is stopped.
  function Remaining(p: Pool): int { 2 * |p.tasks| + |p.busy| + Running(p.workers) }

  predicate ByWorker(a: Action) { a.Exit? || a.Take? || a.Done? }

  // While workers are left after the stop, one of them can go on; when none is left the
  // destructor can end.
  lemma ShutdownGoesOn(p: Pool)
    requires Inv(p) && p.stop && !p.destroyed
    ensures if p.workers == [] then Enabled(p, End) else exists a :: ByWorker(a) && Enabled(p, a)
  {
    if p.workers != [] {
      var w := if p.tasks != [] then 0 else |p.workers| - 1;
      var a := if w in p.busy then Done(w) else if p.tasks != [] then Take(w) else Exit(w);
      assert ByWorker(a) && Enabled(p, a);
    }
  }

  lemma {:induction false} RunningStops(workers: seq<bool>, w: nat)
    requires w < |workers| && workers[w]
    ensures Running(workers[w := false]) == Running(workers) - 1
  {
    var n := |workers| - 1;
    if w < n {
      RunningStops(workers[..n], w);
      assert workers[w := false][..n] == workers[..n][w := false];
    } else {
      assert workers[w := false][..n] == workers[..n];
    }
  }

  lemma {:induction false} RunningDrops(workers: seq<bool>, size: nat)
    ensures Running(DropLeft(workers, size)) == Running(workers)
  {
    if |workers| > size && !workers[|workers| - 1] { RunningDrops(workers[..|workers| - 1], size); }
  }

  // Every worker step after the stop brings the end nearer, and nothing else moves it away.
  lemma ShutdownShrinks(p: Pool, a: Action)
    requires Inv(p) && p.stop && Enabled(p, a)
    ensures Next(p, a).stop && Remaining(Next(p, a)) == Remaining(p) - if ByWorker(a) then 1 else 0
  {
    match a
    case Exit(w) =>
      RunningStops(p.workers, w);
      RunningDrops(p.workers[w := false], p.size);
    case Take(w) => assert |Next(p, a).busy| == |p.busy| + 1;
    case Done(w) => MapDropSize(p.busy, w);
    case _ =>
  }

  function WorkerSteps(actions: seq<Action>): nat
  {
    if actions == [] then 0 else WorkerSteps(actions[1..]) + if ByWorker(actions[0]) then 1 else 0
  }

  // After the stop the workers take at most so many more steps, in any order.
  lemma {:induction false} ShutdownEnds(p: Pool, actions: seq<Action>)
    requires Inv(p) && p.stop && Legal(p, actions)
    ensures WorkerSteps(actions) <= Remaining(p)
    decreases |actions|
  {
    if actions != [] {
      NextKeeps(p, actions[0]);
      ShutdownShrinks(p, actions[0]);
      hide Inv, Next, Remaining;
      ShutdownEnds(Next(p, actions[0]), actions[1..]);
    }
    RemainingNat(p);
  }

  lemma RemainingNat(p: Pool)
    requires Inv(p)
    ensures Remaining(p) >= 0
  {
  }

  // A pool without threads: a task accepted, the destructor run to its end, the task in flight.
  lemma NoThreadsNoRun(task: Task)
    ensures Legal(Start(0), [Accept(task), Stop, End])
    ensures var p := Exec(Start(0), [Accept(task), Stop, End]); p.destroyed && p.inFlight == 1 && p.finished == {}
  {
    hide DropLeft;
    var p := Start(0);
    var q := Next(p, Accept(task));
    var r := Next(q, Stop);
    NextKeeps(p, Accept(task));
    NextKeeps(q, Stop);
    NextKeeps(r, End);
    var all := [Accept(task), Stop, End];
    assert all[1..] == [Stop, End] && all[1..][1..] == [End] && all[1..][1..][1..] == [];
    assert Legal(r, [End]) && Exec(r, [End]) == Next(r, End);
    assert Legal(q, [Stop, End]) && Exec(q, [Stop, End]) == Next(r, End);
  }
}
