/** The task manager as a state machine: every section that runs under its mutex is one step, taken by any worker, any
    pusher or the one controlling thread, in any order. Whoever waits may wake at any time, notified or not. */
module TaskManager {
  import opened Counting

  datatype Phase = Idle | Starting | Running | Stopping

  /** A thread is created, enters `run`, and is then between two looks at the queue, waiting, or executing a task; one
      that returns from `run` is no longer there. */
  datatype Worker = Created | Free | Waiting | Holding(task: nat)

  /** Where the controller is: in no call, or waiting in one. A waiting `stop` remembers the tasks queued when it began. */
  datatype Control = Resting | InStart | InAdd | InRemove | InStop(marked: set<nat>)

  datatype Manager = Manager(
    phase: Phase, count: nat, limit: nat, idle: nat, active: nat, tasks: seq<nat>,
    workers: map<nat, Worker>, control: Control, notified: bool,
    pushed: set<nat>, executed: seq<nat>, cleared: set<nat>)

  function Init(limit: nat): (s: Manager) {
    Manager(Idle, 0, limit, 0, 0, [], map[], Resting, false, {}, [], {})
  }

  // ---------- steps ----------

  datatype Step =
    | Push(task: nat, front: bool)
    | Clear
    | Enter(worker: nat)
    | Look(worker: nat)
    | Finish(worker: nat)
    | AddWorkers(n: nat, threads: set<nat>)
    | RemoveWorkers(n: nat)
    | Start(threads: set<nat>)
    | Stop(join: bool)
    | Wake

  /** How many threads the loop of `create_workers_nl` starts. */
  function ToCreate(n: nat, active: nat, limit: nat): (k: nat) {
    if active >= limit then 0 else if n <= limit - active + 1 then n else limit - active + 1
  }

  function Queued(s: Manager): (q: set<nat>) {
    set t | t in s.tasks
  }

  predicate Enabled(s: Manager, e: Step) {
    match e
    case Push(t, _) => t !in s.pushed
    case Clear => true
    case Enter(w) => w in s.workers && s.workers[w] == Created
    case Look(w) => w in s.workers && (s.workers[w] == Free || s.workers[w] == Waiting)
    case Finish(w) => w in s.workers && s.workers[w].Holding?
    case AddWorkers(n, threads) => s.control == Resting && threads !! s.workers.Keys &&
      |threads| == (if s.phase == Idle || s.phase == Stopping then 0 else ToCreate(n, s.active, s.limit + n))
    case RemoveWorkers(_) => s.control == Resting
    case Start(threads) => s.control == Resting && threads !! s.workers.Keys &&
      |threads| == (if s.phase == Idle then ToCreate(s.limit, s.active, s.limit) else 0)
    case Stop(_) => s.control == Resting
    case Wake => s.control != Resting
  }

  function Apply(s: Manager, e: Step): (r: Manager)
    requires Enabled(s, e)
  {
    match e
    case Push(t, front) => s.(tasks := if front then [t] + s.tasks else s.tasks + [t], pushed := s.pushed + {t})
    case Clear => s.(tasks := [], cleared := s.cleared + Queued(s))
    case Enter(w) => Notify(s.(workers := s.workers[w := Free], count := s.count + 1))
    case Look(w) => LookAt(if s.workers[w] == Waiting && s.idle > 0 then s.(idle := s.idle - 1) else s, w)
    case Finish(w) => s.(workers := s.workers[w := Free], executed := s.executed + [s.workers[w].task])
    case AddWorkers(n, threads) => if n == 0 then s else AddThreads(s.(limit := s.limit + n), threads)
    case RemoveWorkers(n) => RemoveThreads(s, n)
    case Start(threads) => StartUp(s, threads)
    case Stop(join) => ShutDown(s, join)
    case Wake => Woken(s.(notified := false))
  }

  /** `manager_cv_.notify_one()` when the counts agree; it is lost on a controller that does not wait. */
  function Notify(s: Manager): (r: Manager) {
    if s.count == s.active && s.control != Resting then s.(notified := true) else s
  }

  /** A worker holds the mutex: it waits, takes the first task, or leaves. */
  function LookAt(s: Manager, w: nat): (r: Manager) {
    if s.count <= s.active && s.tasks == [] then s.(workers := s.workers[w := Waiting], idle := s.idle + 1)
    else if s.count <= s.active || (s.phase == Stopping && s.tasks != []) then
      if s.tasks != [] then s.(workers := s.workers[w := Holding(s.tasks[0])], tasks := s.tasks[1..]) else s
    else if s.count > 0 then Notify(s.(workers := s.workers - {w}, count := s.count - 1))
    else s
  }

  function WithThreads(s: Manager, threads: set<nat>): (r: Manager) {
    s.(workers := s.workers + (map w | w in threads :: Created), active := s.active + |threads|)
  }

  function AddThreads(s: Manager, threads: set<nat>): (r: Manager) {
    if s.phase == Idle || s.phase == Stopping || s.active >= s.limit then s
    else WithThreads(s, threads).(control := InAdd)
  }

  /** `kill_workers_nl`, up to its waiting loop. */
  function Fewer(s: Manager, n: nat): (r: Manager) {
    if n == 0 || s.active == 0 then s else s.(active := if n > s.active then 0 else s.active - n)
  }

  function RemoveThreads(s: Manager, n: nat): (r: Manager) {
    if n == 0 || s.limit == 0 then s
    else
      var k := if n > s.limit then s.limit else n;
      var r := s.(limit := s.limit - k);
      if s.phase == Idle || s.phase == Stopping then r
      else if s.active == 0 || s.count == Fewer(r, k).active then Fewer(r, k)
      else Fewer(r, k).(control := InRemove)
  }

  function StartUp(s: Manager, threads: set<nat>): (r: Manager) {
    if s.phase != Idle then s
    else if s.limit == 0 || s.active >= s.limit then s.(phase := Running)
    else WithThreads(s, threads).(phase := Starting, control := InStart)
  }

  function ShutDown(s: Manager, join: bool): (r: Manager) {
    if s.phase != Running then s
    else
      var r := if join then s else s.(tasks := [], cleared := s.cleared + Queued(s));
      if s.active == 0 || s.count == Fewer(s, s.active).active then Fewer(r, s.active).(phase := Idle)
      else Fewer(r, s.active).(phase := Stopping, control := InStop(Queued(s)))
  }

  /** The controller wakes: creation waits once, killing waits again until the counts agree. */
  function Woken(s: Manager): (r: Manager) {
    match s.control
    case Resting => s
    case InStart => s.(phase := Running, control := Resting)
    case InAdd => s.(control := Resting)
    case InRemove => if s.count == s.active then s.(control := Resting) else s
    case InStop(_) => if s.count == s.active then s.(phase := Idle, control := Resting) else s
  }

  // ---------- what every step keeps ----------

  function Entered(s: Manager): (ws: set<nat>) {
    set w | w in s.workers && s.workers[w] != Created
  }

  function Idling(s: Manager): (ws: set<nat>) {
    set w | w in s.workers && s.workers[w] == Waiting
  }

  ghost predicate Held(s: Manager, t: nat) {
    exists w :: HeldBy(s, t, w)
  }

  ghost predicate HeldBy(s: Manager, t: nat, w: nat) {
    w in s.workers && s.workers[w] == Holding(t)
  }

  ghost predicate Distinct(q: seq<nat>) {
    forall i, j | 0 <= i < |q| && 0 <= j < |q| && q[i] == q[j] :: i == j
  }

  /** The counters count the workers that have entered and those that wait. */
  ghost predicate Counted(s: Manager) {
    s.count == |Entered(s)| && s.idle == |Idling(s)|
  }

  /** A task is in one place. */
  ghost predicate InOnePlace(s: Manager, t: nat) {
    && (t in s.pushed <==> t in s.tasks || Held(s, t) || t in s.executed || t in s.cleared)
    && !(t in s.tasks && Held(s, t)) && !(t in s.tasks && t in s.executed) && !(t in s.tasks && t in s.cleared)
    && !(Held(s, t) && t in s.executed) && !(Held(s, t) && t in s.cleared) && !(t in s.executed && t in s.cleared)
  }

  /** ... once: queued at one place, held by one worker, or executed once. */
  ghost predicate Conserved(s: Manager) {
    && Distinct(s.tasks) && Distinct(s.executed)
    && (forall t {:trigger InOnePlace(s, t)} :: InOnePlace(s, t))
    && (forall t, v, w {:trigger HeldBy(s, t, v), HeldBy(s, t, w)} | HeldBy(s, t, v) && HeldBy(s, t, w) :: v == w)
  }

  /** Once the last worker is gone, nothing of `marked` is queued. */
  ghost predicate Drained(s: Manager, marked: set<nat>) {
    marked <= s.pushed && (s.count == 0 ==> forall t | t in marked :: t !in s.tasks)
  }

  /** What holds of a waiting `stop`. */
  ghost predicate StopWaiting(s: Manager) {
    match s.control
    case InStop(marked) => s.phase == Stopping && s.active == 0 && Drained(s, marked)
    case _ => true
  }

  /** What every step keeps, whoever wakes when. */
  ghost predicate Safe(s: Manager) {
    Counted(s) && Conserved(s) && StopWaiting(s)
  }

  /** What holds of the counters wherever the controller is, as long as it wakes only when notified. */
  ghost predicate Controlled(s: Manager) {
    && (s.notified ==> s.count == s.active)
    && match s.control
       case Resting => !s.notified && (if s.phase == Idle then s.active == 0 && s.workers == map[]
                                       else s.phase == Running && s.active == s.limit == s.count && Entered(s) == s.workers.Keys)
       case InStart => s.phase == Starting && s.active == s.limit == |s.workers|
       case InAdd => s.phase == Running && s.active == s.limit == |s.workers|
       case InRemove => s.phase == Running && s.active == s.limit <= s.count && Entered(s) == s.workers.Keys
       case InStop(_) => s.phase == Stopping && s.active == 0 && Entered(s) == s.workers.Keys
  }

  ghost predicate Inv(s: Manager) {
    Safe(s) && Controlled(s)
  }

  lemma InitInv(limit: nat)
    ensures Inv(Init(limit))
  {
    var s := Init(limit);
    forall t ensures InOnePlace(s, t) { assert !Held(s, t); }
  }

  // ---------- counting workers ----------

  /** Giving worker w another state changes the two sets by w at most. */
  lemma CountsAfter(s: Manager, r: Manager, w: nat, state: Worker)
    requires w in s.workers && r.workers == s.workers[w := state]
    ensures Entered(r) == if state == Created then Entered(s) - {w} else Entered(s) + {w}
    ensures Idling(r) == if state == Waiting then Idling(s) + {w} else Idling(s) - {w}
  {
  }

  lemma CountsGone(s: Manager, r: Manager, w: nat)
    requires w in s.workers && r.workers == s.workers - {w}
    ensures Entered(r) == Entered(s) - {w} && Idling(r) == Idling(s) - {w}
  {
  }

  lemma CountsCreated(s: Manager, r: Manager, threads: set<nat>)
    requires threads !! s.workers.Keys && r.workers == s.workers + (map w | w in threads :: Created)
    ensures Entered(r) == Entered(s) && Idling(r) == Idling(s) && |r.workers| == |s.workers| + |threads|
  {
    KeysCreated(s.workers, threads);
  }

  lemma KeysCreated(workers: map<nat, Worker>, threads: set<nat>)
    requires threads !! workers.Keys
    ensures var r := workers + (map w | w in threads :: Created); r.Keys == workers.Keys + threads && |r| == |workers| + |threads|
  {
    var r := workers + (map w | w in threads :: Created);
    assert r.Keys == workers.Keys + threads;
  }

  lemma InEntered(s: Manager, w: nat)
    requires w in s.workers
    ensures w in Entered(s) <==> s.workers[w] != Created
    ensures w in Idling(s) <==> s.workers[w] == Waiting
  {
  }

  lemma LookShape(s: Manager, w: nat)
    requires Enabled(s, Look(w))
    ensures var r := Apply(s, Look(w));
      if w in r.workers then r.workers == s.workers[w := r.workers[w]] && r.workers[w] != Created else r.workers == s.workers - {w}
  {
    assert s.workers == s.workers[w := s.workers[w]];
  }

  /** A worker at the queue is counted, and counted as idle just when it waited. */
  lemma LookCounts(s: Manager, w: nat)
    requires Counted(s) && Enabled(s, Look(w))
    ensures s.count > 0 && (s.workers[w] == Waiting ==> s.idle > 0) && Counted(Apply(s, Look(w)))
  {
    hide Entered, Idling;
    var r := Apply(s, Look(w));
    InEntered(s, w);
    if w !in r.workers {
      CountsGone(s, r, w);
    } else {
      CountsAfter(s, r, w, r.workers[w]);
    }
  }

  lemma StepCounted(s: Manager, e: Step)
    requires Counted(s) && Enabled(s, e)
    ensures Counted(Apply(s, e))
  {
    hide Counted, Apply;
    match e {
      case Enter(w) => EnterCounts(s, w);
      case Look(w) => LookCounts(s, w);
      case Finish(w) => FinishCounts(s, w);
      case AddWorkers(_, threads) => CreatingCounts(s, e, threads);
      case Start(threads) => CreatingCounts(s, e, threads);
      case _ => QuietCounts(s, e);
    }
  }

  /** Steps that leave the workers alone. */
  lemma QuietCounts(s: Manager, e: Step)
    requires Counted(s) && Enabled(s, e) && (e.Push? || e.Clear? || e.RemoveWorkers? || e.Stop? || e.Wake?)
    ensures Counted(Apply(s, e))
  {
    hide Entered, Idling;
    SameCounts(s, Apply(s, e));
  }

  lemma CreatingCounts(s: Manager, e: Step, threads: set<nat>)
    requires Counted(s) && Enabled(s, e) && ((e.AddWorkers? && e.threads == threads) || (e.Start? && e.threads == threads))
    ensures Counted(Apply(s, e))
  {
    hide Entered, Idling;
    ThreadsCount(s, Apply(s, e), threads);
  }

  lemma SameCounts(s: Manager, r: Manager)
    ensures r.workers == s.workers ==> Entered(r) == Entered(s) && Idling(r) == Idling(s)
  {
  }

  lemma EnterCounts(s: Manager, w: nat)
    requires Counted(s) && Enabled(s, Enter(w))
    ensures Counted(Apply(s, Enter(w)))
  {
    CountsAfter(s, Apply(s, Enter(w)), w, Free);
    assert w !in Entered(s) && w !in Idling(s);
  }

  lemma FinishCounts(s: Manager, w: nat)
    requires Counted(s) && Enabled(s, Finish(w))
    ensures Counted(Apply(s, Finish(w)))
  {
    CountsAfter(s, Apply(s, Finish(w)), w, Free);
    assert w in Entered(s) && w !in Idling(s);
    assert Entered(s) + {w} == Entered(s) && Idling(s) - {w} == Idling(s);
  }

  lemma ThreadsCount(s: Manager, r: Manager, threads: set<nat>)
    requires Counted(s) && r.count == s.count && r.idle == s.idle && threads !! s.workers.Keys
    requires r.workers == s.workers || r.workers == s.workers + (map w | w in threads :: Created)
    ensures Counted(r)
  {
    SameCounts(s, r);
    if r.workers != s.workers { CountsCreated(s, r, threads); }
  }

  // ---------- tasks ----------

  /** Workers hold in r what they hold in s. */
  ghost predicate SameHeld(s: Manager, r: Manager) {
    forall t, w {:trigger HeldBy(r, t, w)} {:trigger HeldBy(s, t, w)} :: HeldBy(r, t, w) <==> HeldBy(s, t, w)
  }

  lemma HeldSame(s: Manager, r: Manager)
    requires SameHeld(s, r)
    ensures forall t {:trigger Held(r, t)} {:trigger Held(s, t)} :: Held(r, t) <==> Held(s, t)
  {
    forall t ensures Held(r, t) <==> Held(s, t) {
      if Held(s, t) { var w :| HeldBy(s, t, w); assert HeldBy(r, t, w); }
      if Held(r, t) { var w :| HeldBy(r, t, w); assert HeldBy(s, t, w); }
    }
  }

  /** Steps that neither move tasks nor take, drop or finish one. */
  lemma KeptConserved(s: Manager, r: Manager)
    requires Conserved(s) && SameHeld(s, r)
    requires r.tasks == s.tasks && r.pushed == s.pushed && r.executed == s.executed && r.cleared == s.cleared
    ensures Conserved(r)
  {
    HeldSame(s, r);
    forall t ensures InOnePlace(r, t) { assert InOnePlace(s, t); }
  }

  lemma PushConserved(s: Manager, t: nat, front: bool)
    requires Conserved(s) && Enabled(s, Push(t, front))
    ensures Conserved(Apply(s, Push(t, front)))
  {
    var r := Apply(s, Push(t, front));
    assert SameHeld(s, r);
    HeldSame(s, r);
    assert InOnePlace(s, t);
    forall u ensures InOnePlace(r, u) {
      assert InOnePlace(s, u);
      assert u in r.tasks <==> u in s.tasks || u == t;
    }
  }

  /** Clearing the queue, with or without more. */
  lemma ClearConserved(s: Manager, r: Manager)
    requires Conserved(s) && SameHeld(s, r)
    requires r.tasks == [] && r.pushed == s.pushed && r.executed == s.executed && r.cleared == s.cleared + Queued(s)
    ensures Conserved(r)
  {
    HeldSame(s, r);
    forall t ensures InOnePlace(r, t) { assert InOnePlace(s, t); }
  }

  lemma TakeConserved(s: Manager, r: Manager, w: nat)
    requires Conserved(s) && w in s.workers && !s.workers[w].Holding? && s.tasks != []
    requires r.workers == s.workers[w := Holding(s.tasks[0])] && r.tasks == s.tasks[1..]
    requires r.pushed == s.pushed && r.executed == s.executed && r.cleared == s.cleared
    ensures Conserved(r)
  {
    var t := s.tasks[0];
    assert InOnePlace(s, t);
    HeldWith(s, r, w, t);
    forall u ensures InOnePlace(r, u) {
      assert InOnePlace(s, u);
      assert u in s.tasks <==> u in r.tasks || u == t;
    }
  }

  /** Worker w holds t besides what was held. */
  lemma HeldWith(s: Manager, r: Manager, w: nat, t: nat)
    requires w in s.workers && !s.workers[w].Holding? && r.workers == s.workers[w := Holding(t)]
    ensures forall u, v {:trigger HeldBy(r, u, v)} :: HeldBy(r, u, v) <==> HeldBy(s, u, v) || (u == t && v == w)
    ensures forall u {:trigger Held(r, u)} :: Held(r, u) <==> Held(s, u) || u == t
  {
    forall u ensures Held(r, u) <==> Held(s, u) || u == t {
      if Held(s, u) { var v :| HeldBy(s, u, v); assert HeldBy(r, u, v); }
      if u == t { assert HeldBy(r, u, w); }
      if Held(r, u) { var v :| HeldBy(r, u, v); assert v != w ==> HeldBy(s, u, v); }
    }
  }

  lemma FinishConserved(s: Manager, w: nat)
    requires Conserved(s) && Enabled(s, Finish(w))
    ensures Conserved(Apply(s, Finish(w)))
  {
    var r, t := Apply(s, Finish(w)), s.workers[w].task;
    assert HeldBy(s, t, w) && Held(s, t) && InOnePlace(s, t);
    forall u ensures Held(s, u) <==> Held(r, u) || u == t {
      if Held(r, u) { var v :| HeldBy(r, u, v); assert HeldBy(s, u, v); }
      if Held(s, u) && u != t { var v :| HeldBy(s, u, v); assert HeldBy(r, u, v); }
    }
    assert forall u, v {:trigger HeldBy(r, u, v)} :: HeldBy(r, u, v) ==> HeldBy(s, u, v) && v != w;
    assert !Held(r, t) by {
      forall v ensures !HeldBy(r, t, v) { assert HeldBy(r, t, v) ==> HeldBy(s, t, v); }
    }
    forall u ensures InOnePlace(r, u) {
      assert InOnePlace(s, u);
    }
  }

  lemma LookConserved(s: Manager, w: nat)
    requires Conserved(s) && Enabled(s, Look(w))
    ensures Conserved(Apply(s, Look(w)))
  {
    var r := Apply(s, Look(w));
    if w in r.workers && r.workers[w].Holding? {
      TakeConserved(s, r, w);
    } else {
      assert SameHeld(s, r);
      KeptConserved(s, r);
    }
  }

  lemma SameWorkersHeld(s: Manager, r: Manager)
    requires r.workers == s.workers
    ensures SameHeld(s, r)
  {
  }

  lemma ThreadsHeld(s: Manager, r: Manager, threads: set<nat>)
    requires threads !! s.workers.Keys
    requires r.workers == s.workers || r.workers == s.workers + (map w | w in threads :: Created)
    ensures SameHeld(s, r)
  {
  }

  lemma EnterConserved(s: Manager, w: nat)
    requires Conserved(s) && Enabled(s, Enter(w))
    ensures Conserved(Apply(s, Enter(w)))
  {
    hide Conserved;
    var r := Apply(s, Enter(w));
    assert SameHeld(s, r);
    KeptConserved(s, r);
  }

  /** A step of the controller, other than one that clears the queue. */
  lemma ControlConserved(s: Manager, e: Step)
    requires Conserved(s) && Enabled(s, e) && (e.AddWorkers? || e.RemoveWorkers? || e.Start? || e.Wake?)
    ensures Conserved(Apply(s, e))
  {
    hide Conserved, SameHeld;
    var r := Apply(s, e);
    match e {
      case AddWorkers(_, threads) => ThreadsHeld(s, r, threads);
      case Start(threads) => ThreadsHeld(s, r, threads);
      case _ => SameWorkersHeld(s, r);
    }
    KeptConserved(s, r);
  }

  lemma StopConserved(s: Manager, join: bool)
    requires Conserved(s) && Enabled(s, Stop(join))
    ensures Conserved(Apply(s, Stop(join)))
  {
    hide Conserved, SameHeld;
    var r := Apply(s, Stop(join));
    SameWorkersHeld(s, r);
    if s.phase == Running && !join { ClearConserved(s, r); } else { KeptConserved(s, r); }
  }

  lemma StepConserved(s: Manager, e: Step)
    requires Conserved(s) && Enabled(s, e)
    ensures Conserved(Apply(s, e))
  {
    hide Conserved, SameHeld, Apply;
    match e {
      case Push(t, front) => PushConserved(s, t, front);
      case Clear => ClearStepConserved(s);
      case Enter(w) => EnterConserved(s, w);
      case Look(w) => LookConserved(s, w);
      case Finish(w) => FinishConserved(s, w);
      case Stop(join) => StopConserved(s, join);
      case _ => ControlConserved(s, e);
    }
  }

  lemma ClearStepConserved(s: Manager)
    requires Conserved(s)
    ensures Conserved(Apply(s, Clear))
  {
    SameWorkersHeld(s, Apply(s, Clear));
    ClearConserved(s, Apply(s, Clear));
  }

  // ---------- the controller ----------

  /** As many entered as there are: all have. */
  lemma AllEntered(s: Manager)
    requires Counted(s)
    ensures s.count <= |s.workers| && (s.count == |s.workers| ==> Entered(s) == s.workers.Keys)
  {
    SubsetSize(Entered(s), s.workers.Keys);
  }

  lemma EnterControlled(s: Manager, w: nat)
    requires Counted(s) && Controlled(s) && Enabled(s, Enter(w))
    ensures Controlled(Apply(s, Enter(w)))
  {
    hide Entered, Idling, Drained;
    AllEntered(s);
    NotEntered(s, w);
    EnterCounts(s, w);
    var r := Apply(s, Enter(w));
    AllEntered(r);
    assert r.workers.Keys == s.workers.Keys;
  }

  lemma NotEntered(s: Manager, w: nat)
    requires w in s.workers && s.workers[w] == Created
    ensures w !in Entered(s) && Entered(s) != s.workers.Keys
  {
  }

  lemma FinishControlled(s: Manager, w: nat)
    requires Controlled(s) && Enabled(s, Finish(w))
    ensures Controlled(Apply(s, Finish(w)))
  {
    var r := Apply(s, Finish(w));
    CountsAfter(s, r, w, Free);
    assert w in Entered(s);
    hide Entered, Idling;
    assert r.workers.Keys == s.workers.Keys && Entered(r) == Entered(s);
  }

  /** A worker leaves when there are too many, but for a stopping pool whose queue is not empty, and only then; otherwise it
      takes the first task, or waits if there is none. */
  lemma WhenWorkersLeave(s: Manager, w: nat)
    requires Counted(s) && Enabled(s, Look(w))
    ensures var r := Apply(s, Look(w));
      && (w !in r.workers <==> s.count > s.active && (s.phase == Stopping ==> s.tasks == []))
      && (w in r.workers ==> r.workers[w] == if s.tasks == [] then Waiting else Holding(s.tasks[0]))
  {
    LookCounts(s, w);
  }

  lemma LookControlled(s: Manager, w: nat)
    requires Counted(s) && Controlled(s) && Enabled(s, Look(w))
    ensures Controlled(Apply(s, Look(w)))
  {
    hide Apply, LookAt, Controlled, Entered, Idling;
    InEntered(s, w);
    var r := Apply(s, Look(w));
    AllEntered(s);
    LookCounts(s, w);
    LookShape(s, w);
    if w in r.workers {
      CountsAfter(s, r, w, r.workers[w]);
      assert r.workers.Keys == s.workers.Keys && Entered(r) == Entered(s);
      LookStays(s, r, w);
    } else {
      CountsGone(s, r, w);
      assert r.workers.Keys == s.workers.Keys - {w};
      LookLeaves(s, r, w);
    }
  }

  lemma LookStays(s: Manager, r: Manager, w: nat)
    requires Controlled(s) && Enabled(s, Look(w)) && r == Apply(s, Look(w)) && w in r.workers && s.count > 0
    requires r.workers.Keys == s.workers.Keys && Entered(r) == Entered(s)
    ensures Controlled(r)
  {
    hide Entered, Idling;
    assert |r.workers| == |r.workers.Keys| && |s.workers| == |s.workers.Keys|;
  }

  lemma LookLeaves(s: Manager, r: Manager, w: nat)
    requires Controlled(s) && Enabled(s, Look(w)) && r == Apply(s, Look(w)) && w !in r.workers && s.count > 0
    requires s.count <= |s.workers| && (s.workers[w] == Waiting ==> s.idle > 0)
    requires r.workers.Keys == s.workers.Keys - {w} && Entered(r) == Entered(s) - {w}
    ensures Controlled(r)
  {
    hide Entered, Idling;
  }

  lemma QueueControlled(s: Manager, e: Step)
    requires Controlled(s) && Enabled(s, e) && (e.Push? || e.Clear?)
    ensures Controlled(Apply(s, e))
  {
    hide Entered, Idling;
    SameCounts(s, Apply(s, e));
  }

  lemma AddControlled(s: Manager, n: nat, threads: set<nat>)
    requires Counted(s) && Controlled(s) && Enabled(s, AddWorkers(n, threads))
    ensures Controlled(Apply(s, AddWorkers(n, threads)))
  {
    hide Entered, Idling;
    var r := Apply(s, AddWorkers(n, threads));
    AllEntered(s);
    SameCounts(s, r);
    CountsCreated(s, WithThreads(s.(limit := s.limit + n), threads), threads);
  }

  lemma RemoveControlled(s: Manager, n: nat)
    requires Controlled(s) && Enabled(s, RemoveWorkers(n))
    ensures Controlled(Apply(s, RemoveWorkers(n)))
  {
    hide Entered, Idling;
    SameCounts(s, Apply(s, RemoveWorkers(n)));
  }

  lemma NoWorkers(s: Manager)
    ensures s.workers == map[] ==> Entered(s) == {} && Idling(s) == {}
  {
  }

  lemma StartControlled(s: Manager, threads: set<nat>)
    requires Counted(s) && Controlled(s) && Enabled(s, Start(threads))
    ensures Controlled(Apply(s, Start(threads)))
    ensures s.phase == Idle ==> s.count == 0 && s.idle == 0
  {
    hide Entered, Idling;
    var r := Apply(s, Start(threads));
    AllEntered(s);
    SameCounts(s, r);
    CountsCreated(s, WithThreads(s, threads), threads);
    NoWorkers(s);
  }

  lemma StopControlled(s: Manager, join: bool)
    requires Counted(s) && Controlled(s) && Enabled(s, Stop(join))
    ensures Controlled(Apply(s, Stop(join)))
  {
    hide Entered, Idling;
    SameCounts(s, Apply(s, Stop(join)));
    AllEntered(s);
    assert s.workers.Keys == {} ==> s.workers == map[];
  }

  lemma WakeControlled(s: Manager)
    requires Counted(s) && Controlled(s) && Enabled(s, Wake) && s.notified
    ensures Controlled(Apply(s, Wake))
  {
    hide Entered, Idling;
    AllEntered(s);
    SameCounts(s, Apply(s, Wake));
    if s.count == 0 && Entered(s) == s.workers.Keys { assert s.workers.Keys == {}; }
  }

  lemma StepControlled(s: Manager, e: Step)
    requires Inv(s) && Enabled(s, e) && (e == Wake ==> s.notified)
    ensures Controlled(Apply(s, e))
  {
    hide Conserved, Apply, Controlled, Counted;
    match e {
      case Push(_, _) => QueueControlled(s, e);
      case Clear => QueueControlled(s, e);
      case Enter(w) => EnterControlled(s, w);
      case Look(w) => LookControlled(s, w);
      case Finish(w) => FinishControlled(s, w);
      case Wake => WakeControlled(s);
      case AddWorkers(n, threads) => AddControlled(s, n, threads);
      case RemoveWorkers(n) => RemoveControlled(s, n);
      case Start(threads) => StartControlled(s, threads);
      case Stop(join) => StopControlled(s, join);
    }
  }

  // ---------- a waiting stop ----------

  lemma QueuedPushed(s: Manager)
    requires Conserved(s)
    ensures Queued(s) <= s.pushed
  {
    forall t | t in s.tasks ensures t in s.pushed { assert InOnePlace(s, t); }
  }

  /** New tasks are not among those `stop` remembers, and the last worker leaves an empty queue. */
  lemma StepStopWaiting(s: Manager, e: Step)
    requires Safe(s) && Enabled(s, e)
    ensures StopWaiting(Apply(s, e))
  {
    if e.Look? { LookCounts(s, e.worker); }
    QueuedPushed(s);
    hide Counted, Conserved, Entered, Idling;
    match e {
      case Look(w) => LookStopWaiting(s, w);
      case _ =>
    }
  }

  lemma LookStopWaiting(s: Manager, w: nat)
    requires StopWaiting(s) && Enabled(s, Look(w)) && s.count > 0
    ensures StopWaiting(Apply(s, Look(w)))
  {
    var r := Apply(s, Look(w));
    if s.control.InStop? {
      assert forall t | t in r.tasks :: t in s.tasks;
    }
  }

  // ---------- runs ----------

  lemma StepSafe(s: Manager, e: Step)
    requires Safe(s) && Enabled(s, e)
    ensures Safe(Apply(s, e))
  {
    hide Apply, Counted, Conserved, StopWaiting;
    StepCounted(s, e);
    StepConserved(s, e);
    StepStopWaiting(s, e);
  }

  /** Every step keeps the invariant, if the controller wakes only when notified. */
  lemma StepInv(s: Manager, e: Step)
    requires Inv(s) && Enabled(s, e) && (e == Wake ==> s.notified)
    ensures Inv(Apply(s, e))
  {
    hide Apply, Safe, Controlled;
    StepSafe(s, e);
    StepControlled(s, e);
  }

  /** The states s[0], s[1], ... reached by the steps es from the start. */
  ghost predicate Run(limit: nat, es: seq<Step>, s: seq<Manager>) {
    && |s| == |es| + 1 && s[0] == Init(limit)
    && forall i {:trigger StepAt(es, s, i)} | 0 <= i < |es| :: StepAt(es, s, i)
  }

  ghost predicate StepAt(es: seq<Step>, s: seq<Manager>, i: int) {
    0 <= i < |es| && i + 1 < |s| && Enabled(s[i], es[i]) && s[i + 1] == Apply(s[i], es[i])
  }

  /** A run in which the controller wakes only when notified. */
  ghost predicate Prompt(es: seq<Step>, s: seq<Manager>) {
    forall i {:trigger NotifiedAt(es, s, i)} | 0 <= i < |es| :: NotifiedAt(es, s, i)
  }

  ghost predicate NotifiedAt(es: seq<Step>, s: seq<Manager>, i: int) {
    0 <= i < |es| && i < |s| && (es[i] == Wake ==> s[i].notified)
  }

  lemma {:induction false} RunSafe(limit: nat, es: seq<Step>, s: seq<Manager>, k: nat)
    requires Run(limit, es, s) && k < |s|
    ensures Safe(s[k])
  {
    hide Safe, Inv, Apply;
    if k == 0 {
      InitInv(limit);
    } else {
      RunSafe(limit, es, s, k - 1);
      assert StepAt(es, s, k - 1);
      StepSafe(s[k - 1], es[k - 1]);
    }
  }

  lemma {:induction false} RunInv(limit: nat, es: seq<Step>, s: seq<Manager>, k: nat)
    requires Run(limit, es, s) && Prompt(es, s) && k < |s|
    ensures Inv(s[k])
  {
    hide Inv, Apply;
    if k == 0 {
      InitInv(limit);
    } else {
      RunInv(limit, es, s, k - 1);
      assert StepAt(es, s, k - 1) && NotifiedAt(es, s, k - 1);
      StepInv(s[k - 1], es[k - 1]);
    }
  }

  /** In every interleaving the counters are right, and each task pushed is queued, held by one worker, executed once or
      cleared, and only one of these. */
  lemma Safety(limit: nat, es: seq<Step>, s: seq<Manager>, k: nat)
    requires Run(limit, es, s) && k < |s|
    ensures s[k].count == |Entered(s[k])| && s[k].idle == |Idling(s[k])|
    ensures Distinct(s[k].tasks) && Distinct(s[k].executed)
    ensures forall t {:trigger InOnePlace(s[k], t)} :: InOnePlace(s[k], t)
    ensures forall t, v, w | HeldBy(s[k], t, v) && HeldBy(s[k], t, w) :: v == w
  {
    RunSafe(limit, es, s, k);
  }

  /** Between calls of the controller the pool is as large as it was told to be, or empty, if the controller wakes only
      when notified. */
  lemma RestingPool(limit: nat, es: seq<Step>, s: seq<Manager>, k: nat)
    requires Run(limit, es, s) && Prompt(es, s) && k < |s| && s[k].control == Resting
    ensures if s[k].phase == Idle then s[k].workers == map[] && s[k].count == 0 && s[k].idle == 0
            else s[k].phase == Running && s[k].count == s[k].limit == |s[k].workers|
  {
    RunInv(limit, es, s, k);
    AllEntered(s[k]);
    NoWorkers(s[k]);
    hide Entered, Idling, Conserved;
    assert Entered(s[k]) == s[k].workers.Keys ==> s[k].count == |s[k].workers|;
  }

  // ---------- the queue and the limit ----------

  /** At which end a task joins the queue, and which leave it: the first one, to the worker that looks, or all of them. */
  lemma StepQueue(s: Manager, e: Step)
    requires Enabled(s, e)
    ensures var q, r := s.tasks, Apply(s, e);
      match e
      case Push(t, front) => |r.tasks| == |q| + 1 && if front then r.tasks[0] == t && r.tasks[1..] == q else r.tasks[|q|] == t && r.tasks[..|q|] == q
      case Clear => r.tasks == [] && r.cleared == s.cleared + Queued(s)
      case Stop(join) => if s.phase == Running && !join then r.tasks == [] && r.cleared == s.cleared + Queued(s) else r.tasks == q
      case Look(w) => r.tasks == q || (q != [] && HeldBy(r, q[0], w) && r.tasks == q[1..])
      case _ => r.tasks == q
  {
  }

  /** What the pool is told to be follows the calls, whatever its phase. */
  lemma StepLimit(s: Manager, e: Step)
    requires Enabled(s, e)
    ensures var limit := Apply(s, e).limit;
      match e
      case AddWorkers(n, _) => limit == s.limit + n
      case RemoveWorkers(n) => limit == if n < s.limit then s.limit - n else 0
      case _ => limit == s.limit
  {
  }

  /** The tasks pushed by the first k steps, in that order. */
  ghost function Pushes(es: seq<Step>, k: nat): (ts: seq<nat>)
    requires k <= |es|
  {
    if k == 0 then [] else Pushes(es, k - 1) + if es[k - 1].Push? then [es[k - 1].task] else []
  }

  /** The tasks that left the front of the queue in the first k steps, in that order. */
  ghost function Departures(s: seq<Manager>, k: nat): (ts: seq<nat>)
    requires k < |s|
  {
    if k == 0 then [] else
      var q, r := s[k - 1].tasks, s[k].tasks;
      Departures(s, k - 1) + if |r| <= |q| then q[..|q| - |r|] else []
  }

  /** First in, first out: where all pushes are at the back, tasks leave the queue in the order pushed, and those that have
      not left it are queued in that order. */
  lemma {:induction false} FirstInFirstOut(limit: nat, es: seq<Step>, s: seq<Manager>, k: nat)
    requires Run(limit, es, s) && k <= |es| && forall i | 0 <= i < k && es[i].Push? :: !es[i].front
    ensures k < |s| && Departures(s, k) + s[k].tasks == Pushes(es, k)
  {
    hide Apply, Run, Enabled, StepAt;
    RunBegins(limit, es, s);
    if k > 0 {
      FirstInFirstOut(limit, es, s, k - 1);
      RunStep(limit, es, s, k - 1);
      DepartNext(s[k - 1], es[k - 1]);
      var q, r := s[k - 1].tasks, s[k].tasks;
      Regroup(Departures(s, k - 1), q, Pushes(es, k - 1), if |r| <= |q| then q[..|q| - |r|] else [],
        r, if es[k - 1].Push? then [es[k - 1].task] else []);
    }
  }

  lemma Regroup(d: seq<nat>, q: seq<nat>, p: seq<nat>, left: seq<nat>, r: seq<nat>, more: seq<nat>)
    requires d + q == p && q + more == left + r
    ensures (d + left) + r == p + more
  {
    assert (d + left) + r == d + (left + r) && d + (q + more) == (d + q) + more;
  }

  lemma RunBegins(limit: nat, es: seq<Step>, s: seq<Manager>)
    requires Run(limit, es, s)
    ensures |s| == |es| + 1 && s[0].tasks == []
  {
  }

  lemma RunStep(limit: nat, es: seq<Step>, s: seq<Manager>, i: nat)
    requires Run(limit, es, s) && i < |es|
    ensures |s| == |es| + 1 && Enabled(s[i], es[i]) && s[i + 1] == Apply(s[i], es[i])
  {
    assert StepAt(es, s, i);
  }

  lemma DepartNext(s: Manager, e: Step)
    requires Enabled(s, e) && !(e.Push? && e.front)
    ensures var q, r := s.tasks, Apply(s, e).tasks;
      q + (if e.Push? then [e.task] else []) == (if |r| <= |q| then q[..|q| - |r|] else []) + r
  {
    StepQueue(s, e);
    hide Apply;
    var q, r := s.tasks, Apply(s, e).tasks;
    if |r| <= |q| { assert q == q[..|q| - |r|] + r; } else { assert r == q + [e.task]; }
  }

  // ---------- stop ----------

  /** `stop( true )` begins in state i on a running pool and returns in state j. */
  ghost predicate Joins(es: seq<Step>, s: seq<Manager>, i: nat, j: nat) {
    && i < |es| && i < j < |s| && es[i] == Stop(true) && s[i].phase == Running && s[i].control == Resting
    && s[j].control == Resting && forall k | i < k < j :: s[k].control != Resting
  }

  /** It waits if and only if there is a worker to wait for. */
  lemma StopStarts(s: Manager)
    requires s.phase == Running && s.control == Resting
    ensures Enabled(s, Stop(true)) && Apply(s, Stop(true)).tasks == s.tasks
    ensures var r := Apply(s, Stop(true)); if s.active > 0 && s.count > 0 then r.control == InStop(Queued(s)) else r.control == Resting && r.phase == Idle
  {
  }

  /** While it waits, what was queued when it began stays remembered. */
  lemma {:induction false} StopWaits(limit: nat, es: seq<Step>, s: seq<Manager>, i: nat, j: nat, k: nat)
    requires Run(limit, es, s) && Joins(es, s, i, j) && i < k < j
    ensures s[k].control == InStop(Queued(s[i]))
    decreases k
  {
    assert StepAt(es, s, k - 1) && StepAt(es, s, i);
    if k == i + 1 {
      StopStarts(s[i]);
    } else {
      StopWaits(limit, es, s, i, j, k - 1);
      hide Joins;
      ControlStays(s[k - 1], es[k - 1]);
    }
  }

  lemma ControlStays(s: Manager, e: Step)
    requires Enabled(s, e) && s.control != Resting
    ensures Apply(s, e).control == s.control || Apply(s, e).control == Resting
  {
  }

  /** Whoever wakes when, a task queued when `stop( true )` begins on a running pool is neither queued nor held when it
      returns if and only if there were workers, active and entered, when it began. If so, it has been executed or
      cleared. */
  lemma JoinDrains(limit: nat, es: seq<Step>, s: seq<Manager>, i: nat, j: nat, t: nat)
    requires Run(limit, es, s) && Joins(es, s, i, j) && t in s[i].tasks
    ensures s[j].phase == Idle
    ensures t !in s[j].tasks && !Held(s[j], t) <==> s[i].active > 0 && s[i].count > 0
    ensures s[i].active > 0 && s[i].count > 0 ==> t in s[j].executed || t in s[j].cleared
  {
    assert StepAt(es, s, i) && StepAt(es, s, j - 1);
    StopStarts(s[i]);
    if s[i].active > 0 && s[i].count > 0 {
      StopWaits(limit, es, s, i, j, j - 1);
      RunSafe(limit, es, s, j - 1);
      RunSafe(limit, es, s, j);
      StopReturns(s[j - 1], es[j - 1], Queued(s[i]));
      assert t in Queued(s[i]) && InOnePlace(s[j], t);
      NoneHeld(s[j], t);
    } else {
      assert s[i + 1].control == Resting;
    }
  }

  lemma NoneHeld(s: Manager, t: nat)
    requires Counted(s) && s.count == 0
    ensures !Held(s, t)
  {
    assert Entered(s) == {};
    forall w ensures !HeldBy(s, t, w) { assert w !in Entered(s); }
  }

  lemma StopReturns(s: Manager, e: Step, marked: set<nat>)
    requires Safe(s) && Enabled(s, e) && s.control == InStop(marked) && Apply(s, e).control == Resting
    ensures var r := Apply(s, e); r.phase == Idle && r.count == 0 && marked <= r.pushed && forall t | t in marked :: t !in r.tasks
  {
    hide Counted, Conserved, Entered, Idling;
  }

  /** In a run in which the controller wakes only when notified all threads told to run have entered, so `stop( true )`
      drains the queue of a pool that has any. */
  lemma PromptJoinDrains(limit: nat, es: seq<Step>, s: seq<Manager>, i: nat, j: nat, t: nat)
    requires Run(limit, es, s) && Prompt(es, s) && Joins(es, s, i, j) && t in s[i].tasks
    ensures t !in s[j].tasks && !Held(s[j], t) <==> s[i].limit > 0
  {
    RunInv(limit, es, s, i);
    JoinDrains(limit, es, s, i, j, t);
  }

  /** The wait in `create_workers_nl` is not repeated: should it end without a notification, `start` returns before its
      worker has entered, and `stop( true )` before the queue is looked at. */
  lemma UnguardedWait(t: nat) returns (es: seq<Step>, s: seq<Manager>)
    ensures Run(1, es, s) && |s| == 5 && Joins(es, s, 3, 4) && t in s[3].tasks && t in s[4].tasks && s[3].active == 1
  {
    hide Queued;
    assert |{0}| == 1 && {0} !! Init(1).workers.Keys;
    var s1 := Apply(Init(1), Start({0}));
    var s2 := Apply(s1, Wake);
    var s3 := Apply(s2, Push(t, false));
    assert s3.tasks == [t] && s3.count == 0 && s3.active == 1 && s3.phase == Running && s3.control == Resting;
    var s4 := Apply(s3, Stop(true));
    es, s := [Start({0}), Wake, Push(t, false), Stop(true)], [Init(1), s1, s2, s3, s4];
    forall i | 0 <= i < |es| ensures StepAt(es, s, i) {
      assert i == 0 || i == 1 || i == 2 || i == 3;
    }
  }
}
