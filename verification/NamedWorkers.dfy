/** Named single-thread workers, each draining a queue of closures in order, and the lazy handles
    through which callers wait for the closures' results.

    Tasks are numbered in submission order. The outcome of a task's closure is given with it:
    `Some(v)` if it returns `v`, `None` if it panics. */
module NamedWorkers {
  import opened Wrappers

  /** A worker thread: its channel, the task it is running, and what it has run. */
  datatype Worker = Worker(
    submitted: seq<nat>, queue: seq<nat>, running: Option<nat>, ran: seq<nat>, closed: bool, exited: bool)

  /** How a call of `get` ends. */
  datatype GetResult<R> = Value(value: R) | TaskDropped | AlreadyTaken | LockPoisoned

  /** The state behind all clones of one handle, with the results of the calls of `get` so far. */
  datatype Lazy<R> = Lazy(
    receiver: Option<nat>, value: Option<R>, poisoned: bool, clones: nat, gets: seq<GetResult<R>>)

  /** `outcomes`, `owners` and `handles` are indexed by task. */
  datatype State<R> = State(
    workers: map<string, Worker>,
    outcomes: seq<Option<R>>,
    owners: seq<string>,
    results: map<nat, Option<R>>,
    handles: seq<Lazy<R>>)

  datatype Action<R> =
    | Spawn(name: string, outcome: Option<R>)
    | Receive(name: string)
    | Finish(name: string)
    | Close(name: string)
    | Exit(name: string)
    | Get(id: nat)
    | IntoInner(id: nat)
    | CloneHandle(id: nat)
    | DropHandle(id: nat)

  // ---------- the steps ----------

  function Init<R>(): State<R> {
    State(map[], [], [], map[], [])
  }

  function NewWorker(): Worker {
    Worker([], [], None, [], false, false)
  }

  /** The worker of a name, made on first use. */
  function WorkerOf(workers: map<string, Worker>, name: string): Worker {
    if name in workers then workers[name] else NewWorker()
  }

  predicate Enabled<R>(s: State<R>, a: Action<R>) {
    match a
    case Spawn(name, _) => !WorkerOf(s.workers, name).closed
    case Receive(name) => name in s.workers && s.workers[name].running.None? && s.workers[name].queue != []
    case Finish(name) => name in s.workers && s.workers[name].running.Some?
    case Close(name) => name in s.workers && !s.workers[name].closed
    case Exit(name) =>
      name in s.workers && s.workers[name].closed && !s.workers[name].exited
      && s.workers[name].running.None? && s.workers[name].queue == []
    case Get(id) => id < |s.handles| && s.handles[id].clones > 0 && CanGet(s.handles[id], s.results)
    case IntoInner(id) => id < |s.handles| && s.handles[id].clones > 0 && CanGet(s.handles[id], s.results)
    case CloneHandle(id) => id < |s.handles| && s.handles[id].clones > 0
    case DropHandle(id) => id < |s.handles| && s.handles[id].clones > 0
  }

  /** A `get` returns without waiting unless it has taken the receiver of an unfinished task. */
  predicate CanGet<R>(l: Lazy<R>, results: map<nat, Option<R>>) {
    l.value.Some? || l.poisoned || l.receiver.None? || l.receiver.value in results
  }

  /** One call of `get`: the cached value, or else the lock, the receiver, and the result. A panic
      while the lock is held poisons it; one while waiting for the result does not. */
  function GetStep<R>(l: Lazy<R>, results: map<nat, Option<R>>): (Lazy<R>, GetResult<R>)
    requires CanGet(l, results)
  {
    if l.value.Some? then (l, Value(l.value.value))
    else if l.poisoned then (l, LockPoisoned)
    else if l.receiver.None? then (l.(poisoned := true), AlreadyTaken)
    else
      match results[l.receiver.value]
      case Some(v) => (l.(receiver := None, value := Some(v)), Value(v))
      case None => (l.(receiver := None), TaskDropped)
  }

  function LoggedGet<R>(l: Lazy<R>, results: map<nat, Option<R>>): Lazy<R>
    requires CanGet(l, results)
  {
    var (l', r) := GetStep(l, results);
    l'.(gets := l.gets + [r])
  }

  /** How a call of `try_into_inner` ends: with the value, with the handle back because other
      clones exist, or with the panic of its `get`. */
  datatype IntoResult<R> = Inner(value: R) | StillShared | Failed(panic: GetResult<R>)

  function IntoInnerOf<R>(l: Lazy<R>, results: map<nat, Option<R>>): IntoResult<R>
    requires CanGet(l, results)
  {
    match GetStep(l, results).1
    case Value(v) => if l.clones == 1 then Inner(v) else StillShared
    case panic => Failed(panic)
  }

  /** `try_into_inner` consumes its handle, unless it gives it back. */
  function AfterIntoInner<R>(l: Lazy<R>, results: map<nat, Option<R>>): Lazy<R>
    requires CanGet(l, results) && l.clones > 0
  {
    var l' := LoggedGet(l, results);
    if IntoInnerOf(l, results).StillShared? then l' else l'.(clones := l'.clones - 1)
  }

  function Submit(w: Worker, id: nat): Worker {
    w.(submitted := w.submitted + [id], queue := w.queue + [id])
  }

  predicate WellFormed<R>(s: State<R>) {
    && |s.owners| == |s.handles| == |s.outcomes|
    && (forall name :: name in s.workers && s.workers[name].running.Some? ==>
          s.workers[name].running.value < |s.outcomes|)
  }

  function Apply<R>(s: State<R>, a: Action<R>): State<R>
    requires WellFormed(s) && Enabled(s, a)
  {
    match a
    case Spawn(name, outcome) =>
      var id := |s.outcomes|;
      State(s.workers[name := Submit(WorkerOf(s.workers, name), id)],
            s.outcomes + [outcome], s.owners + [name], s.results,
            s.handles + [Lazy(Some(id), None, false, 1, [])])
    case Receive(name) =>
      var w := s.workers[name];
      s.(workers := s.workers[name := w.(running := Some(w.queue[0]), queue := w.queue[1..])])
    case Finish(name) =>
      var w := s.workers[name];
      var id := w.running.value;
      s.(workers := s.workers[name := w.(running := None, ran := w.ran + [id])],
         results := s.results[id := s.outcomes[id]])
    case Close(name) => s.(workers := s.workers[name := s.workers[name].(closed := true)])
    case Exit(name) => s.(workers := s.workers[name := s.workers[name].(exited := true)])
    case Get(id) => s.(handles := s.handles[id := LoggedGet(s.handles[id], s.results)])
    case IntoInner(id) => s.(handles := s.handles[id := AfterIntoInner(s.handles[id], s.results)])
    case CloneHandle(id) =>
      s.(handles := s.handles[id := s.handles[id].(clones := s.handles[id].clones + 1)])
    case DropHandle(id) =>
      s.(handles := s.handles[id := s.handles[id].(clones := s.handles[id].clones - 1)])
  }

  // ---------- the invariant ----------

  function Pending(w: Worker): seq<nat> {
    (if w.running.Some? then [w.running.value] else []) + w.queue
  }

  /** A worker has run a prefix of what was submitted to it, in order, and the rest is waiting. */
  predicate WorkerInv(w: Worker) {
    && w.ran + Pending(w) == w.submitted
    && (forall i, j :: 0 <= i < j < |w.submitted| ==> w.submitted[i] < w.submitted[j])
    && (w.exited ==> w.closed && w.ran == w.submitted)
  }

  /** Everything submitted to the worker of `name` belongs to that name. */
  predicate Owns(w: Worker, name: string, owners: seq<string>) {
    forall k :: 0 <= k < |w.submitted| ==> w.submitted[k] < |owners| && owners[w.submitted[k]] == name
  }

  predicate WorkersInv(workers: map<string, Worker>, owners: seq<string>) {
    forall name :: name in workers ==> WorkerInv(workers[name]) && Owns(workers[name], name, owners)
  }

  /** Every task belongs to one worker, and has a result, its own, exactly when that worker ran it. */
  predicate TaskInv<R(==)>(s: State<R>, id: nat)
    requires id < |s.owners| && id < |s.outcomes|
  {
    && s.owners[id] in s.workers
    && id in s.workers[s.owners[id]].submitted
    && (id in s.results <==> id in s.workers[s.owners[id]].ran)
    && (id in s.results ==> s.results[id] == s.outcomes[id])
  }

  ghost predicate TasksInv<R>(s: State<R>)
    requires |s.owners| == |s.outcomes|
  {
    && (forall id :: id in s.results ==> id < |s.outcomes|)
    && forall id :: 0 <= id < |s.outcomes| ==> TaskInv(s, id)
  }

  /** What the calls of `get` on one handle have returned, and what they left. */
  predicate LazyInv<R(==)>(l: Lazy<R>, id: nat, outcome: Option<R>) {
    if l.gets == [] then l.receiver == Some(id) && l.value.None? && !l.poisoned
    else
      && l.receiver.None?
      && l.value == outcome
      && l.poisoned == (outcome.None? && |l.gets| > 1)
      && forall k :: 0 <= k < |l.gets| ==> l.gets[k] == ExpectedGet(outcome, k)
  }

  /** Every call returns the task's value; after a panicked task the first call reports the
      panic, the second the missing receiver, and every later one the poisoned lock. */
  function ExpectedGet<R>(outcome: Option<R>, k: nat): GetResult<R> {
    match outcome
    case Some(v) => Value(v)
    case None => if k == 0 then TaskDropped else if k == 1 then AlreadyTaken else LockPoisoned
  }

  ghost predicate LaziesInv<R>(s: State<R>)
    requires |s.handles| == |s.outcomes|
  {
    forall id :: 0 <= id < |s.handles| ==>
      LazyInv(s.handles[id], id, s.outcomes[id]) && (s.handles[id].gets != [] ==> id in s.results)
  }

  ghost predicate Inv<R>(s: State<R>) {
    WellFormed(s) && WorkersInv(s.workers, s.owners) && TasksInv(s) && LaziesInv(s)
  }

  /** Replacing the worker of one name by one that keeps its own invariant and its submissions. */
  lemma WorkerReplaced(workers: map<string, Worker>, owners: seq<string>, name: string, w: Worker)
    requires WorkersInv(workers, owners) && name in workers && WorkerInv(w)
    requires w.submitted == workers[name].submitted
    ensures WorkersInv(workers[name := w], owners)
  {
    hide WorkerInv;
    assert Owns(workers[name], name, owners);
  }

  lemma SubmitKeepsWorker(w: Worker, name: string, owners: seq<string>)
    requires WorkerInv(w) && Owns(w, name, owners) && !w.closed
    ensures WorkerInv(Submit(w, |owners|)) && Owns(Submit(w, |owners|), name, owners + [name])
  {
    var w' := Submit(w, |owners|);
    assert w.ran + Pending(w') == w.ran + Pending(w) + [|owners|];
  }

  lemma SpawnKeepsWorkers<R>(s: State<R>, name: string, outcome: Option<R>)
    requires Inv(s) && Enabled(s, Spawn(name, outcome))
    ensures WorkersInv(Apply(s, Spawn(name, outcome)).workers, s.owners + [name])
  {
    hide TasksInv;
    hide LaziesInv;
    hide WorkerInv;
    var w := WorkerOf(s.workers, name);
    assert WorkerInv(NewWorker()) by { NewWorkerInv(); }
    SubmitKeepsWorker(w, name, s.owners);
    forall other | other in s.workers && other != name
      ensures Owns(s.workers[other], other, s.owners + [name])
    {
      assert Owns(s.workers[other], other, s.owners);
    }
  }

  lemma NewWorkerInv()
    ensures WorkerInv(NewWorker())
  {
  }

  lemma RanIsSubmitted(w: Worker, id: nat)
    requires WorkerInv(w)
    ensures id in w.ran ==> id in w.submitted
    ensures w.running == Some(id) ==> id in w.submitted
  {
    var all := w.ran + Pending(w);
    if id in w.ran {
      var k :| 0 <= k < |w.ran| && w.ran[k] == id;
      assert all[k] == id;
    }
    if w.running == Some(id) {
      assert all[|w.ran|] == id;
    }
  }

  /** The next task number has been run by no worker. */
  lemma NotRunYet<R>(s: State<R>, name: string)
    requires Inv(s)
    ensures |s.outcomes| !in WorkerOf(s.workers, name).ran
  {
    if name in s.workers {
      RanIsSubmitted(s.workers[name], |s.outcomes|);
      assert Owns(s.workers[name], name, s.owners);
    }
  }

  lemma SpawnKeepsTasks<R>(s: State<R>, name: string, outcome: Option<R>)
    requires Inv(s) && Enabled(s, Spawn(name, outcome))
    ensures TasksInv(Apply(s, Spawn(name, outcome)))
  {
    var s' := Apply(s, Spawn(name, outcome));
    forall id | 0 <= id < |s'.outcomes|
      ensures TaskInv(s', id)
    {
      if id < |s.outcomes| {
        assert TaskInv(s, id);
      } else {
        NotRunYet(s, name);
      }
    }
  }

  lemma SpawnKeepsLazies<R>(s: State<R>, name: string, outcome: Option<R>)
    requires Inv(s) && Enabled(s, Spawn(name, outcome))
    ensures LaziesInv(Apply(s, Spawn(name, outcome)))
  {
    hide WorkersInv;
    hide TasksInv;
  }

  lemma SpawnKeepsInv<R>(s: State<R>, name: string, outcome: Option<R>)
    requires Inv(s) && Enabled(s, Spawn(name, outcome))
    ensures Inv(Apply(s, Spawn(name, outcome)))
  {
    SpawnKeepsWorkers(s, name, outcome);
    SpawnKeepsTasks(s, name, outcome);
    SpawnKeepsLazies(s, name, outcome);
    hide TasksInv;
    hide LaziesInv;
    hide WorkersInv;
  }

  /** The steps of a worker other than finishing a task leave every task as it was. */
  lemma WorkerStepKeepsInv<R>(s: State<R>, name: string, w: Worker)
    requires Inv(s) && name in s.workers && WorkerInv(w)
    requires w.submitted == s.workers[name].submitted && w.ran == s.workers[name].ran
    requires w.running.Some? ==> w.running.value < |s.outcomes|
    ensures Inv(s.(workers := s.workers[name := w]))
  {
    hide WorkerInv;
    var s' := s.(workers := s.workers[name := w]);
    WorkerReplaced(s.workers, s.owners, name, w);
    hide WorkersInv;
    forall id | 0 <= id < |s'.outcomes|
      ensures TaskInv(s', id)
    {
      assert TaskInv(s, id);
    }
  }

  lemma ReceiveKeepsInv<R>(s: State<R>, name: string)
    requires Inv(s) && Enabled(s, Receive(name))
    ensures Inv(Apply(s, Receive(name)))
  {
    var w := s.workers[name];
    var w' := w.(running := Some(w.queue[0]), queue := w.queue[1..]);
    assert Pending(w') == Pending(w);
    RanIsSubmitted(w', w.queue[0]);
    assert Owns(w, name, s.owners);
    hide TasksInv;
    hide LaziesInv;
    WorkerStepKeepsInv(s, name, w');
  }

  function Finished(w: Worker): Worker
    requires w.running.Some?
  {
    w.(running := None, ran := w.ran + [w.running.value])
  }

  lemma FinishKeepsWorker(w: Worker)
    requires WorkerInv(w) && w.running.Some?
    ensures WorkerInv(Finished(w))
    ensures w.running.value in w.submitted
    ensures forall id :: id in Finished(w).ran <==> id in w.ran || id == w.running.value
  {
    var w' := Finished(w);
    assert w'.ran + Pending(w') == w.ran + Pending(w);
    RanIsSubmitted(w, w.running.value);
    assert w'.ran[|w.ran|] == w.running.value;
  }

  lemma FinishKeepsTasks<R>(s: State<R>, name: string)
    requires Inv(s) && Enabled(s, Finish(name))
    ensures TasksInv(Apply(s, Finish(name)))
  {
    var s' := Apply(s, Finish(name));
    var w := s.workers[name];
    FinishKeepsWorker(w);
    assert Owns(w, name, s.owners);
    hide WorkersInv;
    hide WorkerInv;
    hide LaziesInv;
    forall t | 0 <= t < |s'.outcomes|
      ensures TaskInv(s', t)
    {
      assert TaskInv(s, t);
    }
  }

  lemma FinishKeepsInv<R>(s: State<R>, name: string)
    requires Inv(s) && Enabled(s, Finish(name))
    ensures Inv(Apply(s, Finish(name)))
  {
    hide WorkerInv;
    hide LazyInv;
    FinishKeepsTasks(s, name);
    FinishKeepsWorker(s.workers[name]) by {
      assert WorkerInv(s.workers[name]);
    }
    WorkerReplaced(s.workers, s.owners, name, Finished(s.workers[name]));
    hide WorkersInv;
    hide TasksInv;
  }

  lemma ExitKeepsInv<R>(s: State<R>, name: string)
    requires Inv(s) && Enabled(s, Exit(name))
    ensures Inv(Apply(s, Exit(name)))
  {
    hide TasksInv;
    hide LaziesInv;
    var w := s.workers[name];
    assert Pending(w) == [];
    WorkerStepKeepsInv(s, name, w.(exited := true));
  }

  lemma GetKeepsLazy<R>(l: Lazy<R>, id: nat, outcome: Option<R>, results: map<nat, Option<R>>)
    requires LazyInv(l, id, outcome) && CanGet(l, results)
    requires id in results ==> results[id] == outcome
    requires l.gets != [] ==> id in results
    ensures LazyInv(LoggedGet(l, results), id, outcome)
    ensures id in results
  {
    var (l', r) := GetStep(l, results);
    assert r == ExpectedGet(outcome, |l.gets|);
  }

  lemma HandleStepKeepsInv<R>(s: State<R>, id: nat, l: Lazy<R>)
    requires Inv(s) && id < |s.handles| && LazyInv(l, id, s.outcomes[id])
    requires l.gets != [] ==> id in s.results
    ensures Inv(s.(handles := s.handles[id := l]))
  {
    hide WorkersInv;
    hide LazyInv;
    var s' := s.(handles := s.handles[id := l]);
    forall t | 0 <= t < |s'.outcomes|
      ensures TaskInv(s', t)
    {
      assert TaskInv(s, t);
    }
  }

  lemma ClonesDoNotMatter<R>(l: Lazy<R>, id: nat, outcome: Option<R>, clones: nat)
    requires LazyInv(l, id, outcome)
    ensures LazyInv(l.(clones := clones), id, outcome)
  {
  }

  lemma GetKeepsInv<R>(s: State<R>, id: nat)
    requires Inv(s) && Enabled(s, Get(id))
    ensures Inv(Apply(s, Get(id)))
    ensures Inv(Apply(s, IntoInner(id)))
  {
    assert TaskInv(s, id);
    hide WorkersInv;
    hide TasksInv;
    var l := s.handles[id];
    GetKeepsLazy(l, id, s.outcomes[id], s.results);
    hide LazyInv;
    hide LoggedGet;
    HandleStepKeepsInv(s, id, LoggedGet(l, s.results));
    ClonesDoNotMatter(LoggedGet(l, s.results), id, s.outcomes[id], AfterIntoInner(l, s.results).clones);
    HandleStepKeepsInv(s, id, AfterIntoInner(l, s.results));
  }

  /** In every reachable state, `try_into_inner` yields the task's own value exactly for the last
      clone of a task that did not panic, and fails exactly for a task that did. */
  lemma IntoInnerReturns<R>(s: State<R>, id: nat)
    requires Inv(s) && Enabled(s, IntoInner(id))
    ensures var r := IntoInnerOf(s.handles[id], s.results);
            match s.outcomes[id]
            case Some(v) => r == if s.handles[id].clones == 1 then Inner(v) else StillShared
            case None => r == Failed(ExpectedGet(s.outcomes[id], |s.handles[id].gets|))
  {
    assert TaskInv(s, id);
    hide WorkersInv;
    hide TasksInv;
    assert LazyInv(s.handles[id], id, s.outcomes[id]);
  }

  /** Every step of every thread keeps the invariant. */
  lemma StepKeepsInv<R>(s: State<R>, a: Action<R>)
    requires Inv(s) && Enabled(s, a)
    ensures Inv(Apply(s, a))
  {
    match a
    case Spawn(name, outcome) => SpawnKeepsInv(s, name, outcome);
    case Receive(name) => ReceiveKeepsInv(s, name);
    case Finish(name) => FinishKeepsInv(s, name);
    case Close(name) =>
      assert Pending(s.workers[name].(closed := true)) == Pending(s.workers[name]);
      WorkerStepKeepsInv(s, name, s.workers[name].(closed := true));
    case Exit(name) => ExitKeepsInv(s, name);
    case Get(id) => GetKeepsInv(s, id);
    case IntoInner(id) => GetKeepsInv(s, id);
    case CloneHandle(id) => HandleStepKeepsInv(s, id, s.handles[id].(clones := s.handles[id].clones + 1));
    case DropHandle(id) => HandleStepKeepsInv(s, id, s.handles[id].(clones := s.handles[id].clones - 1));
  }

  // ---------- all runs ----------

  predicate Legal<R>(s: State<R>, acts: seq<Action<R>>)
    decreases |acts|
  {
    acts == [] || (WellFormed(s) && Enabled(s, acts[0]) && Legal(Apply(s, acts[0]), acts[1..]))
  }

  function Exec<R>(s: State<R>, acts: seq<Action<R>>): State<R>
    requires Legal(s, acts)
    decreases |acts|
  {
    if acts == [] then s else Exec(Apply(s, acts[0]), acts[1..])
  }

  /** A worker is never replaced: it keeps its submissions and what it ran, and adds to them. */
  predicate Extends(w: Worker, w': Worker) {
    w.submitted <= w'.submitted && w.ran <= w'.ran && (w.closed ==> w'.closed)
  }

  lemma {:induction false} RunKeepsInv<R>(s: State<R>, acts: seq<Action<R>>)
    requires Inv(s) && Legal(s, acts)
    ensures Inv(Exec(s, acts))
    ensures forall name :: name in s.workers ==>
              name in Exec(s, acts).workers && Extends(s.workers[name], Exec(s, acts).workers[name])
    decreases |acts|
  {
    hide Inv;
    if acts != [] {
      StepKeepsInv(s, acts[0]);
      RunKeepsInv(Apply(s, acts[0]), acts[1..]);
    }
  }

  /** A worker ran a prefix of what was submitted under its name, oldest first and each task once,
      and all of it before it exited. */
  predicate RanInOrder(w: Worker, name: string, owners: seq<string>) {
    && w.ran <= w.submitted
    && (w.exited ==> w.ran == w.submitted)
    && (forall i, j :: 0 <= i < j < |w.ran| ==> w.ran[i] < w.ran[j])
    && (forall k :: 0 <= k < |w.ran| ==> w.ran[k] < |owners| && owners[w.ran[k]] == name)
  }

  lemma WorkerRanInOrder(w: Worker, name: string, owners: seq<string>)
    requires WorkerInv(w) && Owns(w, name, owners)
    ensures RanInOrder(w, name, owners)
  {
    assert w.submitted[..|w.ran|] == w.ran;
    forall k | 0 <= k < |w.ran|
      ensures w.ran[k] == w.submitted[k]
    {
    }
  }

  /** What the steps of a run submit, and under which names. */
  function SpawnedOutcomes<R>(acts: seq<Action<R>>): seq<Option<R>> {
    if acts == [] then [] else OutcomeOf(acts[0]) + SpawnedOutcomes(acts[1..])
  }

  function OutcomeOf<R>(a: Action<R>): seq<Option<R>> {
    if a.Spawn? then [a.outcome] else []
  }

  function SpawnedNames<R>(acts: seq<Action<R>>): seq<string> {
    if acts == [] then [] else NameOf(acts[0]) + SpawnedNames(acts[1..])
  }

  function NameOf<R>(a: Action<R>): seq<string> {
    if a.Spawn? then [a.name] else []
  }

  lemma StepSpawns<R>(s: State<R>, a: Action<R>)
    requires WellFormed(s) && Enabled(s, a)
    ensures Apply(s, a).outcomes == s.outcomes + OutcomeOf(a)
    ensures Apply(s, a).owners == s.owners + NameOf(a)
    ensures Apply(s, a).workers.Keys == s.workers.Keys + if a.Spawn? then {a.name} else {}
  {
  }

  lemma {:induction false} RunSpawnsOutcomes<R>(s: State<R>, acts: seq<Action<R>>)
    requires Inv(s) && Legal(s, acts)
    ensures Exec(s, acts).outcomes == s.outcomes + SpawnedOutcomes(acts)
    decreases |acts|
  {
    hide Inv;
    if acts != [] {
      var a, rest := acts[0], acts[1..];
      KeepsWellFormed(s);
      StepSpawns(s, a);
      StepKeepsInv(s, a);
      var s1 := Apply(s, a);
      hide Apply;
      hide Enabled;
      hide WellFormed;
      hide OutcomeOf;
      RunSpawnsOutcomes(s1, rest);
      Associates(s.outcomes, OutcomeOf(a), SpawnedOutcomes(rest));
    }
  }

  lemma {:induction false} RunSpawnsNames<R>(s: State<R>, acts: seq<Action<R>>)
    requires Inv(s) && Legal(s, acts)
    ensures Exec(s, acts).owners == s.owners + SpawnedNames(acts)
    decreases |acts|
  {
    hide Inv;
    if acts != [] {
      var a, rest := acts[0], acts[1..];
      KeepsWellFormed(s);
      StepSpawns(s, a);
      StepKeepsInv(s, a);
      var s1 := Apply(s, a);
      hide Apply;
      hide Enabled;
      hide WellFormed;
      hide NameOf;
      RunSpawnsNames(s1, rest);
      Associates(s.owners, NameOf(a), SpawnedNames(rest));
    }
  }

  lemma Associates<T>(a: seq<T>, b: seq<T>, c: seq<T>)
    ensures (a + b) + c == a + (b + c)
  {
  }

  /** A name has a worker exactly when something was submitted under it. */
  ghost predicate NamesInv<R>(s: State<R>) {
    forall name :: name in s.workers <==> name in s.owners
  }

  lemma StepKeepsNames<R>(s: State<R>, a: Action<R>)
    requires WellFormed(s) && Enabled(s, a) && NamesInv(s)
    ensures NamesInv(Apply(s, a))
  {
    StepSpawns(s, a);
    var s' := Apply(s, a);
    hide Apply;
    hide Enabled;
    hide WellFormed;
    forall name
      ensures name in s'.workers <==> name in s'.owners
    {
      assert name in s'.workers <==> name in s'.workers.Keys;
      assert name in s.workers <==> name in s.workers.Keys;
    }
  }

  lemma {:induction false} RunKeepsNames<R>(s: State<R>, acts: seq<Action<R>>)
    requires Inv(s) && NamesInv(s) && Legal(s, acts)
    ensures NamesInv(Exec(s, acts))
    decreases |acts|
  {
    hide Inv;
    hide NamesInv;
    if acts != [] {
      KeepsWellFormed(s);
      StepKeepsNames(s, acts[0]);
      StepKeepsInv(s, acts[0]);
      hide Apply;
      hide Enabled;
      RunKeepsNames(Apply(s, acts[0]), acts[1..]);
    }
  }

  // ---------- who holds a handle ----------

  /** The clones of a handle in hand. */
  function InHand<R>(s: State<R>, id: nat): int {
    if id < |s.handles| then s.handles[id].clones else 0
  }

  /** What a step does to them: submitting the task makes the first, cloning one more; dropping takes
      one away, and so does `try_into_inner` unless it gives the handle back. */
  function InHandChange<R>(s: State<R>, a: Action<R>, id: nat): int
    requires Enabled(s, a)
  {
    match a
    case Spawn(_, _) => if id == |s.handles| then 1 else 0
    case CloneHandle(k) => if id == k then 1 else 0
    case DropHandle(k) => if id == k then -1 else 0
    case IntoInner(k) => if id == k && !IntoInnerOf(s.handles[k], s.results).StillShared? then -1 else 0
    case _ => 0
  }

  function Balance<R>(s: State<R>, acts: seq<Action<R>>, id: nat): int
    requires Legal(s, acts)
    decreases |acts|
  {
    if acts == [] then 0 else InHandChange(s, acts[0], id) + Balance(Apply(s, acts[0]), acts[1..], id)
  }

  /** The waits for a handle's value: the calls of `get`, and those that `try_into_inner` makes. */
  function GetsMade<R>(acts: seq<Action<R>>, id: nat): nat {
    if acts == [] then 0
    else (if acts[0] == Get(id) || acts[0] == IntoInner(id) then 1 else 0) + GetsMade(acts[1..], id)
  }

  function GetsLogged<R>(s: State<R>, id: nat): nat {
    if id < |s.handles| then |s.handles[id].gets| else 0
  }

  lemma StepChangesHands<R>(s: State<R>, a: Action<R>, id: nat)
    requires WellFormed(s) && Enabled(s, a)
    ensures InHand(Apply(s, a), id) == InHand(s, id) + InHandChange(s, a, id)
    ensures GetsLogged(Apply(s, a), id) == GetsLogged(s, id) + if a == Get(id) || a == IntoInner(id) then 1 else 0
  {
  }

  lemma {:induction false} RunChangesHands<R>(s: State<R>, acts: seq<Action<R>>, id: nat)
    requires Inv(s) && Legal(s, acts)
    ensures InHand(Exec(s, acts), id) == InHand(s, id) + Balance(s, acts, id)
    ensures GetsLogged(Exec(s, acts), id) == GetsLogged(s, id) + GetsMade(acts, id)
    decreases |acts|
  {
    hide Inv;
    if acts != [] {
      KeepsWellFormed(s);
      StepChangesHands(s, acts[0], id);
      StepKeepsInv(s, acts[0]);
      hide Apply;
      hide Enabled;
      hide InHand;
      hide InHandChange;
      RunChangesHands(Apply(s, acts[0]), acts[1..], id);
    }
  }

  /** In every run: the clones of a handle in hand are those made less those given up. */
  lemma ClonesAreCounted<R>(acts: seq<Action<R>>, id: nat)
    requires Legal(Init(), acts)
    ensures InHand(Exec(Init(), acts), id) == Balance(Init(), acts, id)
    ensures GetsLogged(Exec(Init(), acts), id) == GetsMade(acts, id)
  {
    InitInv<R>();
    RunChangesHands(Init(), acts, id);
  }

  /** So `try_into_inner` on a task that returned yields its value exactly when no other clone is
      left, and gives the handle back otherwise. */
  lemma IntoInnerByCount<R>(acts: seq<Action<R>>, id: nat)
    requires Legal(Init(), acts) && Enabled(Exec(Init(), acts), IntoInner(id))
    ensures var s := Exec(Init(), acts);
            && id < |s.outcomes|
            && IntoInnerOf(s.handles[id], s.results) ==
                 (match s.outcomes[id]
                  case Some(v) => if Balance(Init(), acts, id) == 1 then Inner(v) else StillShared
                  case None => Failed(ExpectedGet(None, GetsMade(acts, id))))
  {
    InitInv<R>();
    RunKeepsInv(Init(), acts);
    ClonesAreCounted(acts, id);
    var s := Exec(Init(), acts);
    KeepsWellFormed(s);
    hide Inv;
    IntoInnerReturns(s, id);
  }

  /** A wait for a handle's value returns at once exactly when its task has been run. */
  lemma GetWaitsForItsTask<R>(s: State<R>, id: nat)
    requires Inv(s) && id < |s.handles|
    ensures CanGet(s.handles[id], s.results) <==> id in s.results
  {
    assert LazyInv(s.handles[id], id, s.outcomes[id]);
  }

  /** Any clone in hand can be cloned or dropped, and waited on as soon as its task has been run; and
      nothing can be done with a handle that is not in hand. */
  lemma HandlesInHand<R>(s: State<R>, id: nat)
    requires Inv(s)
    ensures Enabled(s, CloneHandle(id)) <==> InHand(s, id) > 0
    ensures Enabled(s, DropHandle(id)) <==> InHand(s, id) > 0
    ensures Enabled(s, Get(id)) <==> InHand(s, id) > 0 && id in s.results
    ensures Enabled(s, IntoInner(id)) <==> InHand(s, id) > 0 && id in s.results
  {
    if id < |s.handles| {
      GetWaitsForItsTask(s, id);
    }
  }

  // ---------- what runs do ----------

  /** In every run: each name's worker has run a prefix of what was submitted under that name, in
      submission order and each task once, panicking or not; every task was submitted to its name's
      worker, and has a result exactly when that worker ran it, its own; and each `get` returned
      what is expected of that task. */
  lemma EveryRun<R>(acts: seq<Action<R>>)
    requires Legal(Init(), acts)
    ensures var s := Exec(Init(), acts);
            && s.outcomes == SpawnedOutcomes(acts)
            && s.owners == SpawnedNames(acts)
            && |s.handles| == |s.outcomes| == |s.owners|
            && (forall name :: name in s.workers <==> name in s.owners)
            && (forall name :: name in s.workers ==> RanInOrder(s.workers[name], name, s.owners))
            && (forall id :: 0 <= id < |s.outcomes| ==>
                  && s.owners[id] in s.workers
                  && id in s.workers[s.owners[id]].submitted
                  && (id in s.results <==> id in s.workers[s.owners[id]].ran))
            && (forall id :: id in s.results ==> id < |s.outcomes| && s.results[id] == s.outcomes[id])
            && (forall id, k :: 0 <= id < |s.handles| && 0 <= k < |s.handles[id].gets| ==>
                  s.handles[id].gets[k] == ExpectedGet(s.outcomes[id], k))
  {
    InitInv<R>();
    RunKeepsInv(Init(), acts);
    RunSpawnsOutcomes(Init(), acts);
    RunSpawnsNames(Init(), acts);
    RunKeepsNames(Init(), acts);
    InvSays(Exec(Init(), acts));
  }

  lemma InvSays<R>(s: State<R>)
    requires Inv(s)
    ensures forall name :: name in s.workers ==> RanInOrder(s.workers[name], name, s.owners)
    ensures forall id :: 0 <= id < |s.outcomes| ==>
              && s.owners[id] in s.workers
              && id in s.workers[s.owners[id]].submitted
              && (id in s.results <==> id in s.workers[s.owners[id]].ran)
    ensures forall id :: id in s.results ==> id < |s.outcomes| && s.results[id] == s.outcomes[id]
    ensures forall id, k :: 0 <= id < |s.handles| && 0 <= k < |s.handles[id].gets| ==>
              s.handles[id].gets[k] == ExpectedGet(s.outcomes[id], k)
  {
    forall name | name in s.workers
      ensures RanInOrder(s.workers[name], name, s.owners)
    {
      WorkerRanInOrder(s.workers[name], name, s.owners);
    }
    forall id | id in s.results
      ensures id < |s.outcomes| && s.results[id] == s.outcomes[id]
    {
      assert TaskInv(s, id);
    }
    forall id | 0 <= id < |s.outcomes|
      ensures s.owners[id] in s.workers && id in s.workers[s.owners[id]].submitted
      ensures id in s.results <==> id in s.workers[s.owners[id]].ran
    {
      assert TaskInv(s, id);
    }
    forall id, k | 0 <= id < |s.handles| && 0 <= k < |s.handles[id].gets|
      ensures s.handles[id].gets[k] == ExpectedGet(s.outcomes[id], k)
    {
      assert LazyInv(s.handles[id], id, s.outcomes[id]);
    }
  }

  lemma InitInv<R>()
    ensures Inv<R>(Init())
  {
  }

  /** Once every worker has exited, every task has its own outcome as its result, so that every
      `get` returns without waiting. */
  lemma AllExitedDrains<R>(s: State<R>, id: nat)
    requires Inv(s) && id < |s.outcomes|
    requires forall name :: name in s.workers ==> s.workers[name].exited
    ensures id in s.results && s.results[id] == s.outcomes[id]
    ensures CanGet(s.handles[id], s.results)
  {
    assert TaskInv(s, id);
    assert WorkerInv(s.workers[s.owners[id]]);
    assert LazyInv(s.handles[id], id, s.outcomes[id]);
  }

  lemma EveryTaskDrained<R>(s: State<R>)
    requires Inv(s) && forall name :: name in s.workers ==> s.workers[name].exited
    ensures forall id :: 0 <= id < |s.outcomes| ==> id in s.results && s.results[id] == s.outcomes[id]
  {
    forall id | 0 <= id < |s.outcomes|
      ensures id in s.results && s.results[id] == s.outcomes[id]
    {
      AllExitedDrains(s, id);
    }
  }

  // ---------- how a drain ends ----------

  /** The steps a worker still has to take before it has exited, its channel's closing included. */
  function WorkerRank(w: Worker): nat {
    2 * |w.queue| + (if w.running.Some? then 1 else 0) + (if w.closed then 0 else 1) + (if w.exited then 0 else 1)
  }

  /** `names` lists every worker once. */
  ghost predicate Lists(names: seq<string>, workers: map<string, Worker>) {
    && (forall name: string :: name in names <==> name in workers)
    && (forall i, j :: 0 <= i < j < |names| ==> names[i] != names[j])
  }

  function TotalRank(workers: map<string, Worker>, names: seq<string>): nat
    requires forall name :: name in names ==> name in workers
  {
    if names == [] then 0 else WorkerRank(workers[names[0]]) + TotalRank(workers, names[1..])
  }

  lemma {:induction false} RankElsewhere(workers: map<string, Worker>, names: seq<string>, name: string, w: Worker)
    requires forall other :: other in names ==> other in workers && other != name
    ensures TotalRank(workers[name := w], names) == TotalRank(workers, names)
  {
    if names != [] {
      assert names[0] in names;
      RankElsewhere(workers, names[1..], name, w);
    }
  }

  lemma {:induction false} RankUpdate(workers: map<string, Worker>, names: seq<string>, name: string, w: Worker)
    requires forall other :: other in names ==> other in workers
    requires forall i, j :: 0 <= i < j < |names| ==> names[i] != names[j]
    requires name in names
    ensures TotalRank(workers[name := w], names)
         == TotalRank(workers, names) - WorkerRank(workers[name]) + WorkerRank(w)
  {
    if names[0] == name {
      RankElsewhere(workers, names[1..], name, w);
    } else {
      RankUpdate(workers, names[1..], name, w);
    }
  }

  lemma {:induction false} ZeroRank(workers: map<string, Worker>, names: seq<string>)
    requires forall name :: name in names ==> name in workers && WorkerInv(workers[name])
    ensures TotalRank(workers, names) == 0 <==> forall name :: name in names ==> workers[name].exited
  {
    if names != [] {
      assert names[0] in names;
      ExitedIsDrained(workers[names[0]]);
      ZeroRank(workers, names[1..]);
      assert forall name :: name in names <==> name == names[0] || name in names[1..];
    }
  }

  /** `try_into_inner` in terms of the `get` it starts with. */
  lemma IntoInnerFromGet<R>(s: State<R>, id: nat)
    requires Inv(s) && Enabled(s, IntoInner(id))
    ensures var l := s.handles[id];
            var got := LoggedGet(l, s.results);
            && got.clones == l.clones
            && match ExpectedGet(s.outcomes[id], |l.gets|)
               case Value(_) =>
                 AfterIntoInner(l, s.results) == if l.clones == 1 then got.(clones := 0) else got
               case _ =>
                 AfterIntoInner(l, s.results) == got.(clones := l.clones - 1)
  {
    IntoInnerReturns(s, id);
  }

  lemma ExitedIsDrained(w: Worker)
    requires WorkerInv(w)
    ensures w.exited ==> w == Drained(w)
    ensures w.exited <==> WorkerRank(w) == 0
  {
    if w.exited {
      assert |w.ran + Pending(w)| == |w.ran|;
    }
  }

  predicate IsWorkerStep<R>(a: Action<R>) {
    a.Receive? || a.Finish? || a.Close? || a.Exit?
  }

  function WorkerSteps<R>(acts: seq<Action<R>>): nat {
    if acts == [] then 0 else (if IsWorkerStep(acts[0]) then 1 else 0) + WorkerSteps(acts[1..])
  }

  /** The next step of a worker that has not exited. */
  function NextStep<R>(w: Worker, name: string): Action<R> {
    if w.running.Some? then Finish(name)
    else if w.queue != [] then Receive(name)
    else if w.closed then Exit(name)
    else Close(name)
  }

  lemma StepLowersRank<R>(s: State<R>, a: Action<R>, names: seq<string>)
    requires WellFormed(s) && Enabled(s, a) && !a.Spawn? && Lists(names, s.workers)
    ensures var s' := Apply(s, a);
            && Lists(names, s'.workers)
            && TotalRank(s'.workers, names) == TotalRank(s.workers, names) - if IsWorkerStep(a) then 1 else 0
  {
    if IsWorkerStep(a) {
      var w' := Apply(s, a).workers[a.name];
      RankUpdate(s.workers, names, a.name, w');
      assert WorkerRank(w') == WorkerRank(s.workers[a.name]) - 1;
    }
  }

  lemma {:induction false} DrainRank<R>(s: State<R>, acts: seq<Action<R>>, names: seq<string>)
    requires Inv(s) && Legal(s, acts) && Lists(names, s.workers)
    requires forall a :: a in acts ==> !a.Spawn?
    ensures Lists(names, Exec(s, acts).workers)
    ensures WorkerSteps(acts) + TotalRank(Exec(s, acts).workers, names) == TotalRank(s.workers, names)
    decreases |acts|
  {
    hide Inv;
    hide Lists;
    if acts != [] {
      assert acts[0] in acts;
      KeepsWellFormed(s);
      StepKeepsInv(s, acts[0]);
      StepLowersRank(s, acts[0], names);
      DrainRank(Apply(s, acts[0]), acts[1..], names);
    }
  }

  /** Once nothing more is submitted, every interleaving of the workers, the closing of their
      channels and the users of the handles drains them: the workers take at most as many steps as
      their rank; they have taken that many exactly when all have exited, and can then take no
      more; and until then some worker can take a step. */
  lemma EveryDrainEnds<R>(s: State<R>, acts: seq<Action<R>>, names: seq<string>)
    requires Inv(s) && Legal(s, acts) && Lists(names, s.workers)
    requires forall a :: a in acts ==> !a.Spawn?
    ensures WorkerSteps(acts) <= TotalRank(s.workers, names)
    ensures var end := Exec(s, acts);
            && (WorkerSteps(acts) == TotalRank(s.workers, names) <==> AllExited(end.workers))
            && ((exists a :: IsWorkerStep(a) && Enabled(end, a)) <==> !AllExited(end.workers))
            && (AllExited(end.workers) ==>
                  forall id :: 0 <= id < |end.outcomes| ==> id in end.results && end.results[id] == end.outcomes[id])
  {
    DrainRank(s, acts, names);
    RunKeepsInv(s, acts);
    var end := Exec(s, acts);
    WorkersKept(end);
    if AllExited(end.workers) {
      EveryTaskDrained(end);
    }
    hide Inv;
    ZeroRank(end.workers, names);
    SomeoneSteps(end);
  }

  predicate AllExited(workers: map<string, Worker>) {
    forall name :: name in workers ==> workers[name].exited
  }

  lemma WorkersKept<R>(s: State<R>)
    requires Inv(s)
    ensures forall name :: name in s.workers ==> WorkerInv(s.workers[name])
  {
  }

  lemma SomeoneSteps<R>(s: State<R>)
    requires forall name :: name in s.workers ==> WorkerInv(s.workers[name])
    ensures (exists a :: IsWorkerStep(a) && Enabled(s, a)) <==> !AllExited(s.workers)
  {
    if !AllExited(s.workers) {
      var name :| name in s.workers && !s.workers[name].exited;
      assert Enabled(s, NextStep(s.workers[name], name));
    } else {
      forall a: Action<R> | IsWorkerStep(a)
        ensures !Enabled(s, a)
      {
        if a.name in s.workers {
          ExitedIsDrained(s.workers[a.name]);
        }
      }
    }
  }

  /** A panicking task, and three calls of `get` on its handle. */
  function PanicRun(): seq<Action<int>> {
    [Spawn("w", None), Receive("w"), Finish("w")] + [Get(0), Get(0), Get(0)]
  }

  lemma PanicIsReportedOnce()
    ensures Legal(Init(), PanicRun())
    ensures Exec(Init(), PanicRun()).handles[0].gets == [TaskDropped, AlreadyTaken, LockPoisoned]
  {
    var front: seq<Action<int>> := [Spawn("w", None), Receive("w"), Finish("w")];
    assert front[1..] == [Receive("w"), Finish("w")];
    assert Legal(Init(), front);
    var s := Exec(Init(), front);
    assert s.handles == [Lazy(Some(0), None, false, 1, [])] && 0 in s.results && s.results[0] == None;
    hide Apply;
    ThreeGets(s);
    RunsJoin(Init(), front, [Get(0), Get(0), Get(0)]);
  }

  lemma ThreeGets(s: State<int>)
    requires WellFormed(s) && s.handles == [Lazy(Some(0), None, false, 1, [])]
    requires 0 in s.results && s.results[0] == None
    ensures Legal(s, [Get(0), Get(0), Get(0)])
    ensures Exec(s, [Get(0), Get(0), Get(0)]).handles[0].gets == [TaskDropped, AlreadyTaken, LockPoisoned]
  {
    hide WellFormed;
    var s1 := Apply(s, Get(0));
    assert s1.handles[0] == Lazy(None, None, false, 1, [TaskDropped]);
    assert WellFormed(s1) by { GetKeepsWellFormed(s, 0); }
    var s2 := Apply(s1, Get(0));
    assert s2.handles[0] == Lazy(None, None, true, 1, [TaskDropped, AlreadyTaken]);
    assert WellFormed(s2) by { GetKeepsWellFormed(s1, 0); }
    var s3 := Apply(s2, Get(0));
    assert s3.handles[0].gets == [TaskDropped, AlreadyTaken, LockPoisoned];
    assert Enabled(s, Get(0)) && Enabled(s1, Get(0)) && Enabled(s2, Get(0));
    hide Apply;
    hide Enabled;
    var gets: seq<Action<int>> := [Get(0), Get(0), Get(0)];
    assert gets[1..] == [Get(0), Get(0)] && gets[1..][1..] == [Get(0)];
  }

  lemma GetKeepsWellFormed<R>(s: State<R>, id: nat)
    requires WellFormed(s) && Enabled(s, Get(id))
    ensures WellFormed(Apply(s, Get(id)))
  {
  }

  lemma {:induction false} RunsJoin<R>(s: State<R>, a: seq<Action<R>>, b: seq<Action<R>>)
    requires Legal(s, a)
    ensures Legal(s, a + b) == Legal(Exec(s, a), b)
    ensures Legal(s, a + b) ==> Exec(s, a + b) == Exec(Exec(s, a), b)
    decreases |a|
  {
    if a == [] {
      assert a + b == b;
    } else {
      assert (a + b)[1..] == a[1..] + b;
      RunsJoin(Apply(s, a[0]), a[1..], b);
    }
  }

  // ---------- the worker map, updated in place ----------

  class WorkerMap<R(==)> {
    var workers: map<string, Worker>
    var outcomes: seq<Option<R>>
    var owners: seq<string>
    var results: map<nat, Option<R>>
    var handles: seq<Lazy<R>>

    function View(): State<R>
      reads this
    {
      State(workers, outcomes, owners, results, handles)
    }

    ghost predicate Valid()
      reads this
    {
      Inv(View())
    }

    constructor ()
      ensures Valid() && View() == Init()
    {
      workers, outcomes, owners := map[], [], [];
      results, handles := map[], [];
      new;
      InitInv<R>();
    }

    /** Submits a closure under a name, making the name's worker on first use. */
    method SpawnBlockingNamed(name: string, outcome: Option<R>) returns (id: nat)
      requires Valid() && Enabled(View(), Spawn(name, outcome))
      modifies this
      ensures Valid() && View() == Apply(old(View()), Spawn(name, outcome))
      ensures id == |old(outcomes)| && handles[id].receiver == Some(id)
    {
      SpawnKeepsInv(View(), name, outcome);
      hide Inv;
      ghost var after := Apply(View(), Spawn(name, outcome));
      id := |outcomes|;
      var w := WorkerOf(workers, name);
      workers := workers[name := w.(submitted := w.submitted + [id], queue := w.queue + [id])];
      outcomes, owners := outcomes + [outcome], owners + [name];
      handles := handles + [Lazy(Some(id), None, false, 1, [])];
      assert View() == after;
    }

    /** A worker takes the oldest closure from its channel. */
    method Receive(name: string)
      requires Valid() && Enabled(View(), Action.Receive(name))
      modifies `workers
      ensures Valid() && View() == Apply(old(View()), Action.Receive(name))
    {
      StepKeepsInv(View(), Action.Receive(name));
      hide Inv;
      var w := workers[name];
      workers := workers[name := w.(running := Some(w.queue[0]), queue := w.queue[1..])];
    }

    /** It has run it, whatever came of it. */
    method Finish(name: string)
      requires Valid() && Enabled(View(), Action.Finish(name))
      modifies `workers, `results
      ensures Valid() && View() == Apply(old(View()), Action.Finish(name))
    {
      StepKeepsInv(View(), Action.Finish(name));
      RunningIsTask(View(), name);
      hide Inv;
      var w := workers[name];
      var id := w.running.value;
      workers := workers[name := w.(running := None, ran := w.ran + [id])];
      results := results[id := outcomes[id]];
    }

    /** The body of a worker's loop: receive a task and run it. */
    method RunNext(name: string)
      requires Valid() && name in workers && workers[name].running.None? && workers[name].queue != []
      modifies `workers, `results
      ensures Valid()
      ensures var w, id := old(workers[name]), old(workers[name].queue[0]);
              && id < |outcomes|
              && workers == old(workers)[name := w.(queue := w.queue[1..], ran := w.ran + [id])]
              && results == old(results)[id := outcomes[id]]
    {
      Receive(name);
      RunningIsTask(View(), name);
      hide Inv;
      Finish(name);
    }

    method CloseChannel(name: string)
      requires Valid() && Enabled(View(), Close(name))
      modifies `workers
      ensures Valid() && View() == Apply(old(View()), Close(name))
    {
      StepKeepsInv(View(), Close(name));
      hide Inv;
      workers := workers[name := workers[name].(closed := true)];
    }

    /** A worker leaves its loop when its channel is closed and empty. */
    method Exit(name: string)
      requires Valid() && Enabled(View(), Action.Exit(name))
      modifies `workers
      ensures Valid() && View() == Apply(old(View()), Action.Exit(name))
    {
      StepKeepsInv(View(), Action.Exit(name));
      hide Inv;
      workers := workers[name := workers[name].(exited := true)];
    }

    /** Waits for a handle's value. */
    method Get(id: nat) returns (r: GetResult<R>)
      requires Valid() && Enabled(View(), Action.Get(id))
      modifies `handles
      ensures Valid() && View() == Apply(old(View()), Action.Get(id))
      ensures r == ExpectedGet(outcomes[id], |old(handles[id].gets)|)
      ensures handles[id].receiver.None?
    {
      GetKeepsInv(View(), id);
      ghost var after := Apply(View(), Action.Get(id));
      assert LazyInv(after.handles[id], id, outcomes[id]);
      assert LazyInv(handles[id], id, outcomes[id]);
      var l := handles[id];
      if l.value.Some? {
        r := Value(l.value.value);
      } else if l.poisoned {
        r := LockPoisoned;
      } else if l.receiver.None? {
        l := l.(poisoned := true);
        r := AlreadyTaken;
      } else {
        match results[l.receiver.value] {
          case Some(v) =>
            l := l.(value := Some(v));
            r := Value(v);
          case None => r := TaskDropped;
        }
        l := l.(receiver := None);
      }
      handles := handles[id := l.(gets := l.gets + [r])];
      assert View() == after;
    }

    /** Consumes a handle for its value, unless it has clones. */
    method TryIntoInner(id: nat) returns (r: IntoResult<R>)
      requires Valid() && Enabled(View(), IntoInner(id))
      modifies `handles
      ensures Valid() && View() == Apply(old(View()), IntoInner(id))
      ensures match outcomes[id]
              case Some(v) => r == if old(handles[id].clones) == 1 then Inner(v) else StillShared
              case None => r == Failed(ExpectedGet(None, |old(handles[id].gets)|))
    {
      hide Inv;
      KeepsWellFormed(View());
      GetKeepsInv(View(), id);
      ghost var handles0, got, after := handles, LoggedGet(handles[id], results), AfterIntoInner(handles[id], results);
      IntoInnerFromGet(View(), id);
      hide LoggedGet;
      hide AfterIntoInner;
      hide IntoInnerOf;
      hide CanGet;
      var value := Get(id);
      assert handles == handles0[id := got];
      match value {
        case Value(v) =>
          if handles[id].clones > 1 {
            return StillShared;
          }
          r := Inner(v);
        case panic => r := Failed(panic);
      }
      handles := handles[id := handles[id].(clones := handles[id].clones - 1)];
      assert handles == handles0[id := after];
    }

    /** Any step of any thread but a submission. */
    method Perform(a: Action<R>)
      requires Valid() && Enabled(View(), a) && !a.Spawn?
      modifies `workers, `results, `handles
      ensures Valid() && View() == Apply(old(View()), a)
    {
      StepKeepsInv(View(), a);
      hide Inv;
      match a
      case Receive(name) => Receive(name);
      case Finish(name) => Finish(name);
      case Close(name) => CloseChannel(name);
      case Exit(name) => Exit(name);
      case Get(id) => var _ := Get(id);
      case IntoInner(id) => var _ := TryIntoInner(id);
      case CloneHandle(id) => handles := handles[id := handles[id].(clones := handles[id].clones + 1)];
      case DropHandle(id) => handles := handles[id := handles[id].(clones := handles[id].clones - 1)];
    }

    /** Dropping the map closes and joins the workers one by one, in any order. `schedule`
        interleaves the dropping thread, at each `None`, with the steps of all the workers and of
        the users of the handles; past its end only the joined worker moves. */
    method Drop(schedule: seq<Option<Action<R>>>)
      requires Valid() && forall name :: name in workers ==> !workers[name].closed
      modifies `workers, `results, `handles
      ensures Valid() && workers.Keys == old(workers.Keys)
      ensures forall name :: name in workers ==> workers[name] == Drained(old(workers[name]))
      ensures forall id :: 0 <= id < |outcomes| ==> id in results && results[id] == outcomes[id]
    {
      hide Inv;
      hide Apply;
      hide Enabled;
      var pending := schedule;
      var names := workers.Keys;
      var joining: Option<string> := None;
      assert Dropping(workers, workers, names, joining);
      hide Dropping;
      while names != {} || joining.Some?
        invariant Valid() && Dropping(old(workers), workers, names, joining)
        decreases |pending|, |names|, if joining.Some? then 1 + WorkerRank(workers[joining.value]) else 0
      {
        KeepsWellFormed(View());
        DroppingJoins(old(workers), workers, names, joining);
        var over := pending == [];
        var next := if over then None else pending[0];
        pending := if over then [] else pending[1..];
        match next {
          case Some(a) =>
            if Enabled(View(), a) && !a.Spawn? && !a.Close? {
              StepKeepsDropping(View(), a, old(workers), names, joining);
              Perform(a);
            }
          case None =>
            if joining.None? {
              var name :| name in names;
              CloseKeepsDropping(View(), name, old(workers), names);
              CloseChannel(name);
              names, joining := names - {name}, Some(name);
            } else if workers[joining.value].exited {
              joining := None;
            } else if over {
              NextStepDescends(View(), joining.value);
              var a := NextStep(workers[joining.value], joining.value);
              StepKeepsDropping(View(), a, old(workers), names, joining);
              Perform(a);
            }
        }
      }
      AllDrained(View(), old(workers));
    }
  }

  // ---------- while the map is being dropped ----------

  /** Every worker keeps its submissions; those in `names` are still open, the one being joined is
      closed, and the others have exited. */
  predicate Dropping(before: map<string, Worker>, workers: map<string, Worker>, names: set<string>,
                     joining: Option<string>) {
    && workers.Keys == before.Keys
    && names <= workers.Keys
    && (joining.Some? ==> joining.value in workers && joining.value !in names)
    && forall name :: name in workers ==>
         && workers[name].submitted == before[name].submitted
         && (name in names ==> !workers[name].closed)
         && (joining == Some(name) ==> workers[name].closed)
         && (name !in names && joining != Some(name) ==> workers[name].exited)
  }

  /** A worker that has run all it was sent, in order, and exited. */
  function Drained(w: Worker): Worker {
    Worker(w.submitted, [], None, w.submitted, true, true)
  }

  lemma DroppingJoins(before: map<string, Worker>, workers: map<string, Worker>, names: set<string>,
                      joining: Option<string>)
    requires Dropping(before, workers, names, joining)
    ensures joining.Some? ==> joining.value in workers && workers[joining.value].closed
    ensures joining.Some? && workers[joining.value].exited ==> Dropping(before, workers, names, None)
  {
  }

  lemma StepKeepsDropping<R>(s: State<R>, a: Action<R>, before: map<string, Worker>, names: set<string>,
                             joining: Option<string>)
    requires WellFormed(s) && Enabled(s, a) && !a.Spawn? && !a.Close?
    requires Dropping(before, s.workers, names, joining)
    ensures Dropping(before, Apply(s, a).workers, names, joining)
  {
    StepKeepsWorkers(s, a);
    hide Apply;
  }

  /** A step other than a submission or a closing keeps what was submitted to each worker and
      whether it is closed, and revives none. */
  lemma StepKeepsWorkers<R>(s: State<R>, a: Action<R>)
    requires WellFormed(s) && Enabled(s, a) && !a.Spawn? && !a.Close?
    ensures var workers' := Apply(s, a).workers;
            && workers'.Keys == s.workers.Keys
            && forall name :: name in s.workers ==>
                 var w, w' := s.workers[name], workers'[name];
                 w'.submitted == w.submitted && w'.closed == w.closed && (w.exited ==> w'.exited)
  {
    hide LoggedGet;
    hide AfterIntoInner;
  }

  lemma CloseKeepsDropping<R>(s: State<R>, name: string, before: map<string, Worker>, names: set<string>)
    requires WellFormed(s) && name in names && Dropping(before, s.workers, names, None)
    ensures Enabled(s, Close(name))
    ensures Dropping(before, Apply(s, Close(name)).workers, names - {name}, Some(name))
  {
  }

  lemma NextStepDescends<R>(s: State<R>, name: string)
    requires WellFormed(s) && name in s.workers && s.workers[name].closed && !s.workers[name].exited
    ensures var a := NextStep<R>(s.workers[name], name);
            && Enabled(s, a) && !a.Close?
            && name in Apply(s, a).workers
            && WorkerRank(Apply(s, a).workers[name]) < WorkerRank(s.workers[name])
  {
  }

  lemma AllDrained<R>(s: State<R>, before: map<string, Worker>)
    requires Inv(s) && Dropping(before, s.workers, {}, None)
    ensures s.workers.Keys == before.Keys
    ensures forall name :: name in s.workers ==> s.workers[name] == Drained(before[name])
    ensures forall id :: 0 <= id < |s.outcomes| ==> id in s.results && s.results[id] == s.outcomes[id]
  {
    EveryTaskDrained(s);
    forall name | name in s.workers
      ensures s.workers[name] == Drained(before[name])
    {
      ExitedIsDrained(s.workers[name]);
    }
  }

  lemma KeepsWellFormed<R>(s: State<R>)
    requires Inv(s)
    ensures WellFormed(s)
  {
  }

  lemma RunningIsTask<R>(s: State<R>, name: string)
    requires Inv(s) && name in s.workers && s.workers[name].running.Some?
    ensures s.workers[name].running.value < |s.outcomes|
  {
  }
}
