/** Graceful shutdown: the counter of guards that shutdown waits on, the futures that hold and
    hand out those guards, and the task manager that resolves them.

    Guards and handles are numbered in the order they are made; every atomic operation on the
    counter, and every poll, send and drop, is one step of the system. */
module GracefulShutdown {
  import opened Wrappers

  const USIZE: nat := 0x1_0000_0000_0000_0000

  /** Each guard holds a counted reference to the counter, and the count of references aborts
      the process before it can pass this limit. */
  const REFERENCE_LIMIT: nat := 0x7fff_ffff_ffff_ffff

  /** Where a guard is: in the future that was made with it, handed out by that future's
      completion, or dropped. */
  datatype Place = InHandle(h: nat) | HandedOut | Released

  /** A graceful-shutdown future: its guard, whether its shared receiver has already returned
      its result, and whether it still exists. */
  datatype Handle = Handle(guard: Option<nat>, terminated: bool, alive: bool)

  datatype Event = Panic(task: string) | ShutdownRequest

  datatype Outcome = Fine | Panicked(task: string)

  /** A manager that is stopping has dropped its signal and waits for the counter; its end of the
      event channel lasts until that wait is over. `last` is the result it completed with, if any. */
  datatype Manager =
    | Running
    | Completed(result: Outcome)
    | Stopping(last: Option<Outcome>, wait: nat)
    | Gone(last: Option<Outcome>)

  /** The one-shot shutdown channel. */
  datatype Channel = Open | Fired | Closed

  /** A call that waits for the counter, numbered in the order of the calls. `made` is the number of
      guards made before the read of the counter that ended it. */
  datatype Wait = Spinning | Returned(result: bool, made: nat)

  datatype State = State(
    counter: nat,
    guards: seq<Place>,
    handles: seq<Handle>,
    queue: seq<Event>,
    accepted: seq<Event>,
    senders: nat,
    manager: Manager,
    channel: Channel,
    waits: seq<Wait>)

  datatype Action =
    | Spawn
    | Clone(h: nat)
    | Poll(h: nat)
    | DropHandle(h: nat)
    | DropGuard(g: nat)
    | Send(e: Event)
    | CloneSender
    | DropSender
    | ManagerPoll
    | ManagerDrop
    | RuntimeShutdown
    | ManagerShutdown
    | CheckCounter(w: nat, expired: bool)

  datatype PollResult = Pending | Ready(guard: nat) | PolledAfterCompletion

  // ---------- the steps ----------

  function FetchAdd(counter: nat): nat { (counter + 1) % USIZE }

  function FetchSub(counter: nat): nat { if counter == 0 then USIZE - 1 else counter - 1 }

  function Init(): State {
    State(0, [], [], [], [], 1, Running, Open, [])
  }

  function Live(guards: seq<Place>): nat {
    if guards == [] then 0
    else Live(guards[..|guards| - 1]) + if guards[|guards| - 1] == Released then 0 else 1
  }

  predicate IsAlive(s: State, h: nat) {
    h < |s.handles| && s.handles[h].alive
  }

  predicate Enabled(s: State, a: Action) {
    match a
    case Spawn => s.senders > 0 && Live(s.guards) < REFERENCE_LIMIT
    case Clone(h) => IsAlive(s, h) && Live(s.guards) < REFERENCE_LIMIT
    case Poll(h) => IsAlive(s, h)
    case DropHandle(h) => IsAlive(s, h)
    case DropGuard(g) => g < |s.guards| && s.guards[g] == HandedOut
    case Send(_) => s.senders > 0
    case CloneSender => s.senders > 0
    case DropSender => s.senders > 0
    case ManagerPoll => s.manager.Running?
    case ManagerDrop => s.manager.Running? || s.manager.Completed?
    case RuntimeShutdown => s.senders > 0
    case ManagerShutdown => s.manager.Running? || s.manager.Completed?
    case CheckCounter(w, _) => w < |s.waits| && s.waits[w].Spinning?
  }

  /** Makes a handle with a guard of its own. */
  function MakeHandle(s: State, terminated: bool): State {
    s.(counter := FetchAdd(s.counter),
       guards := s.guards + [InHandle(|s.handles|)],
       handles := s.handles + [Handle(Some(|s.guards|), terminated, true)])
  }

  function Release(s: State, g: nat): State
    requires g < |s.guards|
  {
    s.(counter := FetchSub(s.counter), guards := s.guards[g := Released])
  }

  /** Polling a handle's shutdown future: the check for termination comes first, because the
      shared receiver may not be polled again once it has returned. */
  predicate Resolved(s: State, h: Handle) {
    h.terminated || !s.channel.Open?
  }

  function PollOf(s: State, h: nat): PollResult
    requires IsAlive(s, h)
  {
    if !Resolved(s, s.handles[h]) then Pending
    else match s.handles[h].guard
      case Some(g) => Ready(g)
      case None => PolledAfterCompletion
  }

  /** A send is refused once the receiving manager is gone. */
  function Accept(s: State, e: Event): State {
    if s.manager.Gone? then s else s.(queue := s.queue + [e], accepted := s.accepted + [e])
  }

  function PollManager(s: State): State
    requires s.manager.Running?
  {
    if s.queue != [] then
      match s.queue[0]
      case Panic(task) => s.(queue := s.queue[1..], manager := Completed(Panicked(task)))
      case ShutdownRequest => s.(queue := s.queue[1..], manager := Completed(Fine), channel := Fired)
    else if s.senders == 0 then s.(manager := Completed(Fine), channel := Fired)
    else s
  }

  function CloseUnlessFired(c: Channel): Channel {
    if c.Open? then Closed else c
  }

  function LastResult(m: Manager): Option<Outcome> {
    if m.Completed? then Some(m.result) else None
  }

  /** A read of the counter ends a call, and a manager that made the call is gone. */
  function ReturnFromWait(s: State, w: nat, result: bool): State
    requires w < |s.waits|
  {
    s.(waits := s.waits[w := Returned(result, |s.guards|)],
       manager := if s.manager.Stopping? && s.manager.wait == w then Gone(s.manager.last) else s.manager)
  }

  function Apply(s: State, a: Action): State
    requires Enabled(s, a) && WellFormed(s)
  {
    match a
    case Spawn => MakeHandle(s, false)
    case Clone(h) =>
      var from := s.handles[h];
      (match from.guard
       case Some(_) => MakeHandle(s, from.terminated)
       case None => s.(handles := s.handles + [Handle(None, from.terminated, true)]))
    case Poll(h) =>
      (match PollOf(s, h)
       case Pending => s
       case Ready(g) => s.(guards := s.guards[g := HandedOut], handles := s.handles[h := Handle(None, true, true)])
       case PolledAfterCompletion => s.(handles := s.handles[h := Handle(None, true, true)]))
    case DropHandle(h) =>
      var gone := s.(handles := s.handles[h := Handle(None, s.handles[h].terminated, false)]);
      (match s.handles[h].guard
       case Some(g) => Release(gone, g)
       case None => gone)
    case DropGuard(g) => Release(s, g)
    case Send(e) => Accept(s, e)
    case CloneSender => s.(senders := s.senders + 1)
    case DropSender => s.(senders := s.senders - 1)
    case ManagerPoll => PollManager(s)
    case ManagerDrop => s.(manager := Gone(LastResult(s.manager)), channel := CloseUnlessFired(s.channel))
    case RuntimeShutdown => Accept(s, ShutdownRequest).(waits := s.waits + [Spinning])
    case ManagerShutdown =>
      s.(manager := Stopping(LastResult(s.manager), |s.waits|), channel := CloseUnlessFired(s.channel),
         waits := s.waits + [Spinning])
    case CheckCounter(w, expired) =>
      if s.counter > 0 then (if expired then ReturnFromWait(s, w, false) else s)
      else ReturnFromWait(s, w, true)
  }

  // ---------- the invariant ----------

  /** Guards and the handles that hold them point at each other. */
  predicate Linked(guards: seq<Place>, handles: seq<Handle>) {
    && (forall g :: 0 <= g < |guards| && guards[g].InHandle? ==>
          guards[g].h < |handles| && handles[guards[g].h].guard == Some(g))
    && (forall h :: 0 <= h < |handles| && handles[h].guard.Some? ==>
          && handles[h].alive
          && handles[h].guard.value < |guards|
          && guards[handles[h].guard.value] == InHandle(h))
  }

  predicate WellFormed(s: State) {
    Linked(s.guards, s.handles)
  }

  /** The counter is the number of guards not yet released. */
  predicate CounterInv(s: State) {
    s.counter == Live(s.guards) <= REFERENCE_LIMIT
  }

  predicate Unresolved(guards: seq<Place>, handles: seq<Handle>) {
    && (forall g :: 0 <= g < |guards| ==> guards[g] != HandedOut)
    && (forall h :: 0 <= h < |handles| ==> !handles[h].terminated)
  }

  /** No guard is handed out, and no future has returned, before the shutdown channel resolves. */
  predicate OrderInv(s: State) {
    s.channel.Open? ==> Unresolved(s.guards, s.handles)
  }

  /** The result of a task manager that has received `accepted`. */
  function Decide(accepted: seq<Event>): Outcome {
    if accepted != [] && accepted[0].Panic? then Panicked(accepted[0].task) else Fine
  }

  /** A result is that of the first event accepted, or that there can be none. */
  predicate ResultInv(s: State, r: Outcome) {
    r == Decide(s.accepted) && (s.accepted == [] ==> s.senders == 0)
  }

  /** The manager fires the signal exactly when it completes without a panic. A manager that stops or
      goes before that closes the channel. */
  predicate ManagerInv(s: State) {
    match s.manager
    case Running => s.queue == s.accepted && s.channel.Open?
    case Completed(r) =>
      && ResultInv(s, r)
      && s.queue == (if s.accepted == [] then [] else s.accepted[1..])
      && s.channel == if r.Fine? then Fired else Open
    case Stopping(last, w) =>
      && w < |s.waits| && s.waits[w].Spinning?
      && s.channel == (if last == Some(Fine) then Fired else Closed)
      && (last.Some? ==> ResultInv(s, last.value))
    case Gone(last) =>
      && s.channel == (if last == Some(Fine) then Fired else Closed)
      && (last.Some? ==> ResultInv(s, last.value))
  }

  /** A call that returned true left no guard, made before the read that ended it, unreleased. */
  predicate WaitInv(w: Wait, guards: seq<Place>) {
    w.Returned? && w.result ==>
      w.made <= |guards| && forall g :: 0 <= g < w.made ==> guards[g] == Released
  }

  predicate WaitsInv(waits: seq<Wait>, guards: seq<Place>) {
    forall w :: 0 <= w < |waits| ==> WaitInv(waits[w], guards)
  }

  predicate Inv(s: State) {
    WellFormed(s) && CounterInv(s) && OrderInv(s) && ManagerInv(s) && WaitsInv(s.waits, s.guards)
  }

  /** Guards stay released. */
  lemma WaitsKept(waits: seq<Wait>, guards: seq<Place>, guards': seq<Place>)
    requires WaitsInv(waits, guards) && |guards| <= |guards'|
    requires forall g :: 0 <= g < |guards| && guards[g] == Released ==> guards'[g] == Released
    ensures WaitsInv(waits, guards')
  {
    forall w | 0 <= w < |waits|
      ensures WaitInv(waits[w], guards')
    {
      assert WaitInv(waits[w], guards);
    }
  }

  lemma {:induction false} LiveUpdate(guards: seq<Place>, g: nat, p: Place)
    requires g < |guards|
    ensures Live(guards[g := p])
         == Live(guards) - (if guards[g] == Released then 0 else 1) + (if p == Released then 0 else 1)
  {
    var n := |guards| - 1;
    if g < n {
      assert guards[g := p][..n] == guards[..n][g := p];
      LiveUpdate(guards[..n], g, p);
    } else {
      assert guards[g := p][..n] == guards[..n];
    }
  }

  lemma LiveAppend(guards: seq<Place>, p: Place)
    requires p != Released
    ensures Live(guards + [p]) == Live(guards) + 1
  {
    assert (guards + [p])[..|guards|] == guards;
  }

  /** No live guards means every guard has been released. */
  lemma {:induction false} NoneLive(guards: seq<Place>)
    ensures Live(guards) == 0 <==> forall g :: 0 <= g < |guards| ==> guards[g] == Released
  {
    if guards != [] {
      var front := guards[..|guards| - 1];
      NoneLive(front);
      if forall g :: 0 <= g < |front| ==> front[g] == Released {
        assert forall g :: 0 <= g < |front| ==> guards[g] == front[g];
      } else {
        var g :| 0 <= g < |front| && front[g] != Released;
        assert guards[g] == front[g];
      }
    }
  }

  lemma LinkedAppend(guards: seq<Place>, handles: seq<Handle>, terminated: bool)
    requires Linked(guards, handles)
    ensures Linked(guards + [InHandle(|handles|)], handles + [Handle(Some(|guards|), terminated, true)])
    ensures Linked(guards, handles + [Handle(None, terminated, true)])
  {
  }

  /** Handle `h` loses its guard, which goes where no handle holds it. */
  lemma LinkedTake(guards: seq<Place>, handles: seq<Handle>, h: nat, terminated: bool, alive: bool, p: Place)
    requires Linked(guards, handles) && h < |handles| && !p.InHandle?
    ensures var taken := handles[h := Handle(None, terminated, alive)];
            match handles[h].guard
            case Some(g) => g < |guards| && Linked(guards[g := p], taken)
            case None => Linked(guards, taken)
  {
  }

  lemma LinkedRelease(guards: seq<Place>, handles: seq<Handle>, g: nat)
    requires Linked(guards, handles) && g < |guards| && guards[g] == HandedOut
    ensures Linked(guards[g := Released], handles)
  {
  }

  lemma UnresolvedAppend(guards: seq<Place>, handles: seq<Handle>, h: Handle)
    requires Unresolved(guards, handles) && !h.terminated
    ensures Unresolved(guards + [InHandle(|handles|)], handles + [h])
    ensures Unresolved(guards, handles + [h])
  {
  }

  lemma UnresolvedDrop(guards: seq<Place>, handles: seq<Handle>, h: nat, g: nat)
    requires Unresolved(guards, handles) && h < |handles|
    ensures var dropped := handles[h := Handle(None, handles[h].terminated, false)];
            && Unresolved(guards, dropped)
            && (g < |guards| ==> Unresolved(guards[g := Released], dropped))
  {
  }

  lemma MakeKeepsInv(s: State, terminated: bool)
    requires Inv(s) && Live(s.guards) < REFERENCE_LIMIT
    requires terminated ==> !s.channel.Open?
    ensures Inv(MakeHandle(s, terminated))
  {
    hide Linked;
    hide Unresolved;
    hide Live;
    hide WaitsInv;
    LiveAppend(s.guards, InHandle(|s.handles|));
    LinkedAppend(s.guards, s.handles, terminated);
    WaitsKept(s.waits, s.guards, s.guards + [InHandle(|s.handles|)]);
    if s.channel.Open? {
      UnresolvedAppend(s.guards, s.handles, Handle(Some(|s.guards|), terminated, true));
    }
  }

  lemma BareCloneKeepsInv(s: State, terminated: bool)
    requires Inv(s) && (terminated ==> !s.channel.Open?)
    ensures Inv(s.(handles := s.handles + [Handle(None, terminated, true)]))
  {
    hide Linked;
    hide Unresolved;
    hide WaitsInv;
    LinkedAppend(s.guards, s.handles, terminated);
    if s.channel.Open? {
      UnresolvedAppend(s.guards, s.handles, Handle(None, terminated, true));
    }
  }

  lemma PollKeepsInv(s: State, h: nat)
    requires Inv(s) && Enabled(s, Poll(h))
    ensures Inv(Apply(s, Poll(h)))
  {
    assert s.handles[h].guard.Some? ==> s.guards[s.handles[h].guard.value] == InHandle(h);
    hide Linked;
    hide WaitsInv;
    LinkedTake(s.guards, s.handles, h, true, true, HandedOut);
    if PollOf(s, h).Ready? {
      var g := PollOf(s, h).guard;
      LiveUpdate(s.guards, g, HandedOut);
      WaitsKept(s.waits, s.guards, s.guards[g := HandedOut]);
    }
  }

  lemma DropGuardKeepsInv(s: State, g: nat)
    requires Inv(s) && Enabled(s, DropGuard(g))
    ensures Inv(Apply(s, DropGuard(g)))
  {
    hide Linked;
    hide Live;
    hide WaitsInv;
    LiveUpdate(s.guards, g, Released);
    LinkedRelease(s.guards, s.handles, g);
    WaitsKept(s.waits, s.guards, s.guards[g := Released]);
  }

  lemma DropHandleKeepsInv(s: State, h: nat)
    requires Inv(s) && Enabled(s, DropHandle(h))
    ensures Inv(Apply(s, DropHandle(h)))
  {
    match s.handles[h].guard
    case Some(g) => DropHolderKeepsInv(s, h, g);
    case None =>
      hide Linked;
      hide Live;
      hide Unresolved;
      hide WaitsInv;
      LinkedTake(s.guards, s.handles, h, s.handles[h].terminated, false, Released);
      if s.channel.Open? {
        UnresolvedDrop(s.guards, s.handles, h, 0);
      }
  }

  lemma DropHolderKeepsInv(s: State, h: nat, g: nat)
    requires Inv(s) && Enabled(s, DropHandle(h)) && s.handles[h].guard == Some(g)
    ensures Inv(Apply(s, DropHandle(h)))
  {
    assert s.guards[g] == InHandle(h);
    hide Linked;
    hide Live;
    hide WaitsInv;
    var s' := Apply(s, DropHandle(h));
    assert s' == Release(s, g).(handles := s.handles[h := Handle(None, s.handles[h].terminated, false)]);
    hide Apply;
    LinkedTake(s.guards, s.handles, h, s.handles[h].terminated, false, Released);
    LiveUpdate(s.guards, g, Released);
    WaitsKept(s.waits, s.guards, s.guards[g := Released]);
    hide Unresolved;
    if s.channel.Open? {
      UnresolvedDrop(s.guards, s.handles, h, g);
    }
  }

  lemma CloneKeepsInv(s: State, h: nat)
    requires Inv(s) && Enabled(s, Clone(h))
    ensures Inv(Apply(s, Clone(h)))
  {
    hide Linked;
    hide WaitsInv;
    var from := s.handles[h];
    assert from.terminated ==> !s.channel.Open?;
    hide Unresolved;
    if from.guard.Some? {
      MakeKeepsInv(s, from.terminated);
    } else {
      BareCloneKeepsInv(s, from.terminated);
    }
  }

  lemma CheckKeepsInv(s: State, w: nat, expired: bool)
    requires Inv(s) && Enabled(s, CheckCounter(w, expired))
    ensures Inv(Apply(s, CheckCounter(w, expired)))
  {
    hide Linked;
    hide Unresolved;
    hide Live;
    NoneLive(s.guards);
  }

  /** The steps that touch no guard and no handle. */
  predicate IsManagerStep(a: Action) {
    a.Send? || a.CloneSender? || a.DropSender? || a.ManagerPoll? || a.ManagerDrop? || a.RuntimeShutdown?
    || a.ManagerShutdown?
  }

  lemma ManagerStepKeepsInv(s: State, a: Action)
    requires Inv(s) && Enabled(s, a) && IsManagerStep(a)
    ensures Inv(Apply(s, a))
  {
    hide Linked;
    hide Unresolved;
    hide Live;
    var s' := Apply(s, a);
    assert s'.guards == s.guards && s'.handles == s.handles && s'.counter == s.counter;
    assert WaitInv(Spinning, s.guards);
  }

  /** Every step keeps the invariant; in particular the counter never underflows. */
  lemma StepKeepsInv(s: State, a: Action)
    requires Inv(s) && Enabled(s, a)
    ensures Inv(Apply(s, a))
  {
    hide Linked;
    hide Live;
    hide CounterInv;
    hide OrderInv;
    hide ManagerInv;
    hide WaitsInv;
    match a
    case Spawn => MakeKeepsInv(s, false);
    case Clone(h) => CloneKeepsInv(s, h);
    case Poll(h) => PollKeepsInv(s, h);
    case DropHandle(h) => DropHandleKeepsInv(s, h);
    case DropGuard(g) => DropGuardKeepsInv(s, g);
    case CheckCounter(w, expired) => CheckKeepsInv(s, w, expired);
    case Send(_) => ManagerStepKeepsInv(s, a);
    case CloneSender => ManagerStepKeepsInv(s, a);
    case DropSender => ManagerStepKeepsInv(s, a);
    case ManagerPoll => ManagerStepKeepsInv(s, a);
    case ManagerDrop => ManagerStepKeepsInv(s, a);
    case RuntimeShutdown => ManagerStepKeepsInv(s, a);
    case ManagerShutdown => ManagerStepKeepsInv(s, a);
  }

  // ---------- all runs ----------

  predicate Legal(s: State, acts: seq<Action>)
    decreases |acts|
  {
    acts == [] || (WellFormed(s) && Enabled(s, acts[0]) && Legal(Apply(s, acts[0]), acts[1..]))
  }

  function Exec(s: State, acts: seq<Action>): State
    requires Legal(s, acts)
    decreases |acts|
  {
    if acts == [] then s else Exec(Apply(s, acts[0]), acts[1..])
  }

  lemma {:induction false} RunKeepsInv(s: State, acts: seq<Action>)
    requires Inv(s) && Legal(s, acts)
    ensures Inv(Exec(s, acts))
    decreases |acts|
  {
    if acts != [] {
      StepKeepsInv(s, acts[0]);
      RunKeepsInv(Apply(s, acts[0]), acts[1..]);
    }
  }

  /** In every reachable state: the counter counts the unreleased guards; a guard is out only
      after shutdown; the manager's result is its first event's; and each wait that returned true
      read the counter when every guard made until then had been released. */
  lemma EveryRun(acts: seq<Action>)
    requires Legal(Init(), acts)
    ensures var s := Exec(Init(), acts);
            && s.counter == Live(s.guards)
            && (HandedOut in s.guards ==> !s.channel.Open?)
            && (s.manager.Completed? ==> s.manager.result == Decide(s.accepted))
            && (s.manager.Stopping? || s.manager.Gone? ==> !s.channel.Open?)
            && (forall w, g :: 0 <= w < |s.waits| && s.waits[w].Returned? && s.waits[w].result
                               && 0 <= g < s.waits[w].made ==>
                  g < |s.guards| && s.guards[g] == Released)
  {
    RunKeepsInv(Init(), acts);
    var s := Exec(Init(), acts);
    forall w, g | 0 <= w < |s.waits| && s.waits[w].Returned? && s.waits[w].result && 0 <= g < s.waits[w].made
      ensures g < |s.guards| && s.guards[g] == Released
    {
      assert WaitInv(s.waits[w], s.guards);
    }
  }

  /** A read of the counter ends a wait with true exactly when no guard is unreleased, whether or
      not the deadline has passed. */
  lemma WaitReturnsTrueIff(s: State, w: nat, expired: bool)
    requires Inv(s) && Enabled(s, CheckCounter(w, expired))
    ensures var wait := Apply(s, CheckCounter(w, expired)).waits[w];
            && (wait == Returned(true, |s.guards|) <==> forall g :: 0 <= g < |s.guards| ==> s.guards[g] == Released)
            && (wait == Returned(false, |s.guards|)
                <==> expired && exists g :: 0 <= g < |s.guards| && s.guards[g] != Released)
            && (wait != Spinning ==> wait.made == |s.guards|)
  {
    NoneLive(s.guards);
  }

  // ---------- what makes and releases guards ----------

  /** `s'` is `s` with one more handle: alive, with a fresh guard of its own that the counter counts
      if `guarded`, and with none otherwise. */
  predicate AddsHandle(s: State, s': State, terminated: bool, guarded: bool) {
    var h, g := |s.handles|, |s.guards|;
    && |s'.handles| == h + 1
    && s'.handles[..h] == s.handles
    && s'.handles[h].alive
    && s'.handles[h].terminated == terminated
    && s'.handles[h].guard == (if guarded then Some(g) else None)
    && |s'.guards| == (if guarded then g + 1 else g)
    && s'.guards[..g] == s.guards
    && (guarded ==> s'.guards[g] == InHandle(h))
    && s'.counter == s.counter + (if guarded then 1 else 0)
    && Live(s'.guards) == Live(s.guards) + (if guarded then 1 else 0)
    && s'.queue == s.queue && s'.accepted == s.accepted && s'.senders == s.senders
    && s'.manager == s.manager && s'.channel == s.channel && s'.waits == s.waits
  }

  /** A spawned task's future has a guard. */
  lemma SpawnMakesGuard(s: State)
    requires Inv(s) && Enabled(s, Spawn)
    ensures AddsHandle(s, Apply(s, Spawn), false, true)
  {
    LiveAppend(s.guards, InHandle(|s.handles|));
  }

  /** A clone has a guard of its own exactly when the original still has one. */
  lemma CloneMakesGuard(s: State, h: nat)
    requires Inv(s) && Enabled(s, Clone(h))
    ensures AddsHandle(s, Apply(s, Clone(h)), s.handles[h].terminated, s.handles[h].guard.Some?)
  {
    LiveAppend(s.guards, InHandle(|s.handles|));
  }

  /** A guard in a future leaves it only when that future is dropped, which releases it, or polled
      with the channel resolved, which hands it out. */
  lemma StepKeepsGuard(s: State, a: Action, h: nat, g: nat)
    requires Inv(s) && Enabled(s, a) && h < |s.handles| && s.handles[h].guard == Some(g)
    ensures var s' := Apply(s, a);
            && g < |s'.guards|
            && s'.handles[h] ==
                 (if a == DropHandle(h) then Handle(None, s.handles[h].terminated, false)
                  else if a == Poll(h) && Resolved(s, s.handles[h]) then Handle(None, true, true)
                  else s.handles[h])
            && s'.guards[g] ==
                 (if a == DropHandle(h) then Released
                  else if a == Poll(h) && Resolved(s, s.handles[h]) then HandedOut
                  else InHandle(h))
  {
  }

  /** A guard handed out is released only by its own drop. */
  lemma StepKeepsHandedOut(s: State, a: Action, g: nat)
    requires Inv(s) && Enabled(s, a) && g < |s.guards| && s.guards[g] == HandedOut
    ensures g < |Apply(s, a).guards|
    ensures Apply(s, a).guards[g] == if a == DropGuard(g) then Released else HandedOut
  {
  }

  lemma {:induction false} HandedOutUntilDropped(s: State, acts: seq<Action>, g: nat)
    requires Inv(s) && Legal(s, acts) && g < |s.guards| && s.guards[g] == HandedOut
    ensures g < |Exec(s, acts).guards|
    ensures Exec(s, acts).guards[g] == Released ==> DropGuard(g) in acts
    decreases |acts|
  {
    hide Inv;
    hide Apply;
    hide Enabled;
    if acts != [] && acts[0] != DropGuard(g) {
      StepKeepsInv(s, acts[0]);
      StepKeepsHandedOut(s, acts[0], g);
      HandedOutUntilDropped(Apply(s, acts[0]), acts[1..], g);
    } else if acts != [] {
      StepKeepsInv(s, acts[0]);
      RunKeepsGuards(Apply(s, acts[0]), acts[1..]);
      StepGoesOnward(s, acts[0], |s.waits|) by { KeepsWellFormed(s); }
    }
  }

  lemma {:induction false} RunKeepsGuards(s: State, acts: seq<Action>)
    requires Inv(s) && Legal(s, acts)
    ensures |s.guards| <= |Exec(s, acts).guards|
    decreases |acts|
  {
    if acts != [] {
      StepKeepsInv(s, acts[0]);
      KeepsWellFormed(s);
      StepGoesOnward(s, acts[0], |s.waits|);
      hide Inv;
      hide Apply;
      hide Enabled;
      RunKeepsGuards(Apply(s, acts[0]), acts[1..]);
    }
  }

  lemma {:induction false} ReleasedOnlyIf(s: State, acts: seq<Action>, h: nat, g: nat)
    requires Inv(s) && Legal(s, acts) && h < |s.handles| && s.handles[h].guard == Some(g)
    ensures g < |Exec(s, acts).guards|
    ensures Exec(s, acts).guards[g] == Released ==>
              DropHandle(h) in acts || (Poll(h) in acts && DropGuard(g) in acts)
    decreases |acts|
  {
    assert s.guards[g] == InHandle(h);
    if acts != [] {
      var a, rest := acts[0], acts[1..];
      StepKeepsInv(s, a);
      StepKeepsGuard(s, a, h, g);
      hide Inv;
      hide Apply;
      hide Enabled;
      assert a in acts && forall b :: b in rest ==> b in acts;
      if a == Poll(h) && Resolved(s, s.handles[h]) {
        HandedOutUntilDropped(Apply(s, a), rest, g);
      } else if a == DropHandle(h) {
        RunKeepsGuards(Apply(s, a), rest);
      } else {
        ReleasedOnlyIf(Apply(s, a), rest, h, g);
      }
    }
  }

  /** A wait that returns true covers every task: since each future spawned, or cloned from one with
      a guard, either that future was dropped, or it was polled to completion and the guard it
      handed out was dropped too. */
  lemma WaitCoversEveryTask(s: State, birth: Action, between: seq<Action>, w: nat, expired: bool)
    requires Inv(s) && Enabled(s, birth)
    requires birth.Spawn? || (birth.Clone? && s.handles[birth.h].guard.Some?)
    requires Legal(Apply(s, birth), between + [CheckCounter(w, expired)])
    ensures var end := Exec(Apply(s, birth), between + [CheckCounter(w, expired)]);
            && w < |end.waits|
            && (end.waits[w].Returned? && end.waits[w].result ==>
                  var h, g := |s.handles|, |s.guards|;
                  DropHandle(h) in between || (Poll(h) in between && DropGuard(g) in between))
  {
    var s1, check := Apply(s, birth), CheckCounter(w, expired);
    StepKeepsInv(s, birth);
    if birth.Spawn? {
      SpawnMakesGuard(s);
    } else {
      CloneMakesGuard(s, birth.h);
    }
    hide Inv;
    hide Live;
    RunSplits(s1, between, [check]);
    RunKeepsInv(s1, between);
    ReleasedOnlyIf(s1, between, |s.handles|, |s.guards|);
    var s2 := Exec(s1, between);
    WaitReturnsTrueIff(s2, w, expired);
    OneStep(s2, check);
  }

  lemma OneStep(s: State, a: Action)
    requires Legal(s, [a])
    ensures WellFormed(s) && Enabled(s, a) && Exec(s, [a]) == Apply(s, a)
  {
    assert [a][1..] == [];
  }

  // ---------- what the manager receives ----------

  /** The events that a step sends. */
  function SentBy(a: Action): seq<Event> {
    match a
    case Send(e) => [e]
    case RuntimeShutdown => [ShutdownRequest]
    case _ => []
  }

  /** The events that the steps of a run send. */
  function Sent(acts: seq<Action>): seq<Event> {
    if acts == [] then [] else Sent(acts[..|acts| - 1]) + SentBy(acts[|acts| - 1])
  }

  /** The result of a run's manager, if it has one. */
  function ResultOf(m: Manager): Option<Outcome> {
    match m
    case Running => None
    case Completed(r) => Some(r)
    case Stopping(last, _) => last
    case Gone(last) => last
  }

  /** What a step adds to the accepted events, and what becomes of a result. */
  lemma StepDecides(s: State, a: Action)
    requires Inv(s) && Enabled(s, a)
    ensures var s' := Apply(s, a);
            && s'.accepted == (if s.manager.Gone? then s.accepted else s.accepted + SentBy(a))
            && (s.manager.Gone? ==> s'.manager == s.manager)
            && (ResultOf(s.manager).Some? ==> ResultOf(s'.manager) == ResultOf(s.manager))
            && (SentBy(a) != [] ==> s.senders > 0)
  {
  }

  /** What a manager to which `sent` was sent has made of it. */
  predicate Received(s: State, sent: seq<Event>) {
    && s.accepted <= sent
    && (!s.manager.Gone? ==> s.accepted == sent)
    && (ResultOf(s.manager).Some? ==> ResultOf(s.manager) == Some(Decide(sent)))
  }

  lemma StepReceives(s: State, a: Action, sent: seq<Event>)
    requires Inv(s) && Enabled(s, a) && Received(s, sent)
    ensures Received(Apply(s, a), sent + SentBy(a))
  {
    StepKeepsInv(s, a);
    StepDecides(s, a);
    ResultDecided(s);
    ResultDecided(Apply(s, a));
    hide Inv;
    hide Apply;
    hide Enabled;
    hide SentBy;
  }

  /** Unless it is gone, the manager has accepted exactly what was sent, in order; and its result,
      from the moment it has one, is that of the first event ever sent. */
  lemma {:induction false} FirstEventDecides(acts: seq<Action>)
    requires Legal(Init(), acts)
    ensures Received(Exec(Init(), acts), Sent(acts))
    decreases |acts|
  {
    if acts != [] {
      var front, a := acts[..|acts| - 1], acts[|acts| - 1];
      assert acts == front + [a];
      RunSplits(Init(), front, [a]);
      RunKeepsInv(Init(), front);
      FirstEventDecides(front);
      OneStep(Exec(Init(), front), a);
      StepReceives(Exec(Init(), front), a, Sent(front));
      hide Inv;
      hide Apply;
      hide Enabled;
      hide Received;
    }
  }

  function SenderChange(a: Action): int {
    if a.CloneSender? then 1 else if a.DropSender? then -1 else 0
  }

  function SenderChanges(acts: seq<Action>): int {
    if acts == [] then 0 else SenderChange(acts[0]) + SenderChanges(acts[1..])
  }

  lemma StepChangesSenders(s: State, a: Action)
    requires Inv(s) && Enabled(s, a)
    ensures Apply(s, a).senders == s.senders + SenderChange(a)
  {
    hide Linked;
  }

  lemma {:induction false} SendersChange(s: State, acts: seq<Action>)
    requires Inv(s) && Legal(s, acts)
    ensures Exec(s, acts).senders == s.senders + SenderChanges(acts)
    decreases |acts|
  {
    if acts != [] {
      StepKeepsInv(s, acts[0]);
      StepChangesSenders(s, acts[0]);
      hide Inv;
      hide Apply;
      hide Enabled;
      SendersChange(Apply(s, acts[0]), acts[1..]);
    }
  }

  /** The runtime holds one sender from the start; those made and not yet dropped are the others. A
      manager that nothing was sent to completes exactly when none is left. */
  lemma SendersAreCounted(acts: seq<Action>)
    requires Legal(Init(), acts)
    ensures Exec(Init(), acts).senders == 1 + SenderChanges(acts)
    ensures var s := Exec(Init(), acts);
            s.manager.Running? && Sent(acts) == [] ==>
              && WellFormed(s) && Enabled(s, ManagerPoll)
              && Apply(s, ManagerPoll).manager == if SenderChanges(acts) == -1 then Completed(Fine) else Running
  {
    RunKeepsInv(Init(), acts);
    SendersChange(Init(), acts);
    FirstEventDecides(acts);
    hide Inv;
    hide Apply;
    hide Enabled;
    if Exec(Init(), acts).manager.Running? {
      PollWithoutEvents(Exec(Init(), acts));
    }
  }

  lemma PollWithoutEvents(s: State)
    requires Inv(s) && s.manager.Running?
    ensures WellFormed(s) && Enabled(s, ManagerPoll)
    ensures s.accepted == [] ==> Apply(s, ManagerPoll).manager == if s.senders == 0 then Completed(Fine) else Running
  {
  }

  lemma ResultDecided(s: State)
    requires Inv(s)
    ensures ResultOf(s.manager).Some? ==> ResultInv(s, ResultOf(s.manager).value)
  {
  }

  // ---------- what a step keeps of a handle ----------

  /** What a step leaves in place of a handle. */
  lemma StepKeepsHandles(s: State, a: Action, h: nat)
    requires Inv(s) && Enabled(s, a) && h < |s.handles|
    ensures var s' := Apply(s, a);
            && |s.handles| <= |s'.handles|
            && (s.handles[h].guard.None? ==> s'.handles[h].guard.None?)
            && (s.handles[h].terminated ==> s'.handles[h].terminated)
            && (!s.channel.Open? ==> !s'.channel.Open?)
  {
  }

  /** What the steps of other threads keep for a thread in wait `w`. */
  predicate Onward(s: State, s': State, w: nat) {
    && |s.guards| <= |s'.guards|
    && s.accepted <= s'.accepted
    && (w < |s.waits| ==> w < |s'.waits| && s'.waits[w] == s.waits[w])
    && (!s.channel.Open? ==> !s'.channel.Open?)
    && (s.manager.Stopping? && s.manager.wait == w ==> s'.manager == s.manager)
  }

  lemma StepGoesOnward(s: State, a: Action, w: nat)
    requires WellFormed(s) && Enabled(s, a) && !(a.CheckCounter? && a.w == w)
    ensures Onward(s, Apply(s, a), w)
  {
  }

  lemma {:induction false} RunKeepsHandles(s: State, acts: seq<Action>, h: nat)
    requires Inv(s) && Legal(s, acts) && h < |s.handles|
    ensures var s' := Exec(s, acts);
            && |s.handles| <= |s'.handles|
            && (s.handles[h].guard.None? ==> s'.handles[h].guard.None?)
            && (s.handles[h].terminated ==> s'.handles[h].terminated)
            && (!s.channel.Open? ==> !s'.channel.Open?)
    decreases |acts|
  {
    if acts != [] {
      StepKeepsHandles(s, acts[0], h);
      StepKeepsInv(s, acts[0]);
      RunKeepsHandles(Apply(s, acts[0]), acts[1..], h);
    }
  }

  /** A future hands its guard out at most once: after it has, every later poll, in every run,
      panics instead. */
  lemma GuardHandedOutOnce(s: State, h: nat, acts: seq<Action>)
    requires Inv(s) && IsAlive(s, h) && PollOf(s, h).Ready?
    requires Legal(Apply(s, Poll(h)), acts)
    ensures var s' := Exec(Apply(s, Poll(h)), acts);
            IsAlive(s', h) ==> PollOf(s', h) == PolledAfterCompletion
  {
    StepKeepsInv(s, Poll(h));
    RunKeepsHandles(Apply(s, Poll(h)), acts, h);
  }

  /** A resolved shutdown future stays resolved on every later poll, in every run. */
  lemma ResolvedStaysResolved(s: State, h: nat, acts: seq<Action>)
    requires Inv(s) && h < |s.handles| && Resolved(s, s.handles[h]) && Legal(s, acts)
    ensures h < |Exec(s, acts).handles| && Resolved(Exec(s, acts), Exec(s, acts).handles[h])
  {
    RunKeepsHandles(s, acts, h);
  }

  /** A manager with something to receive completes at its next poll, and fires the signal unless
      it received a panic. Whenever it is dropped after that, the channel has resolved; and from
      then on, in every run, every future that still has its guard hands it out at its next poll. */
  lemma ShutdownReachesEveryHandle(s: State, between: seq<Action>, after: seq<Action>, h: nat)
    requires Inv(s) && s.manager.Running? && (s.queue != [] || s.senders == 0)
    requires Legal(s, [ManagerPoll] + between + [ManagerDrop] + after)
    ensures var s1 := Apply(s, ManagerPoll);
            && s1.manager == Completed(Decide(s.accepted))
            && (Decide(s.accepted).Fine? ==> s1.channel.Fired?)
    ensures var s' := Exec(s, [ManagerPoll] + between + [ManagerDrop] + after);
            && !s'.channel.Open?
            && (IsAlive(s', h) && s'.handles[h].guard.Some? ==> PollOf(s', h) == Ready(s'.handles[h].guard.value))
  {
    hide Linked;
    hide Unresolved;
    hide Live;
    var first := [ManagerPoll] + between;
    assert [ManagerPoll] + between + [ManagerDrop] + after == first + ([ManagerDrop] + after);
    RunSplits(s, first, [ManagerDrop] + after);
    RunKeepsInv(s, first);
    var s2 := Exec(s, first);
    assert ([ManagerDrop] + after)[1..] == after;
    StepKeepsInv(s2, ManagerDrop);
    ChannelStaysResolved(Apply(s2, ManagerDrop), after);
  }

  /** So does every future in a state whose manager has fired or dropped its signal. */
  lemma EndedManagerResolves(s: State, acts: seq<Action>, h: nat)
    requires Inv(s) && Legal(s, acts)
    requires s.manager == Completed(Fine) || s.manager.Stopping? || s.manager.Gone?
    ensures var s' := Exec(s, acts);
            && !s'.channel.Open?
            && (IsAlive(s', h) && s'.handles[h].guard.Some? ==> PollOf(s', h) == Ready(s'.handles[h].guard.value))
  {
    ChannelStaysResolved(s, acts);
  }

  lemma {:induction false} RunSplits(s: State, a: seq<Action>, b: seq<Action>)
    requires Legal(s, a + b)
    ensures Legal(s, a) && Legal(Exec(s, a), b)
    ensures Exec(s, a + b) == Exec(Exec(s, a), b)
    decreases |a|
  {
    if a == [] {
      assert a + b == b;
    } else {
      assert (a + b)[1..] == a[1..] + b;
      RunSplits(Apply(s, a[0]), a[1..], b);
    }
  }

  lemma {:induction false} ChannelStaysResolved(s: State, acts: seq<Action>)
    requires Inv(s) && Legal(s, acts) && !s.channel.Open?
    ensures !Exec(s, acts).channel.Open?
    decreases |acts|
  {
    if acts != [] {
      StepKeepsInv(s, acts[0]);
      ChannelStaysResolved(Apply(s, acts[0]), acts[1..]);
    }
  }

  /** Nothing blocks: whatever the other threads have done, a future can be cloned, polled and dropped
      while it is alive, a guard dropped once it is out, the counter read while a wait spins, the
      manager polled until it completes, and it can be dropped or stopped until it is gone; and the
      holder of a sender can spawn, send and request shutdown. */
  lemma NothingBlocks(s: State, h: nat, g: nat, w: nat, e: Event, expired: bool)
    requires Inv(s)
    ensures h < |s.handles| && s.handles[h].alive ==> Enabled(s, Poll(h)) && Enabled(s, DropHandle(h))
    ensures h < |s.handles| && s.handles[h].alive && s.counter < REFERENCE_LIMIT ==> Enabled(s, Clone(h))
    ensures g < |s.guards| && s.guards[g] == HandedOut ==> Enabled(s, DropGuard(g))
    ensures w < |s.waits| && s.waits[w].Spinning? ==> Enabled(s, CheckCounter(w, expired))
    ensures s.manager.Running? ==> Enabled(s, ManagerPoll)
    ensures !s.manager.Gone? && !s.manager.Stopping? ==> Enabled(s, ManagerDrop) && Enabled(s, ManagerShutdown)
    ensures s.senders > 0 ==>
              && Enabled(s, Send(e)) && Enabled(s, RuntimeShutdown)
              && Enabled(s, CloneSender) && Enabled(s, DropSender)
              && (s.counter < REFERENCE_LIMIT ==> Enabled(s, Spawn))
  {
  }

  // ---------- the runtime, updated in place ----------

  class Runtime {
    var counter: nat
    var guards: seq<Place>
    var handles: seq<Handle>
    var queue: seq<Event>
    var accepted: seq<Event>
    var senders: nat
    var manager: Manager
    var channel: Channel
    var waits: seq<Wait>

    function View(): State
      reads this
    {
      State(counter, guards, handles, queue, accepted, senders, manager, channel, waits)
    }

    predicate Valid()
      reads this
    {
      Inv(View())
    }

    constructor ()
      ensures View() == Init() && Valid()
    {
      counter, guards, handles := 0, [], [];
      queue, accepted, senders := [], [], 1;
      manager, channel, waits := Running, Open, [];
    }

    /** Makes a guard, held by handle `h`. */
    method NewGuard(h: nat) returns (g: nat)
      modifies `counter, `guards
      ensures g == |old(guards)| && guards == old(guards) + [InHandle(h)]
      ensures counter == FetchAdd(old(counter))
    {
      counter := (counter + 1) % USIZE;
      g := |guards|;
      guards := guards + [InHandle(h)];
    }

    method DropGuard(g: nat)
      requires g < |guards|
      modifies `counter, `guards
      ensures guards == old(guards)[g := Released] && counter == FetchSub(old(counter))
    {
      counter := if counter == 0 then USIZE - 1 else counter - 1;
      guards := guards[g := Released];
    }

    method SpawnGraceful()
      requires Valid() && Enabled(View(), Spawn)
      modifies this
      ensures Valid() && View() == Apply(old(View()), Spawn)
      ensures AddsHandle(old(View()), View(), false, true)
    {
      SpawnMakesGuard(View());
      StepKeepsInv(View(), Spawn);
      hide AddsHandle;
      hide Linked;
      hide Unresolved;
      var g := NewGuard(|handles|);
      handles := handles + [Handle(Some(g), false, true)];
    }

    /** Asks the manager to shut down. The caller gets a handle of its own, and so a guard that
        shutdown waits for, unless the manager is gone. */
    method InitiateGracefulShutdown() returns (h: Option<nat>)
      requires Valid() && Enabled(View(), Spawn)
      modifies this
      ensures Valid()
      ensures old(manager).Gone? ==> h == None && View() == old(View())
      ensures !old(manager).Gone? ==> h == Some(|old(handles)|)
      ensures !old(manager).Gone? ==>
                var sent := old(View()).(queue := old(queue) + [ShutdownRequest],
                                         accepted := old(accepted) + [ShutdownRequest]);
                AddsHandle(sent, View(), false, true)
    {
      if manager.Gone? {
        return None;
      }
      StepKeepsInv(View(), Action.Send(ShutdownRequest));
      h := Some(|handles|);
      Send(ShutdownRequest);
      SpawnGraceful();
    }

    method CloneHandle(h: nat)
      requires Valid() && Enabled(View(), Clone(h))
      modifies this
      ensures Valid() && View() == Apply(old(View()), Clone(h))
      ensures AddsHandle(old(View()), View(), old(handles[h].terminated), old(handles[h].guard.Some?))
    {
      CloneMakesGuard(View(), h);
      StepKeepsInv(View(), Clone(h));
      hide AddsHandle;
      hide Linked;
      hide Unresolved;
      var from := handles[h];
      var guard := None;
      if from.guard.Some? {
        var g := NewGuard(|handles|);
        guard := Some(g);
      }
      handles := handles + [Handle(guard, from.terminated, true)];
    }

    /** Polls a graceful-shutdown future. */
    method PollHandle(h: nat) returns (r: PollResult)
      requires Valid() && Enabled(View(), Poll(h))
      modifies this
      ensures Valid() && View() == Apply(old(View()), Poll(h))
      ensures r == PollOf(old(View()), h)
      ensures r.Ready? ==> old(channel) != Open && guards[r.guard] == HandedOut
    {
      StepKeepsInv(View(), Poll(h));
      if !handles[h].terminated && channel.Open? {
        return Pending;
      }
      var guard := handles[h].guard;
      handles := handles[h := Handle(None, true, true)];
      if guard.None? {
        return PolledAfterCompletion;
      }
      guards := guards[guard.value := HandedOut];
      r := Ready(guard.value);
    }

    method DropHandle(h: nat)
      requires Valid() && Enabled(View(), Action.DropHandle(h))
      modifies this
      ensures Valid() && View() == Apply(old(View()), Action.DropHandle(h))
    {
      StepKeepsInv(View(), Action.DropHandle(h));
      assert handles[h].guard.Some? ==> handles[h].guard.value < |guards|;
      hide Linked;
      hide Unresolved;
      var guard := handles[h].guard;
      handles := handles[h := Handle(None, handles[h].terminated, false)];
      if guard.Some? {
        DropGuard(guard.value);
      }
    }

    method Send(e: Event)
      modifies `queue, `accepted
      ensures View() == Accept(old(View()), e)
    {
      if !manager.Gone? {
        queue, accepted := queue + [e], accepted + [e];
      }
    }

    /** Polls the task manager. */
    method PollManager()
      requires Valid() && manager.Running?
      modifies this
      ensures Valid() && View() == Apply(old(View()), ManagerPoll)
      ensures manager.Completed? ==> manager.result == Decide(accepted)
    {
      StepKeepsInv(View(), ManagerPoll);
      hide Linked;
      hide Unresolved;
      if queue != [] {
        var e := queue[0];
        queue := queue[1..];
        match e {
          case Panic(task) => manager := Completed(Panicked(task));
          case ShutdownRequest => channel, manager := Fired, Completed(Fine);
        }
      } else if senders == 0 {
        channel, manager := Fired, Completed(Fine);
      }
    }

    /** An unfired signal closes its channel when it is dropped. */
    method DropSignal()
      modifies `channel
      ensures channel == CloseUnlessFired(old(channel))
    {
      if channel.Open? {
        channel := Closed;
      }
    }

    /** Starts a call that requests shutdown. */
    method RequestShutdown() returns (w: nat)
      requires Valid() && Enabled(View(), RuntimeShutdown)
      modifies this
      ensures Valid() && View() == Apply(old(View()), RuntimeShutdown)
      ensures w == |old(waits)|
    {
      StepKeepsInv(View(), RuntimeShutdown);
      hide Inv;
      Send(ShutdownRequest);
      w := |waits|;
      waits := waits + [Spinning];
    }

    /** Starts the same call on the manager, which drops the signal instead. */
    method StopManager() returns (w: nat)
      requires Valid() && Enabled(View(), ManagerShutdown)
      modifies this
      ensures Valid() && View() == Apply(old(View()), ManagerShutdown)
      ensures w == |old(waits)|
    {
      StepKeepsInv(View(), ManagerShutdown);
      hide Inv;
      w := |waits|;
      manager := Stopping(if manager.Completed? then Some(manager.result) else None, w);
      DropSignal();
      waits := waits + [Spinning];
    }

    /** One read of the counter by a waiting call, and the result it returns, if any. */
    method ReadCounter(w: nat, expired: bool) returns (r: Option<bool>)
      requires Valid() && Enabled(View(), CheckCounter(w, expired))
      modifies this
      ensures Valid() && View() == Apply(old(View()), CheckCounter(w, expired))
      ensures r == Some(true) <==> forall g :: 0 <= g < |guards| ==> guards[g] == Released
      ensures r == Some(false) <==> expired && exists g :: 0 <= g < |guards| && guards[g] != Released
      ensures waits[w] == if r.Some? then Returned(r.value, |guards|) else Spinning
    {
      WaitReturnsTrueIff(View(), w, expired);
      StepKeepsInv(View(), CheckCounter(w, expired));
      hide Inv;
      if counter > 0 && !expired {
        return None;
      }
      r := Some(counter == 0);
      waits := waits[w := Returned(counter == 0, |guards|)];
      if manager.Stopping? && manager.wait == w {
        manager := Gone(manager.last);
      }
    }

    /** Any step of any thread. */
    method Perform(a: Action)
      requires Valid() && Enabled(View(), a)
      modifies this
      ensures Valid() && View() == Apply(old(View()), a)
    {
      StepKeepsInv(View(), a);
      hide Inv;
      hide Linked;
      hide Unresolved;
      match a
      case Spawn => SpawnGraceful();
      case Clone(h) => CloneHandle(h);
      case Poll(h) => var _ := PollHandle(h);
      case DropHandle(h) => DropHandle(h);
      case DropGuard(g) => DropGuard(g);
      case Send(e) => Send(e);
      case CloneSender => senders := senders + 1;
      case DropSender => senders := senders - 1;
      case ManagerPoll => PollManager();
      case ManagerDrop =>
        manager := Gone(if manager.Completed? then Some(manager.result) else None);
        DropSignal();
      case RuntimeShutdown => var _ := RequestShutdown();
      case ManagerShutdown => var _ := StopManager();
      case CheckCounter(w, expired) => var _ := ReadCounter(w, expired);
    }

    /** Requests shutdown and waits for the counter. Between two reads of it the other threads take
        the steps of one element of `others`, waiting calls of their own included; `deadline` is the
        read at which the timeout has elapsed. `None` means the steps ran out while the call was
        still spinning. */
    method DoGracefulShutdown(others: seq<seq<Action>>, deadline: Option<nat>) returns (r: Option<bool>)
      requires Valid() && Enabled(View(), RuntimeShutdown)
      modifies this
      ensures Valid() && AnswersRight(|old(waits)|, r, deadline)
      ensures !old(manager).Gone? ==> old(accepted) + [ShutdownRequest] <= accepted
      ensures |old(guards)| <= |guards|
    {
      hide Inv;
      hide Enabled;
      var w := RequestShutdown();
      r := AwaitGuards(w, others, deadline);
    }

    /** The same call on the manager drops the signal instead, and consumes the manager. */
    method DoManagerShutdown(others: seq<seq<Action>>, deadline: Option<nat>) returns (r: Option<bool>)
      requires Valid() && Enabled(View(), ManagerShutdown)
      modifies this
      ensures Valid() && AnswersRight(|old(waits)|, r, deadline)
      ensures channel != Open
      ensures var last := LastResult(old(manager));
              manager == if r.Some? then Gone(last) else Stopping(last, |old(waits)|)
      ensures |old(guards)| <= |guards|
    {
      hide Inv;
      hide Enabled;
      var w := StopManager();
      r := AwaitGuards(w, others, deadline);
    }

    /** At the read that ended wait `w`: true only with every guard released, false only past the
        deadline with one that was not. */
    ghost predicate AnswersRight(w: nat, r: Option<bool>, deadline: Option<nat>)
      reads this
    {
      && (r == Some(true) ==> forall g :: 0 <= g < |guards| ==> guards[g] == Released)
      && (r == Some(false) ==> deadline.Some? && exists g :: 0 <= g < |guards| && guards[g] != Released)
      && (r == None ==> exists g :: 0 <= g < |guards| && guards[g] != Released)
      && w < |waits| && waits[w] == if r.Some? then Returned(r.value, |guards|) else Spinning
    }

    /** Spins on the counter in wait `w`. */
    method AwaitGuards(w: nat, others: seq<seq<Action>>, deadline: Option<nat>) returns (r: Option<bool>)
      requires Valid() && w < |waits| && waits[w].Spinning?
      modifies this
      ensures Valid() && AnswersRight(w, r, deadline)
      ensures |old(guards)| <= |guards| && old(accepted) <= accepted
      ensures old(channel) != Open ==> channel != Open
      ensures old(manager).Stopping? && old(manager).wait == w ==>
                manager == if r.Some? then Gone(old(manager).last) else old(manager)
    {
      hide Inv;
      var checks := 0;
      while true
        invariant Valid() && Onward(old(View()), View(), w)
        invariant checks <= |others|
        decreases |others| - checks
      {
        r := ReadCounter(w, deadline.Some? && deadline.value <= checks);
        if r.Some? || checks == |others| {
          return;
        }
        Others(others[checks], w);
        checks := checks + 1;
      }
    }

    /** The other threads take those of `steps` that they can, while wait `w` goes on. */
    method Others(steps: seq<Action>, w: nat)
      requires Valid()
      modifies this
      ensures Valid() && Onward(old(View()), View(), w)
    {
      hide Inv;
      hide Apply;
      for i := 0 to |steps|
        invariant Valid() && Onward(old(View()), View(), w)
      {
        var a := steps[i];
        if Enabled(View(), a) && !(a.CheckCounter? && a.w == w) {
          KeepsWellFormed(View());
          StepGoesOnward(View(), a, w);
          Perform(a);
        }
      }
    }
  }

  lemma KeepsWellFormed(s: State)
    requires Inv(s)
    ensures WellFormed(s)
  {
  }
}
