/** Streaming the results of a parallel iterator to one sequential consumer in index order:
    one-shot slots behind a mutex and a condition variable each, and a shared panic flag.

    Every thread is a program counter, and each of its mutex, condition-variable and flag
    operations is one step of the system. */
module OrderedDrain {
  import opened Wrappers

  datatype Owner = Free | ByWriter | ByDriver | ByConsumer

  datatype Slot<T> = Slot(value: Option<T>, owner: Owner)

  /** The job of one index. `Stopped` jobs unwound; `Skipped` jobs never started because
      another one unwound first. */
  datatype WriterPc = Idle | Holding | Stored | Owing | Done | Stopped | Skipped

  /** The spawned closure around the parallel iterator, and its loop over the slots. */
  datatype DriverPc =
    | Joining
    | Raising
    | Looping(next: nat)
    | Notifying(at: nat)
    | Notified(at: nat)
    | Returned
    | Unwound

  /** The thread that takes the slots in order and calls the callback. */
  datatype ConsumerPc<T> =
    | Locking
    | Checking
    | Probing
    | Sleeping
    | Parked
    | Taken(value: T)
    | Calling(value: T)
    | Quitting
    | Finished

  datatype State<T> = State(
    items: seq<T>,
    slots: seq<Slot<T>>,
    writers: seq<WriterPc>,
    panicked: bool,
    driver: DriverPc,
    consumer: ConsumerPc<T>,
    index: nat,
    delivered: seq<T>)

  /** A step of the job of index `i`, of the driver, or of the consumer. `Unwind` and `Skip`
      are the two ways a job ends without a value. */
  datatype Action =
    | Write(i: nat)
    | Unwind(i: nat)
    | Skip(i: nat)
    | Drive
    | Consume
    | WakeSpuriously

  function Init<T>(items: seq<T>): State<T> {
    State(
      items,
      seq(|items|, _ => Slot(None, Free)),
      seq(|items|, _ => Idle),
      false,
      if items == [] then Returned else Joining,
      if items == [] then Finished else Locking,
      0,
      [])
  }

  predicate Ended(pc: WriterPc) {
    pc in {Done, Stopped, Skipped}
  }

  predicate AllEnded(writers: seq<WriterPc>) {
    forall i :: 0 <= i < |writers| ==> Ended(writers[i])
  }

  predicate WellFormed<T>(s: State<T>) {
    && |s.slots| == |s.writers| == |s.items|
    && s.index <= |s.items|
    && (s.consumer.Finished? || s.index < |s.items|)
    && (s.driver.Looping? ==> s.driver.next <= |s.items|)
    && ((s.driver.Notifying? || s.driver.Notified?) ==> s.driver.at < |s.items|)
  }

  predicate Enabled<T>(s: State<T>, a: Action)
    requires WellFormed(s)
  {
    match a
    case Write(i) =>
      i < |s.writers| && (s.writers[i] in {Holding, Stored, Owing}
                          || (s.writers[i] == Idle && s.slots[i].owner == Free))
    case Unwind(i) => i < |s.writers| && s.writers[i] == Idle
    case Skip(i) => i < |s.writers| && s.writers[i] == Idle && Stopped in s.writers
    case Drive =>
      (match s.driver
       case Joining => AllEnded(s.writers)
       case Looping(k) => k == |s.items| || s.slots[k].owner == Free
       case _ => !s.driver.Returned? && !s.driver.Unwound?)
    case Consume =>
      (match s.consumer
       case Locking => s.slots[s.index].owner == Free
       case _ => !s.consumer.Parked? && !s.consumer.Finished?)
    case WakeSpuriously => s.consumer.Parked?
  }

  function SetOwner<T>(slots: seq<Slot<T>>, i: nat, owner: Owner): seq<Slot<T>>
    requires i < |slots|
  {
    slots[i := slots[i].(owner := owner)]
  }

  /** `notify_one` on the condition variable of slot `i`: it reaches the consumer only if the
      consumer is parked there, and is lost otherwise. */
  function Wake<T>(s: State<T>, i: nat): ConsumerPc<T> {
    if s.consumer.Parked? && s.index == i then Locking else s.consumer
  }

  function StepWriter<T>(s: State<T>, i: nat): State<T>
    requires WellFormed(s) && Enabled(s, Write(i))
  {
    match s.writers[i]
    case Idle => s.(writers := s.writers[i := Holding], slots := SetOwner(s.slots, i, ByWriter))
    case Holding =>
      s.(writers := s.writers[i := Stored], slots := s.slots[i := s.slots[i].(value := Some(s.items[i]))])
    case Stored => s.(writers := s.writers[i := Owing], slots := SetOwner(s.slots, i, Free))
    case Owing => s.(writers := s.writers[i := Done], consumer := Wake(s, i))
  }

  function StepDriver<T>(s: State<T>): State<T>
    requires WellFormed(s) && Enabled(s, Drive)
  {
    match s.driver
    case Joining => s.(driver := if Stopped in s.writers then Raising else Returned)
    case Raising => s.(driver := Looping(0), panicked := true)
    case Looping(k) =>
      if k == |s.items| then s.(driver := Unwound)
      else s.(driver := Notifying(k), slots := SetOwner(s.slots, k, ByDriver))
    case Notifying(k) => s.(driver := Notified(k), consumer := Wake(s, k))
    case Notified(k) => s.(driver := Looping(k + 1), slots := SetOwner(s.slots, k, Free))
  }

  function StepConsumer<T>(s: State<T>): State<T>
    requires WellFormed(s) && Enabled(s, Consume)
  {
    var i := s.index;
    match s.consumer
    case Locking => s.(consumer := Checking, slots := SetOwner(s.slots, i, ByConsumer))
    case Checking =>
      (match s.slots[i].value
       case Some(v) => s.(consumer := Taken(v), slots := s.slots[i := s.slots[i].(value := None)])
       case None => s.(consumer := Probing))
    case Probing => s.(consumer := if s.panicked then Quitting else Sleeping)
    case Sleeping => s.(consumer := Parked, slots := SetOwner(s.slots, i, Free))
    case Taken(v) => s.(consumer := Calling(v), slots := SetOwner(s.slots, i, Free))
    case Calling(v) =>
      s.(delivered := s.delivered + [v], index := i + 1,
         consumer := if i + 1 == |s.items| then Finished else Locking)
    case Quitting => s.(consumer := Finished, slots := SetOwner(s.slots, i, Free))
  }

  function Apply<T>(s: State<T>, a: Action): State<T>
    requires WellFormed(s) && Enabled(s, a)
  {
    match a
    case Write(i) => StepWriter(s, i)
    case Unwind(i) => s.(writers := s.writers[i := Stopped])
    case Skip(i) => s.(writers := s.writers[i := Skipped])
    case Drive => StepDriver(s)
    case Consume => StepConsumer(s)
    case WakeSpuriously => s.(consumer := Locking)
  }

  // ---------- the invariant ----------

  predicate Wrote(pc: WriterPc) {
    pc in {Stored, Owing, Done}
  }

  predicate Holds<T>(c: ConsumerPc<T>) {
    c.Checking? || c.Probing? || c.Sleeping? || c.Taken? || c.Quitting?
  }

  /** Slot `i` has been emptied by the consumer. */
  predicate Removed<T>(s: State<T>, i: int) {
    i < s.index || (i == s.index && (s.consumer.Taken? || s.consumer.Calling?))
  }

  /** The mutex of each slot has one holder, and its holder knows it. */
  predicate LocksInv<T>(s: State<T>)
    requires WellFormed(s)
  {
    forall i :: 0 <= i < |s.slots| ==>
      && (s.slots[i].owner == ByWriter <==> s.writers[i] in {Holding, Stored})
      && (s.slots[i].owner == ByDriver <==> s.driver in {Notifying(i), Notified(i)})
      && (s.slots[i].owner == ByConsumer <==> i == s.index && Holds(s.consumer))
  }

  /** A written value is in its slot until the consumer removes it; nothing else is ever there. */
  predicate ValueAt<T(==)>(s: State<T>, i: nat)
    requires WellFormed(s) && i < |s.slots|
  {
    && (s.slots[i].value == if Wrote(s.writers[i]) && !Removed(s, i) then Some(s.items[i]) else None)
    && (Removed(s, i) ==> Wrote(s.writers[i]))
  }

  ghost predicate ValuesInv<T>(s: State<T>)
    requires WellFormed(s)
  {
    && (forall i :: 0 <= i < |s.slots| ==> ValueAt(s, i))
    && s.delivered == s.items[..s.index]
    && (s.consumer.Taken? ==> s.consumer.value == s.items[s.index])
    && (s.consumer.Calling? ==> s.consumer.value == s.items[s.index])
  }

  predicate DriverInv<T>(s: State<T>)
    requires WellFormed(s)
  {
    && (s.panicked <==> !(s.driver in {Joining, Raising, Returned}))
    && (!s.driver.Joining? ==> AllEnded(s.writers))
    && (Skipped in s.writers ==> Stopped in s.writers)
    && (s.driver.Returned? ==> Stopped !in s.writers)
    && (!(s.driver in {Joining, Returned}) ==> Stopped in s.writers)
  }

  /** The driver still owes slot `i` a notification. */
  predicate DriverOwes<T>(s: State<T>, i: nat) {
    match s.driver
    case Looping(k) => k <= i
    case Notifying(k) => k <= i
    case Notified(k) => k < i
    case _ => false
  }

  /** No wakeup is lost: a consumer about to sleep, or asleep, on a slot that holds a value or
      under a raised flag, has a notification of that slot still to come. */
  predicate WakeInv<T>(s: State<T>)
    requires WellFormed(s)
  {
    var c, i := s.consumer, s.index;
    && (c.Probing? || c.Sleeping? ==> s.slots[i].value.None?)
    && (c.Sleeping? || c.Parked? ==> s.panicked ==> DriverOwes(s, i))
    && (c.Parked? && s.slots[i].value.Some? ==> s.writers[i] in {Stored, Owing})
    && (c.Quitting? || (c.Finished? && i < |s.items|) ==>
          s.panicked && s.writers[i] in {Stopped, Skipped})
  }

  ghost predicate Inv<T>(s: State<T>) {
    WellFormed(s) && LocksInv(s) && ValuesInv(s) && DriverInv(s) && WakeInv(s)
  }

  lemma InitInv<T>(items: seq<T>)
    ensures Inv(Init(items))
  {
  }

  lemma WriterKeepsInv<T>(s: State<T>, i: nat)
    requires Inv(s) && Enabled(s, Write(i))
    ensures Inv(StepWriter(s, i))
  {
    var s' := StepWriter(s, i);
    forall j | 0 <= j < |s.slots|
      ensures ValueAt(s', j)
    {
      assert ValueAt(s, j);
    }
    forall pc | pc in {Stopped, Skipped}
      ensures pc in s'.writers <==> pc in s.writers
    {
      UpdateMembership(s.writers, i, s'.writers[i], pc);
    }
  }

  lemma UpdateMembership(writers: seq<WriterPc>, i: nat, pc: WriterPc, other: WriterPc)
    requires i < |writers|
    ensures other in writers[i := pc] ==> other in writers || other == pc
    ensures other in writers && writers[i] != other ==> other in writers[i := pc]
    ensures pc in writers[i := pc]
  {
    var updated := writers[i := pc];
    assert updated[i] == pc;
    if other in writers && writers[i] != other {
      var j :| 0 <= j < |writers| && writers[j] == other;
      assert updated[j] == other;
    }
  }

  lemma StopKeepsInv<T>(s: State<T>, i: nat, pc: WriterPc)
    requires Inv(s) && i < |s.writers| && s.writers[i] == Idle
    requires pc == Stopped || (pc == Skipped && Stopped in s.writers)
    ensures Inv(s.(writers := s.writers[i := pc]))
  {
    var s' := s.(writers := s.writers[i := pc]);
    UpdateMembership(s.writers, i, pc, Stopped);
    UpdateMembership(s.writers, i, pc, Skipped);
    forall j | 0 <= j < |s.slots|
      ensures ValueAt(s', j)
    {
      assert ValueAt(s, j);
    }
  }

  lemma DriverKeepsLocks<T>(s: State<T>)
    requires Inv(s) && Enabled(s, Drive)
    ensures WellFormed(StepDriver(s)) && LocksInv(StepDriver(s))
  {
    hide ValuesInv;
    hide WakeInv;
  }

  lemma DriverKeepsValues<T>(s: State<T>)
    requires Inv(s) && Enabled(s, Drive) && WellFormed(StepDriver(s))
    ensures ValuesInv(StepDriver(s))
  {
    hide LocksInv;
    hide DriverInv;
    var s' := StepDriver(s);
    forall j | 0 <= j < |s.slots|
      ensures ValueAt(s', j)
    {
      assert ValueAt(s, j);
    }
  }

  lemma DriverKeepsInv<T>(s: State<T>)
    requires Inv(s) && Enabled(s, Drive)
    ensures Inv(StepDriver(s))
  {
    DriverKeepsLocks(s);
    DriverKeepsValues(s);
    hide ValuesInv;
  }

  lemma ConsumerKeepsLocks<T>(s: State<T>)
    requires Inv(s) && Enabled(s, Consume)
    ensures WellFormed(StepConsumer(s)) && LocksInv(StepConsumer(s))
  {
    hide ValuesInv;
    hide DriverInv;
    hide WakeInv;
    match s.consumer
    case Locking =>
    case Checking =>
    case Probing =>
    case Sleeping =>
    case Taken(_) =>
    case Calling(_) =>
    case Quitting =>
  }

  lemma ConsumerKeepsValues<T>(s: State<T>)
    requires Inv(s) && Enabled(s, Consume) && WellFormed(StepConsumer(s))
    ensures ValuesInv(StepConsumer(s))
  {
    hide LocksInv;
    hide DriverInv;
    var s' := StepConsumer(s);
    assert ValueAt(s, s.index);
    forall j | 0 <= j < |s.slots|
      ensures ValueAt(s', j)
    {
      assert ValueAt(s, j);
    }
  }

  lemma ConsumerKeepsInv<T>(s: State<T>)
    requires Inv(s) && Enabled(s, Consume)
    ensures Inv(StepConsumer(s))
  {
    ConsumerKeepsLocks(s);
    ConsumerKeepsValues(s);
    assert ValueAt(s, s.index);
    hide ValuesInv;
  }

  /** Every step of every thread keeps the invariant. */
  lemma StepKeepsInv<T>(s: State<T>, a: Action)
    requires Inv(s) && Enabled(s, a)
    ensures Inv(Apply(s, a))
  {
    match a
    case Write(i) => WriterKeepsInv(s, i);
    case Unwind(i) => StopKeepsInv(s, i, Stopped);
    case Skip(i) => StopKeepsInv(s, i, Skipped);
    case Drive => DriverKeepsInv(s);
    case Consume => ConsumerKeepsInv(s);
    case WakeSpuriously =>
      forall j | 0 <= j < |s.slots|
        ensures ValueAt(Apply(s, a), j)
      {
        assert ValueAt(s, j);
      }
  }

  // ---------- how runs end ----------

  predicate Over<T>(s: State<T>) {
    s.consumer.Finished? && (s.driver.Returned? || s.driver.Unwound?)
  }

  /** What a finished run has done. Without an unwinding job everything is delivered, in
      order; with one, exactly the items before the lowest index that was never written are,
      and the panic resumes. Either way each written value was delivered or is still in its
      slot, and every mutex is free. */
  lemma Outcome<T>(s: State<T>)
    requires Inv(s) && Over(s)
    ensures s.driver.Unwound? <==> Stopped in s.writers
    ensures s.driver.Returned? ==> s.delivered == s.items
    ensures s.driver.Unwound? ==>
              && s.index < |s.items|
              && s.delivered == s.items[..s.index]
              && !Wrote(s.writers[s.index])
              && forall i :: 0 <= i < s.index ==> Wrote(s.writers[i])
    ensures forall i :: 0 <= i < |s.slots| ==>
              s.slots[i] == Slot(if s.index <= i && Wrote(s.writers[i]) then Some(s.items[i]) else None, Free)
  {
    forall i | 0 <= i < |s.slots|
      ensures ValueAt(s, i)
      ensures s.slots[i].owner == Free
    {
      assert Ended(s.writers[i]);
    }
    if s.index < |s.items| {
      assert s.writers[s.index] in s.writers;
    }
  }

  function FirstUnended(writers: seq<WriterPc>): (i: nat)
    requires !AllEnded(writers)
    ensures i < |writers| && !Ended(writers[i])
  {
    if !Ended(writers[0]) then 0
    else
      assert !AllEnded(writers[1..]) by {
        var j :| 0 <= j < |writers| && !Ended(writers[j]);
        assert writers[1..][j - 1] == writers[j];
      }
      1 + FirstUnended(writers[1..])
  }

  /** No deadlock: until the run is over some thread can take a step that is neither an
      unwinding nor a spurious wakeup. */
  function Choose<T>(s: State<T>): (a: Action)
    requires Inv(s) && !Over(s)
    ensures Enabled(s, a) && (a.Write? || a.Drive? || a.Consume?)
  {
    if Enabled(s, Consume) then Consume
    else if Enabled(s, Drive) then Drive
    else
      SomeoneWrites(s);
      Write(FirstUnended(s.writers))
  }

  lemma AllEndedIsOver<T>(s: State<T>)
    requires Inv(s) && AllEnded(s.writers) && !Enabled(s, Consume) && !Enabled(s, Drive)
    ensures Over(s)
  {
    if s.index < |s.items| {
      assert ValueAt(s, s.index);
      assert s.writers[s.index] in s.writers;
    }
  }

  lemma SomeoneWrites<T>(s: State<T>)
    requires Inv(s) && !Over(s) && !Enabled(s, Consume) && !Enabled(s, Drive)
    ensures !AllEnded(s.writers)
    ensures Enabled(s, Write(FirstUnended(s.writers)))
  {
    if AllEnded(s.writers) {
      AllEndedIsOver(s);
      assert false;
    }
  }

  /** Whichever wakes it, a notification of its slot or nothing at all, a parked consumer goes back to
      lock that slot and look again; a notification of another slot leaves it parked. */
  lemma WakingLooksAgain<T>(s: State<T>, i: nat)
    requires WellFormed(s) && s.consumer.Parked?
    ensures Enabled(s, WakeSpuriously) && Apply(s, WakeSpuriously) == s.(consumer := Locking)
    ensures i < |s.writers| && s.writers[i] == Owing ==>
              Apply(s, Write(i)).consumer == if i == s.index then Locking else Parked
    ensures s.driver == Notifying(i) ==> Apply(s, Drive).consumer == if i == s.index then Locking else Parked
  {
  }

  /** A job that has not started may unwind, and then others that have not may never start. */
  lemma JobsMayFail<T>(s: State<T>, i: nat)
    requires Inv(s) && i < |s.writers| && s.writers[i] == Idle
    ensures Enabled(s, Unwind(i)) && Apply(s, Unwind(i)).writers == s.writers[i := Stopped]
    ensures Stopped in s.writers ==> Enabled(s, Skip(i)) && Apply(s, Skip(i)).writers == s.writers[i := Skipped]
  {
  }

  // ---------- how long runs are ----------

  function WriterRank(pc: WriterPc): nat {
    match pc
    case Idle => 8
    case Holding => 7
    case Stored => 6
    case Owing => 5
    case _ => 0
  }

  function WritersRank(writers: seq<WriterPc>): nat {
    if writers == [] then 0 else WriterRank(writers[0]) + WritersRank(writers[1..])
  }

  function Remaining(n: nat, k: nat): nat {
    if k <= n then n - k else 0
  }

  function DriverRank(driver: DriverPc, n: nat): int {
    match driver
    case Joining => 8 * n + 3
    case Raising => 8 * n + 2
    case Looping(k) => 8 * Remaining(n, k) + 1
    case Notifying(k) => 8 * Remaining(n, k)
    case Notified(k) => 8 * Remaining(n, k) - 5
    case _ => 0
  }

  function ConsumerRank<T>(consumer: ConsumerPc<T>, rest: nat): nat {
    match consumer
    case Locking => 8 * rest + 7
    case Checking => 8 * rest + 6
    case Probing => 8 * rest + 5
    case Sleeping => 8 * rest + 4
    case Parked => 8 * rest + 3
    case Taken(_) => 8 * rest + 4
    case Calling(_) => 8 * rest + 2
    case Quitting => 8 * rest + 3
    case Finished => 0
  }

  function Rank<T>(s: State<T>): nat
    requires WellFormed(s)
  {
    WritersRank(s.writers) + DriverRank(s.driver, |s.items|) + ConsumerRank(s.consumer, |s.items| - s.index)
  }

  lemma {:induction false} WritersRankUpdate(writers: seq<WriterPc>, i: nat, pc: WriterPc)
    requires i < |writers|
    ensures WritersRank(writers[i := pc]) == WritersRank(writers) - WriterRank(writers[i]) + WriterRank(pc)
  {
    if i == 0 {
      assert writers[i := pc][1..] == writers[1..];
    } else {
      assert writers[i := pc][1..] == writers[1..][i - 1 := pc];
      WritersRankUpdate(writers[1..], i - 1, pc);
    }
  }

  lemma {:induction false} WritersRankIdle(n: nat)
    ensures WritersRank(seq(n, _ => Idle)) == 8 * n
  {
    if n > 0 {
      assert seq(n, _ => Idle)[1..] == seq(n - 1, _ => Idle);
      WritersRankIdle(n - 1);
    }
  }

  lemma WriterDescends<T>(s: State<T>, i: nat)
    requires WellFormed(s) && Enabled(s, Write(i))
    requires WellFormed(StepWriter(s, i))
    ensures Rank(StepWriter(s, i)) < Rank(s)
  {
    hide WritersRank;
    hide WellFormed;
    hide DriverRank;
    var s' := StepWriter(s, i);
    WritersRankUpdate(s.writers, i, s'.writers[i]);
    assert s'.driver == s.driver && s'.items == s.items && s'.index == s.index;
    assert WriterRank(s'.writers[i]) <= WriterRank(s.writers[i]) - if s.writers[i] == Owing then 5 else 1;
  }

  lemma DriverDescends<T>(s: State<T>)
    requires WellFormed(s) && Enabled(s, Drive)
    requires WellFormed(StepDriver(s))
    ensures Rank(StepDriver(s)) < Rank(s)
  {
    hide WritersRank;
    hide ConsumerRank;
    var s' := StepDriver(s);
    assert s'.writers == s.writers && s'.items == s.items && s'.index == s.index;
    assert DriverRank(s'.driver, |s.items|)
        <= DriverRank(s.driver, |s.items|) - if s.driver.Notifying? then 5 else 1;
    WakeCost(s);
  }

  lemma WakeCost<T>(s: State<T>)
    requires WellFormed(s)
    ensures forall i: nat, rest: nat {:trigger ConsumerRank(Wake(s, i), rest)} ::
              ConsumerRank(Wake(s, i), rest) <= ConsumerRank(s.consumer, rest) + 4
  {
  }

  lemma ConsumerDescends<T>(s: State<T>)
    requires WellFormed(s) && Enabled(s, Consume)
    requires WellFormed(StepConsumer(s))
    ensures Rank(StepConsumer(s)) < Rank(s)
  {
    hide WritersRank;
    hide DriverRank;
  }

  /** Every step but a spurious wakeup brings the end nearer; a spurious wakeup costs four. */
  lemma StepDescends<T>(s: State<T>, a: Action)
    requires Inv(s) && Enabled(s, a)
    ensures WellFormed(Apply(s, a))
    ensures Rank(Apply(s, a)) <= if a == WakeSpuriously then Rank(s) + 4 else Rank(s) - 1
  {
    StepKeepsInv(s, a);
    hide LocksInv;
    hide ValuesInv;
    hide DriverInv;
    hide WakeInv;
    hide WritersRank;
    hide StepWriter;
    hide StepDriver;
    hide StepConsumer;
    match a
    case Write(i) => WriterDescends(s, i);
    case Unwind(i) => WritersRankUpdate(s.writers, i, Stopped);
    case Skip(i) => WritersRankUpdate(s.writers, i, Skipped);
    case Drive => DriverDescends(s);
    case Consume => ConsumerDescends(s);
    case WakeSpuriously =>
  }

  // ---------- all runs ----------

  /** `acts` is a sequence of steps, each of them enabled when it is taken. */
  ghost predicate Legal<T>(s: State<T>, acts: seq<Action>)
    decreases |acts|
  {
    acts == [] || (WellFormed(s) && Enabled(s, acts[0]) && Legal(Apply(s, acts[0]), acts[1..]))
  }

  ghost function Exec<T>(s: State<T>, acts: seq<Action>): State<T>
    requires Legal(s, acts)
    decreases |acts|
  {
    if acts == [] then s else Exec(Apply(s, acts[0]), acts[1..])
  }

  function Spurious(acts: seq<Action>): nat {
    if acts == [] then 0 else (if acts[0] == WakeSpuriously then 1 else 0) + Spurious(acts[1..])
  }

  lemma {:induction false} RunKeepsInv<T>(s: State<T>, acts: seq<Action>)
    requires Inv(s) && Legal(s, acts)
    ensures Inv(Exec(s, acts))
    ensures |acts| + Rank(Exec(s, acts)) <= Rank(s) + 5 * Spurious(acts)
    ensures Exec(s, acts).items == s.items
    decreases |acts|
  {
    if acts != [] {
      StepKeepsInv(s, acts[0]);
      StepDescends(s, acts[0]);
      RunKeepsInv(Apply(s, acts[0]), acts[1..]);
    }
  }

  /** Every run of every schedule: what was delivered is a prefix of the items in index order;
      a consumer parked on a slot that holds a value, or under a raised flag, is still owed a
      notification of that slot; the run is at most `24 * n + 10` steps plus five for each spurious
      wakeup; and if it can take no further step of its own, it is over. */
  lemma EveryRun<T>(items: seq<T>, acts: seq<Action>)
    requires Legal(Init(items), acts)
    ensures var s := Exec(Init(items), acts);
            && Inv(s)
            && s.items == items
            && s.delivered == items[..s.index]
            && (s.consumer.Parked? && (s.slots[s.index].value.Some? || s.panicked) ==>
                  s.writers[s.index] in {Stored, Owing} || DriverOwes(s, s.index))
            && |acts| <= 24 * |items| + 10 + 5 * Spurious(acts)
            && ((forall a :: a != WakeSpuriously ==> !Enabled(s, a)) ==> Over(s))
  {
    InitInv(items);
    RunKeepsInv(Init(items), acts);
    WritersRankIdle(|items|);
    var s := Exec(Init(items), acts);
    if !Over(s) {
      var a := Choose(s);
      assert Enabled(s, a);
    }
  }

  // ---------- the shared state, updated in place ----------

  /** The slots and the flag that the threads share, with the threads' program counters. */
  class Drain<T(==)> {
    const items: seq<T>
    const slots: array<Slot<T>>
    const writers: array<WriterPc>
    var panicked: bool
    var driver: DriverPc
    var consumer: ConsumerPc<T>
    var index: nat
    var delivered: seq<T>

    ghost predicate Valid()
      reads this, slots, writers
    {
      slots as object != writers as object && Inv(View())
    }

    ghost function View(): State<T>
      reads this, slots, writers
    {
      State(items, slots[..], writers[..], panicked, driver, consumer, index, delivered)
    }

    constructor (items: seq<T>)
      ensures Valid() && View() == Init(items)
      ensures fresh(slots) && fresh(writers)
    {
      this.items := items;
      slots := new Slot<T>[|items|](_ => Slot(None, Free));
      writers := new WriterPc[|items|](_ => Idle);
      panicked := false;
      driver := if items == [] then Returned else Joining;
      consumer := if items == [] then Finished else Locking;
      index := 0;
      delivered := [];
      new;
      assert slots[..] == Init(items).slots;
      assert writers[..] == Init(items).writers;
      InitInv(items);
    }

    /** One step of the job of index `i`. */
    method StepWrite(i: nat)
      requires Valid() && Enabled(View(), Write(i))
      modifies this, slots, writers
      ensures Valid() && View() == StepWriter(old(View()), i)
    {
      ghost var before := View();
      StepKeepsInv(before, Write(i));
      hide LocksInv;
      hide ValuesInv;
      hide DriverInv;
      hide WakeInv;
      match writers[i]
      case Idle => writers[i], slots[i] := Holding, slots[i].(owner := ByWriter);
      case Holding => writers[i], slots[i] := Stored, slots[i].(value := Some(items[i]));
      case Stored => writers[i], slots[i] := Owing, slots[i].(owner := Free);
      case Owing =>
        writers[i] := Done;
        NotifyOne(i);
      assert View() == StepWriter(before, i);
    }

    method NotifyOne(i: nat)
      modifies `consumer
      ensures consumer == if old(consumer).Parked? && index == i then Locking else old(consumer)
    {
      if consumer.Parked? && index == i {
        consumer := Locking;
      }
    }

    /** The job of index `i` ends without a value. */
    method StepStop(i: nat, pc: WriterPc)
      requires Valid() && i < writers.Length && writers[i] == Idle
      requires pc == Stopped || (pc == Skipped && Stopped in writers[..])
      modifies writers
      ensures Valid() && View() == old(View()).(writers := old(writers[..])[i := pc])
    {
      StopKeepsInv(View(), i, pc);
      writers[i] := pc;
    }

    /** One step of the spawned closure. */
    method StepDrive()
      requires Valid() && Enabled(View(), Drive)
      modifies this, slots
      ensures Valid() && View() == StepDriver(old(View()))
    {
      ghost var before := View();
      StepKeepsInv(before, Drive);
      hide LocksInv;
      hide ValuesInv;
      hide DriverInv;
      hide WakeInv;
      match driver
      case Joining => driver := if Stopped in writers[..] then Raising else Returned;
      case Raising => driver, panicked := Looping(0), true;
      case Looping(k) =>
        if k == |items| {
          driver := Unwound;
        } else {
          driver, slots[k] := Notifying(k), slots[k].(owner := ByDriver);
        }
      case Notifying(k) =>
        driver := Notified(k);
        NotifyOne(k);
      case Notified(k) => driver, slots[k] := Looping(k + 1), slots[k].(owner := Free);
      assert View() == StepDriver(before);
    }

    /** One step of the consumer. */
    method StepConsume()
      requires Valid() && Enabled(View(), Consume)
      modifies this, slots
      ensures Valid() && View() == StepConsumer(old(View()))
    {
      ghost var before := View();
      StepKeepsInv(before, Consume);
      hide LocksInv;
      hide ValuesInv;
      hide DriverInv;
      hide WakeInv;
      match consumer
      case Locking => consumer, slots[index] := Checking, slots[index].(owner := ByConsumer);
      case Checking =>
        match slots[index].value {
          case Some(v) => consumer, slots[index] := Taken(v), slots[index].(value := None);
          case None => consumer := Probing;
        }
      case Probing => consumer := if panicked then Quitting else Sleeping;
      case Sleeping => consumer, slots[index] := Parked, slots[index].(owner := Free);
      case Taken(v) => consumer, slots[index] := Calling(v), slots[index].(owner := Free);
      case Calling(v) =>
        delivered, index := delivered + [v], index + 1;
        consumer := if index == |items| then Finished else Locking;
      case Quitting => consumer, slots[index] := Finished, slots[index].(owner := Free);
      assert View() == StepConsumer(before);
    }

    method Perform(a: Action)
      requires Valid() && Enabled(View(), a)
      modifies this, slots, writers
      ensures Valid() && View() == Apply(old(View()), a)
    {
      StepKeepsInv(View(), a);
      match a
      case Write(i) => StepWrite(i);
      case Unwind(i) => StepStop(i, Stopped);
      case Skip(i) => StepStop(i, Skipped);
      case Drive => StepDrive();
      case Consume => StepConsume();
      case WakeSpuriously => consumer := Locking;
    }
  }

  /** Runs the system to its end, taking the steps of `schedule` that are enabled and then
      any progress step. Every interleaving is the run of some schedule. */
  method ForEachOrdered<T(==)>(items: seq<T>, schedule: seq<Action>)
    returns (delivered: seq<T>, unwound: bool, writers: seq<WriterPc>)
    ensures |writers| == |items| && (unwound <==> Stopped in writers)
    ensures !unwound ==> delivered == items
    ensures unwound ==>
              && |delivered| < |items|
              && delivered == items[..|delivered|]
              && !Wrote(writers[|delivered|])
              && forall i :: 0 <= i < |delivered| ==> Wrote(writers[i])
  {
    var d := new Drain(items);
    var pending := schedule;
    while !(d.consumer.Finished? && (d.driver.Returned? || d.driver.Unwound?))
      invariant d.Valid() && d.items == items
      invariant fresh(d) && fresh(d.slots) && fresh(d.writers)
      decreases |pending|, Rank(d.View())
    {
      if pending != [] {
        var a := pending[0];
        pending := pending[1..];
        var s := State(d.items, d.slots[..], d.writers[..], d.panicked, d.driver, d.consumer, d.index, d.delivered);
        if Enabled(s, a) {
          d.Perform(a);
        }
      } else {
        ghost var before := d.View();
        var s := State(d.items, d.slots[..], d.writers[..], d.panicked, d.driver, d.consumer, d.index, d.delivered);
        var a := Choose(s);
        StepDescends(before, a);
        d.Perform(a);
      }
    }
    Outcome(d.View());
    delivered, unwound, writers := d.delivered, d.driver.Unwound?, d.writers[..];
  }
}
