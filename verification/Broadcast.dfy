/** The ticket loop of a pool broadcast: every pool thread tries to take one of a limited number
    of tickets from a shared counter, and only those that get one run the closure. */
module Broadcast {

  datatype Pc = Start | Loaded(current: nat) | Running | Ran | Left

  datatype State = State(wanted: nat, remaining: nat, pcs: seq<Pc>)

  /** Steps of thread `t`. A load, and the value that a failed exchange returns, may be stale: any
      value the counter has held. A weak exchange may fail spuriously. */
  datatype Action =
    | Load(t: nat, seen: nat)
    | Exchange(t: nat, spurious: bool, seen: nat)
    | Leave(t: nat)
    | Call(t: nat)

  /** With at least as many tickets as threads, every thread runs the closure outright. */
  function Init(poolSize: nat, wanted: nat): State {
    State(wanted, wanted, seq(poolSize, _ => if poolSize <= wanted then Running else Start))
  }

  /** A value the counter has held. */
  predicate Held(s: State, seen: nat) {
    s.remaining <= seen <= s.wanted
  }

  predicate Enabled(s: State, a: Action) {
    a.t < |s.pcs| &&
    match a
    case Load(t, seen) => s.pcs[t].Start? && Held(s, seen)
    case Exchange(t, _, seen) => s.pcs[t].Loaded? && s.pcs[t].current > 0 && Held(s, seen)
    case Leave(t) => s.pcs[t] == Loaded(0)
    case Call(t) => s.pcs[t].Running?
  }

  predicate Wins(s: State, a: Action)
    requires Enabled(s, a)
  {
    a.Exchange? && !a.spurious && s.pcs[a.t].current == s.remaining
  }

  function Apply(s: State, a: Action): State
    requires Enabled(s, a)
  {
    match a
    case Load(t, seen) => s.(pcs := s.pcs[t := Loaded(seen)])
    case Exchange(t, spurious, seen) =>
      if Wins(s, a) then s.(remaining := s.remaining - 1, pcs := s.pcs[t := Running])
      else s.(pcs := s.pcs[t := Loaded(seen)])
    case Leave(t) => s.(pcs := s.pcs[t := Left])
    case Call(t) => s.(pcs := s.pcs[t := Ran])
  }

  // ---------- the invariant ----------

  function Winners(pcs: seq<Pc>): nat {
    if pcs == [] then 0
    else (if pcs[0].Running? || pcs[0].Ran? then 1 else 0) + Winners(pcs[1..])
  }

  /** Tickets left plus tickets taken is the number wanted; no thread has seen a value the
      counter has not held; and a thread leaves only once the tickets are gone. */
  predicate Inv(s: State) {
    && s.remaining <= s.wanted
    && (|s.pcs| <= s.wanted ==>
          forall t :: 0 <= t < |s.pcs| ==> s.pcs[t].Running? || s.pcs[t].Ran?)
    && (|s.pcs| > s.wanted ==>
          && s.remaining + Winners(s.pcs) == s.wanted
          && (forall t :: 0 <= t < |s.pcs| && s.pcs[t].Loaded? ==> Held(s, s.pcs[t].current))
          && (Left in s.pcs ==> s.remaining == 0))
  }

  lemma {:induction false} WinnersUpdate(pcs: seq<Pc>, t: nat, pc: Pc)
    requires t < |pcs|
    ensures Winners(pcs[t := pc])
         == Winners(pcs) - (if pcs[t].Running? || pcs[t].Ran? then 1 else 0)
                         + (if pc.Running? || pc.Ran? then 1 else 0)
  {
    if t == 0 {
      assert pcs[t := pc][1..] == pcs[1..];
    } else {
      assert pcs[t := pc][1..] == pcs[1..][t - 1 := pc];
      WinnersUpdate(pcs[1..], t - 1, pc);
    }
  }

  lemma {:induction false} WinnersBound(pcs: seq<Pc>)
    ensures Winners(pcs) <= |pcs|
    ensures Winners(pcs) == |pcs| <==> forall t :: 0 <= t < |pcs| ==> pcs[t].Running? || pcs[t].Ran?
  {
    if pcs != [] {
      WinnersBound(pcs[1..]);
      if forall t :: 0 <= t < |pcs[1..]| ==> pcs[1..][t].Running? || pcs[1..][t].Ran? {
        assert forall t :: 1 <= t < |pcs| ==> pcs[t] == pcs[1..][t - 1];
      } else {
        var t :| 0 <= t < |pcs[1..]| && !(pcs[1..][t].Running? || pcs[1..][t].Ran?);
        assert pcs[t + 1] == pcs[1..][t];
      }
    }
  }

  lemma {:induction false} NoWinners(pcs: seq<Pc>)
    requires forall t :: 0 <= t < |pcs| ==> pcs[t].Start?
    ensures Winners(pcs) == 0
  {
    if pcs != [] {
      NoWinners(pcs[1..]);
    }
  }

  lemma InitInv(poolSize: nat, wanted: nat)
    ensures Inv(Init(poolSize, wanted))
  {
    if wanted < poolSize {
      NoWinners(Init(poolSize, wanted).pcs);
    }
  }

  lemma StepKeepsInv(s: State, a: Action)
    requires Inv(s) && Enabled(s, a)
    ensures Inv(Apply(s, a))
  {
    WinnersUpdate(s.pcs, a.t, Apply(s, a).pcs[a.t]);
  }

  // ---------- runs ----------

  predicate Over(s: State) {
    forall t :: 0 <= t < |s.pcs| ==> s.pcs[t].Ran? || s.pcs[t].Left?
  }

  function Min(a: nat, b: nat): nat {
    if a < b then a else b
  }

  /** When every thread is done, exactly `min(wanted, pool size)` of them ran the closure. */
  lemma Outcome(s: State)
    requires Inv(s) && Over(s)
    ensures Winners(s.pcs) == Min(s.wanted, |s.pcs|)
  {
    WinnersBound(s.pcs);
    if Winners(s.pcs) < |s.pcs| {
      SomeoneLeft(s);
    }
  }

  lemma SomeoneLeft(s: State)
    requires Over(s) && Winners(s.pcs) < |s.pcs|
    ensures Left in s.pcs
  {
    WinnersBound(s.pcs);
    var t :| 0 <= t < |s.pcs| && !(s.pcs[t].Running? || s.pcs[t].Ran?);
    assert s.pcs[t] == Left;
  }

  /** No thread ever waits for another: at any point of its loop it can go on, a load or a failed
      exchange returning any value the counter has held, and an exchange failing for no reason. */
  lemma NoThreadBlocks(s: State, t: nat, seen: nat, spurious: bool)
    requires Inv(s) && t < |s.pcs| && s.remaining <= seen <= s.wanted
    ensures match s.pcs[t]
            case Start => Enabled(s, Load(t, seen))
            case Loaded(current) => Enabled(s, if current == 0 then Leave(t) else Exchange(t, spurious, seen))
            case Running => Enabled(s, Call(t))
            case _ => Ran == s.pcs[t] || Left == s.pcs[t]
  {
  }

  /** A failed exchange that learned nothing: it returned no smaller value than it tried. */
  predicate Wasted(s: State, a: Action)
    requires Enabled(s, a)
  {
    a.Exchange? && !Wins(s, a) && a.seen >= s.pcs[a.t].current
  }

  function PcRank(wanted: nat, pc: Pc): nat {
    match pc
    case Start => wanted + 3
    case Loaded(c) => c + 2
    case Running => 1
    case _ => 0
  }

  function Rank(wanted: nat, pcs: seq<Pc>): nat {
    if pcs == [] then 0 else PcRank(wanted, pcs[0]) + Rank(wanted, pcs[1..])
  }

  lemma {:induction false} RankUpdate(wanted: nat, pcs: seq<Pc>, t: nat, pc: Pc)
    requires t < |pcs|
    ensures Rank(wanted, pcs[t := pc]) == Rank(wanted, pcs) - PcRank(wanted, pcs[t]) + PcRank(wanted, pc)
  {
    if t == 0 {
      assert pcs[t := pc][1..] == pcs[1..];
    } else {
      assert pcs[t := pc][1..] == pcs[1..][t - 1 := pc];
      RankUpdate(wanted, pcs[1..], t - 1, pc);
    }
  }

  lemma {:induction false} RankOfEqual(wanted: nat, pcs: seq<Pc>, pc: Pc)
    requires forall t :: 0 <= t < |pcs| ==> pcs[t] == pc
    ensures Rank(wanted, pcs) == |pcs| * PcRank(wanted, pc)
  {
    if pcs != [] {
      RankOfEqual(wanted, pcs[1..], pc);
      assert |pcs| * PcRank(wanted, pc) == PcRank(wanted, pc) + (|pcs| - 1) * PcRank(wanted, pc);
    }
  }

  /** A genuine failure means another thread took a ticket, so every step that is not wasted
      brings the end nearer. */
  lemma StepDescends(s: State, a: Action)
    requires Inv(s) && Enabled(s, a)
    ensures Rank(s.wanted, Apply(s, a).pcs)
         <= Rank(s.wanted, s.pcs) + if Wasted(s, a) then s.wanted - 1 else -1
  {
    RankUpdate(s.wanted, s.pcs, a.t, Apply(s, a).pcs[a.t]);
  }

  predicate Legal(s: State, acts: seq<Action>)
    decreases |acts|
  {
    acts == [] || (Enabled(s, acts[0]) && Legal(Apply(s, acts[0]), acts[1..]))
  }

  function Exec(s: State, acts: seq<Action>): State
    requires Legal(s, acts)
    decreases |acts|
  {
    if acts == [] then s else Exec(Apply(s, acts[0]), acts[1..])
  }

  function WastedSteps(s: State, acts: seq<Action>): nat
    requires Legal(s, acts)
    decreases |acts|
  {
    if acts == [] then 0
    else (if Wasted(s, acts[0]) then 1 else 0) + WastedSteps(Apply(s, acts[0]), acts[1..])
  }

  lemma {:induction false} RunKeepsInv(s: State, acts: seq<Action>)
    requires Inv(s) && Legal(s, acts)
    ensures Inv(Exec(s, acts))
    ensures Exec(s, acts).wanted == s.wanted && |Exec(s, acts).pcs| == |s.pcs|
    decreases |acts|
  {
    hide Inv;
    if acts != [] {
      StepKeepsInv(s, acts[0]);
      RunKeepsInv(Apply(s, acts[0]), acts[1..]);
    }
  }

  /** What `wasted` wasted steps add to the length of a run. */
  function Waste(wanted: nat, wasted: nat): nat {
    if wasted == 0 then 0 else wanted + Waste(wanted, wasted - 1)
  }

  lemma {:induction false} WasteIsProduct(wanted: nat, wasted: nat)
    ensures Waste(wanted, wasted) == wanted * wasted
  {
    if wasted > 0 {
      WasteIsProduct(wanted, wasted - 1);
      assert wanted * wasted == wanted + wanted * (wasted - 1);
    }
  }

  lemma {:induction false} RunLength(s: State, acts: seq<Action>)
    requires Inv(s) && Legal(s, acts)
    ensures |acts| <= Rank(s.wanted, s.pcs) + Waste(s.wanted, WastedSteps(s, acts))
    decreases |acts|
  {
    hide Inv;
    hide Rank;
    if acts != [] {
      StepKeepsInv(s, acts[0]);
      StepDescends(s, acts[0]);
      RunLength(Apply(s, acts[0]), acts[1..]);
    }
  }

  /** For every pool size, interleaving, stale load and spurious failure: a finished run has
      called the closure on exactly `min(wanted, pool size)` threads, a thread left without
      calling it only when no ticket remained, and only wasted exchanges prolong a run. */
  lemma EveryRun(poolSize: nat, wanted: nat, acts: seq<Action>)
    requires Legal(Init(poolSize, wanted), acts)
    ensures var s := Exec(Init(poolSize, wanted), acts);
            && Winners(s.pcs) <= Min(wanted, poolSize)
            && (Over(s) ==> Winners(s.pcs) == Min(wanted, poolSize))
            && (Left in s.pcs ==> Winners(s.pcs) == wanted)
    ensures |acts| <= poolSize * (wanted + 3) + wanted * WastedSteps(Init(poolSize, wanted), acts)
  {
    var s0 := Init(poolSize, wanted);
    InitInv(poolSize, wanted);
    RunKeepsInv(s0, acts);
    RunBound(poolSize, wanted, acts);
    var s := Exec(s0, acts);
    WinnersBound(s.pcs);
    if Over(s) {
      Outcome(s);
    }
  }

  lemma RunBound(poolSize: nat, wanted: nat, acts: seq<Action>)
    requires Legal(Init(poolSize, wanted), acts)
    ensures |acts| <= poolSize * (wanted + 3) + wanted * WastedSteps(Init(poolSize, wanted), acts)
  {
    var s0 := Init(poolSize, wanted);
    InitInv(poolSize, wanted);
    RunLength(s0, acts);
    WasteIsProduct(wanted, WastedSteps(s0, acts));
    RankOfEqual(wanted, s0.pcs, if poolSize <= wanted then Running else Start);
    assert poolSize * (wanted + 3) == poolSize * 1 + poolSize * (wanted + 2);
  }

  // ---------- the counter, updated in place ----------

  class TicketCounter {
    const wanted: nat
    var remaining: nat
    const pcs: array<Pc>

    function View(): State
      reads this, pcs
    {
      State(wanted, remaining, pcs[..])
    }

    constructor (poolSize: nat, wanted: nat)
      ensures View() == Init(poolSize, wanted) && fresh(pcs)
    {
      this.wanted, remaining := wanted, wanted;
      pcs := new Pc[poolSize](_ => if poolSize <= wanted then Running else Start);
      new;
      assert pcs[..] == Init(poolSize, wanted).pcs;
    }

    /** A weak compare-and-exchange: it succeeds only on the current value, may fail on it too,
        and on failure returns `seen`. */
    method CompareExchangeWeak(current: nat, next: nat, spurious: bool, seen: nat)
      returns (ok: bool, actual: nat)
      modifies `remaining
      ensures ok == (!spurious && current == old(remaining))
      ensures remaining == if ok then next else old(remaining)
      ensures actual == if ok then current else seen
    {
      ok := !spurious && current == remaining;
      if ok {
        remaining, actual := next, current;
      } else {
        actual := seen;
      }
    }

    method Perform(a: Action)
      requires Inv(View()) && Enabled(View(), a)
      modifies this, pcs
      ensures Inv(View()) && View() == Apply(old(View()), a)
    {
      StepKeepsInv(View(), a);
      ghost var after := Apply(View(), a);
      match a
      case Load(t, seen) => pcs[t] := Loaded(seen);
      case Exchange(t, spurious, seen) =>
        var current := pcs[t].current;
        var ok, actual := CompareExchangeWeak(current, current - 1, spurious, seen);
        pcs[t] := if ok then Running else Loaded(actual);
      case Leave(t) => pcs[t] := Left;
      case Call(t) => pcs[t] := Ran;
      assert View() == after;
    }

    /** Thread `t` on its own, from wherever it is to its end. */
    method Finish(t: nat)
      requires Inv(View()) && t < pcs.Length
      modifies this, pcs
      ensures Inv(View())
      ensures pcs[t].Ran? || pcs[t].Left?
      ensures forall u :: 0 <= u < pcs.Length && u != t ==> pcs[u] == old(pcs[u])
    {
      while !(pcs[t].Ran? || pcs[t].Left?)
        invariant Inv(View())
        invariant forall u :: 0 <= u < pcs.Length && u != t ==> pcs[u] == old(pcs[u])
        decreases PcRank(wanted, pcs[t])
      {
        match pcs[t] {
          case Start => Perform(Load(t, remaining));
          case Loaded(current) =>
            if current == 0 {
              Perform(Leave(t));
            } else {
              Perform(Exchange(t, false, remaining));
            }
          case Running => Perform(Call(t));
        }
      }
    }
  }

  /** Runs a broadcast to its end: the steps of `schedule` that are enabled, and then each thread
      that is not done, on its own. Every interleaving is the run of some schedule. */
  method RunBroadcast(poolSize: nat, wanted: nat, schedule: seq<Action>) returns (pcs: seq<Pc>)
    ensures |pcs| == poolSize
    ensures forall t :: 0 <= t < poolSize ==> pcs[t].Ran? || pcs[t].Left?
    ensures Winners(pcs) == Min(wanted, poolSize)
  {
    InitInv(poolSize, wanted);
    var c := new TicketCounter(poolSize, wanted);
    for i := 0 to |schedule|
      invariant Inv(c.View()) && c.pcs.Length == poolSize && c.wanted == wanted
    {
      if Enabled(c.View(), schedule[i]) {
        c.Perform(schedule[i]);
      }
    }
    for t := 0 to poolSize
      invariant Inv(c.View()) && c.pcs.Length == poolSize && c.wanted == wanted
      invariant forall u :: 0 <= u < t ==> c.pcs[u].Ran? || c.pcs[u].Left?
    {
      c.Finish(t);
    }
    pcs := c.pcs[..];
    Outcome(c.View());
  }
}
