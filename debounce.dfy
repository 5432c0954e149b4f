/**
 * autoCalculate (static/js/main.js, lines 80-87) as a discrete-time debouncer: one global
 * timer handle, cleared and replaced on every call, whose callback runs calculateDecay
 * and then performConversion 300 ms after the last call.
 */
module Debounce {

  const QuietPeriodMs := 300

  /** The recompute actions the timer callback runs, in its order. */
  datatype Recompute = CalculateDecay | PerformConversion

  const Cycle: seq<Recompute> := [CalculateDecay, PerformConversion]

  /** window.autoCalcTimeout: no live timer, or one due at `deadline` (ms). */
  datatype Timer = Idle | Pending(deadline: int)

  /** An autoCalculate call at time `at`, or the event loop reaching time `at`. */
  datatype Event = Call(at: int) | Tick(at: int)

  /**
   * One event: a call cancels whatever is pending and schedules the callback 300 ms
   * later; a tick runs the callback once if it is due and clears the handle.
   */
  function Step(t: Timer, e: Event): (r: (Timer, seq<Recompute>))
    ensures e.Call? ==> r == (Pending(e.at + QuietPeriodMs), [])
    ensures e.Tick? ==> r.1 == (if t.Pending? && t.deadline <= e.at then Cycle else [])
    ensures e.Tick? ==> r.0 == (if t.Pending? && t.deadline <= e.at then Idle else t)
  {
    match e
    case Call(at) => (Pending(at + QuietPeriodMs), [])
    case Tick(at) =>
      if t.Pending? && t.deadline <= at then (Idle, Cycle) else (t, [])
  }

  /** The timer after a sequence of events, and every action run along the way, in order. */
  function Run(t: Timer, es: seq<Event>): (Timer, seq<Recompute>)
    decreases |es|
  {
    if es == [] then (t, [])
    else
      var first := Step(t, es[0]);
      var rest := Run(first.0, es[1..]);
      (rest.0, first.1 + rest.1)
  }

  /** n repetitions of the cycle. */
  function Repeat(n: nat): (r: seq<Recompute>)
    ensures |r| == 2 * n
  {
    if n == 0 then [] else Cycle + Repeat(n - 1)
  }

  /**
   * The calls at times cs as the event loop sees them: before each call, the loop has
   * reached the call's time and run anything due by then.
   */
  function Timeline(cs: seq<int>): seq<Event>
  {
    if cs == [] then [] else [Tick(cs[0]), Call(cs[0])] + Timeline(cs[1..])
  }

  /** How many consecutive calls are separated by at least the quiet period. */
  function QuietGaps(cs: seq<int>): nat
  {
    if |cs| < 2 then 0
    else (if cs[1] - cs[0] >= QuietPeriodMs then 1 else 0) + QuietGaps(cs[1..])
  }

  /**
   * Starting from a timer scheduled at `deadline` (or from none), the calls cs followed by
   * waiting until `end`, at least 300 ms after the last call, run the cycle once for every
   * quiet gap, once after the last call, and once more if the first tick found the
   * starting timer due. The timer is idle afterwards.
   */
  lemma {:induction false} RunTimeline(t: Timer, cs: seq<int>, end: int)
    requires cs != [] && end >= cs[|cs| - 1] + QuietPeriodMs
    ensures Run(t, Timeline(cs) + [Tick(end)])
            == (Idle, Repeat((if t.Pending? && t.deadline <= cs[0] then 1 else 0) + QuietGaps(cs) + 1))
    decreases |cs|
  {
    var due := t.Pending? && t.deadline <= cs[0];
    var t1 := Pending(cs[0] + QuietPeriodMs);
    var rest := Timeline(cs[1..]) + [Tick(end)];
    assert Timeline(cs) + [Tick(end)] == [Tick(cs[0]), Call(cs[0])] + rest;
    RunTickCall(t, cs[0], rest);
    if |cs| == 1 {
      assert rest == [Tick(end)];
      RunFinalTick(t1, end);
      assert QuietGaps(cs) == 0;
    } else {
      RunTimeline(t1, cs[1..], end);
      assert cs[1..][0] == cs[1];
      assert QuietGaps(cs) == (if cs[1] - cs[0] >= QuietPeriodMs then 1 else 0) + QuietGaps(cs[1..]);
    }
    PrependDue(due, QuietGaps(cs) + 1);
  }

  /** A final tick at or after the deadline runs the cycle once and leaves the timer idle. */
  lemma RunFinalTick(t: Timer, end: int)
    requires t.Pending? && t.deadline <= end
    ensures Run(t, [Tick(end)]) == (Idle, Repeat(1))
  {
    assert [Tick(end)][1..] == [];
    assert Cycle + [] == Cycle;
  }

  /** A cycle that ran before m more cycles makes m + 1. */
  lemma PrependDue(due: bool, m: nat)
    ensures (if due then Cycle else []) + Repeat(m) == Repeat((if due then 1 else 0) + m)
  {
    if !due {
      assert [] + Repeat(m) == Repeat(m);
    }
  }

  /** The loop reaching a call's time and then the call: whatever was due runs, and one timer is left. */
  lemma RunTickCall(t: Timer, at: int, es: seq<Event>)
    ensures var r := Run(Pending(at + QuietPeriodMs), es);
            Run(t, [Tick(at), Call(at)] + es)
            == (r.0, (if t.Pending? && t.deadline <= at then Cycle else []) + r.1)
  {
    var t0 := if t.Pending? && t.deadline <= at then Idle else t;
    assert [Tick(at), Call(at)] + es == [Tick(at)] + ([Call(at)] + es);
    RunCons(t, Tick(at), [Call(at)] + es);
    RunCons(t0, Call(at), es);
    var r := Run(Pending(at + QuietPeriodMs), es);
    assert [] + r.1 == r.1;
  }

  /** Running a sequence that starts with e is one Step followed by the rest. */
  lemma RunCons(t: Timer, e: Event, es: seq<Event>)
    ensures var first := Step(t, e);
            Run(t, [e] + es) == (Run(first.0, es).0, first.1 + Run(first.0, es).1)
  {
    assert ([e] + es)[0] == e && ([e] + es)[1..] == es;
  }

  /**
   * A burst of calls less than 300 ms apart, on a page whose timer is idle, runs the
   * cycle exactly once: calculateDecay, then performConversion.
   */
  lemma BurstRunsOnce(cs: seq<int>, end: int)
    requires cs != [] && end >= cs[|cs| - 1] + QuietPeriodMs
    requires forall i :: 0 <= i < |cs| - 1 ==> cs[i + 1] - cs[i] < QuietPeriodMs
    ensures Run(Idle, Timeline(cs) + [Tick(end)]) == (Idle, [CalculateDecay, PerformConversion])
  {
    BurstHasNoQuietGap(cs);
    RunTimeline(Idle, cs, end);
    assert Repeat(0) == [];
    assert Repeat(1) == Cycle + Repeat(0) == Cycle;
  }

  lemma {:induction false} BurstHasNoQuietGap(cs: seq<int>)
    requires forall i :: 0 <= i < |cs| - 1 ==> cs[i + 1] - cs[i] < QuietPeriodMs
    ensures QuietGaps(cs) == 0
  {
    if |cs| >= 2 {
      assert cs[1] - cs[0] < QuietPeriodMs;
      forall i | 0 <= i < |cs[1..]| - 1 ensures cs[1..][i + 1] - cs[1..][i] < QuietPeriodMs {
        assert cs[1..][i + 1] == cs[i + 2];
      }
      BurstHasNoQuietGap(cs[1..]);
    }
  }

  /** Nothing runs before the quiet period has passed since the last call. */
  lemma NothingRunsEarly(t: Timer, at: int, now: int)
    requires now < at + QuietPeriodMs
    ensures Run(t, [Call(at), Tick(now)]) == (Pending(at + QuietPeriodMs), [])
  {
    var t1 := Pending(at + QuietPeriodMs);
    assert [Call(at), Tick(now)][1..] == [Tick(now)];
    assert [Tick(now)][1..] == [];
    var none: seq<Recompute> := [];
    assert none + none == none;
    assert Run(t1, [Tick(now)]) == (t1, none);
  }

  /** The timer handle as a mutable object: window.autoCalcTimeout. */
  class Debouncer {
    var pending: bool
    var deadline: int

    function State(): Timer
      reads this
    {
      if pending then Pending(deadline) else Idle
    }

    constructor ()
      ensures State() == Idle
    {
      pending := false;
      deadline := 0;
    }

    /** autoCalculate at time now: clearTimeout, then setTimeout(…, 300). */
    method AutoCalculate(now: int)
      modifies this
      ensures State() == Step(old(State()), Call(now)).0
      ensures State() == Pending(now + QuietPeriodMs)
    {
      pending := true;
      deadline := now + QuietPeriodMs;
    }

    /** The event loop at time now: runs the callback if it is due, returning what it ran. */
    method Tick(now: int) returns (ran: seq<Recompute>)
      modifies this
      ensures (State(), ran) == Step(old(State()), Event.Tick(now))
    {
      if pending && deadline <= now {
        pending := false;
        ran := Cycle;
      } else {
        ran := [];
      }
    }
  }
}
